/**
 * The drop zone that accepts photo files: dropped or pasted files are
 * filtered to images, in their original order, before they are handed on.
 */
module Uploader {
  import opened Wrappers
  import opened Text
  import opened Cloud

  const ImagePrefix := "image/"
  const NoImagesTitle := "No images found"

  predicate IsImage(f: File) {
    StartsWith(f.mime, ImagePrefix)
  }

  /** The files whose type starts with "image/", in their original order. */
  function ImageFiles(files: seq<File>): (r: seq<File>)
    ensures |r| <= |files|
    ensures forall i :: 0 <= i < |r| ==> IsImage(r[i])
  {
    if files == [] then []
    else (if IsImage(files[0]) then [files[0]] else []) + ImageFiles(files[1..])
  }

  /** Filtering distributes over concatenation, which is to say it keeps the order. */
  lemma {:induction false} ImageFilesAppend(a: seq<File>, b: seq<File>)
    ensures ImageFiles(a + b) == ImageFiles(a) + ImageFiles(b)
  {
    if a == [] {
      assert a + b == b;
    } else {
      assert (a + b)[1..] == a[1..] + b;
      ImageFilesAppend(a[1..], b);
    }
  }

  /** Exactly the image files of the input survive, and only they. */
  lemma {:induction false} ImageFilesMembers(files: seq<File>, f: File)
    ensures f in ImageFiles(files) <==> f in files && IsImage(f)
  {
    if files != [] {
      ImageFilesMembers(files[1..], f);
      assert files == [files[0]] + files[1..];
    }
  }

  /** A list made only of images passes unchanged; filtering twice is filtering once. */
  lemma {:induction false} ImageFilesOfImages(files: seq<File>)
    requires forall i :: 0 <= i < |files| ==> IsImage(files[i])
    ensures ImageFiles(files) == files
  {
    if files != [] {
      ImageFilesOfImages(files[1..]);
    }
  }

  /** What `handleFiles` does with a `FileList` (`None` for `null`). */
  datatype Outcome =
    | Ignored                      // no list, or an empty one
    | NoImages                     // the "No images found" notice
    | Handed(files: seq<File>)     // `onUpload(imageFiles)`

  /** `handleFiles`. */
  function HandleFiles(files: Option<seq<File>>): (r: Outcome)
    ensures r == Ignored <==> files.None? || files.value == []
    ensures r == NoImages <==> files.Some? && files.value != [] && ImageFiles(files.value) == []
    ensures r.Handed? ==> r.files == ImageFiles(files.value) && r.files != []
  {
    if files.None? || files.value == [] then Ignored
    else
      var images := ImageFiles(files.value);
      if images == [] then NoImages else Handed(images)
  }

  /** The notice `NoImages` shows. */
  function Notice(r: Outcome): (t: Option<Toast>)
    ensures t.Some? <==> r.NoImages?
  {
    if r.NoImages? then Some(Toast(NoImagesTitle, true)) else None
  }

  class DropZone {
    var isDragging: bool

    constructor ()
      ensures !isDragging
    {
      isDragging := false;
    }

    method DragOver()
      modifies this
      ensures isDragging
    {
      isDragging := true;
    }

    method DragLeave()
      modifies this
      ensures !isDragging
    {
      isDragging := false;
    }

    /** `handleDrop`: the highlight goes off, then the dropped files are filtered. */
    method Drop(files: Option<seq<File>>) returns (r: Outcome)
      modifies this
      ensures !isDragging && r == HandleFiles(files)
    {
      isDragging := false;
      r := HandleFiles(files);
    }

    /** `handlePaste`: the pasted files go through the same filter; the highlight is untouched. */
    method Paste(files: Option<seq<File>>) returns (r: Outcome)
      ensures r == HandleFiles(files)
    {
      r := HandleFiles(files);
    }
  }
}
