/**
 * The dialog between choosing photos and saving them: one preview per file
 * with an editable title; confirming resolves each title (typed, generated
 * or the file name), uploads every file and hands `{src, title}` back only
 * when every upload succeeded.
 */
module Preview {
  import opened Wrappers
  import opened Text
  import opened Cloud

  const UploadingTitle := "Uploading..."
  const FallbackTitle := "Couldn't generate title for an image"
  const FailedTitle := "Upload Failed"
  const UnknownError := "An unknown error occurred. Please try again."
  const ServerErrorPrefix := "A server error occurred: "

  datatype PhotoPreview = PhotoPreview(file: File, title: string)
  /** What `onConfirm` receives for one photo. */
  datatype NewPhoto = NewPhoto(src: string, title: string)

  /** The previews for `files`: one per file, in file order, with an empty title. */
  function Previews(files: seq<File>): (r: seq<PhotoPreview>)
    ensures |r| == |files|
    ensures forall i :: 0 <= i < |r| ==> r[i] == PhotoPreview(files[i], [])
  {
    seq(|files|, i requires 0 <= i < |files| => PhotoPreview(files[i], []))
  }

  function PreviewFiles(previews: seq<PhotoPreview>): (r: seq<File>)
    ensures |r| == |previews|
    ensures forall i :: 0 <= i < |r| ==> r[i] == previews[i].file
  {
    seq(|previews|, i requires 0 <= i < |previews| => previews[i].file)
  }

  /** `handleTitleChange(index, newTitle)`: only the entry at `index` changes, and only its title. */
  function Retitled(previews: seq<PhotoPreview>, index: int, newTitle: string): (r: seq<PhotoPreview>)
    ensures |r| == |previews|
    ensures forall i :: 0 <= i < |r| && i != index ==> r[i] == previews[i]
    ensures 0 <= index < |r| ==> r[index] == previews[index].(title := newTitle)
  {
    seq(|previews|, i requires 0 <= i < |previews| =>
      if i == index then previews[index].(title := newTitle) else previews[i])
  }

  /** Previews are built from the files, and editing titles never changes the files or their order. */
  lemma PreviewsKeepFiles(files: seq<File>, edits: seq<(int, string)>)
    ensures PreviewFiles(EditAll(Previews(files), edits)) == files
  {
    EditsKeepFiles(Previews(files), edits);
  }

  function EditAll(previews: seq<PhotoPreview>, edits: seq<(int, string)>): seq<PhotoPreview>
    decreases |edits|
  {
    if edits == [] then previews else EditAll(Retitled(previews, edits[0].0, edits[0].1), edits[1..])
  }

  lemma {:induction false} EditsKeepFiles(previews: seq<PhotoPreview>, edits: seq<(int, string)>)
    ensures PreviewFiles(EditAll(previews, edits)) == PreviewFiles(previews)
    decreases |edits|
  {
    if edits != [] {
      var next := Retitled(previews, edits[0].0, edits[0].1);
      assert PreviewFiles(next) == PreviewFiles(previews);
      EditsKeepFiles(next, edits[1..]);
    }
  }

  /**
   * The title a preview is saved with: the typed title trimmed if it is not
   * blank; otherwise the generated one, or the file name when generation throws.
   */
  function FinalTitle(p: PhotoPreview, env: Env): string {
    match NonBlank(p.title)
      case Some(typed) => typed
      case None => if Throws(GenerateTitle(p.file), env) then p.file.name else env.titleFor(p.file)
  }

  /** The generator calls the titles cost: one per blank title, in preview order. */
  function TitleCalls(previews: seq<PhotoPreview>): (r: seq<Call>)
    ensures |r| <= |previews|
    ensures forall i :: 0 <= i < |r| ==> r[i].GenerateTitle?
  {
    if previews == [] then []
    else (if IsBlank(previews[0].title) then [GenerateTitle(previews[0].file)] else []) + TitleCalls(previews[1..])
  }

  /** The generator is asked only about files whose title was left blank. */
  lemma {:induction false} GeneratorOnlyForBlank(previews: seq<PhotoPreview>, f: File)
    ensures GenerateTitle(f) in TitleCalls(previews) <==>
              exists i :: 0 <= i < |previews| && previews[i].file == f && IsBlank(previews[i].title)
  {
    if previews != [] {
      GeneratorOnlyForBlank(previews[1..], f);
      assert forall i :: 1 <= i < |previews| ==> previews[i] == previews[1..][i - 1];
      if GenerateTitle(f) in TitleCalls(previews[1..]) {
        var i :| 0 <= i < |previews[1..]| && previews[1..][i].file == f && IsBlank(previews[1..][i].title);
        assert previews[i + 1] == previews[1..][i];
      }
    }
  }

  /** One destructive notice per title the generator failed to produce. */
  function Fallbacks(previews: seq<PhotoPreview>, env: Env): (r: seq<Toast>)
    ensures |r| <= |previews|
  {
    if previews == [] then []
    else (if IsBlank(previews[0].title) && Throws(GenerateTitle(previews[0].file), env)
          then [Toast(FallbackTitle, true)] else [])
         + Fallbacks(previews[1..], env)
  }

  /** The upload of every file, in preview order. */
  function UploadCalls(files: seq<File>): (r: seq<Call>)
    ensures |r| == |files|
    ensures forall i :: 0 <= i < |r| ==> r[i] == Upload(files[i])
  {
    seq(|files|, i requires 0 <= i < |files| => Upload(files[i]))
  }

  /**
   * Uploads store exactly the blobs of the files that went through, even
   * when another upload fails, and touch no document.
   */
  lemma {:induction false} UploadsStore(s: Store, files: seq<File>, env: Env)
    ensures Run(s, UploadCalls(files), env) == s.(blobs := s.blobs + StoredUrls(files, env))
    decreases |files|
  {
    if files == [] {
      assert UploadCalls(files) == [];
      assert StoredUrls(files, env) == {};
    } else {
      var f := files[0];
      assert UploadCalls(files) == [Upload(f)] + UploadCalls(files[1..]);
      RunAppend(s, [Upload(f)], UploadCalls(files[1..]), env);
      RunOne(s, Upload(f), env);
      UploadEffect(s, f, env);
      var s1 := Effect(s, Upload(f), env);
      UploadsStore(s1, files[1..], env);
      StoredCons(files, env);
      assert s1.blobs + StoredUrls(files[1..], env) == s.blobs + StoredUrls(files, env);
    }
  }

  /** Every file uploaded: `Promise.all` over the uploads resolves. */
  predicate AllUploaded(files: seq<File>, env: Env) {
    forall i :: 0 <= i < |files| ==> !Throws(Upload(files[i]), env)
  }

  /**
   * The first upload that throws. The uploads are modelled as settling in
   * order, so under that model this is the exception `Promise.all` rejects with.
   */
  function FirstRefused(files: seq<File>, env: Env): (r: Option<nat>)
    ensures r.None? <==> AllUploaded(files, env)
    ensures r.Some? ==> r.value < |files| && Throws(Upload(files[r.value]), env)
    ensures r.Some? ==> forall i :: 0 <= i < r.value ==> !Throws(Upload(files[i]), env)
  {
    if files == [] then None
    else if Throws(Upload(files[0]), env) then Some(0)
    else match FirstRefused(files[1..], env)
      case None => None
      case Some(k) => Some(k + 1)
  }

  /** What was thrown: an `Error` with its message, or some other value. */
  datatype Thrown = ErrorValue(message: string) | OtherValue

  /** What `JSON.parse` makes of a message: not JSON, `null`, or a value with or without an `error` field. */
  datatype Parsed = NotJson | NullJson | JsonValue(errorField: Option<string>)

  /**
   * The reason shown for a failed upload: the `error` field of a JSON
   * message when it is a non-empty string, "A server error occurred: " and
   * the message for other JSON, the raw message when parsing (or reading
   * the field of `null`) throws, and the default text for a non-`Error`.
   */
  function ErrorText(thrown: Thrown, parse: string -> Parsed): (r: string)
    ensures thrown.OtherValue? ==> r == UnknownError
    ensures thrown.ErrorValue? ==>
              var p := parse(thrown.message);
              && (p.JsonValue? && p.errorField.Some? && p.errorField.value != [] ==> r == p.errorField.value)
              && (p.JsonValue? && (p.errorField.None? || p.errorField.value == []) ==> r == ServerErrorPrefix + thrown.message)
              && (p.NotJson? || p.NullJson? ==> r == thrown.message)
  {
    match thrown
      case OtherValue => UnknownError
      case ErrorValue(message) =>
        match parse(message)
          case NotJson => message
          case NullJson => message
          case JsonValue(field) =>
            if field.Some? && field.value != [] then field.value else ServerErrorPrefix + message
  }

  class Dialog {
    var open: bool
    var previews: seq<PhotoPreview>
    var isProcessing: bool

    constructor (open: bool)
      ensures this.open == open && previews == [] && !isProcessing
    {
      this.open := open;
      previews := [];
      isProcessing := false;
    }

    /** The effect on `files`. */
    method SetFiles(files: seq<File>)
      modifies this
      ensures previews == Previews(files) && open == old(open) && isProcessing == old(isProcessing)
    {
      previews := Previews(files);
    }

    method HandleTitleChange(index: int, newTitle: string)
      modifies this
      ensures previews == Retitled(old(previews), index, newTitle)
      ensures open == old(open) && isProcessing == old(isProcessing)
    {
      previews := Retitled(previews, index, newTitle);
    }

    /** The dialog's `onOpenChange`: ignored while processing. */
    method HandleOpenChange(isOpen: bool)
      modifies this
      ensures open == if isProcessing then old(open) else isOpen
      ensures previews == old(previews) && isProcessing == old(isProcessing)
    {
      if !isProcessing {
        open := isOpen;
      }
    }

    /**
     * `handleConfirm`: the titles are resolved, then every file is uploaded
     * (a failed upload does not stop the others). Only if all went through
     * does `onConfirm` get `{src, title}` per preview, in order, and the
     * dialog close; otherwise the reason is shown and the blobs already
     * uploaded stay stored.
     */
    method HandleConfirm(db: Backend, env: Env, parse: string -> Parsed)
      returns (confirmed: Option<seq<NewPhoto>>, reason: Option<string>, notices: seq<Toast>, calls: seq<Call>)
      modifies this, db
      ensures previews == old(previews) && !isProcessing
      ensures calls == TitleCalls(previews) + UploadCalls(PreviewFiles(previews))
      ensures db.store == Run(old(db.store), calls, env)
      ensures db.store == old(db.store).(blobs := old(db.store).blobs + StoredUrls(PreviewFiles(previews), env))
      ensures confirmed.Some? <==> AllUploaded(PreviewFiles(previews), env)
      ensures confirmed.Some? ==>
                && |confirmed.value| == |previews| && !open && reason == None
                && (forall i :: 0 <= i < |previews| ==>
                      confirmed.value[i] == NewPhoto(env.blobUrl(previews[i].file), FinalTitle(previews[i], env)))
                && notices == [Toast(UploadingTitle, false)] + Fallbacks(previews, env)
      ensures confirmed.None? ==>
                var k := FirstRefused(PreviewFiles(previews), env).value;
                && open == old(open)
                && reason == Some(ErrorText(ErrorValue(env.message(Upload(previews[k].file))), parse))
                && notices == [Toast(UploadingTitle, false)] + Fallbacks(previews, env) + [Toast(FailedTitle, true)]
    {
      ghost var s0 := db.store;
      isProcessing := true;
      var files := PreviewFiles(previews);
      calls := TitleCalls(previews);
      RunInert(s0, calls, env);
      var ok;
      ok, calls := db.IssueAll(UploadCalls(files), env, s0, calls);
      assert ok == AllUploaded(files, env);
      UploadsStore(s0, files, env);
      notices := [Toast(UploadingTitle, false)] + Fallbacks(previews, env);
      if ok {
        var ps := previews;
        confirmed := Some(seq(|ps|, i requires 0 <= i < |ps| => NewPhoto(env.blobUrl(ps[i].file), FinalTitle(ps[i], env))));
        reason := None;
        open := false;
      } else {
        var k := FirstRefused(files, env).value;
        confirmed := None;
        reason := Some(ErrorText(ErrorValue(env.message(Upload(files[k]))), parse));
        notices := notices + [Toast(FailedTitle, true)];
      }
      isProcessing := false;
    }
  }
}
