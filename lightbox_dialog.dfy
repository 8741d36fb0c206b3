/**
 * The full-size view of one photo, with its variants: uploading new
 * variant files and deleting a variant, blob first.
 */
module Lightbox {
  import opened Wrappers
  import opened Cloud

  const UploadingTitle := "Uploading variants..."
  const UploadDoneTitle := "Upload complete!"
  const UploadFailedTitle := "Upload Failed"
  const DeletedTitle := "Variant deleted"
  const ErrorTitle := "Error"

  /** The guard of both handlers: a photo, a collection id and a database. */
  predicate Ready(photo: Option<PhotoDoc>, collectionId: Option<DocId>, env: Env) {
    photo.Some? && collectionId.Some? && env.dbConfigured
  }

  /** The dialog renders anything at all only with a photo (`if (!photo) return null`). */
  predicate Renders(photo: Option<PhotoDoc>) {
    photo.Some?
  }

  /** The calls one file of `handleUpload` costs: its upload, then its variant document if the upload went through. */
  function FileCalls(collectionId: DocId, photoId: DocId, f: File, env: Env): seq<Call> {
    if Throws(Upload(f), env) then [Upload(f)]
    else [Upload(f), AddVariantDoc(collectionId, photoId, env.blobUrl(f))]
  }

  /** The calls of all files, file after file. */
  function UploadCalls(collectionId: DocId, photoId: DocId, files: seq<File>, env: Env): seq<Call> {
    if files == [] then []
    else FileCalls(collectionId, photoId, files[0], env) + UploadCalls(collectionId, photoId, files[1..], env)
  }

  /** The file's upload and its variant document both went through. */
  predicate Saved(collectionId: DocId, photoId: DocId, f: File, env: Env) {
    !Throws(Upload(f), env) && !Throws(AddVariantDoc(collectionId, photoId, env.blobUrl(f)), env)
  }

  /** The state after one file: its blob if uploaded, then its variant document if that went through too. */
  function FileAfter(s: Store, collectionId: DocId, photoId: DocId, f: File, env: Env): Store {
    if Throws(Upload(f), env) then s
    else
      var s1 := s.(blobs := s.blobs + {env.blobUrl(f)});
      if Throws(AddVariantDoc(collectionId, photoId, env.blobUrl(f)), env) then s1
      else s1.(variants := s1.variants + [VariantDoc(collectionId, photoId, s1.nextId, env.blobUrl(f), env.now)],
               nextId := s1.nextId + 1)
  }

  /** The state after all files, file after file. */
  function AfterUploads(s: Store, collectionId: DocId, photoId: DocId, files: seq<File>, env: Env): Store
    decreases |files|
  {
    if files == [] then s
    else AfterUploads(FileAfter(s, collectionId, photoId, files[0], env), collectionId, photoId, files[1..], env)
  }

  lemma FileStep(s: Store, collectionId: DocId, photoId: DocId, f: File, env: Env)
    ensures Run(s, FileCalls(collectionId, photoId, f, env), env) == FileAfter(s, collectionId, photoId, f, env)
  {
    UploadEffect(s, f, env);
    if Throws(Upload(f), env) {
      RunOne(s, Upload(f), env);
    } else {
      var add := AddVariantDoc(collectionId, photoId, env.blobUrl(f));
      RunTwo(s, Upload(f), add, env);
      AddVariantEffect(Effect(s, Upload(f), env), collectionId, photoId, env.blobUrl(f), env);
    }
  }

  /** The calls of `handleUpload` lead to `AfterUploads`. */
  lemma {:induction false} UploadsRun(s: Store, collectionId: DocId, photoId: DocId, files: seq<File>, env: Env)
    ensures Run(s, UploadCalls(collectionId, photoId, files, env), env) == AfterUploads(s, collectionId, photoId, files, env)
    decreases |files|
  {
    if files != [] {
      var head := FileCalls(collectionId, photoId, files[0], env);
      var tail := UploadCalls(collectionId, photoId, files[1..], env);
      RunAppend(s, head, tail, env);
      FileStep(s, collectionId, photoId, files[0], env);
      UploadsRun(FileAfter(s, collectionId, photoId, files[0], env), collectionId, photoId, files[1..], env);
    }
  }

  /** The blob URLs of the files that got a variant document, in file order. */
  function SavedUrls(collectionId: DocId, photoId: DocId, files: seq<File>, env: Env): (r: seq<string>)
    ensures |r| <= |files|
  {
    if files == [] then []
    else (if Saved(collectionId, photoId, files[0], env) then [env.blobUrl(files[0])] else [])
         + SavedUrls(collectionId, photoId, files[1..], env)
  }

  /** Variant documents for `urls` under one photo, with consecutive fresh ids. */
  function NewVariants(collectionId: DocId, photoId: DocId, urls: seq<string>, first: DocId, now: int): (r: seq<VariantDoc>)
    ensures |r| == |urls|
  {
    if urls == [] then []
    else [VariantDoc(collectionId, photoId, first, urls[0], now)] + NewVariants(collectionId, photoId, urls[1..], first + 1, now)
  }

  /** Each new variant document sits under the photo, has the next fresh id and the file's blob URL as `src`. */
  lemma {:induction false} NewVariantsAt(collectionId: DocId, photoId: DocId, urls: seq<string>, first: DocId, now: int, i: nat)
    requires i < |urls|
    ensures NewVariants(collectionId, photoId, urls, first, now)[i] == VariantDoc(collectionId, photoId, first + i, urls[i], now)
    decreases i
  {
    if i > 0 {
      NewVariantsAt(collectionId, photoId, urls[1..], first + 1, now, i - 1);
    }
  }

  /**
   * Uploading variants keeps every earlier document and every earlier
   * variant, appends one variant document per saved file (in file order,
   * `src` its blob URL), stores the blob of every uploaded file (also when
   * its document then failed) and touches no other table.
   */
  lemma {:induction false} UploadsStore(s: Store, collectionId: DocId, photoId: DocId, files: seq<File>, env: Env)
    ensures var urls := SavedUrls(collectionId, photoId, files, env);
            AfterUploads(s, collectionId, photoId, files, env)
              == s.(variants := s.variants + NewVariants(collectionId, photoId, urls, s.nextId, env.now),
                    blobs := s.blobs + StoredUrls(files, env),
                    nextId := s.nextId + |urls|)
  {
    var t := AfterUploads(s, collectionId, photoId, files, env);
    UploadsFrame(s, collectionId, photoId, files, env);
    UploadsBlobs(s, collectionId, photoId, files, env);
    UploadsVariants(s, collectionId, photoId, files, env);
  }

  lemma {:induction false} UploadsFrame(s: Store, collectionId: DocId, photoId: DocId, files: seq<File>, env: Env)
    ensures var t := AfterUploads(s, collectionId, photoId, files, env);
            t == s.(variants := t.variants, blobs := t.blobs, nextId := t.nextId)
    decreases |files|
  {
    if files != [] {
      UploadsFrame(FileAfter(s, collectionId, photoId, files[0], env), collectionId, photoId, files[1..], env);
    }
  }

  lemma {:induction false} UploadsBlobs(s: Store, collectionId: DocId, photoId: DocId, files: seq<File>, env: Env)
    ensures AfterUploads(s, collectionId, photoId, files, env).blobs == s.blobs + StoredUrls(files, env)
    decreases |files|
  {
    if files == [] {
      assert StoredUrls(files, env) == {};
    } else {
      UploadsBlobs(FileAfter(s, collectionId, photoId, files[0], env), collectionId, photoId, files[1..], env);
      StoredCons(files, env);
    }
  }

  lemma {:induction false} UploadsVariants(s: Store, collectionId: DocId, photoId: DocId, files: seq<File>, env: Env)
    ensures var t := AfterUploads(s, collectionId, photoId, files, env);
            var urls := SavedUrls(collectionId, photoId, files, env);
            t.variants == s.variants + NewVariants(collectionId, photoId, urls, s.nextId, env.now)
            && t.nextId == s.nextId + |urls|
    decreases |files|
  {
    if files == [] {
      assert s.variants + [] == s.variants;
    } else {
      var f := files[0];
      var s1 := FileAfter(s, collectionId, photoId, f, env);
      UploadsVariants(s1, collectionId, photoId, files[1..], env);
      var rest := SavedUrls(collectionId, photoId, files[1..], env);
      if Saved(collectionId, photoId, f, env) {
        var v := VariantDoc(collectionId, photoId, s.nextId, env.blobUrl(f), env.now);
        Concat3(s.variants, [v], NewVariants(collectionId, photoId, rest, s1.nextId, env.now));
        assert SavedUrls(collectionId, photoId, files, env) == [env.blobUrl(f)] + rest;
      } else {
        assert SavedUrls(collectionId, photoId, files, env) == rest;
      }
    }
  }

  /** The reply and the calls of `handleDeleteVariant`. */
  function DeleteSpec(variant: Option<VariantDoc>, photo: Option<PhotoDoc>, collectionId: Option<DocId>, env: Env)
    : (Option<Toast>, seq<Call>)
  {
    if variant.None? || photo.None? || collectionId.None? || !env.dbConfigured then (None, [])
    else
      var request := DeleteBlobs([variant.value.src]);
      if Throws(request, env) || !BlobResponse([variant.value.src], env).Ok() then (Some(Toast(ErrorTitle, true)), [request])
      else
        var d := DeleteVariantDoc(collectionId.value, photo.value.id, variant.value.id);
        (Some(if Throws(d, env) then Toast(ErrorTitle, true) else Toast(DeletedTitle, false)), [request, d])
  }

  /** Without a variant, a photo, a collection id or a database, the delete makes no call. */
  lemma DeleteNeedsAll(variant: Option<VariantDoc>, photo: Option<PhotoDoc>, collectionId: Option<DocId>, env: Env)
    ensures variant.None? || photo.None? || collectionId.None? || !env.dbConfigured
            <==> DeleteSpec(variant, photo, collectionId, env).1 == []
  {
  }

  /** The blob request comes first and carries exactly the variant's `src`. */
  lemma DeleteBlobFirst(variant: VariantDoc, photo: PhotoDoc, collectionId: DocId, env: Env)
    requires env.dbConfigured
    ensures var calls := DeleteSpec(Some(variant), Some(photo), Some(collectionId), env).1;
            1 <= |calls| <= 2 && calls[0] == DeleteBlobs([variant.src])
  {
  }

  /**
   * A non-ok blob response (or a thrown request) aborts: the variant
   * document stays, nothing is stored differently, and an error is shown.
   */
  lemma DeleteAbortsOnBlobFailure(s: Store, variant: VariantDoc, photo: PhotoDoc, collectionId: DocId, env: Env)
    requires env.dbConfigured
    requires Throws(DeleteBlobs([variant.src]), env) || !BlobResponse([variant.src], env).Ok()
    ensures var (notice, calls) := DeleteSpec(Some(variant), Some(photo), Some(collectionId), env);
            && notice == Some(Toast(ErrorTitle, true)) && Run(s, calls, env) == s
  {
    var calls := DeleteSpec(Some(variant), Some(photo), Some(collectionId), env).1;
    RunOne(s, DeleteBlobs([variant.src]), env);
  }

  /** An ok response removes that blob and then only that variant document under its photo. */
  lemma DeleteRemovesOnlyThatVariant(s: Store, variant: VariantDoc, photo: PhotoDoc, collectionId: DocId, env: Env)
    requires env.dbConfigured
    requires !Throws(DeleteBlobs([variant.src]), env) && BlobResponse([variant.src], env).Ok()
    ensures var (notice, calls) := DeleteSpec(Some(variant), Some(photo), Some(collectionId), env);
            var d := DeleteVariantDoc(collectionId, photo.id, variant.id);
            && Run(s, calls, env)
                 == s.(blobs := s.blobs - {variant.src},
                       variants := if Throws(d, env) then s.variants else WithoutVariant(s.variants, collectionId, photo.id, variant.id))
            && (notice == Some(Toast(DeletedTitle, false)) <==> !Throws(d, env))
  {
    var request := DeleteBlobs([variant.src]);
    var d := DeleteVariantDoc(collectionId, photo.id, variant.id);
    assert DeleteSpec(Some(variant), Some(photo), Some(collectionId), env).1 == [request, d];
    RunTwo(s, request, d, env);
    DeleteBlobsEffect(s, [variant.src], env);
    assert (set u | u in [variant.src]) == {variant.src};
    var s1 := s.(blobs := s.blobs - {variant.src});
    DeleteVariantEffect(s1, collectionId, photo.id, variant.id, env);
  }

  /** One file's chain of `handleUpload`: the upload, then the variant document. */
  method UploadOne(db: Backend, cid: DocId, pid: DocId, f: File, env: Env, ghost s0: Store, trace: seq<Call>)
    returns (saved: bool, calls: seq<Call>)
    requires db.store == Run(s0, trace, env)
    modifies db
    ensures saved == Saved(cid, pid, f, env)
    ensures calls == trace + FileCalls(cid, pid, f, env)
    ensures db.store == Run(s0, calls, env)
  {
    var ok;
    ok, calls := db.Issue(Upload(f), env, s0, trace);
    if ok {
      ok, calls := db.Issue(AddVariantDoc(cid, pid, env.blobUrl(f)), env, s0, calls);
      Concat3(trace, [Upload(f)], [AddVariantDoc(cid, pid, env.blobUrl(f))]);
    }
    saved := ok;
  }

  /** The per-file chains of `handleUpload`, run one after the other. */
  method UploadEach(db: Backend, cid: DocId, pid: DocId, files: seq<File>, env: Env, ghost s0: Store, trace: seq<Call>)
    returns (all: bool, calls: seq<Call>)
    requires db.store == Run(s0, trace, env)
    modifies db
    ensures all <==> forall j :: 0 <= j < |files| ==> Saved(cid, pid, files[j], env)
    ensures calls == trace + UploadCalls(cid, pid, files, env)
    ensures db.store == Run(s0, calls, env)
  {
    calls := trace;
    all := true;
    var i := 0;
    while i < |files|
      invariant 0 <= i <= |files|
      invariant trace + UploadCalls(cid, pid, files, env) == calls + UploadCalls(cid, pid, files[i..], env)
      invariant db.store == Run(s0, calls, env)
      invariant all <==> forall j :: 0 <= j < i ==> Saved(cid, pid, files[j], env)
    {
      ghost var before := calls;
      assert files[i..][1..] == files[i + 1..];
      assert UploadCalls(cid, pid, files[i..], env) == FileCalls(cid, pid, files[i], env) + UploadCalls(cid, pid, files[i + 1..], env);
      var saved;
      saved, calls := UploadOne(db, cid, pid, files[i], env, s0, calls);
      all := all && saved;
      Concat3(before, FileCalls(cid, pid, files[i], env), UploadCalls(cid, pid, files[i + 1..], env));
      i := i + 1;
    }
    assert files[|files|..] == [];
    assert calls + [] == calls;
  }

  /**
   * The props the app gives the dialog for the clicked photo. As written it
   * passes `src` and `alt`, which the dialog does not declare, and neither
   * `photo` nor `collectionId`, so both are undefined.
   */
  function AppProps(clicked: Option<PhotoDoc>): (Option<PhotoDoc>, Option<DocId>) {
    (None, None)
  }

  /** The props as evidently intended: the clicked photo and the id of its collection. */
  function IntendedProps(clicked: Option<PhotoDoc>): (Option<PhotoDoc>, Option<DocId>) {
    match clicked
    case None => (None, None)
    case Some(p) => (Some(p), Some(p.collectionId))
  }

  /**
   * As written, whatever photo is clicked, the app's lightbox renders
   * nothing, and neither handler gets past its guard: no upload and no
   * variant delete is ever made from it.
   */
  lemma AppLightboxInert(clicked: PhotoDoc, variant: Option<VariantDoc>, env: Env)
    ensures var (photo, collectionId) := AppProps(Some(clicked));
            && !Renders(photo)
            && !Ready(photo, collectionId, env)
            && DeleteSpec(variant, photo, collectionId, env) == (None, [])
  {
  }

  /**
   * With the intended props, the clicked photo is shown, both handlers
   * pass their guard whenever the database is configured, and a variant
   * delete starts with the request for that variant's blob.
   */
  lemma IntendedLightboxWorks(clicked: PhotoDoc, variant: VariantDoc, env: Env)
    requires env.dbConfigured
    ensures var (photo, collectionId) := IntendedProps(Some(clicked));
            && Renders(photo) && photo == Some(clicked)
            && Ready(photo, collectionId, env) && collectionId == Some(clicked.collectionId)
            && DeleteSpec(Some(variant), photo, collectionId, env).1 != []
            && DeleteSpec(Some(variant), photo, collectionId, env).1[0] == DeleteBlobs([variant.src])
  {
    DeleteBlobFirst(variant, clicked, clicked.collectionId, env);
  }

  class Dialog {
    var photo: Option<PhotoDoc>
    var collectionId: Option<DocId>
    var isUploading: bool
    var variantToDelete: Option<VariantDoc>

    constructor (photo: Option<PhotoDoc>, collectionId: Option<DocId>)
      ensures this.photo == photo && this.collectionId == collectionId
      ensures !isUploading && variantToDelete == None
    {
      this.photo, this.collectionId := photo, collectionId;
      isUploading, variantToDelete := false, None;
    }

    /**
     * `handleUpload(files)`: nothing without a photo, a collection id or a
     * database; otherwise every file is uploaded and gets its variant
     * document, and one notice says whether all of them were saved.
     */
    method HandleUpload(db: Backend, files: seq<File>, env: Env) returns (notices: seq<Toast>, calls: seq<Call>)
      modifies this, db
      ensures photo == old(photo) && collectionId == old(collectionId) && variantToDelete == old(variantToDelete)
      ensures !Ready(photo, collectionId, env) ==>
                calls == [] && notices == [] && db.store == old(db.store) && isUploading == old(isUploading)
      ensures Ready(photo, collectionId, env) ==>
                db.store == AfterUploads(old(db.store), collectionId.value, photo.value.id, files, env)
      ensures Ready(photo, collectionId, env) ==>
                var all := forall i :: 0 <= i < |files| ==> Saved(collectionId.value, photo.value.id, files[i], env);
                && calls == UploadCalls(collectionId.value, photo.value.id, files, env)
                && db.store == Run(old(db.store), calls, env)
                && !isUploading
                && notices == [Toast(UploadingTitle, false),
                               if all then Toast(UploadDoneTitle, false) else Toast(UploadFailedTitle, true)]
    {
      calls, notices := [], [];
      if photo.None? || collectionId.None? || !env.dbConfigured {
        return;
      }
      ghost var s0 := db.store;
      isUploading := true;
      notices := [Toast(UploadingTitle, false)];
      var all;
      all, calls := UploadEach(db, collectionId.value, photo.value.id, files, env, s0, calls);
      assert calls == UploadCalls(collectionId.value, photo.value.id, files, env);
      UploadsRun(s0, collectionId.value, photo.value.id, files, env);
      notices := notices + [if all then Toast(UploadDoneTitle, false) else Toast(UploadFailedTitle, true)];
      isUploading := false;
    }

    /**
     * `handleDeleteVariant`: the calls and the notice of `DeleteSpec`. The
     * variant to delete is cleared whenever the delete was attempted; an
     * early return (no photo, collection id or database) leaves it set.
     */
    method HandleDeleteVariant(db: Backend, env: Env) returns (notice: Option<Toast>, calls: seq<Call>)
      modifies this, db
      ensures (notice, calls) == DeleteSpec(old(variantToDelete), photo, collectionId, env)
      ensures db.store == Run(old(db.store), calls, env)
      ensures photo == old(photo) && collectionId == old(collectionId) && isUploading == old(isUploading)
      ensures variantToDelete == if calls == [] then old(variantToDelete) else None
    {
      calls, notice := [], None;
      if variantToDelete.None? || photo.None? || collectionId.None? || !env.dbConfigured {
        return;
      }
      ghost var s0 := db.store;
      var v := variantToDelete.value;
      var request := DeleteBlobs([v.src]);
      var ok;
      ok, calls := db.Issue(request, env, s0, calls);
      assert calls == [request];
      if !ok || !BlobResponse([v.src], env).Ok() {
        notice := Some(Toast(ErrorTitle, true));
      } else {
        var d := DeleteVariantDoc(collectionId.value, photo.value.id, v.id);
        ok, calls := db.Issue(d, env, s0, calls);
        assert calls == [request, d];
        notice := Some(if ok then Toast(DeletedTitle, false) else Toast(ErrorTitle, true));
      }
      variantToDelete := None;
    }
  }
}
