/**
 * The signed-in application: one user's collections with their photos,
 * loaded from the document store and shown newest first, and the handlers
 * that create, fill, retitle and delete them, and log out.
 *
 * Without a database the component renders only its configuration alert,
 * so the handlers that do not test `db` themselves are only reachable with
 * one (`requires env.dbConfigured`).
 */
module Folio {
  import opened Wrappers
  import opened Cloud
  import opened Session
  import Uploader
  import Preview

  const LoadErrorTitle := "Error Loading Data"
  const CreatedTitle := "Collection created!"
  const ErrorTitle := "Error"
  const SavingTitle := "Saving to collection..."
  const SavedTitle := "Upload complete!"
  const SaveFailedTitle := "Upload failed"
  const NoCollectionTitle := "No collection found"
  const CollectionDeletedTitle := "Collection deleted"
  const PhotoDeletedTitle := "Photo deleted"
  const SuccessTitle := "Success"
  const LogoutFailedTitle := "Logout failed"

  /** A collection as the page holds it: its document and its photos. */
  datatype Collection = Collection(doc: CollectionDoc, photos: seq<PhotoDoc>)

  /** What the delete confirmation dialog asks about; `NoRequest` is its closed, reset state. */
  datatype DeleteRequest =
    | NoRequest
    | DeleteCollection(id: DocId, title: string, photos: seq<PhotoDoc>)
    | DeletePhoto(id: DocId, title: string, collectionId: DocId, photoUrl: string)

  // The client-side sort.

  /** `xs` ordered by the timestamp `at`, newest first. */
  predicate NewestFirst<T>(xs: seq<T>, at: T -> int) {
    forall i, j :: 0 <= i < j < |xs| ==> at(xs[i]) >= at(xs[j])
  }

  /** `x` placed before the first element of `ys` that is not newer than it. */
  function Insert<T>(x: T, ys: seq<T>, at: T -> int): (r: seq<T>)
    ensures |r| == |ys| + 1
    ensures multiset(r) == multiset(ys) + multiset{x}
  {
    if ys == [] || at(ys[0]) <= at(x) then [x] + ys
    else
      assert ys == [ys[0]] + ys[1..];
      [ys[0]] + Insert(x, ys[1..], at)
  }

  /**
   * `sort` with the comparator `b.createdAt - a.createdAt`, as an
   * insertion sort that keeps equal timestamps in their original order:
   * a rearrangement of its input.
   */
  function Sort<T>(xs: seq<T>, at: T -> int): (r: seq<T>)
    ensures |r| == |xs|
    ensures multiset(r) == multiset(xs)
  {
    if xs == [] then []
    else
      assert xs == [xs[0]] + xs[1..];
      Insert(xs[0], Sort(xs[1..], at), at)
  }

  lemma {:induction false} InsertNewestFirst<T>(x: T, ys: seq<T>, at: T -> int)
    requires NewestFirst(ys, at)
    ensures NewestFirst(Insert(x, ys, at), at)
  {
    if ys != [] && at(ys[0]) > at(x) {
      var rest := Insert(x, ys[1..], at);
      InsertNewestFirst(x, ys[1..], at);
      forall k | 0 <= k < |rest| ensures at(rest[k]) <= at(ys[0]) {
        assert rest[k] in multiset(rest);
        if rest[k] != x {
          assert rest[k] in multiset(ys[1..]);
          var m :| 0 <= m < |ys[1..]| && ys[1..][m] == rest[k];
          assert ys[1 + m] == rest[k];
        }
      }
      var r := [ys[0]] + rest;
      forall i, j | 0 <= i < j < |r| ensures at(r[i]) >= at(r[j]) {
        if i > 0 {
          assert r[i] == rest[i - 1] && r[j] == rest[j - 1];
        } else {
          assert r[j] == rest[j - 1];
        }
      }
    }
  }

  /** The sort orders newest first. */
  lemma {:induction false} SortNewestFirst<T>(xs: seq<T>, at: T -> int)
    ensures NewestFirst(Sort(xs, at), at)
  {
    if xs != [] {
      SortNewestFirst(xs[1..], at);
      InsertNewestFirst(xs[0], Sort(xs[1..], at), at);
    }
  }

  function PhotoTime(p: PhotoDoc): int {
    p.createdAt
  }

  function CollectionTime(c: Collection): int {
    c.doc.createdAt
  }

  // Loading.

  /** The collections a query returned, each with its photos sorted newest first. */
  function Gathered(photos: seq<PhotoDoc>, docs: seq<CollectionDoc>): seq<Collection> {
    seq(|docs|, i requires 0 <= i < |docs| => Collection(docs[i], Sort(PhotosOf(photos, docs[i].id), PhotoTime)))
  }

  /** One photo query per collection. */
  function ListCalls(docs: seq<CollectionDoc>): seq<Call> {
    seq(|docs|, i requires 0 <= i < |docs| => ListPhotos(docs[i].id))
  }

  /**
   * How the load effect ends: skipped (no database or no user name), failed
   * (the listener reported an error), stalled (a photo query threw inside
   * the snapshot callback, which nobody catches) or loaded.
   */
  datatype LoadOutcome = Skipped | LoadFailed | Stalled | Loaded(collections: seq<Collection>)

  /** The user name is present and not the empty string. */
  predicate Given(userName: Option<string>) {
    userName.Some? && userName.value != []
  }

  /** The outcome and the calls of the load effect run against `s`. */
  function LoadSpec(s: Store, userName: Option<string>, env: Env): (LoadOutcome, seq<Call>) {
    if !env.dbConfigured || !Given(userName) then (Skipped, [])
    else
      var q := FindCollections(userName.value);
      if Throws(q, env) then (LoadFailed, [q])
      else
        var docs := Owned(s.collections, userName.value);
        var lists := ListCalls(docs);
        if !NoneThrows(lists, env) then (Stalled, [q] + lists)
        else (Loaded(Sort(Gathered(s.photos, docs), CollectionTime)), [q] + lists)
  }

  /** Without a database or a user name the effect makes no call. */
  lemma LoadSkipped(s: Store, userName: Option<string>, env: Env)
    ensures LoadSpec(s, userName, env).0 == Skipped <==> !env.dbConfigured || !Given(userName)
    ensures LoadSpec(s, userName, env).0 == Skipped ==> LoadSpec(s, userName, env).1 == []
  {
  }

  /** Loading only reads: the store is as it was. */
  lemma LoadReadsOnly(s: Store, userName: Option<string>, env: Env)
    ensures Run(s, LoadSpec(s, userName, env).1, env) == s
  {
    RunInert(s, LoadSpec(s, userName, env).1, env);
  }

  /**
   * What loading shows: exactly the collections whose owner is the user
   * name (compared exactly), newest first, each with exactly its own
   * photos, newest first.
   */
  lemma LoadedNewestFirst(s: Store, userName: Option<string>, env: Env)
    requires LoadSpec(s, userName, env).0.Loaded?
    ensures var cols := LoadSpec(s, userName, env).0.collections;
            var docs := Owned(s.collections, userName.value);
            && NewestFirst(cols, CollectionTime)
            && |cols| == |docs|
            && (forall i :: 0 <= i < |cols| ==>
                  && cols[i].doc in s.collections && cols[i].doc.userName == userName.value
                  && NewestFirst(cols[i].photos, PhotoTime)
                  && multiset(cols[i].photos) == multiset(PhotosOf(s.photos, cols[i].doc.id)))
            && (forall k :: 0 <= k < |docs| ==> exists i :: 0 <= i < |cols| && cols[i].doc == docs[k])
  {
    var docs := Owned(s.collections, userName.value);
    var cols := Sort(Gathered(s.photos, docs), CollectionTime);
    assert LoadSpec(s, userName, env).0.collections == cols;
    SortNewestFirst(Gathered(s.photos, docs), CollectionTime);
    forall i | 0 <= i < |cols|
      ensures && cols[i].doc in s.collections && cols[i].doc.userName == userName.value
              && NewestFirst(cols[i].photos, PhotoTime)
              && multiset(cols[i].photos) == multiset(PhotosOf(s.photos, cols[i].doc.id))
    {
      GatheredMember(s, userName.value, cols, i);
    }
    forall k | 0 <= k < |docs| ensures exists i :: 0 <= i < |cols| && cols[i].doc == docs[k] {
      GatheredShown(s.photos, docs, cols, k);
    }
  }

  lemma GatheredMember(s: Store, userName: string, cols: seq<Collection>, i: nat)
    requires cols == Sort(Gathered(s.photos, Owned(s.collections, userName)), CollectionTime)
    requires i < |cols|
    ensures cols[i].doc in s.collections && cols[i].doc.userName == userName
    ensures NewestFirst(cols[i].photos, PhotoTime)
    ensures multiset(cols[i].photos) == multiset(PhotosOf(s.photos, cols[i].doc.id))
  {
    var docs := Owned(s.collections, userName);
    var g := Gathered(s.photos, docs);
    assert cols[i] in multiset(g);
    var k :| 0 <= k < |g| && g[k] == cols[i];
    assert docs[k] in docs;
    OwnedMembers(s.collections, userName, docs[k]);
    SortNewestFirst(PhotosOf(s.photos, docs[k].id), PhotoTime);
  }

  lemma GatheredShown(photos: seq<PhotoDoc>, docs: seq<CollectionDoc>, cols: seq<Collection>, k: nat)
    requires cols == Sort(Gathered(photos, docs), CollectionTime)
    requires k < |docs|
    ensures exists i :: 0 <= i < |cols| && cols[i].doc == docs[k]
  {
    var g := Gathered(photos, docs);
    assert g[k] in multiset(cols);
    var i :| 0 <= i < |cols| && cols[i] == g[k];
  }

  // Adding the photos of a confirmed upload.

  /** One `addDoc` per new photo, in order. */
  function AddCalls(collectionId: DocId, photos: seq<Preview.NewPhoto>): (r: seq<Call>)
    ensures |r| == |photos|
    ensures forall i :: 0 <= i < |r| ==> r[i] == AddPhotoDoc(collectionId, photos[i].src, photos[i].title)
  {
    if photos == [] then []
    else [AddPhotoDoc(collectionId, photos[0].src, photos[0].title)] + AddCalls(collectionId, photos[1..])
  }

  /** The new photos whose `addDoc` goes through, in order. */
  function Kept(collectionId: DocId, photos: seq<Preview.NewPhoto>, env: Env): (r: seq<Preview.NewPhoto>)
    ensures |r| <= |photos|
  {
    if photos == [] then []
    else (if Throws(AddPhotoDoc(collectionId, photos[0].src, photos[0].title), env) then [] else [photos[0]])
         + Kept(collectionId, photos[1..], env)
  }

  /** Photo documents for `photos` in one collection, with consecutive fresh ids. */
  function NewPhotoDocs(collectionId: DocId, photos: seq<Preview.NewPhoto>, first: DocId, now: int): (r: seq<PhotoDoc>)
    ensures |r| == |photos|
  {
    if photos == [] then []
    else [PhotoDoc(collectionId, first, photos[0].src, photos[0].title, now)]
         + NewPhotoDocs(collectionId, photos[1..], first + 1, now)
  }

  /** Each new document sits in the collection, has the next fresh id and the entry's `src` and title. */
  lemma {:induction false} NewPhotoDocsAt(collectionId: DocId, photos: seq<Preview.NewPhoto>, first: DocId, now: int, i: nat)
    requires i < |photos|
    ensures NewPhotoDocs(collectionId, photos, first, now)[i]
            == PhotoDoc(collectionId, first + i, photos[i].src, photos[i].title, now)
    decreases i
  {
    if i > 0 {
      NewPhotoDocsAt(collectionId, photos[1..], first + 1, now, i - 1);
    }
  }

  /** When no `addDoc` throws, every entry is kept. */
  lemma {:induction false} KeptAll(collectionId: DocId, photos: seq<Preview.NewPhoto>, env: Env)
    requires forall i :: 0 <= i < |photos| ==> !Throws(AddPhotoDoc(collectionId, photos[i].src, photos[i].title), env)
    ensures Kept(collectionId, photos, env) == photos
  {
    if photos != [] {
      KeptAll(collectionId, photos[1..], env);
      assert photos == [photos[0]] + photos[1..];
    }
  }

  /** The state after the `addDoc` calls, one step per new photo. */
  function AfterAdds(s: Store, collectionId: DocId, photos: seq<Preview.NewPhoto>, env: Env): Store
    decreases |photos|
  {
    if photos == [] then s
    else AfterAdds(Effect(s, AddPhotoDoc(collectionId, photos[0].src, photos[0].title), env), collectionId, photos[1..], env)
  }

  lemma {:induction false} AddsRun(s: Store, collectionId: DocId, photos: seq<Preview.NewPhoto>, env: Env)
    ensures Run(s, AddCalls(collectionId, photos), env) == AfterAdds(s, collectionId, photos, env)
    decreases |photos|
  {
    if photos != [] {
      assert AddCalls(collectionId, photos)[1..] == AddCalls(collectionId, photos[1..]);
      AddsRun(Effect(s, AddPhotoDoc(collectionId, photos[0].src, photos[0].title), env), collectionId, photos[1..], env);
    }
  }

  lemma {:induction false} AddsFrame(s: Store, collectionId: DocId, photos: seq<Preview.NewPhoto>, env: Env)
    ensures var t := AfterAdds(s, collectionId, photos, env);
            t == s.(photos := t.photos, nextId := t.nextId)
    decreases |photos|
  {
    if photos != [] {
      AddPhotoEffect(s, collectionId, photos[0].src, photos[0].title, env);
      AddsFrame(Effect(s, AddPhotoDoc(collectionId, photos[0].src, photos[0].title), env), collectionId, photos[1..], env);
    }
  }

  lemma {:induction false} AddsPhotos(s: Store, collectionId: DocId, photos: seq<Preview.NewPhoto>, env: Env)
    ensures var t := AfterAdds(s, collectionId, photos, env);
            var kept := Kept(collectionId, photos, env);
            t.photos == s.photos + NewPhotoDocs(collectionId, kept, s.nextId, env.now) && t.nextId == s.nextId + |kept|
    decreases |photos|
  {
    if photos == [] {
      assert s.photos + [] == s.photos;
    } else {
      var c := AddPhotoDoc(collectionId, photos[0].src, photos[0].title);
      var s1 := Effect(s, c, env);
      AddPhotoEffect(s, collectionId, photos[0].src, photos[0].title, env);
      AddsPhotos(s1, collectionId, photos[1..], env);
      var rest := Kept(collectionId, photos[1..], env);
      if !Throws(c, env) {
        var d := PhotoDoc(collectionId, s.nextId, photos[0].src, photos[0].title, env.now);
        Concat3(s.photos, [d], NewPhotoDocs(collectionId, rest, s.nextId + 1, env.now));
        assert Kept(collectionId, photos, env) == [photos[0]] + rest;
      } else {
        assert Kept(collectionId, photos, env) == rest;
      }
    }
  }

  /**
   * Adding images appends one photo document per entry that went through
   * (with its `src` and title), keeps those even when a later one failed,
   * and touches nothing else.
   */
  lemma AddedPhotos(s: Store, collectionId: DocId, photos: seq<Preview.NewPhoto>, env: Env)
    ensures var kept := Kept(collectionId, photos, env);
            Run(s, AddCalls(collectionId, photos), env)
              == s.(photos := s.photos + NewPhotoDocs(collectionId, kept, s.nextId, env.now), nextId := s.nextId + |kept|)
  {
    AddsRun(s, collectionId, photos, env);
    AddsFrame(s, collectionId, photos, env);
    AddsPhotos(s, collectionId, photos, env);
  }

  // Deleting.

  /** `photos.map(p => p.src)`. */
  function Urls(photos: seq<PhotoDoc>): seq<string> {
    seq(|photos|, i requires 0 <= i < |photos| => photos[i].src)
  }

  /**
   * The notice and the calls of `handleConfirmDelete`. The blob route's
   * answer is never looked at: only a request that throws stops the
   * document deletes.
   */
  function ConfirmDeleteSpec(request: DeleteRequest, env: Env): (Option<Toast>, seq<Call>) {
    match request
      case NoRequest => (None, [])
      case DeleteCollection(id, _, photos) => CollectionDeleteSpec(id, photos, env)
      case DeletePhoto(id, _, collectionId, url) => PhotoDeleteSpec(id, collectionId, url, env)
  }

  /** The collection branch: the blob request (only for a non-empty list), the photo documents, the collection document. */
  function CollectionDeleteSpec(id: DocId, photos: seq<PhotoDoc>, env: Env): (Option<Toast>, seq<Call>) {
    var blob := if photos == [] then [] else [DeleteBlobs(Urls(photos))];
    if photos != [] && Throws(DeleteBlobs(Urls(photos)), env) then (Some(Toast(ErrorTitle, true)), blob)
    else
      var dels := DeletePhotoCalls(id, photos);
      if !NoneThrows(dels, env) then (Some(Toast(ErrorTitle, true)), blob + dels)
      else
        var last := DeleteCollectionDoc(id);
        (Some(if Throws(last, env) then Toast(ErrorTitle, true) else Toast(CollectionDeletedTitle, false)),
         blob + dels + [last])
  }

  /** The photo branch: the blob request for the one URL, then the photo document. */
  function PhotoDeleteSpec(id: DocId, collectionId: DocId, url: string, env: Env): (Option<Toast>, seq<Call>) {
    var b := DeleteBlobs([url]);
    if Throws(b, env) then (Some(Toast(ErrorTitle, true)), [b])
    else
      var d := DeletePhotoDoc(collectionId, id);
      (Some(if Throws(d, env) then Toast(ErrorTitle, true) else Toast(PhotoDeletedTitle, false)), [b, d])
  }

  /** The calls do not depend on the blob route's token or on `del`'s outcome: the response is never inspected. */
  lemma ResponseIgnored(request: DeleteRequest, env: Env, token: bool, delError: Option<string>)
    ensures ConfirmDeleteSpec(request, env) == ConfirmDeleteSpec(request, env.(blobToken := token, delError := delError))
  {
  }

  /** The calls of a collection delete, piece by piece. */
  lemma CollectionDeleteShape(id: DocId, photos: seq<PhotoDoc>, env: Env)
    requires photos == [] || !Throws(DeleteBlobs(Urls(photos)), env)
    ensures var blob := if photos == [] then [] else [DeleteBlobs(Urls(photos))];
            var dels := DeletePhotoCalls(id, photos);
            var docsOk := forall i :: 0 <= i < |photos| ==> !Throws(DeletePhotoDoc(id, photos[i].id), env);
            CollectionDeleteSpec(id, photos, env).1 == blob + dels + (if docsOk then [DeleteCollectionDoc(id)] else [])
  {
    var dels := DeletePhotoCalls(id, photos);
    assert NoneThrows(dels, env) <==> forall i :: 0 <= i < |photos| ==> !Throws(DeletePhotoDoc(id, photos[i].id), env);
  }

  /**
   * A collection delete requests the loaded photos' `src` values first,
   * and only when there are photos; there is no other blob request, and
   * a request that throws ends the delete.
   */
  lemma CollectionBlobRequest(id: DocId, photos: seq<PhotoDoc>, env: Env)
    ensures var calls := CollectionDeleteSpec(id, photos, env).1;
            var b := if photos == [] then 0 else 1;
            && b <= |calls|
            && (photos != [] ==> calls[0] == DeleteBlobs(Urls(photos)))
            && (forall i :: b <= i < |calls| ==> !calls[i].DeleteBlobs?)
            && (photos != [] && Throws(DeleteBlobs(Urls(photos)), env) ==> |calls| == 1)
  {
    if photos == [] || !Throws(DeleteBlobs(Urls(photos)), env) {
      CollectionDeleteShape(id, photos, env);
    }
  }

  /**
   * Unless the blob request throws, every loaded photo document is
   * deleted, in order, right after it; the collection document comes
   * last, and only when none of those deletes threw.
   */
  lemma CollectionDocsLast(id: DocId, photos: seq<PhotoDoc>, env: Env)
    requires photos == [] || !Throws(DeleteBlobs(Urls(photos)), env)
    ensures var calls := CollectionDeleteSpec(id, photos, env).1;
            var b := if photos == [] then 0 else 1;
            var docsOk := forall i :: 0 <= i < |photos| ==> !Throws(DeletePhotoDoc(id, photos[i].id), env);
            && |calls| == b + |photos| + (if docsOk then 1 else 0)
            && calls[b..b + |photos|] == DeletePhotoCalls(id, photos)
            && (docsOk ==> calls[|calls| - 1] == DeleteCollectionDoc(id))
  {
    CollectionDeleteShape(id, photos, env);
    var blob := if photos == [] then [] else [DeleteBlobs(Urls(photos))];
    var dels := DeletePhotoCalls(id, photos);
    var calls := CollectionDeleteSpec(id, photos, env).1;
    assert calls[|blob|..|blob| + |dels|] == dels;
  }

  /**
   * What a collection delete does to the data: when every call went
   * through, the collection document is gone. Users, variants (the
   * variants of the deleted photos stay behind) and other collections are
   * untouched; only blobs and photo documents change otherwise.
   */
  lemma CollectionDeleteStore(s: Store, id: DocId, photos: seq<PhotoDoc>, env: Env)
    ensures var (notice, calls) := CollectionDeleteSpec(id, photos, env);
            var t := Run(s, calls, env);
            && t.users == s.users && t.variants == s.variants && t.nextId == s.nextId
            && t.collections == (if notice == Some(Toast(CollectionDeletedTitle, false))
                                 then WithoutCollection(s.collections, id) else s.collections)
  {
    var (notice, calls) := CollectionDeleteSpec(id, photos, env);
    var blob := if photos == [] then [] else [DeleteBlobs(Urls(photos))];
    var dels := DeletePhotoCalls(id, photos);
    var s1 := Run(s, blob, env);
    if photos != [] {
      RunOne(s, DeleteBlobs(Urls(photos)), env);
      DeleteBlobsEffect(s, Urls(photos), env);
    }
    assert s1 == s.(blobs := s1.blobs);
    if photos != [] && Throws(DeleteBlobs(Urls(photos)), env) {
      assert calls == blob;
    } else {
      RunAppend(s, blob, dels, env);
      DeletesOnlyPhotos(s1, id, photos, env);
      var s2 := Run(s1, dels, env);
      if !NoneThrows(dels, env) {
        assert calls == blob + dels;
      } else {
        var last := DeleteCollectionDoc(id);
        assert calls == (blob + dels) + [last];
        RunSnoc(s, blob + dels, last, env);
        DeleteCollectionEffect(s2, id, env);
      }
    }
  }

  /** Deleting photo documents changes only the photo table. */
  lemma {:induction false} DeletesOnlyPhotos(s: Store, id: DocId, photos: seq<PhotoDoc>, env: Env)
    ensures var t := Run(s, DeletePhotoCalls(id, photos), env);
            t == s.(photos := t.photos)
    decreases |photos|
  {
    if photos != [] {
      DeletePhotoEffect(s, id, photos[0].id, env);
      assert DeletePhotoCalls(id, photos)[1..] == DeletePhotoCalls(id, photos[1..]);
      DeletesOnlyPhotos(Effect(s, DeletePhotoDoc(id, photos[0].id), env), id, photos[1..], env);
    }
  }

  /**
   * A photo delete requests exactly `[photoUrl]`, then, unless that
   * request throws, whatever the route answered, deletes only that photo
   * document; the blob is gone when the route's `del` succeeded.
   */
  lemma PhotoDeleteStore(s: Store, id: DocId, collectionId: DocId, url: string, env: Env)
    ensures var (notice, calls) := PhotoDeleteSpec(id, collectionId, url, env);
            var b := DeleteBlobs([url]);
            var d := DeletePhotoDoc(collectionId, id);
            var deleted := !Throws(b, env) && BlobResponse([url], env).Ok();
            && calls == (if Throws(b, env) then [b] else [b, d])
            && Run(s, calls, env)
                 == s.(blobs := if deleted then s.blobs - {url} else s.blobs,
                       photos := if !Throws(b, env) && !Throws(d, env) then WithoutPhoto(s.photos, collectionId, id) else s.photos)
            && (notice == Some(Toast(PhotoDeletedTitle, false)) <==> !Throws(b, env) && !Throws(d, env))
  {
    var b := DeleteBlobs([url]);
    var d := DeletePhotoDoc(collectionId, id);
    DeleteBlobsEffect(s, [url], env);
    assert (set u | u in [url]) == {url};
    var s1 := Effect(s, b, env);
    if Throws(b, env) {
      RunOne(s, b, env);
    } else {
      RunTwo(s, b, d, env);
      DeletePhotoEffect(s1, collectionId, id, env);
    }
  }

  // Searching the loaded list.

  /** The first index whose element satisfies `p`, as `Array.prototype.find(Index)` scans. */
  function FirstIndex<T>(xs: seq<T>, p: T -> bool): (r: Option<nat>)
    ensures r.Some? ==> r.value < |xs| && p(xs[r.value]) && forall j :: 0 <= j < r.value ==> !p(xs[j])
    ensures r.None? <==> forall j :: 0 <= j < |xs| ==> !p(xs[j])
  {
    if xs == [] then None
    else if p(xs[0]) then Some(0)
    else
      var r := FirstIndex(xs[1..], p);
      if r.None? then None else Some(r.value + 1)
  }

  /** The first collection, in list order, with document id `id`. */
  function FindCollection(collections: seq<Collection>, id: DocId): Option<nat> {
    FirstIndex(collections, (c: Collection) => c.doc.id == id)
  }

  /** The first photo with id `photoId` in a list of photos. */
  function FindPhoto(photos: seq<PhotoDoc>, photoId: DocId): Option<nat> {
    FirstIndex(photos, (p: PhotoDoc) => p.id == photoId)
  }

  /** The first collection, in list order, that holds a photo with id `photoId`. */
  function FirstHolder(collections: seq<Collection>, photoId: DocId): Option<nat> {
    FirstIndex(collections, (c: Collection) => FindPhoto(c.photos, photoId).Some?)
  }

  /** The photo request for the first photo with id `photoId` of `c`. */
  function PhotoRequest(c: Collection, photoId: DocId): DeleteRequest
    requires FindPhoto(c.photos, photoId).Some?
  {
    var p := c.photos[FindPhoto(c.photos, photoId).value];
    DeletePhoto(photoId, p.title, c.doc.id, p.src)
  }

  /** `handleDeletePhoto` asks about a photo of the first collection holding it, or about nothing. */
  lemma PhotoRequestFromFirstHolder(collections: seq<Collection>, photoId: DocId)
    requires FirstHolder(collections, photoId).Some?
    ensures var k := FirstHolder(collections, photoId).value;
            var r := PhotoRequest(collections[k], photoId);
            && r.id == photoId && r.collectionId == collections[k].doc.id
            && (exists q :: 0 <= q < |collections[k].photos| && collections[k].photos[q].id == photoId
                            && collections[k].photos[q].src == r.photoUrl && collections[k].photos[q].title == r.title)
            && forall j :: 0 <= j < k ==> forall q :: 0 <= q < |collections[j].photos| ==> collections[j].photos[q].id != photoId
  {
    var k := FirstHolder(collections, photoId).value;
    forall j | 0 <= j < k
      ensures forall q :: 0 <= q < |collections[j].photos| ==> collections[j].photos[q].id != photoId
    {
      assert FindPhoto(collections[j].photos, photoId).None?;
    }
  }

  /** Title updates: `updateDoc` either goes through and retitles only that document, or throws and changes nothing. */
  lemma RetitleCollectionOnly(s: Store, id: DocId, title: string, env: Env)
    ensures var c := SetCollectionTitle(id, title);
            var t := Effect(s, c, env);
            && (Fails(s, c, env) <==> c in env.faults || !HasCollection(s.collections, id))
            && (Fails(s, c, env) ==> t == s)
            && (!Fails(s, c, env) ==>
                  && t == s.(collections := t.collections) && |t.collections| == |s.collections|
                  && forall i :: 0 <= i < |s.collections| ==>
                       t.collections[i].id == s.collections[i].id
                       && t.collections[i].title == (if s.collections[i].id == id then title else s.collections[i].title)
                       && t.collections[i].userName == s.collections[i].userName)
  {
  }

  lemma RetitlePhotoOnly(s: Store, collectionId: DocId, id: DocId, title: string, env: Env)
    ensures var c := SetPhotoTitle(collectionId, id, title);
            var t := Effect(s, c, env);
            && (Fails(s, c, env) <==> c in env.faults || !HasPhoto(s.photos, collectionId, id))
            && (Fails(s, c, env) ==> t == s)
            && (!Fails(s, c, env) ==>
                  && t == s.(photos := t.photos) && |t.photos| == |s.photos|
                  && forall i :: 0 <= i < |s.photos| ==>
                       var p, q := s.photos[i], t.photos[i];
                       q == (if p.collectionId == collectionId && p.id == id then p.(title := title) else p))
  {
  }

  /** Logging out leaves no session flag behind. */
  lemma LogoutClearsSession(items: map<string, string>)
    ensures !SignedIn(items - {AuthKey, UserKey})
    ensures UserKey !in items - {AuthKey, UserKey}
  {
  }

  /** The collection branch of `handleConfirmDelete`, run against the store. */
  method DeleteCollectionFlow(db: Backend, id: DocId, photos: seq<PhotoDoc>, env: Env) returns (notice: Option<Toast>, calls: seq<Call>)
    modifies db
    ensures (notice, calls) == CollectionDeleteSpec(id, photos, env)
    ensures db.store == Run(old(db.store), calls, env)
  {
    ghost var s0 := db.store;
    calls := [];
    var ok := true;
    if photos != [] {
      ok, calls := db.Issue(DeleteBlobs(Urls(photos)), env, s0, calls);
      assert calls == [DeleteBlobs(Urls(photos))];
    }
    if !ok {
      notice := Some(Toast(ErrorTitle, true));
      return;
    }
    var dels := DeletePhotoCalls(id, photos);
    ghost var blob := calls;
    ok, calls := db.IssueAll(dels, env, s0, calls);
    if !ok {
      notice := Some(Toast(ErrorTitle, true));
      return;
    }
    ok, calls := db.Issue(DeleteCollectionDoc(id), env, s0, calls);
    assert calls == blob + dels + [DeleteCollectionDoc(id)];
    notice := Some(if ok then Toast(CollectionDeletedTitle, false) else Toast(ErrorTitle, true));
  }

  /** The photo branch of `handleConfirmDelete`, run against the store. */
  method DeletePhotoFlow(db: Backend, id: DocId, collectionId: DocId, url: string, env: Env) returns (notice: Option<Toast>, calls: seq<Call>)
    modifies db
    ensures (notice, calls) == PhotoDeleteSpec(id, collectionId, url, env)
    ensures db.store == Run(old(db.store), calls, env)
  {
    ghost var s0 := db.store;
    var ok;
    ok, calls := db.Issue(DeleteBlobs([url]), env, s0, []);
    assert calls == [DeleteBlobs([url])];
    if !ok {
      notice := Some(Toast(ErrorTitle, true));
      return;
    }
    ok, calls := db.Issue(DeletePhotoDoc(collectionId, id), env, s0, calls);
    assert calls == [DeleteBlobs([url]), DeletePhotoDoc(collectionId, id)];
    notice := Some(if ok then Toast(PhotoDeletedTitle, false) else Toast(ErrorTitle, true));
  }

  class App {
    const userName: Option<string>
    var collections: seq<Collection>
    var loading: bool
    var filesToPreview: seq<File>
    var activeCollectionId: Option<DocId>
    var confirm: DeleteRequest
    var editingCollection: Option<Collection>
    var editingPhoto: Option<PhotoDoc>

    constructor (userName: Option<string>)
      ensures this.userName == userName && collections == [] && loading
      ensures filesToPreview == [] && activeCollectionId == None && confirm == NoRequest
      ensures editingCollection == None && editingPhoto == None
    {
      this.userName := userName;
      collections, loading := [], true;
      filesToPreview, activeCollectionId, confirm := [], None, NoRequest;
      editingCollection, editingPhoto := None, None;
    }

    /**
     * The load effect: it queries the user's collections and every
     * collection's photos, and shows them newest first; a listener error
     * shows a notice, a failed photo query leaves the page loading.
     */
    method Load(db: Backend, env: Env) returns (notice: Option<Toast>, calls: seq<Call>)
      modifies this, db
      ensures var (outcome, expected) := LoadSpec(old(db.store), userName, env);
              && calls == expected && db.store == old(db.store)
              && loading == outcome.Stalled?
              && collections == (if outcome.Loaded? then outcome.collections else old(collections))
              && notice == (if outcome.LoadFailed? then Some(Toast(LoadErrorTitle, true)) else None)
      ensures filesToPreview == old(filesToPreview) && activeCollectionId == old(activeCollectionId)
      ensures confirm == old(confirm) && editingCollection == old(editingCollection) && editingPhoto == old(editingPhoto)
    {
      notice, calls := None, [];
      if !env.dbConfigured || !Given(userName) {
        loading := false;
        return;
      }
      loading := true;
      ghost var s0 := db.store;
      var q := FindCollections(userName.value);
      var ok;
      ok, calls := db.Issue(q, env, s0, calls);
      assert calls == [q];
      if !ok {
        notice := Some(Toast(LoadErrorTitle, true));
        loading := false;
        return;
      }
      var docs := Owned(db.store.collections, userName.value);
      var lists := ListCalls(docs);
      ok, calls := db.IssueAll(lists, env, s0, calls);
      RunInert(s0, lists, env);
      if !ok {
        return;
      }
      collections := Sort(Gathered(db.store.photos, docs), CollectionTime);
      loading := false;
    }

    /** `handleCreateCollection(title)`: one `addDoc` owned by the user name. */
    method HandleCreateCollection(db: Backend, title: string, env: Env) returns (notice: Toast, calls: seq<Call>)
      requires env.dbConfigured
      modifies db
      ensures userName.None? ==> calls == [] && db.store == old(db.store) && notice == Toast(ErrorTitle, true)
      ensures userName.Some? ==>
                var c := AddCollectionDoc(title, userName.value);
                && calls == [c] && db.store == Effect(old(db.store), c, env)
                && notice == if Throws(c, env) then Toast(ErrorTitle, true) else Toast(CreatedTitle, false)
    {
      calls := [];
      if userName.None? {
        // `addDoc` refuses a document with an undefined field before writing anything.
        notice := Toast(ErrorTitle, true);
        return;
      }
      var c := AddCollectionDoc(title, userName.value);
      var ok := db.Perform(c, env);
      calls := [c];
      notice := if ok then Toast(CreatedTitle, false) else Toast(ErrorTitle, true);
    }

    /** `handleInitiateUpload`: the files to preview and the collection they go to. */
    method HandleInitiateUpload(collectionId: DocId, files: seq<File>)
      modifies this
      ensures activeCollectionId == Some(collectionId) && filesToPreview == files
      ensures collections == old(collections) && loading == old(loading) && confirm == old(confirm)
      ensures editingCollection == old(editingCollection) && editingPhoto == old(editingPhoto)
    {
      activeCollectionId, filesToPreview := Some(collectionId), files;
    }

    /** Closing the preview dialog forgets the files and the target collection. */
    method ClosePreview()
      modifies this
      ensures activeCollectionId == None && filesToPreview == []
      ensures collections == old(collections) && loading == old(loading) && confirm == old(confirm)
      ensures editingCollection == old(editingCollection) && editingPhoto == old(editingPhoto)
    {
      activeCollectionId, filesToPreview := None, [];
    }

    /**
     * `handleAddImagesToCollection(collectionId, newPhotos)`: nothing for an
     * empty id, else one `addDoc` per photo and a notice saying whether all
     * of them went through (`AddedPhotos` says what the store then holds).
     */
    method HandleAddImagesToCollection(db: Backend, collectionId: Option<DocId>, newPhotos: seq<Preview.NewPhoto>, env: Env)
      returns (notices: seq<Toast>, calls: seq<Call>)
      requires env.dbConfigured
      modifies db
      ensures collectionId.None? ==> notices == [] && calls == [] && db.store == old(db.store)
      ensures collectionId.Some? ==>
                var all := NoneThrows(calls, env);
                && calls == AddCalls(collectionId.value, newPhotos)
                && db.store == Run(old(db.store), calls, env)
                && notices == [Toast(SavingTitle, false), if all then Toast(SavedTitle, false) else Toast(SaveFailedTitle, true)]
    {
      notices, calls := [], [];
      if collectionId.None? {
        return;
      }
      ghost var s0 := db.store;
      notices := [Toast(SavingTitle, false)];
      var adds := AddCalls(collectionId.value, newPhotos);
      var ok;
      ok, calls := db.IssueAll(adds, env, s0, calls);
      assert calls == adds;
      notices := notices + [if ok then Toast(SavedTitle, false) else Toast(SaveFailedTitle, true)];
    }

    /** `onConfirm` of the preview dialog: the photos go to the active collection, if there is one. */
    method ConfirmPreview(db: Backend, newPhotos: seq<Preview.NewPhoto>, env: Env) returns (notices: seq<Toast>, calls: seq<Call>)
      requires env.dbConfigured
      modifies db
      ensures activeCollectionId.None? ==> calls == [] && db.store == old(db.store)
      ensures activeCollectionId.Some? ==>
                calls == AddCalls(activeCollectionId.value, newPhotos) && db.store == Run(old(db.store), calls, env)
    {
      notices, calls := HandleAddImagesToCollection(db, activeCollectionId, newPhotos, env);
    }

    /**
     * `handlePaste`: with no collection it only warns; otherwise pasted
     * image files, if any, open the preview for the first (newest)
     * collection.
     */
    method HandlePaste(files: Option<seq<File>>) returns (notice: Option<Toast>, prevented: bool)
      modifies this
      ensures collections == old(collections) && loading == old(loading) && confirm == old(confirm)
      ensures editingCollection == old(editingCollection) && editingPhoto == old(editingPhoto)
      ensures notice.Some? <==> collections == []
      ensures notice.Some? ==> notice.value == Toast(NoCollectionTitle, true)
      ensures prevented <==> collections != [] && files.Some? && Uploader.ImageFiles(files.value) != []
      ensures prevented ==> activeCollectionId == Some(collections[0].doc.id)
                            && filesToPreview == Uploader.ImageFiles(files.value)
      ensures !prevented ==> activeCollectionId == old(activeCollectionId) && filesToPreview == old(filesToPreview)
    {
      notice, prevented := None, false;
      if collections == [] {
        notice := Some(Toast(NoCollectionTitle, true));
        return;
      }
      if files.None? || files.value == [] {
        return;
      }
      var images := Uploader.ImageFiles(files.value);
      if images != [] {
        prevented := true;
        activeCollectionId := Some(collections[0].doc.id);
        filesToPreview := images;
      }
    }

    /** `handleDeleteCollection`: ask about the collection, with the photos loaded for it. */
    method HandleDeleteCollection(collectionId: DocId, collectionTitle: string)
      modifies this
      ensures var hit := FindCollection(collections, collectionId);
              confirm == DeleteCollection(collectionId, collectionTitle,
                                          if hit.Some? then collections[hit.value].photos else [])
      ensures collections == old(collections) && loading == old(loading)
      ensures activeCollectionId == old(activeCollectionId) && filesToPreview == old(filesToPreview)
      ensures editingCollection == old(editingCollection) && editingPhoto == old(editingPhoto)
    {
      var hit := FindCollection(collections, collectionId);
      confirm := DeleteCollection(collectionId, collectionTitle, if hit.Some? then collections[hit.value].photos else []);
    }

    /**
     * `handleDeletePhoto`: scan the collections in order for the first
     * one holding the photo and ask about it; if none holds it, the
     * dialog is left as it was.
     */
    method HandleDeletePhoto(photoId: DocId)
      modifies this
      ensures var hit := FirstHolder(collections, photoId);
              confirm == if hit.None? then old(confirm) else PhotoRequest(collections[hit.value], photoId)
      ensures collections == old(collections) && loading == old(loading)
      ensures activeCollectionId == old(activeCollectionId) && filesToPreview == old(filesToPreview)
      ensures editingCollection == old(editingCollection) && editingPhoto == old(editingPhoto)
    {
      var photoToDelete: Option<PhotoDoc> := None;
      var collectionOfPhoto: Option<DocId> := None;
      var i := 0;
      while i < |collections|
        invariant 0 <= i <= |collections|
        invariant photoToDelete.None? && collectionOfPhoto.None?
        invariant forall j :: 0 <= j < i ==> FindPhoto(collections[j].photos, photoId).None?
      {
        var k := FindPhoto(collections[i].photos, photoId);
        if k.Some? {
          photoToDelete := Some(collections[i].photos[k.value]);
          collectionOfPhoto := Some(collections[i].doc.id);
          break;
        }
        i := i + 1;
      }
      if photoToDelete.Some? && collectionOfPhoto.Some? {
        assert FirstHolder(collections, photoId) == Some(i);
        confirm := DeletePhoto(photoId, photoToDelete.value.title, collectionOfPhoto.value, photoToDelete.value.src);
      }
    }

    /** Closing the confirmation dialog resets it. */
    method CancelDelete()
      modifies this
      ensures confirm == NoRequest
      ensures collections == old(collections) && loading == old(loading)
      ensures activeCollectionId == old(activeCollectionId) && filesToPreview == old(filesToPreview)
      ensures editingCollection == old(editingCollection) && editingPhoto == old(editingPhoto)
    {
      confirm := NoRequest;
    }

    /**
     * `handleConfirmDelete`: the calls of `ConfirmDeleteSpec` for the
     * request the dialog holds; the dialog is reset whatever happened.
     */
    method HandleConfirmDelete(db: Backend, env: Env) returns (notice: Option<Toast>, calls: seq<Call>)
      requires env.dbConfigured
      modifies this, db
      ensures (notice, calls) == ConfirmDeleteSpec(old(confirm), env)
      ensures db.store == Run(old(db.store), calls, env)
      ensures confirm == NoRequest
      ensures collections == old(collections) && loading == old(loading)
      ensures activeCollectionId == old(activeCollectionId) && filesToPreview == old(filesToPreview)
      ensures editingCollection == old(editingCollection) && editingPhoto == old(editingPhoto)
    {
      notice, calls := None, [];
      match confirm {
        case NoRequest =>
          return;
        case DeleteCollection(id, _, photos) =>
          notice, calls := DeleteCollectionFlow(db, id, photos, env);
        case DeletePhoto(id, _, collectionId, url) =>
          notice, calls := DeletePhotoFlow(db, id, collectionId, url, env);
      }
      confirm := NoRequest;
    }

    /** Opening the collection title editor. */
    method OpenEditCollection(c: Collection)
      modifies this
      ensures editingCollection == Some(c) && editingPhoto == old(editingPhoto)
      ensures collections == old(collections) && loading == old(loading) && confirm == old(confirm)
      ensures activeCollectionId == old(activeCollectionId) && filesToPreview == old(filesToPreview)
    {
      editingCollection := Some(c);
    }

    /** Opening the photo title editor for a photo of `collectionId`. */
    method OpenEditPhoto(p: PhotoDoc, collectionId: DocId)
      modifies this
      ensures editingPhoto == Some(p.(collectionId := collectionId)) && editingCollection == old(editingCollection)
      ensures collections == old(collections) && loading == old(loading) && confirm == old(confirm)
      ensures activeCollectionId == old(activeCollectionId) && filesToPreview == old(filesToPreview)
    {
      editingPhoto := Some(p.(collectionId := collectionId));
    }

    /**
     * `handleUpdateCollectionTitle`: nothing without an edited collection
     * or a database; otherwise one `updateDoc`, and the editor closes only
     * when it went through.
     */
    method HandleUpdateCollectionTitle(db: Backend, newTitle: string, env: Env) returns (notice: Option<Toast>, calls: seq<Call>)
      modifies this, db
      ensures editingPhoto == old(editingPhoto) && collections == old(collections) && loading == old(loading)
      ensures confirm == old(confirm) && activeCollectionId == old(activeCollectionId) && filesToPreview == old(filesToPreview)
      ensures old(editingCollection).None? || !env.dbConfigured ==>
                notice == None && calls == [] && db.store == old(db.store) && editingCollection == old(editingCollection)
      ensures old(editingCollection).Some? && env.dbConfigured ==>
                var c := SetCollectionTitle(old(editingCollection).value.doc.id, newTitle);
                var failed := Fails(old(db.store), c, env);
                && calls == [c] && db.store == Effect(old(db.store), c, env)
                && notice == Some(if failed then Toast(ErrorTitle, true) else Toast(SuccessTitle, false))
                && editingCollection == (if failed then old(editingCollection) else None)
    {
      notice, calls := None, [];
      if editingCollection.None? || !env.dbConfigured {
        return;
      }
      var c := SetCollectionTitle(editingCollection.value.doc.id, newTitle);
      var ok := db.Perform(c, env);
      calls := [c];
      if ok {
        notice := Some(Toast(SuccessTitle, false));
        editingCollection := None;
      } else {
        notice := Some(Toast(ErrorTitle, true));
      }
    }

    /** `handleUpdatePhotoTitle`, the same for the edited photo. */
    method HandleUpdatePhotoTitle(db: Backend, newTitle: string, env: Env) returns (notice: Option<Toast>, calls: seq<Call>)
      modifies this, db
      ensures editingCollection == old(editingCollection) && collections == old(collections) && loading == old(loading)
      ensures confirm == old(confirm) && activeCollectionId == old(activeCollectionId) && filesToPreview == old(filesToPreview)
      ensures old(editingPhoto).None? || !env.dbConfigured ==>
                notice == None && calls == [] && db.store == old(db.store) && editingPhoto == old(editingPhoto)
      ensures old(editingPhoto).Some? && env.dbConfigured ==>
                var p := old(editingPhoto).value;
                var c := SetPhotoTitle(p.collectionId, p.id, newTitle);
                var failed := Fails(old(db.store), c, env);
                && calls == [c] && db.store == Effect(old(db.store), c, env)
                && notice == Some(if failed then Toast(ErrorTitle, true) else Toast(SuccessTitle, false))
                && editingPhoto == (if failed then old(editingPhoto) else None)
    {
      notice, calls := None, [];
      if editingPhoto.None? || !env.dbConfigured {
        return;
      }
      var p := editingPhoto.value;
      var c := SetPhotoTitle(p.collectionId, p.id, newTitle);
      var ok := db.Perform(c, env);
      calls := [c];
      if ok {
        notice := Some(Toast(SuccessTitle, false));
        editingPhoto := None;
      } else {
        notice := Some(Toast(ErrorTitle, true));
      }
    }
  }

  /**
   * `handleLogout`: remove both session keys, then go to `/login`; when
   * storage throws, nothing is removed and a notice is shown instead.
   */
  method HandleLogout(storage: LocalStorage) returns (route: Option<Route>, notice: Option<Toast>)
    modifies storage
    ensures storage.available ==> storage.items == old(storage.items) - {AuthKey, UserKey} && route == Some(Login) && notice == None
    ensures !storage.available ==> storage.items == old(storage.items) && route == None && notice == Some(Toast(LogoutFailedTitle, true))
  {
    route, notice := None, None;
    var ok := storage.RemoveItem(AuthKey);
    if !ok {
      notice := Some(Toast(LogoutFailedTitle, true));
      return;
    }
    ok := storage.RemoveItem(UserKey);
    assert storage.items == old(storage.items) - {AuthKey} - {UserKey};
    route := Some(Login);
  }
}
