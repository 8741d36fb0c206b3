/**
 * The data the application keeps in its hosted services, and the effect of
 * each external call on it.
 *
 * The document store holds four tables: `users`, `collections`, and the
 * sub-collections `collections/{id}/photos` and
 * `collections/{id}/photos/{id}/variants`, kept flat here with their parent
 * ids as part of each document (deleting a parent document does not delete
 * its sub-collections). The blob store is the set of stored blob URLs.
 *
 * Every external call the client makes (a document get/add/update/delete, a
 * bcrypt hash or compare, a title generation, a blob upload, the blob DELETE
 * request) is a `Call`. Whether a call throws is decided by the environment
 * `Env`: the calls listed in `faults` throw, as do updates of a document that
 * no longer exists and uploads the route refuses. A call that throws changes
 * nothing.
 */
module Cloud {
  import opened Wrappers
  import BlobRoute

  /** A document id; the service assigns fresh ones from a counter. */
  type DocId = nat

  /** An opaque bcrypt digest (salting and cost are not modelled). */
  datatype PasswordHash = Digest(secret: string)

  datatype UserRecord = UserRecord(id: DocId, name: string, passwordHash: Option<PasswordHash>)
  datatype CollectionDoc = CollectionDoc(id: DocId, title: string, userName: string, createdAt: int)
  datatype PhotoDoc = PhotoDoc(collectionId: DocId, id: DocId, src: string, title: string, createdAt: int)
  datatype VariantDoc = VariantDoc(collectionId: DocId, photoId: DocId, id: DocId, src: string, createdAt: int)

  /** A browser `File`: its name and MIME type. */
  datatype File = File(name: string, mime: string)

  /** A toast notice: its title and whether it is the destructive variant. */
  datatype Toast = Toast(title: string, destructive: bool)

  datatype Store = Store(
    users: seq<UserRecord>,
    collections: seq<CollectionDoc>,
    photos: seq<PhotoDoc>,
    variants: seq<VariantDoc>,
    blobs: set<string>,
    nextId: nat)

  datatype Call =
    | ListUsers                                        // getDocs(users), also with limit(1)
    | FindUsers(name: string)                          // getDocs(users where name == name)
    | HashPassword(password: string)                   // bcrypt.hash
    | ComparePassword(password: string, hash: PasswordHash) // bcrypt.compare
    | CommitUsers(entries: seq<(string, PasswordHash)>) // writeBatch(...).commit()
    | AddUserDoc(name: string, hash: PasswordHash)
    | SetUserHash(id: DocId, hash: PasswordHash)
    | DeleteUserDoc(id: DocId)
    | FindCollections(userName: string)                // getDocs(collections where userName == ...)
    | ListPhotos(collectionId: DocId)                  // getDocs(collections/{id}/photos)
    | AddCollectionDoc(title: string, userName: string)
    | SetCollectionTitle(collectionId: DocId, title: string)
    | DeleteCollectionDoc(collectionId: DocId)
    | AddPhotoDoc(collectionId: DocId, src: string, title: string)
    | SetPhotoTitle(collectionId: DocId, photoId: DocId, title: string)
    | DeletePhotoDoc(collectionId: DocId, photoId: DocId)
    | AddVariantDoc(collectionId: DocId, photoId: DocId, src: string)
    | DeleteVariantDoc(collectionId: DocId, photoId: DocId, variantId: DocId)
    | GenerateTitle(file: File)                        // the AI title flow
    | Upload(file: File)                               // client upload through POST /api/upload
    | DeleteBlobs(urls: seq<string>)                   // fetch('/api/upload', { method: 'DELETE' })
  {
    /** Calls that read or compute and never change the stored data. */
    predicate IsRead() {
      ListUsers? || FindUsers? || HashPassword? || ComparePassword? || FindCollections? || ListPhotos? || GenerateTitle?
    }

    /** Calls that update an existing document, and so can fail on a missing one. */
    predicate IsUpdate() {
      SetUserHash? || SetCollectionTitle? || SetPhotoTitle?
    }
  }

  /** Everything outside the client code. */
  datatype Env = Env(
    dbConfigured: bool,              // the Firestore handle `db` exists
    blobToken: bool,                 // BLOB_READ_WRITE_TOKEN is set for the route
    faults: set<Call>,               // the calls that throw (network or service failure)
    delError: Option<string>,        // the message `del` throws with, if it fails
    now: int,                        // serverTimestamp(), in milliseconds
    blobUrl: File -> string,         // the URL the blob service gives an uploaded file
    titleFor: File -> string,        // what the title generator answers
    message: Call -> string)         // the message of the exception a failing call throws

  predicate HasUser(users: seq<UserRecord>, id: DocId) {
    exists i :: 0 <= i < |users| && users[i].id == id
  }

  predicate HasCollection(collections: seq<CollectionDoc>, id: DocId) {
    exists i :: 0 <= i < |collections| && collections[i].id == id
  }

  predicate HasPhoto(photos: seq<PhotoDoc>, collectionId: DocId, id: DocId) {
    exists i :: 0 <= i < |photos| && photos[i].collectionId == collectionId && photos[i].id == id
  }

  /**
   * Whether call `c` throws whatever the state: it is a listed fault, or it
   * is an upload the route's token handoff refuses.
   */
  predicate Throws(c: Call, env: Env) {
    || c in env.faults
    || (c.Upload? && (!env.blobToken || !BlobRoute.ContentTypeAllowed(c.file.mime)))
  }

  /** Whether `c` updates a document that does not exist in `s` (`updateDoc` then throws). */
  predicate Missing(s: Store, c: Call) {
    || (c.SetUserHash? && !HasUser(s.users, c.id))
    || (c.SetCollectionTitle? && !HasCollection(s.collections, c.collectionId))
    || (c.SetPhotoTitle? && !HasPhoto(s.photos, c.collectionId, c.photoId))
  }

  /** No call of `cs` throws whatever the state. */
  predicate NoneThrows(cs: seq<Call>, env: Env) {
    forall i :: 0 <= i < |cs| ==> !Throws(cs[i], env)
  }

  /** Whether call `c` throws in state `s`. */
  predicate Fails(s: Store, c: Call, env: Env) {
    Throws(c, env) || Missing(s, c)
  }

  /** The URLs of the files whose upload goes through. */
  function StoredUrls(files: seq<File>, env: Env): set<string> {
    set f | f in files && !Throws(Upload(f), env) :: env.blobUrl(f)
  }

  /** `StoredUrls` of a list is that of its head joined with that of its tail. */
  lemma StoredCons(files: seq<File>, env: Env)
    requires files != []
    ensures StoredUrls(files, env) == StoredUrls([files[0]], env) + StoredUrls(files[1..], env)
    ensures StoredUrls([files[0]], env) == if Throws(Upload(files[0]), env) then {} else {env.blobUrl(files[0])}
  {
    assert files == [files[0]] + files[1..];
  }

  /** The records a `where("name", "==", name)` query returns, in table order. */
  function Named(users: seq<UserRecord>, name: string): (r: seq<UserRecord>)
  {
    if users == [] then []
    else (if users[0].name == name then [users[0]] else []) + Named(users[1..], name)
  }

  /** The collections a `where("userName", "==", userName)` query returns, in table order; the match is exact. */
  function Owned(collections: seq<CollectionDoc>, userName: string): seq<CollectionDoc>
  {
    if collections == [] then []
    else (if collections[0].userName == userName then [collections[0]] else []) + Owned(collections[1..], userName)
  }

  /** The photo documents `getDocs(collections/{collectionId}/photos)` returns, in table order. */
  function PhotosOf(photos: seq<PhotoDoc>, collectionId: DocId): seq<PhotoDoc>
  {
    if photos == [] then []
    else (if photos[0].collectionId == collectionId then [photos[0]] else []) + PhotosOf(photos[1..], collectionId)
  }

  /** A collection is returned exactly when its owner is `userName`, whatever the casing of either. */
  lemma {:induction false} OwnedMembers(collections: seq<CollectionDoc>, userName: string, c: CollectionDoc)
    ensures c in Owned(collections, userName) <==> c in collections && c.userName == userName
  {
    if collections != [] {
      OwnedMembers(collections[1..], userName, c);
      assert collections == [collections[0]] + collections[1..];
    }
  }

  /** A photo is returned exactly when it sits in that collection. */
  lemma {:induction false} PhotosOfMembers(photos: seq<PhotoDoc>, collectionId: DocId, p: PhotoDoc)
    ensures p in PhotosOf(photos, collectionId) <==> p in photos && p.collectionId == collectionId
  {
    if photos != [] {
      PhotosOfMembers(photos[1..], collectionId, p);
      assert photos == [photos[0]] + photos[1..];
    }
  }

  /** One `deleteDoc` per listed photo of a collection, in list order. */
  function DeletePhotoCalls(collectionId: DocId, photos: seq<PhotoDoc>): (r: seq<Call>)
    ensures |r| == |photos|
    ensures forall i :: 0 <= i < |r| ==> r[i] == DeletePhotoDoc(collectionId, photos[i].id)
  {
    if photos == [] then []
    else [DeletePhotoDoc(collectionId, photos[0].id)] + DeletePhotoCalls(collectionId, photos[1..])
  }

  /**
   * The response the DELETE route gives the client's request for `urls`
   * (always a JSON array); it is a 2xx exactly when `del` was called and
   * succeeded, which is when the blobs go.
   */
  function BlobResponse(urls: seq<string>, env: Env): (r: BlobRoute.Response)
    ensures r.Ok() <==> env.blobToken && env.delError.None?
  {
    BlobRoute.Delete(env.blobToken, BlobRoute.UrlList(urls), env.delError)
  }

  /** The user records a seeding batch writes, with consecutive fresh ids. */
  function NewUsers(entries: seq<(string, PasswordHash)>, first: DocId): (r: seq<UserRecord>)
    ensures |r| == |entries|
    ensures forall i :: 0 <= i < |r| ==> r[i] == UserRecord(first + i, entries[i].0, Some(entries[i].1))
  {
    if entries == [] then []
    else [UserRecord(first, entries[0].0, Some(entries[0].1))] + NewUsers(entries[1..], first + 1)
  }

  /** `deleteDoc(users/{id})`. */
  function WithoutUser(users: seq<UserRecord>, id: DocId): (r: seq<UserRecord>)
  {
    if users == [] then []
    else (if users[0].id == id then [] else [users[0]]) + WithoutUser(users[1..], id)
  }

  /** `updateDoc(users/{id}, { passwordHash })`. */
  function WithHash(users: seq<UserRecord>, id: DocId, h: PasswordHash): (r: seq<UserRecord>)
    ensures |r| == |users|
    ensures forall i :: 0 <= i < |r| ==>
              r[i] == if users[i].id == id then users[i].(passwordHash := Some(h)) else users[i]
  {
    if users == [] then []
    else [if users[0].id == id then users[0].(passwordHash := Some(h)) else users[0]]
         + WithHash(users[1..], id, h)
  }

  /** `deleteDoc(collections/{id})`. */
  function WithoutCollection(collections: seq<CollectionDoc>, id: DocId): (r: seq<CollectionDoc>)
  {
    if collections == [] then []
    else (if collections[0].id == id then [] else [collections[0]]) + WithoutCollection(collections[1..], id)
  }

  /** `updateDoc(collections/{id}, { title })`. */
  function RetitledCollection(collections: seq<CollectionDoc>, id: DocId, title: string): (r: seq<CollectionDoc>)
    ensures |r| == |collections|
    ensures forall i :: 0 <= i < |r| ==>
              r[i] == if collections[i].id == id then collections[i].(title := title) else collections[i]
  {
    if collections == [] then []
    else [if collections[0].id == id then collections[0].(title := title) else collections[0]]
         + RetitledCollection(collections[1..], id, title)
  }

  /** `deleteDoc(collections/{collectionId}/photos/{id})`. */
  function WithoutPhoto(photos: seq<PhotoDoc>, collectionId: DocId, id: DocId): (r: seq<PhotoDoc>)
  {
    if photos == [] then []
    else (if photos[0].collectionId == collectionId && photos[0].id == id then [] else [photos[0]])
         + WithoutPhoto(photos[1..], collectionId, id)
  }

  /** `updateDoc(collections/{collectionId}/photos/{id}, { title })`. */
  function RetitledPhoto(photos: seq<PhotoDoc>, collectionId: DocId, id: DocId, title: string): (r: seq<PhotoDoc>)
    ensures |r| == |photos|
    ensures forall i :: 0 <= i < |r| ==>
              r[i] == if photos[i].collectionId == collectionId && photos[i].id == id
                      then photos[i].(title := title) else photos[i]
  {
    if photos == [] then []
    else [if photos[0].collectionId == collectionId && photos[0].id == id then photos[0].(title := title) else photos[0]]
         + RetitledPhoto(photos[1..], collectionId, id, title)
  }

  /** `deleteDoc(collections/{c}/photos/{p}/variants/{id})`. */
  function WithoutVariant(variants: seq<VariantDoc>, collectionId: DocId, photoId: DocId, id: DocId): (r: seq<VariantDoc>)
  {
    if variants == [] then []
    else (if variants[0].collectionId == collectionId && variants[0].photoId == photoId && variants[0].id == id
          then [] else [variants[0]])
         + WithoutVariant(variants[1..], collectionId, photoId, id)
  }

  /** The state after call `c`; a call that throws or only reads leaves it unchanged. */
  function Effect(s: Store, c: Call, env: Env): Store {
    if Fails(s, c, env) || c.IsRead() then s else Apply(s, c, env)
  }

  /** The change a write that goes through makes. */
  function Apply(s: Store, c: Call, env: Env): Store {
    match c
      case CommitUsers(entries) =>
        s.(users := s.users + NewUsers(entries, s.nextId), nextId := s.nextId + |entries|)
      case AddUserDoc(name, h) =>
        s.(users := s.users + [UserRecord(s.nextId, name, Some(h))], nextId := s.nextId + 1)
      case SetUserHash(id, h) => s.(users := WithHash(s.users, id, h))
      case DeleteUserDoc(id) => s.(users := WithoutUser(s.users, id))
      case AddCollectionDoc(title, userName) =>
        s.(collections := s.collections + [CollectionDoc(s.nextId, title, userName, env.now)],
           nextId := s.nextId + 1)
      case SetCollectionTitle(id, title) => s.(collections := RetitledCollection(s.collections, id, title))
      case DeleteCollectionDoc(id) => s.(collections := WithoutCollection(s.collections, id))
      case AddPhotoDoc(cid, src, title) =>
        s.(photos := s.photos + [PhotoDoc(cid, s.nextId, src, title, env.now)], nextId := s.nextId + 1)
      case SetPhotoTitle(cid, id, title) => s.(photos := RetitledPhoto(s.photos, cid, id, title))
      case DeletePhotoDoc(cid, id) => s.(photos := WithoutPhoto(s.photos, cid, id))
      case AddVariantDoc(cid, pid, src) =>
        s.(variants := s.variants + [VariantDoc(cid, pid, s.nextId, src, env.now)], nextId := s.nextId + 1)
      case DeleteVariantDoc(cid, pid, id) => s.(variants := WithoutVariant(s.variants, cid, pid, id))
      case Upload(f) => s.(blobs := s.blobs + {env.blobUrl(f)})
      case DeleteBlobs(urls) =>
        if env.blobToken && env.delError.None? then s.(blobs := s.blobs - set u | u in urls) else s
      case _ => s
  }

  /** The state after issuing `calls` one after the other. */
  function Run(s: Store, calls: seq<Call>, env: Env): Store
    decreases |calls|
  {
    if calls == [] then s else Run(Effect(s, calls[0], env), calls[1..], env)
  }

  lemma {:induction false} RunAppend(s: Store, a: seq<Call>, b: seq<Call>, env: Env)
    ensures Run(s, a + b, env) == Run(Run(s, a, env), b, env)
    decreases |a|
  {
    if a != [] {
      assert (a + b)[1..] == a[1..] + b;
      RunAppend(Effect(s, a[0], env), a[1..], b, env);
    } else {
      assert a + b == b;
    }
  }

  lemma RunOne(s: Store, c: Call, env: Env)
    ensures Run(s, [c], env) == Effect(s, c, env)
  {
    assert [c][1..] == [];
  }

  lemma RunSnoc(s: Store, a: seq<Call>, c: Call, env: Env)
    ensures Run(s, a + [c], env) == Effect(Run(s, a, env), c, env)
  {
    RunAppend(s, a, [c], env);
    RunOne(Run(s, a, env), c, env);
  }

  /** The effect of one upload. */
  lemma UploadEffect(s: Store, f: File, env: Env)
    ensures Effect(s, Upload(f), env) == if Throws(Upload(f), env) then s else s.(blobs := s.blobs + {env.blobUrl(f)})
  {
  }
  /** The effect of adding one variant document. */
  lemma AddVariantEffect(s: Store, c: DocId, p: DocId, u: string, env: Env)
    ensures Effect(s, AddVariantDoc(c, p, u), env) ==
      if Throws(AddVariantDoc(c, p, u), env) then s else s.(variants := s.variants + [VariantDoc(c, p, s.nextId, u, env.now)], nextId := s.nextId + 1)
  {
  }
  /** The effect of the blob DELETE request for `urls`. */
  lemma DeleteBlobsEffect(s: Store, urls: seq<string>, env: Env)
    ensures Effect(s, DeleteBlobs(urls), env)
            == if Throws(DeleteBlobs(urls), env) || !(env.blobToken && env.delError.None?) then s
               else s.(blobs := s.blobs - set u | u in urls)
  {
  }

  /** The effect of deleting one variant document. */
  lemma DeleteVariantEffect(s: Store, c: DocId, p: DocId, id: DocId, env: Env)
    ensures Effect(s, DeleteVariantDoc(c, p, id), env)
            == if Throws(DeleteVariantDoc(c, p, id), env) then s else s.(variants := WithoutVariant(s.variants, c, p, id))
  {
  }

  /** The effect of adding one photo document. */
  lemma AddPhotoEffect(s: Store, c: DocId, src: string, title: string, env: Env)
    ensures Effect(s, AddPhotoDoc(c, src, title), env) ==
      if Throws(AddPhotoDoc(c, src, title), env) then s
      else s.(photos := s.photos + [PhotoDoc(c, s.nextId, src, title, env.now)], nextId := s.nextId + 1)
  {
  }

  /** The effect of deleting one photo document. */
  lemma DeletePhotoEffect(s: Store, c: DocId, id: DocId, env: Env)
    ensures Effect(s, DeletePhotoDoc(c, id), env)
            == if Throws(DeletePhotoDoc(c, id), env) then s else s.(photos := WithoutPhoto(s.photos, c, id))
  {
  }

  /** The effect of deleting one collection document. */
  lemma DeleteCollectionEffect(s: Store, id: DocId, env: Env)
    ensures Effect(s, DeleteCollectionDoc(id), env)
            == if Throws(DeleteCollectionDoc(id), env) then s else s.(collections := WithoutCollection(s.collections, id))
  {
  }

  lemma RunTwo(s: Store, a: Call, b: Call, env: Env)
    ensures Run(s, [a, b], env) == Effect(Effect(s, a, env), b, env)
  {
    assert [a, b][1..] == [b];
    RunOne(Effect(s, a, env), b, env);
    assert [b][1..] == [];
  }
  /** A write issued after calls that only read or throw acts on the state they started from. */
  lemma RunWriteAfterReads(s: Store, lookups: seq<Call>, w: Call, env: Env)
    requires forall i :: 0 <= i < |lookups| ==> lookups[i].IsRead() || lookups[i] in env.faults
    ensures Run(s, lookups + [w], env) == Effect(s, w, env)
  {
    RunSnoc(s, lookups, w, env);
    RunInert(s, lookups, env);
  }

  /** Calls that only read, or that throw, leave the stored data as it was. */
  lemma {:induction false} RunInert(s: Store, calls: seq<Call>, env: Env)
    requires forall i :: 0 <= i < |calls| ==> calls[i].IsRead() || calls[i] in env.faults
    ensures Run(s, calls, env) == s
    decreases |calls|
  {
    if calls != [] {
      assert Effect(s, calls[0], env) == s;
      RunInert(s, calls[1..], env);
    }
  }

  /** `photos` without those of collection `collectionId` whose id is in `ids`. */
  function Dropped(photos: seq<PhotoDoc>, collectionId: DocId, ids: set<DocId>): seq<PhotoDoc>
  {
    if photos == [] then []
    else (if photos[0].collectionId == collectionId && photos[0].id in ids then [] else [photos[0]])
         + Dropped(photos[1..], collectionId, ids)
  }

  /** The ids of a list of photos. */
  function PhotoIds(photos: seq<PhotoDoc>): set<DocId> {
    set p | p in photos :: p.id
  }

  lemma {:induction false} DroppedMembers(photos: seq<PhotoDoc>, collectionId: DocId, ids: set<DocId>, p: PhotoDoc)
    ensures p in Dropped(photos, collectionId, ids) <==> p in photos && !(p.collectionId == collectionId && p.id in ids)
  {
    if photos != [] {
      DroppedMembers(photos[1..], collectionId, ids, p);
      assert photos == [photos[0]] + photos[1..];
    }
  }

  lemma {:induction false} DroppedNothing(photos: seq<PhotoDoc>, collectionId: DocId)
    ensures Dropped(photos, collectionId, {}) == photos
  {
    if photos != [] {
      DroppedNothing(photos[1..], collectionId);
      assert photos == [photos[0]] + photos[1..];
    }
  }

  lemma {:induction false} DroppedAfterWithout(photos: seq<PhotoDoc>, collectionId: DocId, id: DocId, ids: set<DocId>)
    ensures Dropped(WithoutPhoto(photos, collectionId, id), collectionId, ids) == Dropped(photos, collectionId, {id} + ids)
  {
    if photos != [] {
      DroppedAfterWithout(photos[1..], collectionId, id, ids);
      var head := if photos[0].collectionId == collectionId && photos[0].id == id then [] else [photos[0]];
      assert WithoutPhoto(photos, collectionId, id) == head + WithoutPhoto(photos[1..], collectionId, id);
      DroppedAppend(head, WithoutPhoto(photos[1..], collectionId, id), collectionId, ids);
    }
  }

  lemma {:induction false} DroppedAppend(a: seq<PhotoDoc>, b: seq<PhotoDoc>, collectionId: DocId, ids: set<DocId>)
    ensures Dropped(a + b, collectionId, ids) == Dropped(a, collectionId, ids) + Dropped(b, collectionId, ids)
  {
    if a == [] {
      assert a + b == b;
    } else {
      assert (a + b)[1..] == a[1..] + b;
      DroppedAppend(a[1..], b, collectionId, ids);
    }
  }

  lemma NoneThrowsTail(cs: seq<Call>, env: Env)
    requires cs != [] && NoneThrows(cs, env)
    ensures NoneThrows(cs[1..], env)
  {
    forall i | 0 <= i < |cs[1..]| ensures !Throws(cs[1..][i], env) {
      assert cs[1..][i] == cs[i + 1];
    }
  }

  lemma PhotoIdsCons(photos: seq<PhotoDoc>)
    requires photos != []
    ensures PhotoIds(photos) == {photos[0].id} + PhotoIds(photos[1..])
  {
    assert photos == [photos[0]] + photos[1..];
  }

  /** Deleting the listed photos of a collection, when no delete throws, drops exactly those documents. */
  lemma {:induction false} DeletedPhotos(s: Store, collectionId: DocId, photos: seq<PhotoDoc>, env: Env)
    requires NoneThrows(DeletePhotoCalls(collectionId, photos), env)
    ensures Run(s, DeletePhotoCalls(collectionId, photos), env).photos == Dropped(s.photos, collectionId, PhotoIds(photos))
    decreases |photos|
  {
    var calls := DeletePhotoCalls(collectionId, photos);
    if photos == [] {
      assert PhotoIds(photos) == {};
      DroppedNothing(s.photos, collectionId);
    } else {
      var id := photos[0].id;
      DeletePhotoEffect(s, collectionId, id, env);
      var s1 := Effect(s, calls[0], env);
      assert calls[1..] == DeletePhotoCalls(collectionId, photos[1..]);
      NoneThrowsTail(calls, env);
      DeletedPhotos(s1, collectionId, photos[1..], env);
      DroppedAfterWithout(s.photos, collectionId, id, PhotoIds(photos[1..]));
      PhotoIdsCons(photos);
    }
  }

  /**
   * Deleting every photo the query returned for a collection, when no
   * delete throws, leaves no photo document of that collection behind.
   */
  lemma ClearedCollection(s: Store, collectionId: DocId, env: Env)
    requires NoneThrows(DeletePhotoCalls(collectionId, PhotosOf(s.photos, collectionId)), env)
    ensures forall p :: p in Run(s, DeletePhotoCalls(collectionId, PhotosOf(s.photos, collectionId)), env).photos
                        ==> p.collectionId != collectionId
  {
    var listed := PhotosOf(s.photos, collectionId);
    DeletedPhotos(s, collectionId, listed, env);
    var t := Run(s, DeletePhotoCalls(collectionId, listed), env);
    forall p | p in t.photos ensures p.collectionId != collectionId {
      DroppedMembers(s.photos, collectionId, PhotoIds(listed), p);
      PhotosOfMembers(s.photos, collectionId, p);
    }
  }

  /** The calls that write the user table. */
  predicate WritesUsers(c: Call) {
    c.CommitUsers? || c.AddUserDoc? || c.SetUserHash? || c.DeleteUserDoc?
  }

  /** Calls that do not write the user table leave it as it was. */
  lemma {:induction false} UsersUntouched(s: Store, calls: seq<Call>, env: Env)
    requires forall i :: 0 <= i < |calls| ==> !WritesUsers(calls[i])
    ensures Run(s, calls, env).users == s.users
    decreases |calls|
  {
    if calls != [] {
      assert Effect(s, calls[0], env).users == s.users;
      UsersUntouched(Effect(s, calls[0], env), calls[1..], env);
    }
  }

  /** A call that could take collection `c` away or change it: its delete or its retitle. */
  predicate Touches(call: Call, c: CollectionDoc) {
    (call.DeleteCollectionDoc? || call.SetCollectionTitle?) && call.collectionId == c.id
  }

  /** A collection document stays when no call deletes or retitles it. */
  lemma {:induction false} CollectionKept(s: Store, calls: seq<Call>, env: Env, c: CollectionDoc)
    requires c in s.collections
    requires forall i :: 0 <= i < |calls| ==> !Touches(calls[i], c)
    ensures c in Run(s, calls, env).collections
    decreases |calls|
  {
    if calls != [] {
      KeptByOne(s, calls[0], env, c);
      CollectionKept(Effect(s, calls[0], env), calls[1..], env, c);
    }
  }

  lemma KeptByOne(s: Store, call: Call, env: Env, c: CollectionDoc)
    requires c in s.collections && !Touches(call, c)
    ensures c in Effect(s, call, env).collections
  {
    if !Fails(s, call, env) && !call.IsRead() {
      var k :| 0 <= k < |s.collections| && s.collections[k] == c;
      match call {
        case DeleteCollectionDoc(id) =>
          WithoutCollectionKeeps(s.collections, id, c);
        case SetCollectionTitle(id, t) =>
          assert RetitledCollection(s.collections, id, t)[k] == c;
        case AddCollectionDoc(t, u) =>
          assert (s.collections + [CollectionDoc(s.nextId, t, u, env.now)])[k] == c;
        case _ =>
      }
    }
  }

  lemma {:induction false} WithoutCollectionKeeps(collections: seq<CollectionDoc>, id: DocId, c: CollectionDoc)
    requires c in collections && c.id != id
    ensures c in WithoutCollection(collections, id)
  {
    if collections[0] != c {
      WithoutCollectionKeeps(collections[1..], id, c);
    }
  }

  /** Concatenation is associative; the loops that build traces cite it. */
  lemma Concat3<T>(a: seq<T>, b: seq<T>, c: seq<T>)
    ensures a + (b + c) == (a + b) + c
  {
  }

  /** No two user records share an id. */
  ghost predicate DistinctIds(users: seq<UserRecord>) {
    forall i, j :: 0 <= i < j < |users| ==> users[i].id != users[j].id
  }

  /** No two collection documents share an id. */
  ghost predicate DistinctCollectionIds(collections: seq<CollectionDoc>) {
    forall i, j :: 0 <= i < j < |collections| ==> collections[i].id != collections[j].id
  }

  /** The store as the service keeps it: every id below the counter, user and collection ids distinct. */
  ghost predicate Valid(s: Store) {
    && (forall u :: u in s.users ==> u.id < s.nextId)
    && DistinctIds(s.users)
    && (forall c :: c in s.collections ==> c.id < s.nextId)
    && DistinctCollectionIds(s.collections)
  }

  lemma DistinctIdsAppend(a: seq<UserRecord>, b: seq<UserRecord>)
    requires DistinctIds(a) && DistinctIds(b)
    requires forall x, y :: x in a && y in b ==> x.id != y.id
    ensures DistinctIds(a + b)
  {
    forall i, j | 0 <= i < j < |a + b| ensures (a + b)[i].id != (a + b)[j].id {
      if j < |a| {
        assert (a + b)[i] == a[i] && (a + b)[j] == a[j];
      } else if i < |a| {
        assert (a + b)[i] == a[i] && (a + b)[j] == b[j - |a|];
        assert a[i] in a && b[j - |a|] in b;
      } else {
        assert (a + b)[i] == b[i - |a|] && (a + b)[j] == b[j - |a|];
      }
    }
  }

  lemma DistinctCollectionIdsAppend(a: seq<CollectionDoc>, b: seq<CollectionDoc>)
    requires DistinctCollectionIds(a) && DistinctCollectionIds(b)
    requires forall x, y :: x in a && y in b ==> x.id != y.id
    ensures DistinctCollectionIds(a + b)
  {
    forall i, j | 0 <= i < j < |a + b| ensures (a + b)[i].id != (a + b)[j].id {
      if j < |a| {
        assert (a + b)[i] == a[i] && (a + b)[j] == a[j];
      } else if i < |a| {
        assert (a + b)[i] == a[i] && (a + b)[j] == b[j - |a|];
        assert a[i] in a && b[j - |a|] in b;
      } else {
        assert (a + b)[i] == b[i - |a|] && (a + b)[j] == b[j - |a|];
      }
    }
  }

  /** `deleteDoc(users/{id})` keeps only records it was given, none with that id, and keeps ids distinct. */
  lemma {:induction false} WithoutUserSub(users: seq<UserRecord>, id: DocId)
    ensures forall x :: x in WithoutUser(users, id) ==> x in users && x.id != id
    ensures DistinctIds(users) ==> DistinctIds(WithoutUser(users, id))
  {
    if users != [] {
      var tail := users[1..];
      WithoutUserSub(tail, id);
      var rest := WithoutUser(tail, id);
      assert users == [users[0]] + tail;
      if DistinctIds(users) && users[0].id != id {
        forall x | x in rest ensures x.id != users[0].id {
          var j :| 0 <= j < |tail| && tail[j] == x;
          assert users[j + 1] == x;
        }
        DistinctIdsAppend([users[0]], rest);
      }
    }
  }

  /** `deleteDoc(collections/{id})` keeps only documents it was given, none with that id, and keeps ids distinct. */
  lemma {:induction false} WithoutCollectionSub(collections: seq<CollectionDoc>, id: DocId)
    ensures forall x :: x in WithoutCollection(collections, id) ==> x in collections && x.id != id
    ensures DistinctCollectionIds(collections) ==> DistinctCollectionIds(WithoutCollection(collections, id))
  {
    if collections != [] {
      var tail := collections[1..];
      WithoutCollectionSub(tail, id);
      var rest := WithoutCollection(tail, id);
      assert collections == [collections[0]] + tail;
      if DistinctCollectionIds(collections) && collections[0].id != id {
        forall x | x in rest ensures x.id != collections[0].id {
          var j :| 0 <= j < |tail| && tail[j] == x;
          assert collections[j + 1] == x;
        }
        DistinctCollectionIdsAppend([collections[0]], rest);
      }
    }
  }

  /** `deleteDoc` of a photo keeps only documents it was given. */
  lemma {:induction false} WithoutPhotoSub(photos: seq<PhotoDoc>, collectionId: DocId, id: DocId)
    ensures forall p :: p in WithoutPhoto(photos, collectionId, id) ==> p in photos
  {
    if photos != [] {
      WithoutPhotoSub(photos[1..], collectionId, id);
      assert photos == [photos[0]] + photos[1..];
    }
  }

  /** A seeding batch's records have distinct ids from `first` up to the counter it leaves. */
  lemma NewUsersFresh(entries: seq<(string, PasswordHash)>, first: DocId)
    ensures DistinctIds(NewUsers(entries, first))
    ensures forall x :: x in NewUsers(entries, first) ==> first <= x.id < first + |entries|
  {
    var r := NewUsers(entries, first);
    forall x | x in r ensures first <= x.id < first + |entries| {
      var i :| 0 <= i < |r| && r[i] == x;
    }
  }

  lemma CommitValid(s: Store, entries: seq<(string, PasswordHash)>)
    requires Valid(s)
    ensures Valid(s.(users := s.users + NewUsers(entries, s.nextId), nextId := s.nextId + |entries|))
  {
    NewUsersFresh(entries, s.nextId);
    DistinctIdsAppend(s.users, NewUsers(entries, s.nextId));
  }

  lemma AddUserValid(s: Store, name: string, h: PasswordHash)
    requires Valid(s)
    ensures Valid(s.(users := s.users + [UserRecord(s.nextId, name, Some(h))], nextId := s.nextId + 1))
  {
    DistinctIdsAppend(s.users, [UserRecord(s.nextId, name, Some(h))]);
  }

  lemma HashValid(s: Store, id: DocId, h: PasswordHash)
    requires Valid(s)
    ensures Valid(s.(users := WithHash(s.users, id, h)))
  {
    var r := WithHash(s.users, id, h);
    forall x | x in r ensures x.id < s.nextId {
      var i :| 0 <= i < |r| && r[i] == x;
      assert s.users[i] in s.users;
    }
  }

  lemma DeleteUserValid(s: Store, id: DocId)
    requires Valid(s)
    ensures Valid(s.(users := WithoutUser(s.users, id)))
  {
    WithoutUserSub(s.users, id);
  }

  lemma AddCollectionValid(s: Store, title: string, userName: string, now: int)
    requires Valid(s)
    ensures Valid(s.(collections := s.collections + [CollectionDoc(s.nextId, title, userName, now)], nextId := s.nextId + 1))
  {
    DistinctCollectionIdsAppend(s.collections, [CollectionDoc(s.nextId, title, userName, now)]);
  }

  lemma RetitleValid(s: Store, id: DocId, title: string)
    requires Valid(s)
    ensures Valid(s.(collections := RetitledCollection(s.collections, id, title)))
  {
    var r := RetitledCollection(s.collections, id, title);
    forall x | x in r ensures x.id < s.nextId {
      var i :| 0 <= i < |r| && r[i] == x;
      assert s.collections[i] in s.collections;
    }
  }

  lemma DeleteCollectionValid(s: Store, id: DocId)
    requires Valid(s)
    ensures Valid(s.(collections := WithoutCollection(s.collections, id)))
  {
    WithoutCollectionSub(s.collections, id);
  }

  /** A write that goes through keeps the store valid. */
  lemma ApplyValid(s: Store, c: Call, env: Env)
    requires Valid(s)
    ensures Valid(Apply(s, c, env))
  {
    match c {
      case CommitUsers(entries) => CommitValid(s, entries);
      case AddUserDoc(name, h) => AddUserValid(s, name, h);
      case SetUserHash(id, h) => HashValid(s, id, h);
      case DeleteUserDoc(id) => DeleteUserValid(s, id);
      case AddCollectionDoc(title, userName) => AddCollectionValid(s, title, userName, env.now);
      case SetCollectionTitle(id, title) => RetitleValid(s, id, title);
      case DeleteCollectionDoc(id) => DeleteCollectionValid(s, id);
      case _ =>
    }
  }

  /** Every call keeps the store valid. */
  lemma EffectValid(s: Store, c: Call, env: Env)
    requires Valid(s)
    ensures Valid(Effect(s, c, env))
  {
    if !(Fails(s, c, env) || c.IsRead()) {
      ApplyValid(s, c, env);
    }
  }

  /** Any run of calls keeps the store valid. */
  lemma {:induction false} RunValid(s: Store, calls: seq<Call>, env: Env)
    requires Valid(s)
    ensures Valid(Run(s, calls, env))
    decreases |calls|
  {
    if calls != [] {
      EffectValid(s, calls[0], env);
      RunValid(Effect(s, calls[0], env), calls[1..], env);
    }
  }

  /** The calls that neither add nor change a collection or photo document; they can only delete them. */
  predicate OnlyDrops(c: Call) {
    !c.AddCollectionDoc? && !c.SetCollectionTitle? && !c.AddPhotoDoc? && !c.SetPhotoTitle?
  }

  lemma EffectOnlyDrops(s: Store, c: Call, env: Env)
    requires OnlyDrops(c)
    ensures forall x :: x in Effect(s, c, env).collections ==> x in s.collections
    ensures forall p :: p in Effect(s, c, env).photos ==> p in s.photos
  {
    if !(Fails(s, c, env) || c.IsRead()) {
      match c {
        case DeleteCollectionDoc(id) => WithoutCollectionSub(s.collections, id);
        case DeletePhotoDoc(cid, id) => WithoutPhotoSub(s.photos, cid, id);
        case _ =>
      }
    }
  }

  /** Calls that only delete leave only collection and photo documents that were there before. */
  lemma {:induction false} RunOnlyDrops(s: Store, calls: seq<Call>, env: Env)
    requires forall i :: 0 <= i < |calls| ==> OnlyDrops(calls[i])
    ensures forall x :: x in Run(s, calls, env).collections ==> x in s.collections
    ensures forall p :: p in Run(s, calls, env).photos ==> p in s.photos
    decreases |calls|
  {
    if calls != [] {
      EffectOnlyDrops(s, calls[0], env);
      RunOnlyDrops(Effect(s, calls[0], env), calls[1..], env);
    }
  }

  /** The class through which the client reaches the hosted services. */
  class Backend {
    var store: Store

    constructor (initial: Store)
      ensures store == initial
    {
      store := initial;
    }

    /** Issue one external call; `ok` is false when it throws. */
    method Perform(c: Call, env: Env) returns (ok: bool)
      modifies this
      ensures ok == !Fails(old(store), c, env)
      ensures store == Effect(old(store), c, env)
      ensures Valid(old(store)) ==> Valid(store)
    {
      if Valid(store) {
        EffectValid(store, c, env);
      }
      ok := !Fails(store, c, env);
      store := Effect(store, c, env);
    }

    /**
     * Issue call `c` as the next step of a handler that started in state
     * `start` and has issued `trace` so far.
     */
    method Issue(c: Call, env: Env, ghost start: Store, trace: seq<Call>) returns (ok: bool, trace': seq<Call>)
      requires store == Run(start, trace, env)
      modifies this
      ensures ok == !Fails(old(store), c, env)
      ensures store == Effect(old(store), c, env)
      ensures trace' == trace + [c] && store == Run(start, trace', env)
    {
      ok := Perform(c, env);
      RunSnoc(start, trace, c, env);
      trace' := trace + [c];
    }

    /**
     * Issue every call of `cs`, one after the other, as a `Promise.all`
     * does: a call that throws does not stop the later ones, and the whole
     * fails when any call threw.
     */
    method IssueAll(cs: seq<Call>, env: Env, ghost start: Store, trace: seq<Call>) returns (ok: bool, trace': seq<Call>)
      requires store == Run(start, trace, env)
      requires forall i :: 0 <= i < |cs| ==> !cs[i].IsUpdate()
      modifies this
      ensures ok == NoneThrows(cs, env)
      ensures store == Run(old(store), cs, env)
      ensures trace' == trace + cs && store == Run(start, trace', env)
    {
      ok, trace' := true, trace;
      var i := 0;
      while i < |cs|
        invariant 0 <= i <= |cs|
        invariant trace' == trace + cs[..i]
        invariant store == Run(start, trace', env)
        invariant store == Run(old(store), cs[..i], env)
        invariant ok == NoneThrows(cs[..i], env)
      {
        var one;
        one, trace' := Issue(cs[i], env, start, trace');
        RunSnoc(old(store), cs[..i], cs[i], env);
        assert cs[..i + 1] == cs[..i] + [cs[i]];
        ok := ok && one;
        i := i + 1;
      }
      assert cs[..|cs|] == cs;
    }
  }
}
