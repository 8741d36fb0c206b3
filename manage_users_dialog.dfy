/**
 * The user management dialog: deleting a user together with what they
 * own. The collections are found by an exact owner match and processed one
 * at a time (photo documents, then the collection document); the blob URLs
 * gathered on the way go in one DELETE request at the end, whose failure
 * is only reported; then `removeUser` is started without waiting for it.
 */
module ManageUsers {
  import opened Wrappers
  import opened Text
  import opened Cloud
  import UserStore

  const RemovingTitle := "Removing User..."
  const PartialFailureTitle := "Partial Failure"
  const RemovedTitle := "User Removed"
  const ErrorTitle := "Error"

  /** What the dialog does after a removal: log out (the user removed themself) or refresh the list. */
  datatype FollowUp = LogOut | RefreshList

  /** How far the cascade got: whether every step went through, the blob URLs gathered and the calls made. */
  datatype Progress = Progress(ok: bool, urls: seq<string>, calls: seq<Call>)

  /** The notices, the follow-up and the calls of one confirmed delete. */
  datatype Outcome = Outcome(notices: seq<Toast>, follow: Option<FollowUp>, calls: seq<Call>)

  /** The `src` of every photo whose `src` is truthy (not empty), in order. */
  function TruthySrcs(photos: seq<PhotoDoc>): (r: seq<string>)
    ensures |r| <= |photos|
    ensures forall i :: 0 <= i < |r| ==> r[i] != []
  {
    if photos == [] then []
    else (if photos[0].src != [] then [photos[0].src] else []) + TruthySrcs(photos[1..])
  }

  /** A URL is gathered exactly when it is the non-empty `src` of one of the photos. */
  lemma {:induction false} TruthySrcsMembers(photos: seq<PhotoDoc>, u: string)
    ensures u in TruthySrcs(photos) <==> u != [] && exists p :: p in photos && p.src == u
  {
    if photos != [] {
      TruthySrcsMembers(photos[1..], u);
      assert photos == [photos[0]] + photos[1..];
    }
  }

  /** One turn of the loop: the photo query, the photo deletes, the collection delete. */
  function CollectionStep(s: Store, c: CollectionDoc, env: Env): Progress {
    var q := ListPhotos(c.id);
    if Throws(q, env) then Progress(false, [], [q])
    else
      var photos := PhotosOf(s.photos, c.id);
      var dels := DeletePhotoCalls(c.id, photos);
      if !NoneThrows(dels, env) then Progress(false, TruthySrcs(photos), [q] + dels)
      else
        var d := DeleteCollectionDoc(c.id);
        Progress(!Throws(d, env), TruthySrcs(photos), [q] + dels + [d])
  }

  /** `a` followed by `b`. */
  function Then(a: Progress, b: Progress): Progress {
    Progress(b.ok, a.urls + b.urls, a.calls + b.calls)
  }

  /** The loop over the user's collections, from state `s`; a step that throws ends it. */
  function Cascade(s: Store, docs: seq<CollectionDoc>, env: Env): Progress
    decreases |docs|
  {
    if docs == [] then Progress(true, [], [])
    else
      var step := CollectionStep(s, docs[0], env);
      if !step.ok then step
      else Then(step, Cascade(Run(s, step.calls, env), docs[1..], env))
  }

  /**
   * What follows a cascade that went through, from state `s`: the blob
   * request when URLs were gathered, then `removeUser`.
   */
  function FinishSpec(s: Store, user: UserStore.User, currentUser: Option<string>, urls: seq<string>, env: Env): Outcome {
    var blob := if urls == [] then [] else [DeleteBlobs(urls)];
    if urls != [] && Throws(DeleteBlobs(urls), env) then Outcome([Toast(ErrorTitle, true)], None, blob)
    else
      var partial := if urls != [] && !BlobResponse(urls, env).Ok() then [Toast(PartialFailureTitle, true)] else [];
      var removal := UserStore.RemoveUserSpec(Run(s, blob, env), user.name, env).1;
      Outcome(partial + [Toast(RemovedTitle, false)],
              Some(if Some(user.name) == currentUser then LogOut else RefreshList),
              blob + removal)
  }

  /** The outcome of `handleConfirmDelete` for `user`, started in state `s`. */
  function DeleteUserSpec(s: Store, user: UserStore.User, currentUser: Option<string>, env: Env): Outcome {
    var removing := Toast(RemovingTitle, false);
    var q := FindCollections(user.name);
    if Throws(q, env) then Outcome([removing, Toast(ErrorTitle, true)], None, [q])
    else
      var c := Cascade(s, Owned(s.collections, user.name), env);
      if !c.ok then Outcome([removing, Toast(ErrorTitle, true)], None, [q] + c.calls)
      else
        var f := FinishSpec(Run(s, [q] + c.calls, env), user, currentUser, c.urls, env);
        Outcome([removing] + f.notices, f.follow, [q] + c.calls + f.calls)
  }

  /** Every call of `calls` satisfies `p`. */
  predicate Every(calls: seq<Call>, p: Call -> bool) {
    forall i :: 0 <= i < |calls| ==> p(calls[i])
  }

  lemma EveryAppend(a: seq<Call>, b: seq<Call>, p: Call -> bool)
    requires Every(a, p) && Every(b, p)
    ensures Every(a + b, p)
  {
  }

  /** No call of `calls` deletes or retitles collection `c`. */
  predicate Avoids(calls: seq<Call>, c: CollectionDoc) {
    forall i :: 0 <= i < |calls| ==> !Touches(calls[i], c)
  }

  lemma AvoidsAppend(a: seq<Call>, b: seq<Call>, c: CollectionDoc)
    requires Avoids(a, c) && Avoids(b, c)
    ensures Avoids(a + b, c)
  {
  }

  /** The calls a cascade makes. */
  predicate CascadeCall(c: Call) {
    c.ListPhotos? || c.DeletePhotoDoc? || c.DeleteCollectionDoc?
  }

  /** The calls a delete that failed can have made. */
  predicate BeforeRemoval(c: Call) {
    CascadeCall(c) || c.FindCollections? || c.DeleteBlobs?
  }

  /** The calls `removeUser` makes. */
  predicate RemovalCall(c: Call) {
    c.FindUsers? || c.DeleteUserDoc?
  }

  lemma StepCalls(s: Store, c: CollectionDoc, env: Env, other: CollectionDoc)
    ensures Every(CollectionStep(s, c, env).calls, CascadeCall)
    ensures c.id != other.id ==> Avoids(CollectionStep(s, c, env).calls, other)
  {
  }

  lemma CascadeBeforeRemoval(calls: seq<Call>)
    requires Every(calls, CascadeCall)
    ensures Every(calls, BeforeRemoval)
  {
  }

  /** Calls made before `removeUser` leave the user table alone. */
  lemma QuietUsers(s: Store, calls: seq<Call>, env: Env)
    requires Every(calls, BeforeRemoval)
    ensures Run(s, calls, env).users == s.users
  {
    UsersUntouched(s, calls, env);
  }

  /** Only the cascade's own kinds of call. */
  lemma {:induction false} CascadeCalls(s: Store, docs: seq<CollectionDoc>, env: Env)
    ensures Every(Cascade(s, docs, env).calls, CascadeCall)
    decreases |docs|
  {
    if docs != [] {
      var step := CollectionStep(s, docs[0], env);
      StepCalls(s, docs[0], env, docs[0]);
      if step.ok {
        CascadeCalls(Run(s, step.calls, env), docs[1..], env);
        EveryAppend(step.calls, Cascade(Run(s, step.calls, env), docs[1..], env).calls, CascadeCall);
      }
    }
  }

  /** A collection that is not listed is neither deleted nor retitled by the cascade. */
  lemma {:induction false} CascadeAvoids(s: Store, docs: seq<CollectionDoc>, env: Env, other: CollectionDoc)
    requires forall k :: 0 <= k < |docs| ==> docs[k].id != other.id
    ensures Avoids(Cascade(s, docs, env).calls, other)
    decreases |docs|
  {
    if docs != [] {
      var step := CollectionStep(s, docs[0], env);
      StepCalls(s, docs[0], env, other);
      if step.ok {
        CascadeAvoids(Run(s, step.calls, env), docs[1..], env, other);
        AvoidsAppend(step.calls, Cascade(Run(s, step.calls, env), docs[1..], env).calls, other);
      }
    }
  }

  /**
   * Within one collection the photo documents go first: the collection
   * document is deleted only when its photo query and every photo delete
   * went through, as the last call, when no photo document of the
   * collection is left.
   */
  lemma PhotosBeforeCollection(s: Store, c: CollectionDoc, env: Env)
    ensures var calls := CollectionStep(s, c, env).calls;
            var dels := DeletePhotoCalls(c.id, PhotosOf(s.photos, c.id));
            && (DeleteCollectionDoc(c.id) in calls <==> !Throws(ListPhotos(c.id), env) && NoneThrows(dels, env))
            && (DeleteCollectionDoc(c.id) in calls ==>
                  && calls[|calls| - 1] == DeleteCollectionDoc(c.id)
                  && forall p :: p in Run(s, calls[..|calls| - 1], env).photos ==> p.collectionId != c.id)
  {
    var q := ListPhotos(c.id);
    var dels := DeletePhotoCalls(c.id, PhotosOf(s.photos, c.id));
    var calls := CollectionStep(s, c, env).calls;
    assert DeleteCollectionDoc(c.id) !in [q] + dels;
    if !Throws(q, env) && NoneThrows(dels, env) {
      var d := DeleteCollectionDoc(c.id);
      assert calls[..|calls| - 1] == [q] + dels;
      RunAppend(s, [q], dels, env);
      RunOne(s, q, env);
      ClearedCollection(s, c.id, env);
    }
  }

  lemma ThenAssoc(a: Progress, b: Progress, c: Progress)
    ensures Then(Then(a, b), c) == Then(a, Then(b, c))
  {
    Concat3(a.urls, b.urls, c.urls);
    Concat3(a.calls, b.calls, c.calls);
  }

  /** With no failing call, one turn goes through and ends with its collection's delete. */
  lemma StepCompletes(s: Store, c: CollectionDoc, env: Env)
    requires env.faults == {}
    ensures CollectionStep(s, c, env).ok
    ensures DeleteCollectionDoc(c.id) in CollectionStep(s, c, env).calls
  {
    var dels := DeletePhotoCalls(c.id, PhotosOf(s.photos, c.id));
    assert NoneThrows(dels, env);
    var d := DeleteCollectionDoc(c.id);
    assert CollectionStep(s, c, env).calls == [ListPhotos(c.id)] + dels + [d];
  }

  /** With no failing call, the cascade deletes every listed collection document. */
  lemma {:induction false} CascadeCompletes(s: Store, docs: seq<CollectionDoc>, env: Env)
    requires env.faults == {}
    ensures Cascade(s, docs, env).ok
    ensures forall k :: 0 <= k < |docs| ==> DeleteCollectionDoc(docs[k].id) in Cascade(s, docs, env).calls
    decreases |docs|
  {
    if docs != [] {
      StepCompletes(s, docs[0], env);
      var step := CollectionStep(s, docs[0], env);
      var s1 := Run(s, step.calls, env);
      CascadeCompletes(s1, docs[1..], env);
      var rest := Cascade(s1, docs[1..], env);
      assert Cascade(s, docs, env) == Then(step, rest);
      forall k | 0 <= k < |docs| ensures DeleteCollectionDoc(docs[k].id) in step.calls + rest.calls {
        if k > 0 {
          assert docs[1..][k - 1] == docs[k];
        }
      }
    }
  }

  /** The cascade only reads photos and deletes documents. */
  lemma CascadeDrops(calls: seq<Call>)
    requires Every(calls, CascadeCall)
    ensures forall i :: 0 <= i < |calls| ==> OnlyDrops(calls[i])
  {
  }

  /** Neither collection `c`'s document nor any photo document of it is in `t`. */
  ghost predicate Gone(t: Store, c: CollectionDoc) {
    && (forall x :: x in t.collections ==> x.id != c.id)
    && (forall p :: p in t.photos ==> p.collectionId != c.id)
  }

  /** Every collection of `docs` is `Gone` from `t`. */
  ghost predicate AllGone(t: Store, docs: seq<CollectionDoc>) {
    forall k :: 0 <= k < |docs| ==> Gone(t, docs[k])
  }

  lemma AllGoneCons(t: Store, docs: seq<CollectionDoc>)
    requires docs != [] && Gone(t, docs[0]) && AllGone(t, docs[1..])
    ensures AllGone(t, docs)
  {
    forall k | 0 < k < |docs| ensures Gone(t, docs[k]) {
      assert docs[1..][k - 1] == docs[k];
    }
  }

  /** What is gone stays gone through calls that only delete. */
  lemma GoneStays(s: Store, calls: seq<Call>, env: Env, c: CollectionDoc)
    requires Gone(s, c) && forall i :: 0 <= i < |calls| ==> OnlyDrops(calls[i])
    ensures Gone(Run(s, calls, env), c)
  {
    RunOnlyDrops(s, calls, env);
  }

  /** With no failing call, after one turn its collection is gone. */
  lemma StepClears(s: Store, c: CollectionDoc, env: Env)
    requires env.faults == {}
    ensures Gone(Run(s, CollectionStep(s, c, env).calls, env), c)
  {
    StepCompletes(s, c, env);
    PhotosBeforeCollection(s, c, env);
    var calls := CollectionStep(s, c, env).calls;
    var mid := Run(s, calls[..|calls| - 1], env);
    assert calls == calls[..|calls| - 1] + [DeleteCollectionDoc(c.id)];
    RunSnoc(s, calls[..|calls| - 1], DeleteCollectionDoc(c.id), env);
    DeleteCollectionEffect(mid, c.id, env);
    WithoutCollectionSub(mid.collections, c.id);
  }

  /** With no failing call, after the cascade every listed collection is gone. */
  lemma {:induction false} CascadeClears(s: Store, docs: seq<CollectionDoc>, env: Env)
    requires env.faults == {}
    ensures AllGone(Run(s, Cascade(s, docs, env).calls, env), docs)
    decreases |docs|
  {
    if docs != [] {
      StepCompletes(s, docs[0], env);
      StepClears(s, docs[0], env);
      var step := CollectionStep(s, docs[0], env);
      var s1 := Run(s, step.calls, env);
      CascadeClears(s1, docs[1..], env);
      var rest := Cascade(s1, docs[1..], env);
      assert Cascade(s, docs, env) == Then(step, rest);
      RunAppend(s, step.calls, rest.calls, env);
      CascadeCalls(s1, docs[1..], env);
      CascadeDrops(rest.calls);
      GoneStays(s1, rest.calls, env, docs[0]);
      AllGoneCons(Run(s1, rest.calls, env), docs);
    }
  }

  lemma RemovalCalls(s: Store, name: string, env: Env)
    ensures Every(UserStore.RemoveUserSpec(s, name, env).1, RemovalCall)
  {
  }

  /** After the cascade: the blob request, if any, first, then only `removeUser`'s calls. */
  lemma FinishCalls(s: Store, user: UserStore.User, currentUser: Option<string>, urls: seq<string>, env: Env)
    ensures var calls := FinishSpec(s, user, currentUser, urls, env).calls;
            && (forall j :: 0 < j < |calls| ==> RemovalCall(calls[j]))
            && (|calls| > 0 && calls[0].DeleteBlobs? <==> urls != [])
            && (urls != [] ==> calls[0] == DeleteBlobs(urls))
  {
    var blob := if urls == [] then [] else [DeleteBlobs(urls)];
    if !(urls != [] && Throws(DeleteBlobs(urls), env)) {
      var removal := UserStore.RemoveUserSpec(Run(s, blob, env), user.name, env).1;
      RemovalCalls(Run(s, blob, env), user.name, env);
      var calls := blob + removal;
      forall j | 0 <= j < |calls| && j >= |blob| ensures RemovalCall(calls[j]) {
        assert calls[j] == removal[j - |blob|];
      }
    }
  }

  /**
   * At most one blob request is made: after every collection was
   * processed, carrying the gathered URLs, and none when there are none.
   */
  lemma OneBlobRequestAtMost(s: Store, user: UserStore.User, currentUser: Option<string>, env: Env)
    ensures var o := DeleteUserSpec(s, user, currentUser, env);
            var c := Cascade(s, Owned(s.collections, user.name), env);
            && (forall j :: 0 <= j < |o.calls| && j != 1 + |c.calls| ==> !o.calls[j].DeleteBlobs?)
            && (1 + |c.calls| < |o.calls| ==>
                  (o.calls[1 + |c.calls|].DeleteBlobs? <==> c.ok && c.urls != [])
                  && (c.urls != [] ==> o.calls[1 + |c.calls|] == DeleteBlobs(c.urls)))
  {
    var o := DeleteUserSpec(s, user, currentUser, env);
    var q := FindCollections(user.name);
    var c := Cascade(s, Owned(s.collections, user.name), env);
    CascadeCalls(s, Owned(s.collections, user.name), env);
    if !Throws(q, env) && c.ok {
      var f := FinishSpec(Run(s, [q] + c.calls, env), user, currentUser, c.urls, env);
      FinishCalls(Run(s, [q] + c.calls, env), user, currentUser, c.urls, env);
      forall j | 0 <= j < |o.calls| && j != 1 + |c.calls| ensures !o.calls[j].DeleteBlobs? {
        if 0 < j < 1 + |c.calls| {
          assert o.calls[j] == c.calls[j - 1];
        } else if j > 1 + |c.calls| {
          assert o.calls[j] == f.calls[j - 1 - |c.calls|];
        }
      }
    } else if !Throws(q, env) {
      forall j | 0 <= j < |o.calls| ensures !o.calls[j].DeleteBlobs? {
        if 0 < j {
          assert o.calls[j] == c.calls[j - 1];
        }
      }
    }
  }

  /**
   * A non-ok blob response does not abort: the partial-failure notice is
   * shown, `removeUser` still runs and the follow-up still happens.
   */
  lemma BlobFailureContinues(s: Store, user: UserStore.User, currentUser: Option<string>, env: Env)
    requires !Throws(FindCollections(user.name), env)
    requires var c := Cascade(s, Owned(s.collections, user.name), env);
             c.ok && c.urls != [] && !Throws(DeleteBlobs(c.urls), env) && !BlobResponse(c.urls, env).Ok()
    ensures var o := DeleteUserSpec(s, user, currentUser, env);
            var c := Cascade(s, Owned(s.collections, user.name), env);
            var before := [FindCollections(user.name)] + c.calls;
            && o.notices == [Toast(RemovingTitle, false), Toast(PartialFailureTitle, true), Toast(RemovedTitle, false)]
            && o.follow.Some?
            && o.calls == before + [DeleteBlobs(c.urls)]
                          + UserStore.RemoveUserSpec(Run(Run(s, before, env), [DeleteBlobs(c.urls)], env), user.name, env).1
  {
  }

  /**
   * A call that throws ends the delete where it is: no blob request after
   * a failed document call, no `removeUser`, no follow-up, the user table
   * untouched, and nothing deleted before is put back.
   */
  lemma FailureStopsEverything(s: Store, user: UserStore.User, currentUser: Option<string>, env: Env)
    requires var c := Cascade(s, Owned(s.collections, user.name), env);
             Throws(FindCollections(user.name), env) || !c.ok || (c.urls != [] && Throws(DeleteBlobs(c.urls), env))
    ensures var o := DeleteUserSpec(s, user, currentUser, env);
            && o.notices == [Toast(RemovingTitle, false), Toast(ErrorTitle, true)]
            && o.follow == None
            && Every(o.calls, BeforeRemoval)
            && Run(s, o.calls, env).users == s.users
  {
    var o := DeleteUserSpec(s, user, currentUser, env);
    var q := FindCollections(user.name);
    var c := Cascade(s, Owned(s.collections, user.name), env);
    CascadeCalls(s, Owned(s.collections, user.name), env);
    assert Every(c.calls, BeforeRemoval);
    var blob := if c.urls == [] then [] else [DeleteBlobs(c.urls)];
    if !Throws(q, env) && c.ok {
      assert o.calls == ([q] + c.calls) + blob;
      EveryAppend([q], c.calls, BeforeRemoval);
      EveryAppend([q] + c.calls, blob, BeforeRemoval);
    } else if !Throws(q, env) {
      EveryAppend([q], c.calls, BeforeRemoval);
    }
    UsersUntouched(s, o.calls, env);
  }

  /**
   * Collections of other owners, compared exactly, survive the delete
   * (document ids being distinct).
   */
  lemma OtherOwnersKept(s: Store, user: UserStore.User, currentUser: Option<string>, env: Env, other: CollectionDoc)
    requires Valid(s)
    requires other in s.collections && other.userName != user.name
    ensures other in Run(s, DeleteUserSpec(s, user, currentUser, env).calls, env).collections
  {
    var o := DeleteUserSpec(s, user, currentUser, env);
    var docs := Owned(s.collections, user.name);
    forall k | 0 <= k < |docs| ensures docs[k].id != other.id {
      OwnedMembers(s.collections, user.name, docs[k]);
      var a :| 0 <= a < |s.collections| && s.collections[a] == other;
      var b :| 0 <= b < |s.collections| && s.collections[b] == docs[k];
      assert a != b;
    }
    var q := FindCollections(user.name);
    var c := Cascade(s, docs, env);
    CascadeAvoids(s, docs, env, other);
    AvoidsAppend([q], c.calls, other);
    if !Throws(q, env) && c.ok {
      var f := FinishSpec(Run(s, [q] + c.calls, env), user, currentUser, c.urls, env);
      FinishCalls(Run(s, [q] + c.calls, env), user, currentUser, c.urls, env);
      AvoidsAppend([q] + c.calls, f.calls, other);
    }
    CollectionKept(s, o.calls, env, other);
  }

  /**
   * With no failing call, a collection of a valid store survives the
   * delete exactly when another user owns it.
   */
  lemma UserCollectionsAfter(s: Store, user: UserStore.User, currentUser: Option<string>, env: Env, c: CollectionDoc)
    requires Valid(s) && env.faults == {} && c in s.collections
    ensures c in Run(s, DeleteUserSpec(s, user, currentUser, env).calls, env).collections <==> c.userName != user.name
  {
    OwnDataRemoved(s, user, currentUser, env);
    if c.userName != user.name {
      OtherOwnersKept(s, user, currentUser, env, c);
    }
  }

  /** For 'star' in any casing and no failing call, only the blob request follows the cascade. */
  lemma StarFinish(s: Store, user: UserStore.User, currentUser: Option<string>, urls: seq<string>, env: Env)
    requires Lower(user.name) == UserStore.Star && env.dbConfigured && env.faults == {}
    ensures var f := FinishSpec(s, user, currentUser, urls, env);
            && f.calls == (if urls == [] then [] else [DeleteBlobs(urls)])
            && Toast(RemovedTitle, false) in f.notices && f.follow.Some?
  {
    var blob := if urls == [] then [] else [DeleteBlobs(urls)];
    UserStore.RemoveStarRefused(Run(s, blob, env), user.name, env);
  }

  /**
   * With no failing call every collection of the user has its document
   * deleted, and the delete goes on to `removeUser`.
   */
  lemma NoFaultDeletesAll(s: Store, user: UserStore.User, currentUser: Option<string>, env: Env)
    requires env.faults == {}
    ensures var o := DeleteUserSpec(s, user, currentUser, env);
            var docs := Owned(s.collections, user.name);
            var c := Cascade(s, docs, env);
            && c.ok
            && o.calls == [FindCollections(user.name)] + c.calls + FinishSpec(Run(s, [FindCollections(user.name)] + c.calls, env), user, currentUser, c.urls, env).calls
            && (forall k :: 0 <= k < |docs| ==> DeleteCollectionDoc(docs[k].id) in o.calls)
  {
    var docs := Owned(s.collections, user.name);
    CascadeCompletes(s, docs, env);
  }

  /** What follows the cascade only deletes. */
  lemma FinishDrops(s: Store, user: UserStore.User, currentUser: Option<string>, urls: seq<string>, env: Env)
    ensures var calls := FinishSpec(s, user, currentUser, urls, env).calls;
            forall j :: 0 <= j < |calls| ==> OnlyDrops(calls[j])
  {
    var blob := if urls == [] then [] else [DeleteBlobs(urls)];
    if !(urls != [] && Throws(DeleteBlobs(urls), env)) {
      var removal := UserStore.RemoveUserSpec(Run(s, blob, env), user.name, env).1;
      RemovalCalls(Run(s, blob, env), user.name, env);
      var calls := blob + removal;
      forall j | 0 <= j < |calls| ensures OnlyDrops(calls[j]) {
        if j >= |blob| {
          assert calls[j] == removal[j - |blob|];
        }
      }
    }
  }

  /**
   * With no failing call, none of the user's collections is left in the
   * store afterwards, and no photo document of any of them either.
   */
  lemma OwnDataRemoved(s: Store, user: UserStore.User, currentUser: Option<string>, env: Env)
    requires env.faults == {}
    ensures var t := Run(s, DeleteUserSpec(s, user, currentUser, env).calls, env);
            && (forall x :: x in t.collections ==> x.userName != user.name)
            && (forall c, p :: c in s.collections && c.userName == user.name && p in t.photos ==> p.collectionId != c.id)
  {
    var docs := Owned(s.collections, user.name);
    var q := FindCollections(user.name);
    var c := Cascade(s, docs, env);
    NoFaultDeletesAll(s, user, currentUser, env);
    var f := FinishSpec(Run(s, [q] + c.calls, env), user, currentUser, c.urls, env);
    RunOne(s, q, env);
    RunAppend(s, [q], c.calls, env);
    RunAppend(s, [q] + c.calls, f.calls, env);
    var u := Run(s, [q] + c.calls, env);
    CascadeClears(s, docs, env);
    CascadeCalls(s, docs, env);
    CascadeDrops(c.calls);
    RunOnlyDrops(s, c.calls, env);
    FinishDrops(u, user, currentUser, c.urls, env);
    RunOnlyDrops(u, f.calls, env);
    var t := Run(u, f.calls, env);
    forall x | x in t.collections ensures x.userName != user.name {
      if x.userName == user.name {
        OwnedIndex(s.collections, user.name, x);
      }
    }
    forall c', p | c' in s.collections && c'.userName == user.name && p in t.photos ensures p.collectionId != c'.id {
      OwnedIndex(s.collections, user.name, c');
    }
  }

  /** An owned collection sits at some index of the owner query's result. */
  lemma OwnedIndex(collections: seq<CollectionDoc>, userName: string, c: CollectionDoc)
    requires c in collections && c.userName == userName
    ensures exists k :: 0 <= k < |Owned(collections, userName)| && Owned(collections, userName)[k] == c
  {
    OwnedMembers(collections, userName, c);
  }

  /** For 'star', with no failing call, the delete leaves the user table as it was. */
  lemma StarRecordStays(s: Store, user: UserStore.User, currentUser: Option<string>, env: Env)
    requires Lower(user.name) == UserStore.Star && env.dbConfigured && env.faults == {}
    ensures Run(s, DeleteUserSpec(s, user, currentUser, env).calls, env).users == s.users
  {
    NoFaultDeletesAll(s, user, currentUser, env);
    var docs := Owned(s.collections, user.name);
    var c := Cascade(s, docs, env);
    var q := FindCollections(user.name);
    CascadeCalls(s, docs, env);
    CascadeBeforeRemoval(c.calls);
    var f := FinishSpec(Run(s, [q] + c.calls, env), user, currentUser, c.urls, env);
    StarFinish(Run(s, [q] + c.calls, env), user, currentUser, c.urls, env);
    assert Every(f.calls, BeforeRemoval);
    EveryAppend([q], c.calls, BeforeRemoval);
    EveryAppend([q] + c.calls, f.calls, BeforeRemoval);
    QuietUsers(s, ([q] + c.calls) + f.calls, env);
  }

  /**
   * There is no protected-user check before the cascade: for any casing
   * of 'star', with no failing call, every one of its collections is
   * deleted (none is left) and the removal is reported, while `removeUser` refuses
   * without a call and the user record stays.
   */
  lemma StarIsCascaded(s: Store, user: UserStore.User, currentUser: Option<string>, env: Env)
    requires Lower(user.name) == UserStore.Star && env.dbConfigured && env.faults == {}
    ensures var o := DeleteUserSpec(s, user, currentUser, env);
            var docs := Owned(s.collections, user.name);
            && (forall k :: 0 <= k < |docs| ==> DeleteCollectionDoc(docs[k].id) in o.calls)
            && Toast(RemovedTitle, false) in o.notices && o.follow.Some?
            && Run(s, o.calls, env).users == s.users
            && forall x :: x in Run(s, o.calls, env).collections ==> x.userName != user.name
  {
    NoFaultDeletesAll(s, user, currentUser, env);
    OwnDataRemoved(s, user, currentUser, env);
    var c := Cascade(s, Owned(s.collections, user.name), env);
    StarFinish(Run(s, [FindCollections(user.name)] + c.calls, env), user, currentUser, c.urls, env);
    StarRecordStays(s, user, currentUser, env);
  }

  /** One turn of the loop over the collections, run against the store. */
  method CollectionTurn(db: Backend, c: CollectionDoc, env: Env, ghost s0: Store, trace: seq<Call>)
    returns (step: Progress, trace': seq<Call>)
    requires db.store == Run(s0, trace, env)
    modifies db
    ensures step == CollectionStep(old(db.store), c, env)
    ensures trace' == trace + step.calls && db.store == Run(s0, trace', env)
  {
    ghost var before := db.store;
    var q := ListPhotos(c.id);
    var ok;
    ok, trace' := db.Issue(q, env, s0, trace);
    if !ok {
      step := Progress(false, [], [q]);
      return;
    }
    var photos := PhotosOf(db.store.photos, c.id);
    var urls := TruthySrcs(photos);
    var dels := DeletePhotoCalls(c.id, photos);
    ok, trace' := db.IssueAll(dels, env, s0, trace');
    Concat3(trace, [q], dels);
    if !ok {
      step := Progress(false, urls, [q] + dels);
      return;
    }
    var d := DeleteCollectionDoc(c.id);
    ok, trace' := db.Issue(d, env, s0, trace');
    Concat3(trace, [q] + dels, [d]);
    step := Progress(ok, urls, [q] + dels + [d]);
  }

  /** The loop over the collections; a turn that throws ends it. */
  method CascadeEach(db: Backend, docs: seq<CollectionDoc>, env: Env, ghost s0: Store, trace: seq<Call>)
    returns (p: Progress, trace': seq<Call>)
    requires db.store == Run(s0, trace, env)
    modifies db
    ensures p == Cascade(old(db.store), docs, env)
    ensures trace' == trace + p.calls && db.store == Run(s0, trace', env)
  {
    ghost var start := db.store;
    p, trace' := Progress(true, [], []), trace;
    var i := 0;
    while i < |docs| && p.ok
      invariant 0 <= i <= |docs|
      invariant trace' == trace + p.calls && db.store == Run(s0, trace', env)
      invariant p.ok ==> Then(p, Cascade(db.store, docs[i..], env)) == Cascade(start, docs, env)
      invariant !p.ok ==> p == Cascade(start, docs, env)
    {
      ghost var here := db.store;
      RunAppend(s0, trace, p.calls, env);
      var step;
      step, trace' := CollectionTurn(db, docs[i], env, s0, trace');
      assert docs[i..][1..] == docs[i + 1..];
      RunAppend(s0, trace + p.calls, step.calls, env);
      assert db.store == Run(here, step.calls, env);
      if step.ok {
        ThenAssoc(p, step, Cascade(db.store, docs[i + 1..], env));
      }
      Concat3(trace, p.calls, step.calls);
      p := Then(p, step);
      i := i + 1;
    }
    if p.ok {
      assert docs[i..] == [];
      assert p.urls + [] == p.urls && p.calls + [] == p.calls;
    }
  }

  /** The blob request and `removeUser`, after a cascade that went through. */
  method Finish(db: Backend, user: UserStore.User, currentUser: Option<string>, urls: seq<string>, env: Env)
    returns (o: Outcome)
    modifies db
    ensures o == FinishSpec(old(db.store), user, currentUser, urls, env)
    ensures db.store == Run(old(db.store), o.calls, env)
  {
    ghost var s := db.store;
    var blob: seq<Call> := [];
    var partial := [];
    if urls != [] {
      var ok;
      ok, blob := db.Issue(DeleteBlobs(urls), env, s, []);
      assert blob == [DeleteBlobs(urls)];
      if !ok {
        o := Outcome([Toast(ErrorTitle, true)], None, blob);
        return;
      }
      if !BlobResponse(urls, env).Ok() {
        partial := [Toast(PartialFailureTitle, true)];
      }
    } else {
      assert db.store == Run(s, blob, env);
    }
    // Not awaited: its calls follow, its reply is ignored.
    var _, removal := UserStore.RemoveUser(db, user.name, env);
    RunAppend(s, blob, removal, env);
    o := Outcome(partial + [Toast(RemovedTitle, false)],
                 Some(if Some(user.name) == currentUser then LogOut else RefreshList),
                 blob + removal);
  }

  class Dialog {
    const currentUser: Option<string>
    var userToDelete: Option<UserStore.User>

    constructor (currentUser: Option<string>)
      ensures this.currentUser == currentUser && userToDelete == None
    {
      this.currentUser := currentUser;
      userToDelete := None;
    }

    /** The bin button of a listed user. */
    method SelectUser(user: UserStore.User)
      modifies this
      ensures userToDelete == Some(user)
    {
      userToDelete := Some(user);
    }

    /** Closing the confirmation. */
    method CancelDelete()
      modifies this
      ensures userToDelete == None
    {
      userToDelete := None;
    }

    /**
     * `handleConfirmDelete`: nothing without a selected user or a
     * database; otherwise the outcome of `DeleteUserSpec`, after which the
     * selection is cleared.
     */
    method HandleConfirmDelete(db: Backend, env: Env) returns (notices: seq<Toast>, follow: Option<FollowUp>, calls: seq<Call>)
      modifies this, db
      ensures old(userToDelete).None? || !env.dbConfigured ==>
                notices == [] && follow == None && calls == [] && db.store == old(db.store) && userToDelete == old(userToDelete)
      ensures old(userToDelete).Some? && env.dbConfigured ==>
                var o := DeleteUserSpec(old(db.store), old(userToDelete).value, currentUser, env);
                && notices == o.notices && follow == o.follow && calls == o.calls
                && db.store == Run(old(db.store), calls, env)
                && userToDelete == None
    {
      notices, follow, calls := [], None, [];
      if userToDelete.None? || !env.dbConfigured {
        return;
      }
      var user := userToDelete.value;
      userToDelete := None;
      ghost var s0 := db.store;
      var removing := Toast(RemovingTitle, false);
      var q := FindCollections(user.name);
      var ok;
      ok, calls := db.Issue(q, env, s0, calls);
      assert calls == [q] && db.store == s0;
      if !ok {
        notices := [removing, Toast(ErrorTitle, true)];
        return;
      }
      var c;
      c, calls := CascadeEach(db, Owned(db.store.collections, user.name), env, s0, calls);
      if !c.ok {
        notices := [removing, Toast(ErrorTitle, true)];
        return;
      }
      var f := Finish(db, user, currentUser, c.urls, env);
      RunAppend(s0, calls, f.calls, env);
      notices, follow, calls := [removing] + f.notices, f.follow, calls + f.calls;
    }
  }
}
