/**
 * The user directory: seeding, listing, validating, adding, removing users
 * and changing a password, over the `users` table of the document store.
 *
 * Names are stored lower-cased. Passwords are stored as bcrypt digests,
 * modelled as an opaque `Hash` with `Verifies(p, Hash(p))`. Each operation
 * issues its external calls through the `Backend` and answers with the
 * reply the client sees; its meaning is given by a specification function
 * (`AddUserSpec`, …) that yields both the reply and the calls issued, so
 * that the outcome of every call (ok or thrown) follows from the
 * environment.
 */
module UserStore {
  import opened Wrappers
  import opened Text
  import opened Cloud

  const DbMissing := "Database connection not available."
  const FieldsRequired := "Name and password are required."
  const NameTaken := "A user with this name already exists."
  const SignupDone := "Signup successful!"
  const AddFailed := "A database error occurred while adding the user."
  const StarProtected := "The 'star' user cannot be removed."
  const UserMissing := "User not found."
  const RemoveFailed := "A database error occurred while removing the user."
  const HashMissing := "Cannot change password for a user without a hashed password."
  const WrongPassword := "Incorrect current password."
  const PasswordChanged := "Password updated successfully."
  const UpdateFailed := "An error occurred while updating the password."
  const ValidateNoDb := "Could not connect to the database to validate user."
  const ValidateFailed := "A database error occurred during validation. Please check the connection and logs."
  const ListNoDb := "Firebase not initialized. Cannot fetch users."

  /** The protected account. */
  const Star := "star"

  /** The accounts seeded into an empty table: name and password. */
  const DefaultUsers: seq<(string, string)> :=
    [("isabella", "password123"), ("studio", "firebase"), ("star", "supernova")]

  /** What the client learns about a user: never the hash. */
  datatype User = User(id: DocId, name: string)

  /** `{ success, message }`; an absent message is the empty string. */
  datatype Reply = Reply(success: bool, message: string)

  /** bcrypt.hash, as an opaque digest. */
  function Hash(password: string): PasswordHash {
    Digest(password)
  }

  /** bcrypt.compare. */
  predicate Verifies(password: string, h: PasswordHash) {
    h == Hash(password)
  }

  /** No two records share a name. */
  ghost predicate UniqueNames(users: seq<UserRecord>) {
    forall i, j :: 0 <= i < j < |users| ==> users[i].name != users[j].name
  }

  /** The index of the first record called `name`, the one `docs[0]` of a name query is. */
  function FirstNamed(users: seq<UserRecord>, name: string): (r: Option<nat>)
    ensures r.Some? ==> r.value < |users| && users[r.value].name == name
    ensures r.Some? ==> forall j :: 0 <= j < r.value ==> users[j].name != name
    ensures r.None? ==> forall j :: 0 <= j < |users| ==> users[j].name != name
  {
    if users == [] then None
    else if users[0].name == name then Some(0)
    else match FirstNamed(users[1..], name)
      case None => None
      case Some(k) => Some(k + 1)
  }

  lemma {:induction false} NamedHead(users: seq<UserRecord>, name: string)
    ensures Named(users, name) != [] <==> FirstNamed(users, name).Some?
    ensures Named(users, name) != [] ==> Named(users, name)[0] == users[FirstNamed(users, name).value]
  {
    if users != [] {
      NamedHead(users[1..], name);
    }
  }

  lemma {:induction false} NamedAppend(a: seq<UserRecord>, b: seq<UserRecord>, name: string)
    ensures Named(a + b, name) == Named(a, name) + Named(b, name)
  {
    if a == [] {
      assert a + b == b;
    } else {
      assert (a + b)[1..] == a[1..] + b;
      NamedAppend(a[1..], b, name);
      var head := if a[0].name == name then [a[0]] else [];
      assert Named(a + b, name) == head + Named(a[1..] + b, name);
      Concat3(head, Named(a[1..], name), Named(b, name));
    }
  }

  lemma {:induction false} FirstNamedSameNames(a: seq<UserRecord>, b: seq<UserRecord>, name: string)
    requires |a| == |b|
    requires forall i :: 0 <= i < |a| ==> a[i].name == b[i].name
    ensures FirstNamed(a, name) == FirstNamed(b, name)
  {
    if a != [] {
      FirstNamedSameNames(a[1..], b[1..], name);
    }
  }

  /**
   * The user `validateUser` answers when nothing throws: the first record
   * with the lower-cased name, if it has a hash the password verifies.
   */
  function Authenticate(users: seq<UserRecord>, name: string, password: string): Option<User> {
    var found := Named(users, Lower(name));
    if found == [] then None
    else match found[0].passwordHash
      case None => None
      case Some(h) => if Verifies(password, h) then Some(User(found[0].id, found[0].name)) else None
  }

  /** A user is answered only for a stored record of that name whose hash the password verifies. */
  lemma AuthenticateSound(users: seq<UserRecord>, name: string, password: string)
    ensures Authenticate(users, name, password).Some? ==>
              var k := FirstNamed(users, Lower(name));
              && k.Some?
              && users[k.value].passwordHash == Some(Hash(password))
              && Authenticate(users, name, password).value == User(users[k.value].id, users[k.value].name)
  {
    NamedHead(users, Lower(name));
  }

  /** With names unique, any record of that name whose hash the password verifies is answered. */
  lemma AuthenticateComplete(users: seq<UserRecord>, name: string, password: string, i: nat)
    requires UniqueNames(users)
    requires i < |users| && users[i].name == Lower(name)
    requires users[i].passwordHash == Some(Hash(password))
    ensures Authenticate(users, name, password) == Some(User(users[i].id, users[i].name))
  {
    NamedHead(users, Lower(name));
    var k := FirstNamed(users, Lower(name)).value;
    assert k == i by {
      if k < i {} else if i < k {}
    }
  }

  /** `getUsers()`: every record's id and name, or the exception it throws. */
  method GetUsers(db: Backend, env: Env) returns (r: Result<seq<User>>, calls: seq<Call>)
    ensures !env.dbConfigured ==> r == Failure(ListNoDb) && calls == []
    ensures env.dbConfigured ==> calls == [ListUsers]
    ensures env.dbConfigured && ListUsers in env.faults ==> r == Failure(env.message(ListUsers))
    ensures r.Success? ==> |r.value| == |db.store.users|
    ensures r.Success? ==>
              forall i :: 0 <= i < |r.value| ==> r.value[i] == User(db.store.users[i].id, db.store.users[i].name)
    ensures env.dbConfigured && ListUsers !in env.faults ==> r.Success?
  {
    if !env.dbConfigured {
      return Failure(ListNoDb), [];
    }
    calls := [ListUsers];
    if Fails(db.store, ListUsers, env) {
      return Failure(env.message(ListUsers)), calls;
    }
    var users: seq<User> := [];
    var i := 0;
    while i < |db.store.users|
      invariant 0 <= i <= |db.store.users|
      invariant |users| == i
      invariant forall j :: 0 <= j < i ==> users[j] == User(db.store.users[j].id, db.store.users[j].name)
    {
      users := users + [User(db.store.users[i].id, db.store.users[i].name)];
      i := i + 1;
    }
    r := Success(users);
  }

  /**
   * The outcome and the calls of `validateUser(name, password)` in state `s`:
   * the authenticated user or none, or the message of the exception.
   */
  function ValidateSpec(s: Store, name: string, password: string, env: Env): (Result<Option<User>>, seq<Call>) {
    if !env.dbConfigured then (Failure(ValidateNoDb), [])
    else
      var q := FindUsers(Lower(name));
      if Fails(s, q, env) then (Failure(ValidateFailed), [q])
      else
        var found := Named(s.users, Lower(name));
        if found == [] || found[0].passwordHash.None? then (Success(None), [q])
        else
          var compare := ComparePassword(password, found[0].passwordHash.value);
          if Fails(s, compare, env) then (Failure(ValidateFailed), [q, compare])
          else if Verifies(password, found[0].passwordHash.value) then
            (Success(Some(User(found[0].id, found[0].name))), [q, compare])
          else (Success(None), [q, compare])
  }

  /** `validateUser(name, password)`; it only reads. */
  method ValidateUser(db: Backend, name: string, password: string, env: Env)
    returns (r: Result<Option<User>>, calls: seq<Call>)
    ensures (r, calls) == ValidateSpec(db.store, name, password, env)
  {
    if !env.dbConfigured {
      return Failure(ValidateNoDb), [];
    }
    var lower := Lower(name);
    calls := [FindUsers(lower)];
    if Fails(db.store, FindUsers(lower), env) {
      return Failure(ValidateFailed), calls;
    }
    var found := Named(db.store.users, lower);
    if found == [] {
      return Success(None), calls;
    }
    var record := found[0];
    if record.passwordHash.None? {
      return Success(None), calls;
    }
    var compare := ComparePassword(password, record.passwordHash.value);
    calls := [FindUsers(lower), compare];
    if Fails(db.store, compare, env) {
      return Failure(ValidateFailed), calls;
    }
    if Verifies(password, record.passwordHash.value) {
      r := Success(Some(User(record.id, record.name)));
    } else {
      r := Success(None);
    }
  }

  /**
   * Validation issues reads only, fails only with its two messages (the
   * first exactly when there is no database), and when nothing throws its
   * answer is `Authenticate`: a user exactly for a verifying record.
   */
  lemma ValidateReadsOnly(s: Store, name: string, password: string, env: Env)
    ensures var (r, calls) := ValidateSpec(s, name, password, env);
            && (forall i :: 0 <= i < |calls| ==> calls[i].IsRead())
            && Run(s, calls, env) == s
            && (r.Failure? ==> r.error in {ValidateNoDb, ValidateFailed})
            && (r == Failure(ValidateNoDb) <==> !env.dbConfigured)
            && (r.Success? ==> r.value == Authenticate(s.users, name, password))
            && ((&& env.dbConfigured && FindUsers(Lower(name)) !in env.faults
                 && (forall h :: ComparePassword(password, h) !in env.faults))
                ==> r.Success?)
  {
    var (r, calls) := ValidateSpec(s, name, password, env);
    RunInert(s, calls, env);
  }

  // ---------------------------------------------------------------- addUser

  /** The reply and the calls of `addUser({name, password})` in state `s`. */
  function AddUserSpec(s: Store, name: string, password: Option<string>, env: Env): (Reply, seq<Call>) {
    if !env.dbConfigured then (Reply(false, DbMissing), [])
    else if name == [] || password.None? || password.value == [] then (Reply(false, FieldsRequired), [])
    else
      var q := FindUsers(Lower(name));
      if Fails(s, q, env) then (Reply(false, AddFailed), [q])
      else if Named(s.users, Lower(name)) != [] then (Reply(false, NameTaken), [q])
      else
        var h := HashPassword(password.value);
        if Fails(s, h, env) then (Reply(false, AddFailed), [q, h])
        else
          var a := AddUserDoc(Lower(name), Hash(password.value));
          (if Fails(s, a, env) then Reply(false, AddFailed) else Reply(true, SignupDone), [q, h, a])
  }

  method AddUser(db: Backend, name: string, password: Option<string>, env: Env)
    returns (reply: Reply, calls: seq<Call>)
    modifies db
    ensures (reply, calls) == AddUserSpec(old(db.store), name, password, env)
    ensures db.store == Run(old(db.store), calls, env)
  {
    ghost var s0 := db.store;
    calls := [];
    if !env.dbConfigured {
      return Reply(false, DbMissing), calls;
    }
    if name == [] || password.None? || password.value == [] {
      return Reply(false, FieldsRequired), calls;
    }
    var lower := Lower(name);
    var ok;
    ok, calls := db.Issue(FindUsers(lower), env, s0, calls);
    assert db.store == s0 && calls == [FindUsers(lower)];
    if !ok {
      return Reply(false, AddFailed), calls;
    }
    if Named(db.store.users, lower) != [] {
      return Reply(false, NameTaken), calls;
    }
    ok, calls := db.Issue(HashPassword(password.value), env, s0, calls);
    assert db.store == s0 && calls == [FindUsers(lower), HashPassword(password.value)];
    if !ok {
      return Reply(false, AddFailed), calls;
    }
    ok, calls := db.Issue(AddUserDoc(lower, Hash(password.value)), env, s0, calls);
    assert calls == [FindUsers(lower), HashPassword(password.value), AddUserDoc(lower, Hash(password.value))];
    if !ok {
      return Reply(false, AddFailed), calls;
    }
    reply := Reply(true, SignupDone);
  }

  /** An add that does not succeed leaves every table as it was. */
  lemma AddUserUnchangedOnFailure(s: Store, name: string, password: Option<string>, env: Env)
    ensures var (reply, calls) := AddUserSpec(s, name, password, env);
            !reply.success ==> Run(s, calls, env) == s
  {
    var (reply, calls) := AddUserSpec(s, name, password, env);
    if !reply.success {
      RunInert(s, calls, env);
    }
  }

  /** An empty name or a missing or empty password is refused before any call. */
  lemma AddUserRequiresFields(s: Store, name: string, password: Option<string>, env: Env)
    requires env.dbConfigured
    requires name == [] || password.None? || password.value == []
    ensures AddUserSpec(s, name, password, env) == (Reply(false, FieldsRequired), [])
  {
  }

  /** A name whose lower-cased form already has a record is refused, with nothing written. */
  lemma AddUserDuplicate(s: Store, name: string, password: string, env: Env, i: nat)
    requires env.dbConfigured && name != [] && password != []
    requires FindUsers(Lower(name)) !in env.faults
    requires i < |s.users| && s.users[i].name == Lower(name)
    ensures AddUserSpec(s, name, Some(password), env).0 == Reply(false, NameTaken)
    ensures Run(s, AddUserSpec(s, name, Some(password), env).1, env) == s
  {
    NamedHead(s.users, Lower(name));
    AddUserUnchangedOnFailure(s, name, Some(password), env);
  }

  /** A record added under a free name, with the password's hash, authenticates. */
  lemma AddedAuthenticates(users: seq<UserRecord>, id: DocId, name: string, password: string)
    requires Named(users, Lower(name)) == []
    ensures Authenticate(users + [UserRecord(id, Lower(name), Some(Hash(password)))], name, password)
            == Some(User(id, Lower(name)))
  {
    var added := UserRecord(id, Lower(name), Some(Hash(password)));
    NamedAppend(users, [added], Lower(name));
    assert Named([added], Lower(name)) == [added];
  }

  /**
   * An add succeeds exactly when the fields are given, the lower-cased name
   * is free and no call throws; it then appends one record with that name
   * and the password's hash, which then authenticates.
   */
  lemma AddUserSuccess(s: Store, name: string, password: Option<string>, env: Env)
    ensures AddUserSpec(s, name, password, env).0.success <==>
              && env.dbConfigured && name != [] && password.Some? && password.value != []
              && Named(s.users, Lower(name)) == []
              && FindUsers(Lower(name)) !in env.faults
              && HashPassword(password.value) !in env.faults
              && AddUserDoc(Lower(name), Hash(password.value)) !in env.faults
    ensures AddUserSpec(s, name, password, env).0.success ==>
              var t := Run(s, AddUserSpec(s, name, password, env).1, env);
              && t == s.(users := s.users + [UserRecord(s.nextId, Lower(name), Some(Hash(password.value)))],
                         nextId := s.nextId + 1)
              && Authenticate(t.users, name, password.value) == Some(User(s.nextId, Lower(name)))
  {
    var (reply, calls) := AddUserSpec(s, name, password, env);
    if reply.success {
      var a := AddUserDoc(Lower(name), Hash(password.value));
      RunWriteAfterReads(s, [FindUsers(Lower(name)), HashPassword(password.value)], a, env);
      assert calls == [FindUsers(Lower(name)), HashPassword(password.value)] + [a];
      AddedAuthenticates(s.users, s.nextId, name, password.value);
    }
  }

  /**
   * The duplicate check keeps names unique: after any add, no two records
   * share a name if none did before.
   */
  lemma AddUserKeepsUniqueNames(s: Store, name: string, password: Option<string>, env: Env)
    requires UniqueNames(s.users)
    ensures UniqueNames(Run(s, AddUserSpec(s, name, password, env).1, env).users)
  {
    AddUserSuccess(s, name, password, env);
    AddUserUnchangedOnFailure(s, name, password, env);
    if AddUserSpec(s, name, password, env).0.success {
      NamedHead(s.users, Lower(name));
      var t := s.users + [UserRecord(s.nextId, Lower(name), Some(Hash(password.value)))];
      forall i, j | 0 <= i < j < |t| ensures t[i].name != t[j].name {
        assert t[i] == s.users[i];
        if j < |s.users| {
          assert t[j] == s.users[j];
        }
      }
    }
  }

  // ------------------------------------------------------------- removeUser

  /** The reply and the calls of `removeUser(name)` in state `s`. */
  function RemoveUserSpec(s: Store, name: string, env: Env): (Reply, seq<Call>) {
    if !env.dbConfigured then (Reply(false, DbMissing), [])
    else if Lower(name) == Star then (Reply(false, StarProtected), [])
    else
      var q := FindUsers(Lower(name));
      if Fails(s, q, env) then (Reply(false, RemoveFailed), [q])
      else
        var found := Named(s.users, Lower(name));
        if found == [] then (Reply(false, UserMissing), [q])
        else
          var d := DeleteUserDoc(found[0].id);
          (if Fails(s, d, env) then Reply(false, RemoveFailed) else Reply(true, ""), [q, d])
  }

  method RemoveUser(db: Backend, name: string, env: Env) returns (reply: Reply, calls: seq<Call>)
    modifies db
    ensures (reply, calls) == RemoveUserSpec(old(db.store), name, env)
    ensures db.store == Run(old(db.store), calls, env)
  {
    ghost var s0 := db.store;
    calls := [];
    if !env.dbConfigured {
      return Reply(false, DbMissing), calls;
    }
    var lower := Lower(name);
    if lower == Star {
      return Reply(false, StarProtected), calls;
    }
    var ok;
    ok, calls := db.Issue(FindUsers(lower), env, s0, calls);
    assert db.store == s0 && calls == [FindUsers(lower)];
    if !ok {
      return Reply(false, RemoveFailed), calls;
    }
    var found := Named(db.store.users, lower);
    if found == [] {
      return Reply(false, UserMissing), calls;
    }
    ok, calls := db.Issue(DeleteUserDoc(found[0].id), env, s0, calls);
    assert calls == [FindUsers(lower), DeleteUserDoc(found[0].id)];
    if !ok {
      return Reply(false, RemoveFailed), calls;
    }
    reply := Reply(true, "");
  }

  /** A remove that does not succeed leaves every table as it was. */
  lemma RemoveUserUnchangedOnFailure(s: Store, name: string, env: Env)
    ensures var (reply, calls) := RemoveUserSpec(s, name, env);
            !reply.success ==> Run(s, calls, env) == s
  {
    var (reply, calls) := RemoveUserSpec(s, name, env);
    if !reply.success {
      RunInert(s, calls, env);
    }
  }

  /** Any casing of 'star' is refused before any call. */
  lemma RemoveStarRefused(s: Store, name: string, env: Env)
    requires env.dbConfigured && Lower(name) == Star
    ensures RemoveUserSpec(s, name, env) == (Reply(false, StarProtected), [])
  {
  }

  /** A name without a record gives 'User not found.' and changes nothing. */
  lemma RemoveUnknownUser(s: Store, name: string, env: Env)
    requires env.dbConfigured && Lower(name) != Star
    requires FindUsers(Lower(name)) !in env.faults
    requires forall i :: 0 <= i < |s.users| ==> s.users[i].name != Lower(name)
    ensures RemoveUserSpec(s, name, env).0 == Reply(false, UserMissing)
    ensures Run(s, RemoveUserSpec(s, name, env).1, env) == s
  {
    NamedHead(s.users, Lower(name));
    RemoveUserUnchangedOnFailure(s, name, env);
  }

  /** Removing the record with a given id from a table whose ids are distinct removes exactly that entry. */
  lemma {:induction false} WithoutUserAt(users: seq<UserRecord>, k: nat)
    requires k < |users|
    requires forall j :: 0 <= j < |users| && j != k ==> users[j].id != users[k].id
    ensures WithoutUser(users, users[k].id) == users[..k] + users[k + 1..]
  {
    if k == 0 {
      WithoutAbsent(users[1..], users[0].id);
      assert users[..0] + users[1..] == users[1..];
    } else {
      var tail := users[1..];
      assert tail[k - 1] == users[k];
      WithoutUserAt(tail, k - 1);
      assert tail[..k - 1] == users[1..k];
      assert tail[k..] == users[k + 1..];
      assert users[..k] == [users[0]] + users[1..k];
    }
  }

  lemma {:induction false} WithoutAbsent(users: seq<UserRecord>, id: DocId)
    requires forall i :: 0 <= i < |users| ==> users[i].id != id
    ensures WithoutUser(users, id) == users
  {
    if users != [] {
      WithoutAbsent(users[1..], id);
    }
  }

  /**
   * A remove succeeds exactly when the name is not 'star', has a record and
   * no call throws; it then deletes the first record of that name and
   * nothing else.
   */
  lemma RemoveUserSuccess(s: Store, name: string, env: Env)
    requires DistinctIds(s.users)
    ensures RemoveUserSpec(s, name, env).0.success <==>
              && env.dbConfigured && Lower(name) != Star
              && FirstNamed(s.users, Lower(name)).Some?
              && FindUsers(Lower(name)) !in env.faults
              && DeleteUserDoc(s.users[FirstNamed(s.users, Lower(name)).value].id) !in env.faults
    ensures RemoveUserSpec(s, name, env).0.success ==>
              var k := FirstNamed(s.users, Lower(name)).value;
              Run(s, RemoveUserSpec(s, name, env).1, env) == s.(users := s.users[..k] + s.users[k + 1..])
  {
    NamedHead(s.users, Lower(name));
    var (reply, calls) := RemoveUserSpec(s, name, env);
    if reply.success {
      var k := FirstNamed(s.users, Lower(name)).value;
      var q, d := FindUsers(Lower(name)), DeleteUserDoc(s.users[k].id);
      assert calls == [q] + [d];
      RunSnoc(s, [q], d, env);
      RunInert(s, [q], env);
      WithoutUserAt(s.users, k);
    }
  }

  /** Dropping one record keeps names unique. */
  lemma UniqueNamesWithout(users: seq<UserRecord>, k: nat)
    requires UniqueNames(users) && k < |users|
    ensures UniqueNames(users[..k] + users[k + 1..])
  {
    var t := users[..k] + users[k + 1..];
    forall i, j | 0 <= i < j < |t| ensures t[i].name != t[j].name {
      var i' := if i < k then i else i + 1;
      var j' := if j < k then j else j + 1;
      assert t[i] == users[i'] && t[j] == users[j'];
    }
  }

  /** Removing a user keeps names unique. */
  lemma RemoveUserKeepsUniqueNames(s: Store, name: string, env: Env)
    requires DistinctIds(s.users) && UniqueNames(s.users)
    ensures UniqueNames(Run(s, RemoveUserSpec(s, name, env).1, env).users)
  {
    RemoveUserSuccess(s, name, env);
    RemoveUserUnchangedOnFailure(s, name, env);
    if RemoveUserSpec(s, name, env).0.success {
      UniqueNamesWithout(s.users, FirstNamed(s.users, Lower(name)).value);
    }
  }

  // ----------------------------------------------------- updateUserPassword

  /** The reply and the calls of `updateUserPassword(name, oldPassword, newPassword)`. */
  function UpdatePasswordSpec(s: Store, name: string, oldPassword: string, newPassword: string, env: Env)
    : (Reply, seq<Call>)
  {
    if !env.dbConfigured then (Reply(false, DbMissing), [])
    else
      var q := FindUsers(Lower(name));
      if Fails(s, q, env) then (Reply(false, UpdateFailed), [q])
      else
        var found := Named(s.users, Lower(name));
        if found == [] then (Reply(false, UserMissing), [q])
        else if found[0].passwordHash.None? then (Reply(false, HashMissing), [q])
        else
          var c := ComparePassword(oldPassword, found[0].passwordHash.value);
          if Fails(s, c, env) then (Reply(false, UpdateFailed), [q, c])
          else if !Verifies(oldPassword, found[0].passwordHash.value) then (Reply(false, WrongPassword), [q, c])
          else
            var h := HashPassword(newPassword);
            if Fails(s, h, env) then (Reply(false, UpdateFailed), [q, c, h])
            else
              var u := SetUserHash(found[0].id, Hash(newPassword));
              (if Fails(s, u, env) then Reply(false, UpdateFailed) else Reply(true, PasswordChanged), [q, c, h, u])
  }

  method UpdateUserPassword(db: Backend, name: string, oldPassword: string, newPassword: string, env: Env)
    returns (reply: Reply, calls: seq<Call>)
    modifies db
    ensures (reply, calls) == UpdatePasswordSpec(old(db.store), name, oldPassword, newPassword, env)
    ensures db.store == Run(old(db.store), calls, env)
  {
    ghost var s0 := db.store;
    calls := [];
    if !env.dbConfigured {
      return Reply(false, DbMissing), calls;
    }
    var lower := Lower(name);
    var ok;
    ok, calls := db.Issue(FindUsers(lower), env, s0, calls);
    assert db.store == s0 && calls == [FindUsers(lower)];
    if !ok {
      return Reply(false, UpdateFailed), calls;
    }
    var found := Named(db.store.users, lower);
    if found == [] {
      return Reply(false, UserMissing), calls;
    }
    if found[0].passwordHash.None? {
      return Reply(false, HashMissing), calls;
    }
    var stored := found[0].passwordHash.value;
    ok, calls := db.Issue(ComparePassword(oldPassword, stored), env, s0, calls);
    assert db.store == s0 && calls == [FindUsers(lower), ComparePassword(oldPassword, stored)];
    if !ok {
      return Reply(false, UpdateFailed), calls;
    }
    if !Verifies(oldPassword, stored) {
      return Reply(false, WrongPassword), calls;
    }
    ok, calls := db.Issue(HashPassword(newPassword), env, s0, calls);
    assert db.store == s0;
    assert calls == [FindUsers(lower), ComparePassword(oldPassword, stored), HashPassword(newPassword)];
    if !ok {
      return Reply(false, UpdateFailed), calls;
    }
    ok, calls := db.Issue(SetUserHash(found[0].id, Hash(newPassword)), env, s0, calls);
    assert calls == [FindUsers(lower), ComparePassword(oldPassword, stored), HashPassword(newPassword),
                     SetUserHash(found[0].id, Hash(newPassword))];
    if !ok {
      return Reply(false, UpdateFailed), calls;
    }
    reply := Reply(true, PasswordChanged);
  }

  /** A password change that does not succeed leaves every table as it was. */
  lemma UpdatePasswordUnchangedOnFailure(s: Store, name: string, oldPassword: string, newPassword: string, env: Env)
    ensures var (reply, calls) := UpdatePasswordSpec(s, name, oldPassword, newPassword, env);
            !reply.success ==> Run(s, calls, env) == s
  {
    var (reply, calls) := UpdatePasswordSpec(s, name, oldPassword, newPassword, env);
    if !reply.success {
      if |calls| == 4 {
        // the update of an existing record can only throw as a listed fault
        NamedHead(s.users, Lower(name));
        var k := FirstNamed(s.users, Lower(name)).value;
        assert HasUser(s.users, s.users[k].id);
      }
      RunInert(s, calls, env);
    }
  }

  /** After the first record of a name gets the new password's hash, that password authenticates. */
  lemma RehashedAuthenticates(users: seq<UserRecord>, k: nat, name: string, password: string)
    requires FirstNamed(users, Lower(name)) == Some(k)
    ensures Authenticate(WithHash(users, users[k].id, Hash(password)), name, password)
            == Some(User(users[k].id, users[k].name))
  {
    var t := WithHash(users, users[k].id, Hash(password));
    FirstNamedSameNames(users, t, Lower(name));
    NamedHead(t, Lower(name));
  }

  /**
   * A password change succeeds exactly when the user has a record with a
   * hash the old password verifies and no call throws.
   */
  lemma UpdatePasswordSuccess(s: Store, name: string, oldPassword: string, newPassword: string, env: Env)
    ensures var k := FirstNamed(s.users, Lower(name));
            UpdatePasswordSpec(s, name, oldPassword, newPassword, env).0.success <==>
              && env.dbConfigured && k.Some?
              && s.users[k.value].passwordHash == Some(Hash(oldPassword))
              && FindUsers(Lower(name)) !in env.faults
              && ComparePassword(oldPassword, Hash(oldPassword)) !in env.faults
              && HashPassword(newPassword) !in env.faults
              && SetUserHash(s.users[k.value].id, Hash(newPassword)) !in env.faults
  {
    NamedHead(s.users, Lower(name));
    var k := FirstNamed(s.users, Lower(name));
    if k.Some? {
      assert HasUser(s.users, s.users[k.value].id);
    }
  }

  /** The four calls of a password change that succeeds. */
  lemma UpdatePasswordCalls(s: Store, name: string, oldPassword: string, newPassword: string, env: Env)
    requires UpdatePasswordSpec(s, name, oldPassword, newPassword, env).0.success
    ensures FirstNamed(s.users, Lower(name)).Some?
    ensures var rec := s.users[FirstNamed(s.users, Lower(name)).value];
            && rec.passwordHash.Some?
            && UpdatePasswordSpec(s, name, oldPassword, newPassword, env).1
               == [FindUsers(Lower(name)), ComparePassword(oldPassword, rec.passwordHash.value), HashPassword(newPassword)]
                  + [SetUserHash(rec.id, Hash(newPassword))]
            && !Fails(s, SetUserHash(rec.id, Hash(newPassword)), env)
  {
    NamedHead(s.users, Lower(name));
  }

  /** Rehashing the record at `k`, whose id no other record has. */
  lemma RehashOne(users: seq<UserRecord>, k: nat, h: PasswordHash)
    requires DistinctIds(users) && k < |users|
    ensures var t := WithHash(users, users[k].id, h);
            && |t| == |users|
            && t[k] == users[k].(passwordHash := Some(h))
            && (forall j :: 0 <= j < |users| && j != k ==> t[j] == users[j])
  {
    var t := WithHash(users, users[k].id, h);
    forall j | 0 <= j < |users| && j != k ensures t[j] == users[j] {
      if j < k {
        assert users[j].id != users[k].id;
      } else {
        assert users[k].id != users[j].id;
      }
    }
  }

  /** A password change that succeeds has the effect of rewriting the first matching record's hash. */
  lemma UpdatePasswordRun(s: Store, name: string, oldPassword: string, newPassword: string, env: Env)
    requires UpdatePasswordSpec(s, name, oldPassword, newPassword, env).0.success
    ensures FirstNamed(s.users, Lower(name)).Some?
    ensures Run(s, UpdatePasswordSpec(s, name, oldPassword, newPassword, env).1, env)
            == s.(users := WithHash(s.users, s.users[FirstNamed(s.users, Lower(name)).value].id, Hash(newPassword)))
  {
    UpdatePasswordCalls(s, name, oldPassword, newPassword, env);
    var rec := s.users[FirstNamed(s.users, Lower(name)).value];
    var lookups := [FindUsers(Lower(name)), ComparePassword(oldPassword, rec.passwordHash.value), HashPassword(newPassword)];
    RunWriteAfterReads(s, lookups, SetUserHash(rec.id, Hash(newPassword)), env);
  }

  /**
   * After a password change that succeeds only that record's hash changes,
   * and the new password authenticates.
   */
  lemma UpdatePasswordStore(s: Store, name: string, oldPassword: string, newPassword: string, env: Env)
    requires DistinctIds(s.users)
    requires UpdatePasswordSpec(s, name, oldPassword, newPassword, env).0.success
    ensures FirstNamed(s.users, Lower(name)).Some?
    ensures var k := FirstNamed(s.users, Lower(name)).value;
            var t := Run(s, UpdatePasswordSpec(s, name, oldPassword, newPassword, env).1, env);
            && t == s.(users := t.users)
            && |t.users| == |s.users|
            && t.users[k] == s.users[k].(passwordHash := Some(Hash(newPassword)))
            && (forall j :: 0 <= j < |s.users| && j != k ==> t.users[j] == s.users[j])
            && Authenticate(t.users, name, newPassword) == Some(User(s.users[k].id, s.users[k].name))
  {
    UpdatePasswordRun(s, name, oldPassword, newPassword, env);
    var k := FirstNamed(s.users, Lower(name)).value;
    RehashOne(s.users, k, Hash(newPassword));
    RehashedAuthenticates(s.users, k, name, newPassword);
  }

  /** A password change keeps every name, so it keeps names unique. */
  lemma UpdatePasswordKeepsUniqueNames(s: Store, name: string, oldPassword: string, newPassword: string, env: Env)
    requires UniqueNames(s.users)
    ensures UniqueNames(Run(s, UpdatePasswordSpec(s, name, oldPassword, newPassword, env).1, env).users)
  {
    UpdatePasswordUnchangedOnFailure(s, name, oldPassword, newPassword, env);
    if UpdatePasswordSpec(s, name, oldPassword, newPassword, env).0.success {
      UpdatePasswordRun(s, name, oldPassword, newPassword, env);
      var t := WithHash(s.users, s.users[FirstNamed(s.users, Lower(name)).value].id, Hash(newPassword));
      forall i, j | 0 <= i < j < |t| ensures t[i].name != t[j].name {
        assert t[i].name == s.users[i].name && t[j].name == s.users[j].name;
      }
    }
  }

  // --------------------------------------------------------------- seeding

  /** The bcrypt.hash calls a batch loop issues: every one up to and including the first that throws. */
  function HashesUntilFailure(pending: seq<(string, string)>, env: Env): (r: seq<Call>)
    ensures |r| <= |pending|
    ensures forall i :: 0 <= i < |r| ==> r[i] == HashPassword(pending[i].1)
  {
    if pending == [] then []
    else if HashPassword(pending[0].1) in env.faults then [HashPassword(pending[0].1)]
    else [HashPassword(pending[0].1)] + HashesUntilFailure(pending[1..], env)
  }

  /** The (lower-cased name, hash) entries of a seeding batch. */
  function SeedEntries(pending: seq<(string, string)>): (r: seq<(string, PasswordHash)>)
    ensures |r| == |pending|
    ensures forall i :: 0 <= i < |r| ==> r[i] == (Lower(pending[i].0), Hash(pending[i].1))
  {
    seq(|pending|, i requires 0 <= i < |pending| => (Lower(pending[i].0), Hash(pending[i].1)))
  }

  ghost predicate AllHashed(pending: seq<(string, string)>, env: Env) {
    forall i :: 0 <= i < |pending| ==> HashPassword(pending[i].1) !in env.faults
  }

  /** The calls `initializeDefaultUsers()` issues in state `s`; whatever throws is caught. */
  ghost function SeedCalls(s: Store, env: Env): seq<Call> {
    if !env.dbConfigured then []
    else if Fails(s, ListUsers, env) || s.users != [] then [ListUsers]
    else
      [ListUsers] + HashesUntilFailure(DefaultUsers, env)
      + (if AllHashed(DefaultUsers, env) then [CommitUsers(SeedEntries(DefaultUsers))] else [])
  }

  lemma HashesStep(pending: seq<(string, string)>, i: nat, env: Env)
    requires i < |pending|
    ensures HashesUntilFailure(pending[i..], env)
            == [HashPassword(pending[i].1)] + (if HashPassword(pending[i].1) in env.faults then [] else HashesUntilFailure(pending[i + 1..], env))
  {
    assert pending[i..][1..] == pending[i + 1..];
  }

  lemma SeedEntriesStep(pending: seq<(string, string)>, i: nat)
    requires i < |pending|
    ensures SeedEntries(pending[i..]) == [(Lower(pending[i].0), Hash(pending[i].1))] + SeedEntries(pending[i + 1..])
  {
  }

  /** One turn of the batch loop: hash the `i`-th password. */
  method HashOne(db: Backend, pending: seq<(string, string)>, i: nat, env: Env, ghost start: Store, trace: seq<Call>)
    returns (ok: bool, entry: (string, PasswordHash), trace': seq<Call>)
    requires i < |pending| && db.store == Run(start, trace, env)
    modifies db
    ensures ok == (HashPassword(pending[i].1) !in env.faults)
    ensures entry == (Lower(pending[i].0), Hash(pending[i].1))
    ensures trace' == trace + [HashPassword(pending[i].1)]
    ensures db.store == old(db.store) && db.store == Run(start, trace', env)
  {
    ok, trace' := db.Issue(HashPassword(pending[i].1), env, start, trace);
    entry := (Lower(pending[i].0), Hash(pending[i].1));
  }

  /**
   * The loop over a batch: hash each password in turn, collecting the
   * entries to write, and stop at the first hash that throws.
   */
  method HashBatch(db: Backend, pending: seq<(string, string)>, env: Env, ghost start: Store, trace: seq<Call>)
    returns (ok: bool, entries: seq<(string, PasswordHash)>, trace': seq<Call>)
    requires db.store == Run(start, trace, env)
    modifies db
    ensures db.store == old(db.store) && db.store == Run(start, trace', env)
    ensures ok == AllHashed(pending, env)
    ensures trace' == trace + HashesUntilFailure(pending, env)
    ensures ok ==> entries == SeedEntries(pending)
  {
    ok, entries, trace' := true, [], trace;
    var i := 0;
    while i < |pending|
      invariant 0 <= i <= |pending|
      invariant forall j :: 0 <= j < i ==> HashPassword(pending[j].1) !in env.faults
      invariant trace + HashesUntilFailure(pending, env) == trace' + HashesUntilFailure(pending[i..], env)
      invariant SeedEntries(pending) == entries + SeedEntries(pending[i..])
      invariant db.store == old(db.store) && db.store == Run(start, trace', env)
    {
      ghost var before := trace';
      var e;
      ok, e, trace' := HashOne(db, pending, i, env, start, trace');
      HashesStep(pending, i, env);
      if !ok {
        assert trace' == trace + HashesUntilFailure(pending, env);
        return;
      }
      Concat3(before, [HashPassword(pending[i].1)], HashesUntilFailure(pending[i + 1..], env));
      SeedEntriesStep(pending, i);
      Concat3(entries, [e], SeedEntries(pending[i + 1..]));
      entries := entries + [e];
      i := i + 1;
    }
    assert pending[i..] == [];
    assert SeedEntries(pending[i..]) == [];
  }

  method InitializeDefaultUsers(db: Backend, env: Env) returns (calls: seq<Call>)
    modifies db
    ensures calls == SeedCalls(old(db.store), env)
    ensures db.store == Run(old(db.store), calls, env)
  {
    ghost var s0 := db.store;
    calls := [];
    if !env.dbConfigured {
      return;
    }
    var ok;
    ok, calls := db.Issue(ListUsers, env, s0, calls);
    assert calls == [ListUsers];
    if !ok || db.store.users != [] {
      return;
    }
    var entries;
    ok, entries, calls := HashBatch(db, DefaultUsers, env, s0, calls);
    if ok {
      ok, calls := db.Issue(CommitUsers(entries), env, s0, calls);
    }
  }

  /** On a table that already has users, seeding changes nothing. */
  lemma SeedNonEmpty(s: Store, env: Env)
    requires s.users != []
    ensures Run(s, SeedCalls(s, env), env) == s
  {
    RunInert(s, SeedCalls(s, env), env);
  }

  /** The default names are already lower-case, so the seeding batch stores them as written. */
  lemma DefaultEntries()
    ensures forall i :: 0 <= i < |DefaultUsers| ==>
              SeedEntries(DefaultUsers)[i] == (DefaultUsers[i].0, Hash(DefaultUsers[i].1))
  {
    LowerOfLowerCase(DefaultUsers[0].0);
    LowerOfLowerCase(DefaultUsers[1].0);
    LowerOfLowerCase(DefaultUsers[2].0);
  }

  /** The records a seeding batch of the default users writes, from id `first` on. */
  lemma DefaultRecords(first: DocId)
    ensures NewUsers(SeedEntries(DefaultUsers), first)
            == [UserRecord(first, "isabella", Some(Hash("password123"))),
                UserRecord(first + 1, "studio", Some(Hash("firebase"))),
                UserRecord(first + 2, "star", Some(Hash("supernova")))]
  {
    DefaultEntries();
  }

  /** The three default records have distinct names and distinct ids. */
  lemma DefaultsDistinct(first: DocId)
    ensures var t := [UserRecord(first, "isabella", Some(Hash("password123"))),
                      UserRecord(first + 1, "studio", Some(Hash("firebase"))),
                      UserRecord(first + 2, "star", Some(Hash("supernova")))];
            UniqueNames(t) && DistinctIds(t)
  {
    assert "isabella"[0] != "studio"[0] && "studio"[2] != "star"[2] && "isabella"[0] != "star"[0];
  }

  /** On an empty table, seeding without failures lists, hashes every password, then commits the batch. */
  lemma SeedCallsOnEmpty(s: Store, env: Env)
    requires s.users == [] && env.dbConfigured
    requires ListUsers !in env.faults && AllHashed(DefaultUsers, env)
    ensures SeedCalls(s, env) == ([ListUsers] + HashesUntilFailure(DefaultUsers, env)) + [CommitUsers(SeedEntries(DefaultUsers))]
  {
  }

  /** On an empty table, seeding without failures appends the batch's records and advances the counter. */
  lemma FirstSeedStore(s: Store, env: Env)
    requires s.users == [] && env.dbConfigured
    requires ListUsers !in env.faults && AllHashed(DefaultUsers, env)
    requires CommitUsers(SeedEntries(DefaultUsers)) !in env.faults
    ensures Run(s, SeedCalls(s, env), env) == s.(users := NewUsers(SeedEntries(DefaultUsers), s.nextId), nextId := s.nextId + 3)
  {
    var hashes := HashesUntilFailure(DefaultUsers, env);
    var lookups := [ListUsers] + hashes;
    var entries := SeedEntries(DefaultUsers);
    SeedCallsOnEmpty(s, env);
    forall i | 0 <= i < |lookups| ensures lookups[i].IsRead() {
      if i > 0 {
        assert lookups[i] == hashes[i - 1];
      }
    }
    RunWriteAfterReads(s, lookups, CommitUsers(entries), env);
    assert [] + NewUsers(entries, s.nextId) == NewUsers(entries, s.nextId);
    assert |entries| == 3;
  }

  /**
   * On an empty table, seeding without failures writes the three default
   * users with lower-cased names, fresh ids and the hashes of their
   * passwords, so names and ids are distinct; a second seeding then
   * changes nothing.
   */
  lemma SeedOnEmpty(s: Store, env: Env)
    requires s.users == [] && env.dbConfigured
    requires ListUsers !in env.faults && AllHashed(DefaultUsers, env)
    requires CommitUsers(SeedEntries(DefaultUsers)) !in env.faults
    ensures var t := Run(s, SeedCalls(s, env), env);
            && t == s.(users := t.users, nextId := s.nextId + 3)
            && t.users == [UserRecord(s.nextId, "isabella", Some(Hash("password123"))),
                           UserRecord(s.nextId + 1, "studio", Some(Hash("firebase"))),
                           UserRecord(s.nextId + 2, "star", Some(Hash("supernova")))]
            && UniqueNames(t.users) && DistinctIds(t.users)
            && Run(t, SeedCalls(t, env), env) == t
  {
    FirstSeedStore(s, env);
    DefaultRecords(s.nextId);
    DefaultsDistinct(s.nextId);
    SeedNonEmpty(Run(s, SeedCalls(s, env), env), env);
  }
}
