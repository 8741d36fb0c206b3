/**
 * The `/folio` page: when mounted it reads the stored flag once, sends the
 * visitor to `/login` unless the flag is exactly "true", and renders the
 * app only then. The app is rendered without a user name.
 */
module FolioGate {
  import opened Wrappers
  import opened Cloud
  import opened Session
  import LoginForm
  import UserStore
  import Folio
  import ManageUsers

  /**
   * The decision of the mount effect, from the flag read (or the exception
   * reading it threw): the `isAuthenticated` state it sets and the redirect.
   */
  function Gate(flag: Result<bool>): (r: (bool, Option<Route>))
    ensures r.0 <==> flag == Success(true)
    ensures r.1 == None <==> r.0
    ensures r.1 != None ==> r.1 == Some(Login)
  {
    match flag
    case Success(signedIn) => (signedIn, if signedIn then None else Some(Login))
    case Failure(_) => (false, Some(Login))
  }

  class FolioPage {
    /** `isAuthenticated`: None until the mount effect has run. */
    var isAuthenticated: Option<bool>

    constructor ()
      ensures isAuthenticated == None
    {
      isAuthenticated := None;
    }

    /** The mount effect over `storage`, returning the route it pushes, if any. */
    method RunEffect(storage: LocalStorage) returns (route: Option<Route>)
      modifies this
      ensures isAuthenticated == Some(storage.available && SignedIn(storage.items))
      ensures route == (if storage.available && SignedIn(storage.items) then None else Some(Login))
    {
      var flag := storage.ReadFlag();
      var decision := Gate(flag);
      isAuthenticated := Some(decision.0);
      route := decision.1;
    }

    /** The loading screen before the check, nothing when refused, the app (with no user name) when admitted. */
    function Render(): (v: View)
      reads this
      ensures v == LoadingView <==> isAuthenticated == None
      ensures v == NoView <==> isAuthenticated == Some(false)
      ensures v.AppView? <==> isAuthenticated == Some(true)
      ensures v.AppView? ==> v.userName == None
    {
      match isAuthenticated
      case None => LoadingView
      case Some(signedIn) => if signedIn then AppView(None) else NoView
    }
  }

  /** After a logout the gate refuses and redirects to `/login`. */
  lemma LogoutLocksGate(items: map<string, string>)
    ensures Gate(Success(SignedIn(items - {AuthKey, UserKey}))) == (false, Some(Login))
  {
    Folio.LogoutClearsSession(items);
  }

  /** After a login the gate admits, whatever else was stored. */
  lemma LoginOpensGate(items: map<string, string>, userName: string)
    ensures Gate(Success(SignedIn(items[AuthKey := AuthTrue][UserKey := CurrentUserJson(userName)]))) == (true, None)
  {
    LoginForm.LoginSetsFlag(items, userName);
  }

  /** Logging out of the app and mounting the page again ends on `/login` with nothing rendered. */
  method LogoutThenRevisit(storage: LocalStorage) returns (route: Option<Route>, page: FolioPage)
    requires storage.available
    modifies storage
    ensures storage.items == old(storage.items) - {AuthKey, UserKey}
    ensures route == Some(Login) && page.Render() == NoView
  {
    var _, _ := Folio.HandleLogout(storage);
    Folio.LogoutClearsSession(old(storage.items));
    page := new FolioPage();
    route := page.RunEffect(storage);
  }

  /**
   * The dialog's delete followed by its follow-up, as the app wires it:
   * logging out runs the app's `handleLogout`.
   */
  method ConfirmUserRemoval(dialog: ManageUsers.Dialog, db: Backend, storage: LocalStorage, env: Env)
    returns (follow: Option<ManageUsers.FollowUp>, route: Option<Route>)
    requires storage != db as object && storage != dialog as object && db != dialog as object
    modifies dialog, db, storage
    ensures old(dialog.userToDelete).Some? && env.dbConfigured ==>
              follow == ManageUsers.DeleteUserSpec(old(db.store), old(dialog.userToDelete).value, dialog.currentUser, env).follow
    ensures follow == Some(ManageUsers.LogOut) && storage.available ==> !SignedIn(storage.items) && route == Some(Login)
    ensures follow != Some(ManageUsers.LogOut) ==> storage.items == old(storage.items) && route == None
  {
    var notices, calls;
    notices, follow, calls := dialog.HandleConfirmDelete(db, env);
    route := None;
    if follow == Some(ManageUsers.LogOut) {
      ghost var before := storage.items;
      var notice;
      route, notice := Folio.HandleLogout(storage);
      if storage.available {
        Folio.LogoutClearsSession(before);
      }
    }
  }

  /** The user name the login form stores, `{"name":"..."}`, read back. */
  function ParseName(json: string): (r: Option<string>)
    ensures r.Some? ==> CurrentUserJson(r.value) == json
  {
    var open := "{\"name\":\"";
    var close := "\"}";
    if |json| >= |open| + |close| && json[..|open|] == open && json[|json| - |close|..] == close
    then
      var name := json[|open|..|json| - |close|];
      assert json == open + name + close;
      Some(name)
    else None
  }

  /** Reading the stored user back gives the name that was stored. */
  lemma ParseNameRoundTrip(userName: string)
    ensures ParseName(CurrentUserJson(userName)) == Some(userName)
  {
    var json := CurrentUserJson(userName);
    assert json[..9] == "{\"name\":\"";
    assert json[|json| - 2..] == "\"}";
    assert json[9..|json| - 2] == userName;
  }

  /** The stored user's name, if one is stored in the login form's format. */
  function StoredName(items: map<string, string>): (r: Option<string>)
    ensures r.Some? ==> UserKey in items && items[UserKey] == CurrentUserJson(r.value)
  {
    if UserKey in items then ParseName(items[UserKey]) else None
  }

  /** What the page renders when the app is given the stored user's name. */
  function IntendedView(isAuthenticated: Option<bool>, items: map<string, string>): (v: View)
    ensures v == LoadingView <==> isAuthenticated == None
    ensures v.AppView? <==> isAuthenticated == Some(true)
    ensures v.AppView? ==> v.userName == StoredName(items)
  {
    match isAuthenticated
    case None => LoadingView
    case Some(signedIn) => if signedIn then AppView(StoredName(items)) else NoView
  }

  /**
   * As written, whoever is signed in, the admitted app has no user name:
   * its load is skipped with no call, so no collection is ever listed, and
   * removing oneself never logs out.
   */
  lemma AppWithoutName(s: Store, env: Env, user: UserStore.User)
    ensures Folio.LoadSpec(s, AppView(None).userName, env) == (Folio.Skipped, [])
    ensures ManageUsers.DeleteUserSpec(s, user, AppView(None).userName, env).follow != Some(ManageUsers.LogOut)
  {
    Folio.LoadSkipped(s, None, env);
  }

  /**
   * Given the stored name, the app a login opens loads that user's
   * collections, and removing that user logs out.
   */
  lemma IntendedAppHasName(items: map<string, string>, user: UserStore.User, s: Store, env: Env)
    requires user.name != [] && env.dbConfigured
    ensures var after := items[AuthKey := AuthTrue][UserKey := CurrentUserJson(user.name)];
            var v := IntendedView(Some(SignedIn(after)), after);
            && v == AppView(Some(user.name))
            && Folio.LoadSpec(s, v.userName, env).0 != Folio.Skipped
            && ManageUsers.DeleteUserSpec(s, user, v.userName, env).follow != Some(ManageUsers.RefreshList)
  {
    var after := items[AuthKey := AuthTrue][UserKey := CurrentUserJson(user.name)];
    LoginForm.LoginSetsFlag(items, user.name);
    ParseNameRoundTrip(user.name);
    Folio.LoadSkipped(s, Some(user.name), env);
  }
}
