/**
 * The login form: it validates the name and password against the user
 * directory and, for a validated user, writes the two session keys and
 * goes to `/folio`.
 */
module LoginForm {
  import opened Wrappers
  import opened Cloud
  import opened UserStore
  import opened Session

  const InvalidCredentials := "Invalid name or password. Please try again."
  const FailedPrefix := "Login failed: "
  const FailedTitle := "Login Failed"

  class Form {
    var name: string
    var password: string
    var error: string
    var isSubmitting: bool

    constructor ()
      ensures name == [] && password == [] && error == [] && !isSubmitting
    {
      name, password, error, isSubmitting := [], [], [], false;
    }

    /** The submit button is disabled while a field is empty or a submit is running. */
    predicate SubmitDisabled()
      reads this
    {
      name == [] || password == [] || isSubmitting
    }

    /**
     * `handleSubmit`: the error is cleared, the user validated; a user gets
     * the flag "true" and its name as JSON under the two keys and the route
     * `/folio`; no user gets the fixed message; an exception (from validation
     * or from storage) gets "Login failed: " and its message and a
     * destructive notice. The form never writes to the document store.
     */
    method HandleSubmit(db: Backend, storage: LocalStorage, env: Env)
      returns (route: Option<Route>, toast: Option<Toast>, calls: seq<Call>)
      modifies this, storage
      ensures name == old(name) && password == old(password) && !isSubmitting
      ensures calls == ValidateSpec(db.store, name, password, env).1
      ensures var r := ValidateSpec(db.store, name, password, env).0;
              r.Success? && r.value.Some? && storage.available ==>
                && storage.items == old(storage.items)[AuthKey := AuthTrue][UserKey := CurrentUserJson(r.value.value.name)]
                && route == Some(Folio) && error == [] && toast == None
      ensures var r := ValidateSpec(db.store, name, password, env).0;
              r.Success? && r.value.Some? && !storage.available ==>
                && storage.items == old(storage.items)
                && route == None && error == FailedPrefix + storage.failure && toast == Some(Toast(FailedTitle, true))
      ensures var r := ValidateSpec(db.store, name, password, env).0;
              r == Success(None) ==>
                storage.items == old(storage.items) && route == None && error == InvalidCredentials && toast == None
      ensures var r := ValidateSpec(db.store, name, password, env).0;
              r.Failure? ==>
                && storage.items == old(storage.items)
                && route == None && error == FailedPrefix + r.error && toast == Some(Toast(FailedTitle, true))
    {
      error := [];
      isSubmitting := true;
      var r;
      r, calls := ValidateUser(db, name, password, env);
      route, toast := None, None;
      match r {
        case Success(Some(user)) =>
          var ok := storage.SetItem(AuthKey, AuthTrue);
          if ok {
            ok := storage.SetItem(UserKey, CurrentUserJson(user.name));
          }
          if ok {
            route := Some(Folio);
          } else {
            error := FailedPrefix + storage.failure;
            toast := Some(Toast(FailedTitle, true));
          }
        case Success(None) =>
          error := InvalidCredentials;
        case Failure(message) =>
          error := FailedPrefix + message;
          toast := Some(Toast(FailedTitle, true));
      }
      isSubmitting := false;
    }
  }

  /** After a login that reaches `/folio`, the stored flag is exactly "true". */
  lemma LoginSetsFlag(items: map<string, string>, userName: string)
    ensures SignedIn(items[AuthKey := AuthTrue][UserKey := CurrentUserJson(userName)])
  {
  }
}
