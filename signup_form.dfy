/**
 * The signup form: a local length check on the password, then `addUser`;
 * success goes to `/login`, a refusal shows the directory's message.
 */
module SignupForm {
  import opened Wrappers
  import opened Cloud
  import opened Text
  import opened UserStore
  import opened Session

  const MinPasswordLength := 6
  const PasswordTooShort := "Password must be at least 6 characters long."
  const SuccessTitle := "Signup Successful"

  class Form {
    var name: string
    var password: string
    var error: string
    var isSubmitting: bool

    constructor ()
      ensures name == [] && password == [] && error == [] && !isSubmitting
    {
      name, password, error, isSubmitting := [], [], [], false;
    }

    /** The submit button is disabled while a field is empty or a submit is running. */
    predicate SubmitDisabled()
      reads this
    {
      name == [] || password == [] || isSubmitting
    }

    /**
     * `handleSubmit`: the error is cleared; a password shorter than six
     * UTF-16 code units (its `length`) is refused before any call; otherwise `addUser` runs and
     * its success leads to `/login` with a notice, its refusal to its message.
     */
    method HandleSubmit(db: Backend, env: Env) returns (route: Option<Route>, toast: Option<Toast>, calls: seq<Call>)
      modifies this, db
      ensures name == old(name) && password == old(password)
      ensures JsLength(password) < MinPasswordLength ==>
                && calls == [] && db.store == old(db.store) && isSubmitting == old(isSubmitting)
                && error == PasswordTooShort && route == None && toast == None
      ensures JsLength(password) >= MinPasswordLength ==>
                var (reply, expected) := AddUserSpec(old(db.store), name, Some(password), env);
                && calls == expected && db.store == Run(old(db.store), calls, env) && !isSubmitting
                && (reply.success ==> route == Some(Login) && toast == Some(Toast(SuccessTitle, false)) && error == [])
                && (!reply.success ==> route == None && toast == None && error == reply.message)
    {
      error := [];
      route, toast, calls := None, None, [];
      if JsLength(password) < MinPasswordLength {
        error := PasswordTooShort;
        return;
      }
      isSubmitting := true;
      var reply;
      reply, calls := AddUser(db, name, Some(password), env);
      if reply.success {
        toast := Some(Toast(SuccessTitle, false));
        route := Some(Login);
      } else {
        error := reply.message;
      }
      isSubmitting := false;
    }
  }
}
