/**
 * The change-password dialog: two local checks in a fixed order (the new
 * passwords match, then the length), then `updateUserPassword` for the
 * signed-in user; closing the dialog clears it.
 */
module PasswordDialog {
  import opened Wrappers
  import opened Cloud
  import opened Text
  import opened UserStore

  const Mismatch := "New passwords do not match."
  const TooShort := "New password must be at least 6 characters long."
  const MinPasswordLength := 6
  const SuccessTitle := "Success!"
  const ErrorTitle := "Error"

  class Dialog {
    /** The `open` prop, which the parent sets through `onOpenChange`. */
    var open: bool
    var currentPassword: string
    var newPassword: string
    var confirmPassword: string
    var error: string
    var isSubmitting: bool
    const userName: string

    constructor (userName: string, open: bool)
      ensures this.userName == userName && this.open == open
      ensures currentPassword == [] && newPassword == [] && confirmPassword == []
      ensures error == [] && !isSubmitting
    {
      this.userName := userName;
      this.open := open;
      currentPassword, newPassword, confirmPassword := [], [], [];
      error, isSubmitting := [], false;
    }

    /** Save is disabled while the current or the new password is empty, or a save is running. */
    predicate SaveDisabled()
      reads this
    {
      currentPassword == [] || newPassword == [] || isSubmitting
    }

    /**
     * `handleSave` (the button, or Enter in the confirm field, which does
     * not consult `SaveDisabled`). A mismatch is reported before a short
     * password; neither makes a call. Success closes the dialog and clears
     * the three fields; a refusal shows the directory's message and keeps them.
     */
    method HandleSave(db: Backend, env: Env) returns (toast: Option<Toast>, calls: seq<Call>)
      modifies this, db
      ensures old(newPassword) != old(confirmPassword) || JsLength(old(newPassword)) < MinPasswordLength ==>
                && calls == [] && db.store == old(db.store) && toast == None
                && open == old(open) && isSubmitting == old(isSubmitting)
                && currentPassword == old(currentPassword) && newPassword == old(newPassword)
                && confirmPassword == old(confirmPassword)
                && error == if old(newPassword) != old(confirmPassword) then Mismatch else TooShort
      ensures old(newPassword) == old(confirmPassword) && JsLength(old(newPassword)) >= MinPasswordLength ==>
                var (reply, expected) :=
                  UpdatePasswordSpec(old(db.store), userName, old(currentPassword), old(newPassword), env);
                && calls == expected && db.store == Run(old(db.store), calls, env) && !isSubmitting
                && (reply.success ==>
                      && !open && currentPassword == [] && newPassword == [] && confirmPassword == []
                      && error == [] && toast == Some(Toast(SuccessTitle, false)))
                && (!reply.success ==>
                      && open == old(open) && currentPassword == old(currentPassword)
                      && newPassword == old(newPassword) && confirmPassword == old(confirmPassword)
                      && error == reply.message && toast == None)
    {
      error := [];
      toast, calls := None, [];
      if newPassword != confirmPassword {
        error := Mismatch;
        return;
      }
      if JsLength(newPassword) < MinPasswordLength {
        error := TooShort;
        return;
      }
      isSubmitting := true;
      var reply;
      reply, calls := UpdateUserPassword(db, userName, currentPassword, newPassword, env);
      if reply.success {
        toast := Some(Toast(SuccessTitle, false));
        open := false;
        currentPassword, newPassword, confirmPassword := [], [], [];
      } else {
        error := reply.message;
      }
      isSubmitting := false;
    }

    /** `handleOpenChange`: closing clears the three fields and the error. */
    method HandleOpenChange(isOpen: bool)
      modifies this
      ensures open == isOpen && isSubmitting == old(isSubmitting)
      ensures !isOpen ==> currentPassword == [] && newPassword == [] && confirmPassword == [] && error == []
      ensures isOpen ==>
                && currentPassword == old(currentPassword) && newPassword == old(newPassword)
                && confirmPassword == old(confirmPassword) && error == old(error)
    {
      if !isOpen {
        currentPassword, newPassword, confirmPassword, error := [], [], [], [];
      }
      open := isOpen;
    }
  }
}
