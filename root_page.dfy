/**
 * The root page: it only forwards, choosing `/folio` or `/login` from the
 * stored flag, and shows the loading screen meanwhile.
 */
module Home {
  import opened Wrappers
  import opened Session

  /**
   * The route the page replaces itself with, given the flag read (or the
   * exception reading it threw), and the view it renders.
   */
  function Open(flag: Result<bool>): (r: (View, Route))
    ensures r.0 == LoadingView
    ensures r.1 == Folio <==> flag == Success(true)
    ensures flag.Failure? ==> r.1 == Login
    ensures flag == Success(false) ==> r.1 == Login
  {
    var route := match flag
      case Success(signedIn) => if signedIn then Folio else Login
      case Failure(_) => Login;
    (LoadingView, route)
  }

  /** The page mounted over `storage`: it goes to `/folio` exactly when the flag is "true". */
  method Mount(storage: LocalStorage) returns (view: View, route: Route)
    ensures view == LoadingView
    ensures route == Folio <==> storage.available && SignedIn(storage.items)
  {
    var flag := storage.ReadFlag();
    view, route := Open(flag).0, Open(flag).1;
  }
}
