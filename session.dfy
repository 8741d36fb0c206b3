/**
 * The browser session: the two `localStorage` keys the login form writes and
 * logout removes, and the views and routes the pages choose from them.
 *
 * `localStorage` is a class holding a string map; when storage is not
 * usable (disabled, private mode) every access throws with `failure`.
 */
module Session {
  import opened Wrappers

  const AuthKey := "isAuthenticated"
  const UserKey := "currentUser"
  /** The only stored flag value that counts as signed in. */
  const AuthTrue := "true"

  /** The routes the client navigates to. */
  datatype Route = Login | Folio

  /** What a page renders: the pulsing loading screen, nothing, or the app. */
  datatype View = LoadingView | NoView | AppView(userName: Option<string>)

  /** `JSON.stringify({ name })` for a name JSON does not need to escape. */
  function CurrentUserJson(name: string): string {
    "{\"name\":\"" + name + "\"}"
  }

  /** The stored flag is exactly the string "true". */
  predicate SignedIn(items: map<string, string>) {
    AuthKey in items && items[AuthKey] == AuthTrue
  }

  class LocalStorage {
    var items: map<string, string>
    const available: bool
    const failure: string

    constructor (items: map<string, string>, available: bool, failure: string)
      ensures this.items == items && this.available == available && this.failure == failure
    {
      this.items := items;
      this.available := available;
      this.failure := failure;
    }

    /** `getItem(key)`: the stored value, `null` for a missing key, or the exception. */
    method GetItem(key: string) returns (r: Result<Option<string>>)
      ensures !available ==> r == Failure(failure)
      ensures available ==> r.Success?
      ensures r.Success? ==> (r.value.Some? <==> key in items)
      ensures r.Success? && key in items ==> r.value == Some(items[key])
    {
      if !available {
        return Failure(failure);
      }
      r := Success(if key in items then Some(items[key]) else None);
    }

    /** `setItem(key, value)`; `ok` is false when it throws. */
    method SetItem(key: string, value: string) returns (ok: bool)
      modifies this
      ensures ok == available
      ensures items == if available then old(items)[key := value] else old(items)
    {
      ok := available;
      if available {
        items := items[key := value];
      }
    }

    /** `removeItem(key)`; `ok` is false when it throws. */
    method RemoveItem(key: string) returns (ok: bool)
      modifies this
      ensures ok == available
      ensures items == if available then old(items) - {key} else old(items)
    {
      ok := available;
      if available {
        items := items - {key};
      }
    }

    /**
     * `localStorage.getItem('isAuthenticated') === 'true'`, the test both
     * pages make, or the exception it throws.
     */
    method ReadFlag() returns (r: Result<bool>)
      ensures r.Success? <==> available
      ensures r.Failure? ==> r.error == failure
      ensures r.Success? ==> (r.value <==> SignedIn(items))
    {
      var v := GetItem(AuthKey);
      if v.Failure? {
        return Failure(v.error);
      }
      r := Success(v.value == Some(AuthTrue));
    }
  }
}
