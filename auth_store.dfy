/**
 * The client's authentication store: who is signed in, with which token, and
 * whether the store has been initialised. Signing in and out also writes or removes
 * the `auth-storage` cookie the route guard reads; the cookie jar is the field
 * `cookie`. Only `user` and `token` are written to local storage.
 */
module AuthStore {
  import opened Wrappers

  datatype User = User(id: int, email: string, username: string, avatar: Option<string>)

  /** The cookie's payload `{state: {user, token}}`. */
  datatype AuthCookie = AuthCookie(user: User, token: string)

  /** What `partialize` hands to local storage. */
  datatype Persisted = Persisted(user: Option<User>, token: Option<string>)

  class Store {
    var user: Option<User>
    var token: Option<string>
    var isInitialized: bool
    var cookie: Option<AuthCookie>

    /** The initial state; the browser's cookie is whatever it already was. */
    constructor (existingCookie: Option<AuthCookie>)
      ensures user == None && token == None && !isInitialized
      ensures cookie == existingCookie
    {
      user, token, isInitialized := None, None, false;
      cookie := existingCookie;
    }

    /** `setAuth(user, token)`: signs in and records the same pair in the cookie. */
    method SetAuth(u: User, t: string)
      modifies this
      ensures user == Some(u) && token == Some(t) && isInitialized
      ensures cookie == Some(AuthCookie(u, t))
    {
      user, token, isInitialized := Some(u), Some(t), true;
      cookie := Some(AuthCookie(u, t));
    }

    /** `logout()`: the signed-out, initialised state with no cookie, whatever came before. */
    method Logout()
      modifies this
      ensures user == None && token == None && isInitialized
      ensures cookie == None
    {
      user, token, isInitialized := None, None, true;
      cookie := None;
    }

    /** `partialize`: the persisted projection. */
    function Partialize(): (p: Persisted)
      reads this
      ensures p.user == user && p.token == token
    {
      Persisted(user, token)
    }
  }

  /** Two states that differ only in `isInitialized` persist the same way: it is never stored. */
  lemma PartializeIgnoresInitialized(a: Store, b: Store)
    requires a.user == b.user && a.token == b.token
    ensures a.Partialize() == b.Partialize()
  {
  }

  /** Signing in then out from any state ends in the same state as signing out alone. */
  method SetAuthThenLogout(s: Store, u: User, t: string)
    modifies s
    ensures s.user == None && s.token == None && s.isInitialized && s.cookie == None
    ensures s.Partialize() == Persisted(None, None)
  {
    s.SetAuth(u, t);
    s.Logout();
  }

  /** Signing out twice is the same as signing out once. */
  method LogoutTwice(s: Store)
    modifies s
    ensures s.user == None && s.token == None && s.isInitialized && s.cookie == None
  {
    s.Logout();
    ghost var once := (s.user, s.token, s.isInitialized, s.cookie);
    s.Logout();
    assert (s.user, s.token, s.isInitialized, s.cookie) == once;
  }
}
