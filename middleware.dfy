/**
 * The route guard run before each page request: it decides authentication from the
 * `auth-storage` cookie and either lets the request through or redirects it.
 *
 * `JSON.parse` is a parameter `parse` that yields `None` where it would throw, and
 * the redirect target is given relative to the request's origin.
 */
module Middleware {
  import opened Wrappers
  import opened JsString

  /** A parsed JSON value (numbers are integers here). */
  datatype Json =
    | JNull
    | JBool(b: bool)
    | JNumber(n: int)
    | JString(s: string)
    | JArray(items: seq<Json>)
    | JObject(fields: map<string, Json>)

  /** JavaScript truthiness; `None` is `undefined`. */
  predicate Truthy(v: Option<Json>) {
    match v
    case None => false
    case Some(JNull) => false
    case Some(JBool(b)) => b
    case Some(JNumber(n)) => n != 0
    case Some(JString(s)) => s != ""
    case Some(JArray(_)) => true
    case Some(JObject(_)) => true
  }

  /** Property access `v.key` on a value that is not `null`: only objects have these properties. */
  function Property(v: Json, key: string): Option<Json> {
    match v
    case JObject(fields) => if key in fields then Some(fields[key]) else None
    case _ => None
  }

  /**
   * Authenticated when the parsed value's `state` object has a truthy `token` and a
   * truthy `user`. On `null`, reading `state` throws, which the guard catches and
   * counts as not authenticated.
   */
  predicate AuthenticatedBy(parsed: Json) {
    if parsed == JNull then false
    else
      var state := Property(parsed, "state");
      if state.None? || state.value == JNull then false
      else Truthy(Property(state.value, "token")) && Truthy(Property(state.value, "user"))
  }

  /** The authentication decision for the cookie's value, if any. */
  predicate IsAuthenticated(authState: Option<string>, parse: string -> Option<Json>) {
    && authState.Some? && authState.value != ""
    && parse(authState.value).Some?
    && AuthenticatedBy(parse(authState.value).value)
  }

  /** The pages a signed-in user is sent away from, matched by prefix. */
  predicate IsAuthPage(pathname: string) {
    StartsWith(pathname, "/auth/login") || StartsWith(pathname, "/auth/register")
  }

  /** A URL on the request's origin: a path and its search parameters in order. */
  datatype Location = Location(path: string, query: seq<(string, string)>)

  datatype Response = Next | Redirect(to: Location)

  /** The login page, remembering where the user was going under the key `/auth/redirect`. */
  function LoginRedirect(pathname: string): Location {
    Location("/auth/login", [("/auth/redirect", pathname)])
  }

  const Home: Location := Location("/", [])

  /** The route guard's answer for a request, from its cookie and its pathname. */
  function Decide(authState: Option<string>, parse: string -> Option<Json>, pathname: string): (r: Response)
    ensures r == Redirect(LoginRedirect(pathname)) <==> !IsAuthenticated(authState, parse) && !IsAuthPage(pathname)
    ensures r == Redirect(Home) <==> IsAuthenticated(authState, parse) && IsAuthPage(pathname)
    ensures r == Next <==> (IsAuthenticated(authState, parse) <==> !IsAuthPage(pathname))
  {
    var authenticated := IsAuthenticated(authState, parse);
    var authPage := IsAuthPage(pathname);
    if !authenticated && !authPage then Redirect(LoginRedirect(pathname))
    else if authenticated && authPage then Redirect(Home)
    else Next
  }

  /** A missing, empty or unparsable cookie never authenticates. */
  lemma UnreadableCookieNotAuthenticated(authState: Option<string>, parse: string -> Option<Json>)
    requires authState.None? || authState.value == "" || parse(authState.value).None?
    ensures !IsAuthenticated(authState, parse)
  {
  }

  /** The shape the login flow stores: `{state: {user, token}}`. */
  function CookiePayload(user: Json, token: string): Json {
    JObject(map["state" := JObject(map["user" := user, "token" := JString(token)])])
  }

  /** A stored `{state: {user, token}}` authenticates exactly when the user is truthy and the token non-empty. */
  lemma CookiePayloadAuthenticates(authState: string, parse: string -> Option<Json>, user: Json, token: string)
    requires parse(authState) == Some(CookiePayload(user, token))
    ensures IsAuthenticated(Some(authState), parse) <==> authState != "" && Truthy(Some(user)) && token != ""
  {
  }

  /** Every path with a login or register prefix counts as an auth page, extensions included. */
  lemma AuthPagePrefix(suffix: string)
    ensures IsAuthPage("/auth/login" + suffix) && IsAuthPage("/auth/register" + suffix)
  {
    assert ("/auth/login" + suffix)[..|"/auth/login"|] == "/auth/login";
    assert ("/auth/register" + suffix)[..|"/auth/register"|] == "/auth/register";
  }
}
