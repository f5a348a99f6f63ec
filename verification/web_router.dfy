/** The web app's routes and its navigation guard. Every page under the
    layout at "/" needs a signed-in user (the layout's `auth` mark applies
    to its children); the login and register pages are for guests; any
    other path redirects to "/". The guard reads the stored access token. */
module WebRouter {
  import opened Common

  datatype RouteName = Login | Register | Dashboard | TaskNew | TaskEdit(id: string) | Profile

  /** The route's `meta`, merged from the records it matched. */
  datatype Meta = Meta(auth: bool, guest: bool)

  /** Where a navigation goes: the route, its meta and the full path (path,
      query and hash) it was asked for. */
  datatype Target = Target(route: RouteName, meta: Meta, fullPath: string)

  datatype GuardResult =
    | Allow
    | ToLogin(redirect: string)
    | ToDashboard

  const GUEST := Meta(false, true)
  const AUTH := Meta(true, false)

  /** A one-segment route parameter: non-empty and without '/'. */
  predicate Segment(s: string)
  {
    |s| > 0 && forall i :: 0 <= i < |s| ==> s[i] != '/'
  }

  /** The id of a "/tasks/:id/edit" path, if it is one. */
  function EditId(path: string): (r: Option<string>)
    ensures r.Some? ==> Segment(r.value) && path == "/tasks/" + r.value + "/edit"
  {
    if |path| > 12 && path[..7] == "/tasks/" && path[|path| - 5..] == "/edit" then
      var id := path[7..|path| - 5];
      assert path == path[..7] + id + path[|path| - 5..];
      if Segment(id) then Some(id) else None
    else None
  }

  /** The route a path resolves to, the catch-all's redirect to "/"
      included. */
  function Resolve(path: string): (r: RouteName)
  {
    if path == "/login" then Login
    else if path == "/register" then Register
    else if path == "/tasks/new" then TaskNew
    else if path == "/profile" then Profile
    else if EditId(path).Some? then TaskEdit(EditId(path).value)
    else Dashboard
  }

  function MetaOf(route: RouteName): (m: Meta)
  {
    if route == Login || route == Register then GUEST else AUTH
  }

  /** The route's path; the path of a redirect target. */
  function PathOf(route: RouteName): string
  {
    match route
    case Login => "/login"
    case Register => "/register"
    case Dashboard => "/"
    case TaskNew => "/tasks/new"
    case TaskEdit(id) => "/tasks/" + id + "/edit"
    case Profile => "/profile"
  }

  /** Every page resolves back from its own path, so the table has no
      shadowed route; a path no route claims lands on the dashboard, which
      needs a signed-in user. */
  lemma ResolveMeaning(route: RouteName, path: string)
    requires route.TaskEdit? ==> Segment(route.id)
    ensures Resolve(PathOf(route)) == route
    ensures path !in ["/login", "/register", "/", "/tasks/new", "/profile"] && EditId(path).None? ==>
              Resolve(path) == Dashboard && MetaOf(Resolve(path)).auth
  {
    if route.TaskEdit? {
      var p := PathOf(route);
      assert p[..7] == "/tasks/";
      assert p[|p| - 5..] == "/edit";
      assert p[7..|p| - 5] == route.id;
    }
  }

  /** `!token` is true for a missing or empty token. */
  predicate HasToken(token: Option<string>)
  {
    token.Some? && token.value != ""
  }

  /** The `beforeEach` guard. */
  function Guard(to: Target, token: Option<string>): (r: GuardResult)
  {
    if to.meta.auth && !HasToken(token) then ToLogin(to.fullPath)
    else if to.meta.guest && HasToken(token) then ToDashboard
    else Allow
  }

  /** Signed-out users are sent to the login page remembering where they
      were going, signed-in users are kept off guest pages, the auth mark
      wins when a route carries both, and everything else goes through. */
  lemma GuardMeaning(to: Target, token: Option<string>)
    ensures var r := Guard(to, token);
            && (r.ToLogin? <==> to.meta.auth && !HasToken(token))
            && (r.ToLogin? ==> r.redirect == to.fullPath)
            && (r == ToDashboard <==> to.meta.guest && HasToken(token))
            && (r == Allow <==> (to.meta.auth ==> HasToken(token)) && (to.meta.guest ==> !HasToken(token)))
  {
  }

  /** Navigating to `path` followed by `suffix` (its query and hash):
      resolve the path, then ask the guard. The catch-all's redirect to "/"
      keeps the query and hash it was given. */
  function Navigate(path: string, suffix: string, token: Option<string>): (r: GuardResult)
  {
    var route := Resolve(path);
    Guard(Target(route, MetaOf(route), (if route == Dashboard then "/" else path) + suffix), token)
  }

  /** The guard's redirects end: the page it sends a navigation to is one
      it lets through with the same token. */
  lemma GuardRedirectsSettle(path: string, suffix: string, token: Option<string>)
    ensures var r := Navigate(path, suffix, token);
            && (r.ToLogin? ==> Navigate("/login", "?redirect=" + r.redirect, token) == Allow)
            && (r == ToDashboard ==> Navigate("/", "", token) == Allow)
  {
  }

  /** Without a token every page but login and register sends the user to
      log in; with one, login and register send the user to the dashboard. */
  lemma PagesByToken(path: string, suffix: string, token: Option<string>)
    ensures var r := Navigate(path, suffix, token);
            var route := Resolve(path);
            && (!HasToken(token) ==> (r == Allow <==> route == Login || route == Register))
            && (HasToken(token) ==> (r == Allow <==> route != Login && route != Register))
            && (HasToken(token) && !r.Allow? ==> r == ToDashboard)
  {
  }

  /** An unknown path, signed out, asks for login with "/" and the original
      query to come back to. */
  lemma UnknownPathSignedOut(token: Option<string>)
    requires !HasToken(token)
    ensures Navigate("/nowhere", "?x=1", token) == ToLogin("/?x=1")
  {
    assert EditId("/nowhere").None?;
  }

  /** Signed out, a known page asks for login with its own path and query
      to come back to. */
  lemma KnownPathSignedOut(suffix: string, token: Option<string>)
    requires !HasToken(token)
    ensures Navigate("/profile", suffix, token) == ToLogin("/profile" + suffix)
    ensures Navigate("/tasks/new", suffix, token) == ToLogin("/tasks/new" + suffix)
  {
  }
}
