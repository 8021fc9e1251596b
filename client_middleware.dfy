/**
 * The route decision of apps/client-app/middleware.ts: a path is classified by
 * the prefixes it starts with, and a request is redirected to the login page,
 * redirected to the dashboard, or passed through, looking only at whether the
 * session cookie is present.
 */
module ClientMiddleware {
  import opened Wrappers

  const ProtectedRoutes: seq<string> := ["/dashboard", "/profile", "/settings"]
  const AdminRoutes: seq<string> := ["/admin"]
  const AuthRoutes: seq<string> := ["/login", "/register", "/forgot-password", "/reset-password"]

  /** `routes.some((route) => pathname.startsWith(route))`. */
  function StartsWithAny(path: string, routes: seq<string>): (r: bool)
    ensures r <==> exists i :: 0 <= i < |routes| && routes[i] <= path
  {
    if routes == [] then false
    else if routes[0] <= path then true
    else
      var r := StartsWithAny(path, routes[1..]);
      assert forall i :: 1 <= i < |routes| ==> routes[i] == routes[1..][i - 1];
      r
  }

  predicate IsProtected(path: string) { StartsWithAny(path, ProtectedRoutes) }
  predicate IsAdmin(path: string) { StartsWithAny(path, AdminRoutes) }
  predicate IsAuth(path: string) { StartsWithAny(path, AuthRoutes) }

  /** What the middleware answers: a redirect to `/login?callbackUrl=…`, a redirect to `/dashboard`, or `next()`. */
  datatype RouteDecision = RedirectToLogin(callbackUrl: string) | RedirectToDashboard | PassThrough

  /** `middleware`: `sessionCookie` is the value of `better-auth.session_token`, `None` when the request has none. */
  function Decide(path: string, sessionCookie: Option<string>): RouteDecision
  {
    if (IsProtected(path) || IsAdmin(path)) && sessionCookie.None? then RedirectToLogin(path)
    else if IsAuth(path) && sessionCookie.Some? then RedirectToDashboard
    else PassThrough
  }

  /**
   * The three answers, each exactly characterised: a protected or admin path
   * without the cookie goes to the login page carrying the path back, an auth
   * path with the cookie goes to the dashboard, and all else passes.
   */
  lemma DecideIff(path: string, sessionCookie: Option<string>)
    ensures Decide(path, sessionCookie) == RedirectToLogin(path) <==>
      (IsProtected(path) || IsAdmin(path)) && sessionCookie.None?
    ensures Decide(path, sessionCookie) == RedirectToDashboard <==> IsAuth(path) && sessionCookie.Some?
    ensures Decide(path, sessionCookie) == PassThrough <==>
      !((IsProtected(path) || IsAdmin(path)) && sessionCookie.None?) && !(IsAuth(path) && sessionCookie.Some?)
    ensures Decide(path, sessionCookie).RedirectToLogin? ==> Decide(path, sessionCookie).callbackUrl == path
  {
    if (IsProtected(path) || IsAdmin(path)) && sessionCookie.None? {
      AuthDisjoint(path);
    }
  }

  /** Only the cookie's presence is looked at, never its value. */
  lemma CookieValueIgnored(path: string, a: string, b: string)
    ensures Decide(path, Some(a)) == Decide(path, Some(b))
  {
  }

  /**
   * No path is both protected or admin and an auth path: the listed prefixes
   * differ in their second character, so at most one redirect rule can apply.
   */
  lemma AuthDisjoint(path: string)
    ensures !((IsProtected(path) || IsAdmin(path)) && IsAuth(path))
  {
    if IsProtected(path) || IsAdmin(path) {
      var route: string;
      if IsProtected(path) {
        var i :| 0 <= i < |ProtectedRoutes| && ProtectedRoutes[i] <= path;
        route := ProtectedRoutes[i];
      } else {
        var i :| 0 <= i < |AdminRoutes| && AdminRoutes[i] <= path;
        route := AdminRoutes[i];
      }
      assert route[1] in {'d', 'p', 's', 'a'} && route[1] == path[1];
      forall j | 0 <= j < |AuthRoutes|
        ensures !(AuthRoutes[j] <= path)
      {
        assert AuthRoutes[j][1] in {'l', 'r', 'f'};
      }
    }
  }

  /** Matching is by prefix, not by path segment: "/dashboards" is protected and "/administrator" is an admin path. */
  lemma PrefixNotSegment()
    ensures IsProtected("/dashboards") && IsAdmin("/administrator")
    ensures Decide("/administrator", None) == RedirectToLogin("/administrator")
    ensures !IsProtected("/") && Decide("/", None) == PassThrough
  {
    assert ProtectedRoutes[0] <= "/dashboards";
    assert AdminRoutes[0] <= "/administrator";
    assert forall i :: 0 <= i < |ProtectedRoutes| ==> |ProtectedRoutes[i]| > 1;
    assert forall i :: 0 <= i < |AuthRoutes| ==> |AuthRoutes[i]| > 1;
  }
}
