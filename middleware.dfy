/** The dashboard guard (src/middleware.ts): a decision from the request path,
    the request URL and the session token, with no state, behind the route
    matcher that decides which requests reach the guard at all. */
module Middleware {
  import opened Common
  import opened Entries

  /** The decoded session token; `role` is whatever string the token carries. */
  datatype Token = Token(role: Option<string>)

  /** `NextResponse.next()`, or a redirect to a path of the same origin with an
      optional `callbackUrl` search parameter. */
  datatype Decision = Next | Redirect(path: string, callbackUrl: Option<string>)

  /** `pathname.startsWith("/dashboard")`. */
  predicate IsDashboardRoute(pathname: string) {
    "/dashboard" <= pathname
  }

  function Decide(pathname: string, url: string, token: Option<Token>): (d: Decision)
    ensures !IsDashboardRoute(pathname) ==> d == Next
    ensures IsDashboardRoute(pathname) && token.None? ==> d == Redirect("/signin", Some(url))
    ensures IsDashboardRoute(pathname) && token.Some? && token.value.role != Some("admin") ==>
              d == Redirect("/", None)
    ensures d == Next <==> !IsDashboardRoute(pathname) || (token.Some? && token.value.role == Some("admin"))
  {
    if !IsDashboardRoute(pathname) then Next
    else if token.None? then Redirect("/signin", Some(url))
    else if token.value.role != Some("admin") then Redirect("/", None)
    else Next
  }

  /** Authentication comes first: without a token every dashboard request goes to
      sign-in, whatever role a token would have carried. */
  lemma SignInBeforeRole(pathname: string, url: string, role: Option<string>)
    requires IsDashboardRoute(pathname)
    ensures Decide(pathname, url, None).path == "/signin"
    ensures Decide(pathname, url, Some(Token(role))).Redirect? ==> Decide(pathname, url, Some(Token(role))).path == "/"
  {
  }

  /** The dashboard admits exactly the sessions that the word endpoints treat as
      admin: both compare the role with the string "admin". */
  lemma DashboardAgreesWithWordGate(pathname: string, url: string, role: Option<string>, id: Option<string>,
                                    email: Option<string>)
    requires IsDashboardRoute(pathname)
    ensures Decide(pathname, url, Some(Token(role))) == Next <==> IsAdmin(Some(SessionUser(id, email, role)))
  {
  }

  /** `config.matcher: ["/dashboard/:path*"]`: the middleware runs on
      "/dashboard" itself and on every path below it, and on nothing else. */
  predicate MatcherRuns(pathname: string) {
    pathname == "/dashboard" || "/dashboard/" <= pathname
  }

  /** Every path the matcher lets through passes the guard's own prefix test, so
      inside the matcher the test never lets a request by. */
  lemma MatchedPathsAreDashboardRoutes(pathname: string)
    requires MatcherRuns(pathname)
    ensures IsDashboardRoute(pathname)
  {
    if pathname != "/dashboard" {
      assert pathname[..|"/dashboard/"|] == "/dashboard/";
      assert pathname[..|"/dashboard"|] == "/dashboard/"[..|"/dashboard"|];
    }
  }

  /** What a request gets: the middleware's decision when the matcher runs it,
      `NextResponse.next()` otherwise. */
  function Respond(pathname: string, url: string, token: Option<Token>): (d: Decision)
    ensures !MatcherRuns(pathname) ==> d == Next
    ensures MatcherRuns(pathname) && token.None? ==> d == Redirect("/signin", Some(url))
    ensures MatcherRuns(pathname) && token.Some? && token.value.role != Some("admin") ==>
              d == Redirect("/", None)
    ensures d == Next <==> !MatcherRuns(pathname) || (token.Some? && token.value.role == Some("admin"))
  {
    if MatcherRuns(pathname) then
      MatchedPathsAreDashboardRoutes(pathname);
      Decide(pathname, url, token)
    else Next
  }

  /** The guard's prefix test alone is on characters and would hold back
      "/dashboards"; the matcher never runs the guard there, so that sibling path
      passes, and so does "/dash". */
  lemma SiblingPathsPass(url: string)
    ensures Decide("/dashboards", url, None) == Redirect("/signin", Some(url))
    ensures Respond("/dashboards", url, None) == Next
    ensures Respond("/dash", url, None) == Next
  {
    assert "/dashboard" <= "/dashboards";
    assert "/dashboards"[10] != "/dashboard/"[10];
    assert !("/dashboard" <= "/dash");
  }
}
