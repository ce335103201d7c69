/** The request guard: which paths the middleware runs on, and the three
    ordered redirect rules it applies to the session read from the cookie. */
module Middleware {
  import opened Wrappers
  import opened JsString
  import opened JsonCodec
  import opened Session
  import UriComponent

  datatype Decision = Next | Redirect(target: string)

  const PublicRoutes: seq<string> := ["/login", "/register"]

  /** `publicRoutes.some(route => pathname.startsWith(route))`. */
  predicate IsPublic(path: string) {
    exists route :: route in PublicRoutes && StartsWith(path, route)
  }

  /** The decision for a request the middleware runs on. */
  function Guard(session: Option<Json>, path: string): (d: Decision)
    ensures d.Redirect? ==> d.target in {"/dashboard", "/login", "/unauthorized"}
    ensures d == Redirect("/dashboard") <==> session.Some? && IsPublic(path)
    ensures d == Redirect("/login") <==> session.None? && !IsPublic(path) && path != "/"
    ensures d == Redirect("/unauthorized") <==>
      session.Some? && !IsPublic(path) && StartsWith(path, "/dashboard") && !IsAdmin(session.value)
  {
    var isPublic := IsPublic(path);
    if session.Some? && isPublic then Redirect("/dashboard")
    else if session.None? && !isPublic && path != "/" then Redirect("/login")
    else if session.Some? && StartsWith(path, "/dashboard") && !IsAdmin(session.value) then Redirect("/unauthorized")
    else Next
  }

  /** `config.matcher`: `/((?!api|_next/static|_next/image|favicon.ico).*)`, whose `.`
      stands for any character. */
  predicate Matched(path: string) {
    |path| >= 1 && path[0] == '/' &&
    var rest := path[1..];
    !StartsWith(rest, "api") && !StartsWith(rest, "_next/static") && !StartsWith(rest, "_next/image")
    && !(|rest| >= 11 && rest[..7] == "favicon" && rest[8..11] == "ico")
  }

  /** What a request meets: the guard on matched paths, and nothing otherwise. */
  function Middleware(cookie: Option<string>, path: string): (d: Decision)
    ensures !Matched(path) ==> d == Next
  {
    if Matched(path) then Guard(GetSession(cookie), path) else Next
  }

  lemma DiffersAt(s: string, prefix: string, i: nat)
    requires i < |s| && i < |prefix| && s[i] != prefix[i]
    ensures !StartsWith(s, prefix)
  {
    if |prefix| <= |s| {
      assert s[..|prefix|][i] == s[i];
    }
  }

  /** A path whose second character is not that of a public route is not public. */
  lemma NotPublic(path: string)
    requires |path| >= 2 && path[1] != 'l' && path[1] != 'r'
    ensures !IsPublic(path)
  {
    forall route | route in PublicRoutes ensures !StartsWith(path, route) {
      DiffersAt(path, route, 1);
    }
  }

  lemma SessionOnPublicRoute(session: Option<Json>, path: string)
    requires session.Some?
    requires StartsWith(path, "/login") || StartsWith(path, "/register")
    ensures Guard(session, path) == Redirect("/dashboard")
  {
    assert "/login" in PublicRoutes && "/register" in PublicRoutes;
  }

  lemma NoSessionPassesPublicAndRoot(path: string)
    requires IsPublic(path) || path == "/"
    ensures Guard(None, path) == Next
  {
  }

  /** Public classification is a prefix test: longer paths count as well. */
  lemma PrefixIsPublic()
    ensures IsPublic("/login-help") && IsPublic("/registered")
  {
    assert StartsWith("/login-help", PublicRoutes[0]);
    assert StartsWith("/registered", PublicRoutes[1]);
  }

  lemma AdminPassesDashboard(user: Json, path: string)
    requires IsAdmin(user) && StartsWith(path, "/dashboard")
    ensures Guard(Some(user), path) == Next
  {
    assert path[1] == "/dashboard"[1];
    NotPublic(path);
  }

  /** Following a redirect with the same session ends at a page that passes, after at
      most one more redirect (a non-admin is sent from a public page to the dashboard
      and from there to `/unauthorized`). */
  lemma RedirectsSettle(session: Option<Json>, path: string)
    ensures match Guard(session, path)
      case Next => true
      case Redirect(t) =>
        Guard(session, t) == Next
        || (Guard(session, t).Redirect? && Guard(session, Guard(session, t).target) == Next)
  {
    NotPublic("/dashboard");
    NotPublic("/unauthorized");
    assert IsPublic("/login") by {
      assert StartsWith("/login", PublicRoutes[0]);
    }
    DiffersAt("/unauthorized", "/dashboard", 1);
    DiffersAt("/login", "/dashboard", 1);
  }

  /** The pages redirects lead to do not redirect again. */
  lemma NoRedirectLoops(user: Json)
    ensures Guard(None, "/login") == Next
    ensures !IsAdmin(user) ==> Guard(Some(user), "/unauthorized") == Next
    ensures IsAdmin(user) ==> Guard(Some(user), "/dashboard") == Next
  {
    RedirectsSettle(None, "/x");
    RedirectsSettle(Some(user), "/unauthorized");
    if IsAdmin(user) {
      AdminPassesDashboard(user, "/dashboard");
    }
  }

  /** API routes, static assets and the favicon never reach the guard. */
  lemma ExcludedPaths(cookie: Option<string>, path: string)
    requires |path| >= 1 && path[0] == '/'
    requires StartsWith(path[1..], "api") || StartsWith(path[1..], "_next/static")
          || StartsWith(path[1..], "_next/image") || StartsWith(path[1..], "favicon.ico")
    ensures Middleware(cookie, path) == Next
  {
    assert !Matched(path);
  }

  /** After signing in, an administrator's cookie opens the dashboard. */
  lemma AdminCookieOpensDashboard(u: SessionUser, now: nat)
    requires u.role == "admin"
    ensures Middleware(Some(CreateSession(u, now)), "/dashboard") == Next
  {
    SessionRoundTrip(u, now);
    AdminOfUser(u);
    AdminPassesDashboard(UserJson(u), "/dashboard");
  }

  /** The cookie carries no signature: any cookie written as `createSession` writes,
      whose `user` has the role `admin`, opens the dashboard as well. */
  lemma ForgedAdminCookie(p: Json)
    requires WellFormed(p)
    requires Member(p, "user").Some? && Truthy(Member(p, "user").value) && IsAdmin(Member(p, "user").value)
    ensures Middleware(Some(UriComponent.Encode(Serialize(p))), "/dashboard") == Next
  {
    AnyPayloadReads(p);
    AdminPassesDashboard(Member(p, "user").value, "/dashboard");
  }
}
