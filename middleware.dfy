/**
 * The route gate that runs before page rendering: protected routes need a
 * session, and a signed-in visitor is sent away from the sign-in and sign-up
 * pages.  Whether a session exists is a parameter (the session lookup itself
 * is a call into the authentication service).
 */
module RouteGate {

  import opened Options

  /** `NextResponse.next()`, or a redirect to `path` with the optional query
      parameter `redirect`. */
  datatype Decision = Next | Redirect(path: string, redirectParam: Option<string>)

  const SignIn := "/signin"
  const SignUp := "/signup"
  const Dashboard := "/dashboard"
  const ProtectedPrefixes := ["/dashboard", "/projects", "/profile"]

  predicate StartsWith(s: string, prefix: string) {
    |prefix| <= |s| && s[..|prefix|] == prefix
  }

  /** `startsWith` on any of the three protected prefixes. */
  predicate IsProtectedRoute(pathname: string) {
    StartsWith(pathname, "/dashboard") || StartsWith(pathname, "/projects") || StartsWith(pathname, "/profile")
  }

  predicate IsAuthPage(pathname: string) {
    pathname == SignIn || pathname == SignUp
  }

  /** The function `middleware`, for a request path and the presence of a session. */
  function Middleware(pathname: string, hasSession: bool): (d: Decision)
    ensures d == Redirect(SignIn, Some(pathname)) <==>
      (exists k :: 0 <= k < |ProtectedPrefixes| && StartsWith(pathname, ProtectedPrefixes[k])) && !hasSession
    ensures d == Redirect(Dashboard, None) <==> IsAuthPage(pathname) && hasSession
    ensures d.Next? <==> !(IsProtectedRoute(pathname) && !hasSession) && !(IsAuthPage(pathname) && hasSession)
    ensures d.Redirect? ==> d in {Redirect(SignIn, Some(pathname)), Redirect(Dashboard, None)}
  {
    assert ProtectedPrefixes[0] == "/dashboard" && ProtectedPrefixes[1] == "/projects" && ProtectedPrefixes[2] == "/profile";
    if IsProtectedRoute(pathname) && !hasSession then
      Redirect(SignIn, Some(pathname))
    else if IsAuthPage(pathname) && hasSession then
      Redirect(Dashboard, None)
    else
      Next
  }

  /** `/:path*` after a base: the base itself, or the base followed by a slash
      and further segments. */
  predicate MatchesBase(pathname: string, base: string) {
    pathname == base || StartsWith(pathname, base + "/")
  }

  /** The `config.matcher` list: the middleware runs only on these paths. */
  predicate MatcherSelects(pathname: string) {
    MatchesBase(pathname, "/dashboard") || MatchesBase(pathname, "/projects") || MatchesBase(pathname, "/profile")
    || pathname == SignIn || pathname == SignUp
  }

  /** What a request meets: the middleware on the paths the matcher selects,
      the page itself elsewhere. */
  function Gate(pathname: string, hasSession: bool): (d: Decision)
    ensures !MatcherSelects(pathname) ==> d == Next
    ensures MatcherSelects(pathname) ==> d == Middleware(pathname, hasSession)
    ensures d.Redirect? ==> IsProtectedRoute(pathname) || IsAuthPage(pathname)
  {
    if MatcherSelects(pathname) then Middleware(pathname, hasSession) else Next
  }

  lemma StartsWithConcat(s: string, prefix: string)
    ensures StartsWith(s, prefix + "/") ==> StartsWith(s, prefix)
  {
    if StartsWith(s, prefix + "/") {
      assert s[..|prefix|] == (prefix + "/")[..|prefix|];
    }
  }

  /** Every path the matcher hands to the middleware under a protected base is
      one the middleware protects, so the matcher never lets a protected
      section through unguarded. */
  lemma {:induction false} MatcherCoversProtectedSections(pathname: string)
    ensures MatchesBase(pathname, "/dashboard") || MatchesBase(pathname, "/projects") || MatchesBase(pathname, "/profile")
      ==> IsProtectedRoute(pathname)
  {
    StartsWithConcat(pathname, "/dashboard");
    StartsWithConcat(pathname, "/projects");
    StartsWithConcat(pathname, "/profile");
  }

  /** `startsWith('/profile')` is a string prefix test, not a path-segment
      test: "/profiles" and "/dashboardx" count as protected. */
  lemma PrefixNotSegment()
    ensures IsProtectedRoute("/profiles")
    ensures IsProtectedRoute("/dashboardx")
    ensures !IsProtectedRoute("/project")
  {
    assert "/profiles"[..8] == "/profile";
    assert "/dashboardx"[..10] == "/dashboard";
    assert "/project"[4] != "/profile"[4];
    assert |"/project"| < |"/projects"| && |"/project"| < |"/dashboard"|;
  }

  /** ... but the matcher does not run the middleware on "/profiles", so the
      page answers without a session check. */
  lemma ProfilesBypassesGate(hasSession: bool)
    ensures Middleware("/profiles", false) == Redirect(SignIn, Some("/profiles"))
    ensures Gate("/profiles", hasSession) == Next
  {
    PrefixNotSegment();
    assert !StartsWith("/profiles", "/profile/") by {
      assert "/profiles"[8] != "/profile/"[8];
    }
    assert !StartsWith("/profiles", "/dashboard/") by {
      assert "/profiles"[1] != "/dashboard/"[1];
    }
    assert !StartsWith("/profiles", "/projects/") by {
      assert "/profiles"[4] != "/projects/"[4];
    }
  }

  /** No path is both protected and an auth page, so at most one of the two
      redirect rules ever applies. */
  lemma AuthPagesAreNotProtected(pathname: string)
    ensures IsAuthPage(pathname) ==> !IsProtectedRoute(pathname)
  {
    if pathname == SignIn || pathname == SignUp {
      assert pathname[1] == 's';
      assert "/dashboard"[1] == 'd' && "/projects"[1] == 'p' && "/profile"[1] == 'p';
    }
  }

  /** Following a redirect with the same session status ends at the page:
      the gate never redirects twice in a row. */
  lemma {:induction false} NoRedirectLoop(pathname: string, hasSession: bool)
    ensures Gate(pathname, hasSession).Redirect? ==> Gate(Gate(pathname, hasSession).path, hasSession) == Next
  {
    var d := Gate(pathname, hasSession);
    if d.Redirect? {
      if d.path == SignIn {
        AuthPagesAreNotProtected(SignIn);
        assert !hasSession;
      } else {
        assert d.path == Dashboard && hasSession;
      }
    }
  }

  /** The same for the middleware on its own, the pathname taken as given:
      its redirect targets pass through for the same session status, whether
      or not the matcher would have run it on the original path. */
  lemma {:induction false} MiddlewareNoRedirectLoop(pathname: string, hasSession: bool)
    ensures Middleware(pathname, hasSession).Redirect? ==>
      Middleware(Middleware(pathname, hasSession).path, hasSession) == Next
  {
    AuthPagesAreNotProtected(SignIn);
  }

  /** A visitor with a session is never sent to the sign-in page, and one
      without a session is never sent to the dashboard. */
  lemma RedirectTargets(pathname: string, hasSession: bool)
    ensures Gate(pathname, hasSession) == Redirect(SignIn, Some(pathname)) ==> !hasSession
    ensures Gate(pathname, hasSession) == Redirect(Dashboard, None) ==> hasSession
  {
  }
}
