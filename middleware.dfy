/** The request middleware that guards the dashboard: it runs only on the
    paths its matcher names and decides, from the path and whether a user
    is signed in, to redirect or to let the request through. */
module Middleware {

  datatype Response = PassThrough | Redirect(location: string)

  const DashboardPath := "/dashboard"
  const LoginPath := "/login"

  /** The matcher: `/dashboard/:path*` (the dashboard and everything under
      it) and `/login`. */
  predicate Matches(path: string)
  {
    path == DashboardPath || DashboardPath + "/" <= path || path == LoginPath
  }

  /** The decision: a signed-out request for a path starting with
      `/dashboard` goes to the login page, a signed-in request for the login
      page goes to the dashboard, anything else passes. */
  function Decide(pathname: string, signedIn: bool): (r: Response)
    ensures r == Redirect(LoginPath) <==> DashboardPath <= pathname && !signedIn
    ensures r == Redirect(DashboardPath) <==> pathname == LoginPath && signedIn
    ensures r.PassThrough? || r == Redirect(LoginPath) || r == Redirect(DashboardPath)
  {
    if DashboardPath <= pathname && !signedIn then Redirect(LoginPath)
    else if pathname == LoginPath && signedIn then Redirect(DashboardPath)
    else PassThrough
  }

  /** A request as the application sees it: paths outside the matcher never
      reach the middleware. */
  function Handle(path: string, signedIn: bool): (r: Response)
    ensures !Matches(path) ==> r == PassThrough
    ensures Matches(path) ==> r == Decide(path, signedIn)
  {
    if Matches(path) then Decide(path, signedIn) else PassThrough
  }

  /** The two redirect conditions never hold together. */
  lemma RedirectsExclusive(pathname: string, signedIn: bool)
    ensures !(DashboardPath <= pathname && !signedIn && pathname == LoginPath && signedIn)
    ensures !(DashboardPath <= LoginPath)
  {
  }

  /** Following a redirect, with the same sign-in state, is let through:
      there is no redirect loop. */
  lemma NoRedirectLoop(path: string, signedIn: bool)
    ensures Handle(path, signedIn).Redirect? ==> Handle(Handle(path, signedIn).location, signedIn) == PassThrough
  {
    assert !(DashboardPath <= LoginPath);
  }

  /** Both redirect targets are paths the matcher names. */
  lemma TargetsAreMatched()
    ensures Matches(LoginPath) && Matches(DashboardPath)
  {
  }

  /** Every dashboard page is closed to signed-out requests, and signed-in
      requests reach it. */
  lemma DashboardGuarded(path: string)
    requires path == DashboardPath || DashboardPath + "/" <= path
    ensures Handle(path, false) == Redirect(LoginPath)
    ensures Handle(path, true) == PassThrough
  {
    assert DashboardPath <= path by {
      if path != DashboardPath {
        assert path[..|DashboardPath|] == (DashboardPath + "/")[..|DashboardPath|];
      }
    }
    assert path != LoginPath by {
      assert |path| >= |DashboardPath| > |LoginPath|;
    }
  }

  /** A path that only starts with the text `/dashboard` (such as
      `/dashboards`) meets the guard's test but not the matcher, so it is let
      through. */
  lemma PrefixOutsideMatcher()
    ensures Decide("/dashboards", false) == Redirect(LoginPath)
    ensures Handle("/dashboards", false) == PassThrough
  {
    assert !(DashboardPath + "/" <= "/dashboards") by {
      assert "/dashboards"[10] != (DashboardPath + "/")[10];
    }
  }
}
