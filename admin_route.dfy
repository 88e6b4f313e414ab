/**
 * The guard in front of the administrator pages (`AdminProtectedRoute`), and
 * how it answers the states the session reaches.
 */
module AdminRoute {
  import opened Wrappers
  import opened Session

  /** The three things the guard can do. */
  datatype Decision = ToAdminLogin | ToHome | RenderChildren

  /** Where a redirect goes (both redirects replace the history entry). */
  function RedirectPath(d: Decision): Option<string> {
    match d
    case ToAdminLogin => Some("/admin/login")
    case ToHome => Some("/")
    case RenderChildren => None
  }

  /** Unauthenticated visitors go to the administrator login, signed-in users to the home page. */
  function Guard(isAuthenticated: bool, isAdmin: bool): (d: Decision)
    ensures d == ToAdminLogin <==> !isAuthenticated
    ensures d == ToHome <==> isAuthenticated && !isAdmin
    ensures d == RenderChildren <==> isAuthenticated && isAdmin
    ensures d == RenderChildren <==> RedirectPath(d).None?
  {
    if !isAuthenticated then ToAdminLogin
    else if !isAdmin then ToHome
    else RenderChildren
  }

  /** The guard of a live session renders the protected pages only for a non-empty administrator token. */
  lemma OnlyAdminSessionsRender(s: AuthState)
    ensures Guard(s.IsAuthenticated(), s.isAdmin) == RenderChildren <==> s.isAdmin && Truthy(s.adminToken)
    ensures !s.isAdmin ==> Guard(s.IsAuthenticated(), s.isAdmin) != RenderChildren
  {
  }

  /**
   * A session that logs out, signs in as administrator and then as a user
   * meets the guard's three answers in turn.
   */
  method GuardAcrossSession(s: AuthState, adminToken: string, userToken: string)
    requires adminToken != "" && userToken != ""
    modifies s
    ensures Guard(s.IsAuthenticated(), s.isAdmin) == ToHome
    ensures s.token == Some(userToken) && s.adminToken == None
  {
    s.Logout();
    assert Guard(s.IsAuthenticated(), s.isAdmin) == ToAdminLogin;
    var ok := s.AdminLogin(Accepted(adminToken, None));
    assert Guard(s.IsAuthenticated(), s.isAdmin) == RenderChildren;
    ok := s.Login(Accepted(userToken, None));
  }
}
