/**
 * The guard around every private page: a spinner while the session loads, the login page
 * for a visitor, the password-change page for a user who must change the password, and the
 * page itself otherwise.
 */
module RouteGuard {

  import opened Wrappers

  datatype Guard =
    | Spinner
    | Redirect(to: string, from: Option<string>)
    | RenderChildren

  const LoginPath := "/login"
  const ChangePasswordPath := "/change-password"

  /**
   * `ProtectedRoute`: the checks in order — loading, authentication, the user's pending
   * password change, the route's own password-change requirement. `mustChangePassword` is
   * false when there is no user record.
   */
  function Decide(isLoading: bool, isAuthenticated: bool, mustChangePassword: bool,
                  requirePasswordChange: bool, pathname: string): (g: Guard)
    ensures isLoading <==> g == Spinner
    ensures !isLoading && !isAuthenticated <==> g == Redirect(LoginPath, Some(pathname))
    ensures g.Redirect? && g.to == ChangePasswordPath ==> pathname != ChangePasswordPath && g.from.None?
    ensures g == RenderChildren <==>
      !isLoading && isAuthenticated &&
      (pathname == ChangePasswordPath || (!mustChangePassword && !requirePasswordChange))
    ensures g.Redirect? ==> g.to == LoginPath || g.to == ChangePasswordPath
  {
    if isLoading then Spinner
    else if !isAuthenticated then Redirect(LoginPath, Some(pathname))
    else if mustChangePassword && pathname != ChangePasswordPath then Redirect(ChangePasswordPath, None)
    else if requirePasswordChange && pathname != ChangePasswordPath then Redirect(ChangePasswordPath, None)
    else RenderChildren
  }

  /** An authenticated user who arrives at the password-change page is never sent away. */
  lemma ChangePasswordPageRenders(mustChangePassword: bool, requirePasswordChange: bool)
    ensures Decide(false, true, mustChangePassword, requirePasswordChange, ChangePasswordPath) == RenderChildren
  {
  }

  /** Following a redirect of the guard leads to a page the guard lets through, in one step. */
  lemma RedirectSettles(isAuthenticated: bool, mustChangePassword: bool, requirePasswordChange: bool, pathname: string)
    requires isAuthenticated
    requires Decide(false, isAuthenticated, mustChangePassword, requirePasswordChange, pathname).Redirect?
    ensures var g := Decide(false, isAuthenticated, mustChangePassword, requirePasswordChange, pathname);
      Decide(false, isAuthenticated, mustChangePassword, requirePasswordChange, g.to) == RenderChildren
  {
  }
}
