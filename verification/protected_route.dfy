/**
 * The route guards (ProtectedRoute and AdminRoute): each decides, from the
 * auth context's flags, whether to show a loader, redirect, or render the
 * nested routes. The admin pages are nested inside the protected ones.
 */
module ProtectedRoute {
  import opened JsValues
  import AuthService
  import AuthContext

  datatype Decision = ShowLoader(message: string) | RedirectTo(path: string) | RenderOutlet

  /** Guard of every signed-in page. */
  function ProtectedRouteDecision(isLoading: bool, isAuthenticated: bool): (d: Decision)
    ensures isLoading ==> d == ShowLoader("Checking authentication...")
    ensures !isLoading ==> (d == RenderOutlet <==> isAuthenticated)
    ensures !isLoading && !isAuthenticated ==> d == RedirectTo("/login")
  {
    if isLoading then ShowLoader("Checking authentication...")
    else if !isAuthenticated then RedirectTo("/login")
    else RenderOutlet
  }

  /** Guard of the administration pages. */
  function AdminRouteDecision(isLoading: bool, isAdmin: bool): (d: Decision)
    ensures isLoading ==> d == ShowLoader("Checking permissions...")
    ensures !isLoading ==> (d == RenderOutlet <==> isAdmin)
    ensures !isLoading && !isAdmin ==> d == RedirectTo("/dashboard")
  {
    if isLoading then ShowLoader("Checking permissions...")
    else if !isAdmin then RedirectTo("/dashboard")
    else RenderOutlet
  }

  /** An administration path: the admin guard runs only where the outer guard renders its outlet. */
  function AdminPathDecision(isLoading: bool, user: Option<AuthService.User>): Decision
  {
    var outer := ProtectedRouteDecision(isLoading, AuthContext.IsAuthenticatedUser(user));
    if outer == RenderOutlet then AdminRouteDecision(isLoading, AuthContext.IsAdminUser(user)) else outer
  }

  /** On an admin path: loading shows the loader, anonymous goes to sign-in, non-admins to the dashboard. */
  lemma AdminPathOutcomes(isLoading: bool, user: Option<AuthService.User>)
    ensures isLoading ==> AdminPathDecision(isLoading, user).ShowLoader?
    ensures !isLoading && user.None? ==> AdminPathDecision(isLoading, user) == RedirectTo("/login")
    ensures !isLoading && user.Some? && user.value.roleLevel != 1 ==> AdminPathDecision(isLoading, user) == RedirectTo("/dashboard")
    ensures AdminPathDecision(isLoading, user) == RenderOutlet <==> !isLoading && AuthContext.IsAdminUser(user)
  {
  }

  /** While the session is being checked no guard redirects. */
  lemma LoadingNeverRedirects(isAuthenticated: bool, isAdmin: bool, user: Option<AuthService.User>)
    ensures !ProtectedRouteDecision(true, isAuthenticated).RedirectTo?
    ensures !AdminRouteDecision(true, isAdmin).RedirectTo?
    ensures !AdminPathDecision(true, user).RedirectTo?
  {
  }
}
