/** The application shell's two decisions, taken on every render from the
    authentication state and the current path: where to send the browser
    (the redirect effect) and what to draw (the render gate). */
module AppShell {
  import opened Wrappers
  import opened Domain
  import opened AccessControl

  /** What the shell reads from the authentication provider. */
  datatype AuthView = AuthView(
    authEnabled: bool,
    authLoading: bool,
    roleLoading: bool,
    user: Option<string>,
    role: Option<AppRole>)

  /** What the shell draws. */
  datatype Screen =
    | PageOnly          // the public page, without the sidebar
    | LoadingAccess     // "Loading access..."
    | Nothing           // an empty render while a redirect is pending
    | AccessNotAssigned // signed in but no role
    | AppLayout         // the sidebar, header and page

  /** The path the redirect effect replaces the current one with, if any. */
  function RedirectTarget(auth: AuthView, path: string): (target: Option<string>)
    ensures !auth.authEnabled ==> target.None?
    ensures auth.authEnabled && auth.authLoading ==> target.None?
    ensures auth.authEnabled && !auth.authLoading && auth.user.None? ==>
              target == (if IsPublicPath(path) then None else Some(LOGIN_PATH))
    ensures auth.authEnabled && !auth.authLoading && auth.user.Some? && IsPublicPath(path) && !auth.roleLoading ==>
              target == Some(DefaultPathForRole(auth.role.UnwrapOr(StudentsOnly)))
    ensures auth.authEnabled && !auth.authLoading && auth.user.Some? && !auth.roleLoading &&
            auth.role.Some? && !CanRoleAccessPath(auth.role.value, path) ==>
              target == Some(DefaultPathForRole(auth.role.value))
    ensures target.Some? ==> auth.authEnabled && !auth.authLoading
  {
    if !auth.authEnabled then None
    else if auth.authLoading then None
    else if auth.user.None? then (if IsPublicPath(path) then None else Some(LOGIN_PATH))
    else if IsPublicPath(path) then
      (if auth.roleLoading then None else Some(DefaultPathForRole(auth.role.UnwrapOr(StudentsOnly))))
    else if auth.roleLoading || auth.role.None? then None
    else if !CanRoleAccessPath(auth.role.value, path) then Some(DefaultPathForRole(auth.role.value))
    else None
  }

  /** The render gate. */
  function Render(auth: AuthView, path: string): (screen: Screen)
    ensures IsPublicPath(path) <==> screen == PageOnly
    ensures !IsPublicPath(path) && !auth.authEnabled ==> screen == AppLayout
    ensures auth.authEnabled && !IsPublicPath(path) && (auth.authLoading || (auth.user.Some? && auth.roleLoading)) ==>
              screen == LoadingAccess
    ensures auth.authEnabled && !IsPublicPath(path) && !auth.authLoading && auth.user.None? ==> screen == Nothing
    ensures (auth.authEnabled && auth.user.Some? && !auth.authLoading && !auth.roleLoading &&
             auth.role.None? && !IsPublicPath(path)) ==> screen == AccessNotAssigned
    ensures auth.authEnabled && !IsPublicPath(path) && !auth.authLoading && auth.user.Some? && !auth.roleLoading &&
            auth.role.Some? ==>
              screen == (if CanRoleAccessPath(auth.role.value, path) then AppLayout else Nothing)
  {
    if IsPublicPath(path) then PageOnly
    else if auth.authEnabled && (auth.authLoading || (auth.user.Some? && auth.roleLoading)) then LoadingAccess
    else if auth.authEnabled && auth.user.None? then Nothing
    else if auth.authEnabled && auth.user.Some? && !auth.roleLoading && auth.role.None? then AccessNotAssigned
    else if auth.authEnabled && auth.role.Some? && !CanRoleAccessPath(auth.role.value, path) then Nothing
    else AppLayout
  }

  /** With sign-in switched on, the application is drawn only for a signed-in
      user whose role has loaded and may open the page, and then no
      redirect is pending. */
  lemma AppLayoutOnlyWhenAllowed(auth: AuthView, path: string)
    requires auth.authEnabled && Render(auth, path) == AppLayout
    ensures auth.user.Some? && !auth.authLoading && !auth.roleLoading
    ensures auth.role.Some? && CanRoleAccessPath(auth.role.value, path)
    ensures RedirectTarget(auth, path).None?
  {
  }

  /** A user without a role never sees the application. */
  lemma NoRoleNeverSeesApp(auth: AuthView, path: string)
    requires auth.authEnabled && auth.role.None?
    ensures Render(auth, path) != AppLayout
  {
  }

  /** Following a redirect never triggers another one: the target is a
      page the same state is content with. */
  lemma RedirectSettles(auth: AuthView, path: string)
    requires RedirectTarget(auth, path).Some?
    ensures RedirectTarget(auth, RedirectTarget(auth, path).value).None?
  {
    var target := RedirectTarget(auth, path).value;
    if auth.user.Some? {
      DefaultPathAccessible(auth.role.UnwrapOr(StudentsOnly));
    }
  }
}
