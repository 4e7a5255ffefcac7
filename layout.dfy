/**
 * The root layout: the navigation guard run whenever the user, the loading flag
 * or the path changes, and the loading gate in front of the page content.
 */
module Layout {
  import opened Wrappers
  import opened Todos

  /** The sign-in view's path and the task view's path. */
  const AuthPath: string := "/auth"
  const HomePath: string := "/"

  /**
   * The path the guard pushes, if any: nothing while the session check is
   * pending; a signed-out visitor anywhere but the sign-in view goes there; a
   * signed-in user on the sign-in view goes home.
   */
  function Redirect(user: Option<User>, loading: bool, pathname: string): (target: Option<string>)
    ensures target == None <==> loading || (user.Some? <==> pathname != AuthPath)
    ensures target.Some? ==> target.value != pathname && (user.Some? <==> target.value != AuthPath)
  {
    if !loading then
      if user.None? && pathname != AuthPath then Some(AuthPath)
      else if user.Some? && pathname == AuthPath then Some(HomePath)
      else None
    else None
  }

  /** While the session check is pending there is no redirect. */
  lemma NoRedirectWhileLoading(user: Option<User>, pathname: string)
    ensures Redirect(user, true, pathname) == None
  {
  }

  /**
   * Once loaded, the guard sends a signed-out visitor to the sign-in view and a
   * signed-in user away from it, and leaves every other case alone.
   */
  lemma RedirectCases(user: Option<User>, pathname: string)
    ensures user.None? && pathname != AuthPath ==> Redirect(user, false, pathname) == Some(AuthPath)
    ensures user.Some? && pathname == AuthPath ==> Redirect(user, false, pathname) == Some(HomePath)
    ensures user.None? && pathname == AuthPath ==> Redirect(user, false, pathname) == None
    ensures user.Some? && pathname != AuthPath ==> Redirect(user, false, pathname) == None
  {
  }

  /** Following a redirect settles the guard: at the target it issues none. */
  lemma RedirectIdempotent(user: Option<User>, loading: bool, pathname: string)
    requires Redirect(user, loading, pathname).Some?
    ensures Redirect(user, loading, Redirect(user, loading, pathname).value) == None
  {
  }

  /** What the layout's body shows. */
  datatype Screen = LoadingPlaceholder | Children

  /** The body shows the page content only once loading has finished. */
  function Body(loading: bool): (screen: Screen)
    ensures screen == Children <==> !loading
  {
    if loading then LoadingPlaceholder else Children
  }
}
