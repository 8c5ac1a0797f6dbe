/** The dashboard layout (src/app/dashboard/layout.tsx): it renders its
    children only for an authenticated session that has session data, and
    sends an unauthenticated visitor to the login page. */
module DashboardLayout {
  import opened Common

  /** The redirect effect, run whenever the status changes. */
  function RedirectEffect(status: SessionStatus): (r: Option<string>)
    ensures r.Some? <==> status == Unauthenticated
    ensures r.Some? ==> r.value == LoginPath
  {
    if status == Unauthenticated then Some(LoginPath) else None
  }

  /** The render decision; `hasSession` is whether `useSession().data` is
      present. */
  function View<C>(status: SessionStatus, hasSession: bool, children: C): (r: Render<C>)
    ensures r.Content? <==> status == Authenticated && hasSession
    ensures r.Content? ==> r.props == children
    ensures r != Placeholder
  {
    if status.Loading? || status.Unauthenticated? || !hasSession then Nothing
    else Content(children)
  }

  /** Loading renders nothing and does not redirect; unauthenticated renders
      nothing and redirects; authenticated without session data still
      renders nothing. */
  lemma StatusOutcomes<C>(hasSession: bool, children: C)
    ensures View(Loading, hasSession, children) == Nothing && RedirectEffect(Loading).None?
    ensures View(Unauthenticated, hasSession, children) == Nothing && RedirectEffect(Unauthenticated) == Some(LoginPath)
    ensures View(Authenticated, false, children) == Nothing && RedirectEffect(Authenticated).None?
  {
  }

  /** Content and redirect never coincide. */
  lemma ContentExcludesRedirect<C>(status: SessionStatus, hasSession: bool, children: C)
    ensures View(status, hasSession, children).Content? ==> RedirectEffect(status).None?
  {
  }
}
