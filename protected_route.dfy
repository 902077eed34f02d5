/** `ProtectedRoute`: what a guarded route shows, decided in a fixed order. */
module ProtectedRoute {
  import opened Types

  datatype Decision = ShowSpinner | RedirectLogin | RedirectHome | RenderChildren

  /** Loading first, then a missing user, then the admin-only test. */
  function Guard(isLoading: bool, user: Option<User>, adminOnly: bool): (d: Decision)
    ensures isLoading ==> d == ShowSpinner
    ensures d == RedirectLogin <==> !isLoading && user.None?
    ensures d == RedirectHome <==> !isLoading && user.Some? && adminOnly && user.value.role != Admin
    ensures d == RenderChildren <==> !isLoading && user.Some? && (!adminOnly || user.value.role == Admin)
    ensures d == RenderChildren ==> user.Some?
  {
    if isLoading then ShowSpinner
    else if user.None? then RedirectLogin
    else if adminOnly && user.value.role != Admin then RedirectHome
    else RenderChildren
  }
}
