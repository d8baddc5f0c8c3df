/** The client's role-based route guard. */
module ProtectedRoute {
  import opened Wrappers
  import opened Schema

  /** The auth store as the guard reads it: still loading, and the logged-in staff role. */
  datatype Session = Session(isLoading: bool, user: Option<Role>)

  /** What the guard renders. */
  datatype GuardView = LoadingPlaceholder | Redirect(to: string) | RenderChildren

  /** `getDefaultRouteForRole`: the home page of each role. */
  function DefaultRouteForRole(role: Role): (r: string)
    ensures role == Admin <==> r == "/selection"
    ensures role == Agent <==> r == "/modules"
    ensures role == Receptionist <==> r == "/reception"
  {
    match role
    case Admin => "/selection"
    case Agent => "/modules"
    case Receptionist => "/reception"
  }

  /** `ProtectedRoute`: loading first, then log-in, then the admin bypass, then the role list;
      a rejected role is sent to its home page. */
  function Guard(session: Session, allowedRoles: seq<Role>): (v: GuardView)
    ensures v.LoadingPlaceholder? <==> session.isLoading
    ensures !session.isLoading && session.user.None? ==> v == Redirect("/")
    ensures !session.isLoading && session.user == Some(Admin) ==> v == RenderChildren
    ensures !session.isLoading && session.user.Some? && session.user.value != Admin ==>
              (v == RenderChildren <==> session.user.value in allowedRoles)
    ensures !session.isLoading && session.user.Some? && v != RenderChildren ==>
              v == Redirect(DefaultRouteForRole(session.user.value))
  {
    if session.isLoading then LoadingPlaceholder
    else match session.user
      case None => Redirect("/")
      case Some(role) =>
        if role == Admin then RenderChildren
        else if role !in allowedRoles then Redirect(DefaultRouteForRole(role))
        else RenderChildren
  }
}
