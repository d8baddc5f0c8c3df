/** The client's route table and what a visit to a path ends up showing. */
module AppRoutes {
  import opened Wrappers
  import opened Schema
  import opened ProtectedRoute

  /** The pages behind the routes; the dashboard carries its optional tab parameter. */
  datatype Page = AuthenticationPage | QueueBoardPage | NotFoundPage | SelectionPage
                | DashboardPage(tab: Option<string>) | ModulesPage | ReceptionPage

  /** A route's element: a page, a client redirect, or a page behind the guard. */
  datatype RouteElement = RenderPage(page: Page) | NavigateTo(to: string) | Protected(allowed: seq<Role>, page: Page)

  const DashboardPrefix: string := "/dashboard/"

  /** The `:tab` segment of `/dashboard/:tab`: one non-empty segment without a slash. */
  function DashboardTab(path: string): (r: Option<string>)
    ensures r.Some? <==> |path| > |DashboardPrefix| && path[..|DashboardPrefix|] == DashboardPrefix
                         && '/' !in path[|DashboardPrefix|..]
    ensures r.Some? ==> path == DashboardPrefix + r.value && r.value != ""
  {
    if |path| > |DashboardPrefix| && path[..|DashboardPrefix|] == DashboardPrefix && '/' !in path[|DashboardPrefix|..]
    then Some(path[|DashboardPrefix|..])
    else None
  }

  /** The route a path matches; anything unmatched falls through to the catch-all route, a redirect to
      `/404`. The log-in page sends an authenticated visitor to `/selection`. */
  function Route(path: string, isAuth: bool): (r: RouteElement)
    ensures r.NavigateTo? ==> r.to == "/selection" || r.to == "/404"
    ensures r.NavigateTo? && r.to == "/selection" <==> path == "/" && isAuth
    ensures r.RenderPage? <==> (path == "/" && !isAuth) || path == "/queue" || path == "/404"
    ensures r.Protected? <==> path == "/selection" || path == "/dashboard" || path == "/modules"
                              || path == "/reception" || DashboardTab(path).Some?
    ensures r.Protected? ==> |r.allowed| == 1
                             && (r.page == HomePage(r.allowed[0]) || (r.allowed == [Admin] && r.page.DashboardPage?))
    ensures r.Protected? && r.page.DashboardPage? ==> r.page.tab == DashboardTab(path)
  {
    if path == "/" then (if isAuth then NavigateTo("/selection") else RenderPage(AuthenticationPage))
    else if path == "/queue" then RenderPage(QueueBoardPage)
    else if path == "/404" then RenderPage(NotFoundPage)
    else if path == "/selection" then Protected([Admin], SelectionPage)
    else if path == "/dashboard" then Protected([Admin], DashboardPage(None))
    else if DashboardTab(path).Some? then Protected([Admin], DashboardPage(DashboardTab(path)))
    else if path == "/modules" then Protected([Agent], ModulesPage)
    else if path == "/reception" then Protected([Receptionist], ReceptionPage)
    else NavigateTo("/404")
  }

  /** The home page each role's default route renders. */
  function HomePage(role: Role): Page
  {
    match role
    case Admin => SelectionPage
    case Agent => ModulesPage
    case Receptionist => ReceptionPage
  }

  /** What the screen shows once a visit settles. */
  datatype Screen = Loading | Shows(page: Page)

  /** Follow a visit to `path` through redirects, at most `fuel` of them; `None` when the
      redirects outlast the fuel. */
  function Visit(session: Session, path: string, fuel: nat): Option<Screen>
    decreases fuel
  {
    match Route(path, session.user.Some?)
    case RenderPage(p) => Some(Shows(p))
    case NavigateTo(to) => if fuel == 0 then None else Visit(session, to, fuel - 1)
    case Protected(allowed, p) =>
      match Guard(session, allowed)
      case LoadingPlaceholder => Some(Loading)
      case RenderChildren => Some(Shows(p))
      case Redirect(to) => if fuel == 0 then None else Visit(session, to, fuel - 1)
  }

  /** No redirect loop: every role's default route admits that role. */
  lemma DefaultRouteAdmits(role: Role)
    ensures Route(DefaultRouteForRole(role), true).Protected?
    ensures Guard(Session(false, Some(role)), Route(DefaultRouteForRole(role), true).allowed) == RenderChildren
    ensures Route(DefaultRouteForRole(role), true).page == HomePage(role)
  {
    assert DashboardTab(DefaultRouteForRole(role)).None?;
  }

  /** Whatever the path and the session, a visit settles after at most two redirects. */
  lemma EveryVisitSettles(session: Session, path: string)
    ensures Visit(session, path, 2).Some?
  {
    assert DashboardTab("/").None? && DashboardTab("/404").None? && DashboardTab("/selection").None?;
    assert DashboardTab("/modules").None? && DashboardTab("/reception").None?;
    if session.user.Some? {
      DefaultRouteAdmits(session.user.value);
    }
  }

  /** A logged-in staff member sent away from a guarded page lands on their own home page. */
  lemma RejectedRoleLandsHome(role: Role, path: string)
    requires Route(path, true).Protected?
    requires Guard(Session(false, Some(role)), Route(path, true).allowed) != RenderChildren
    ensures Visit(Session(false, Some(role)), path, 1) == Some(Shows(HomePage(role)))
  {
    DefaultRouteAdmits(role);
  }

  /** A visitor who is not logged in sees either a public page or the log-in page. */
  lemma AnonymousVisitorSeesPublicPages(path: string)
    ensures Visit(Session(false, None), path, 2) in
              {Some(Shows(AuthenticationPage)), Some(Shows(QueueBoardPage)), Some(Shows(NotFoundPage))}
  {
    assert DashboardTab("/").None? && DashboardTab("/404").None?;
  }
}
