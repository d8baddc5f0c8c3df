/** The admin dashboard's tab bar: the tab comes from the URL, buttons navigate, and the
    active tab picks the section shown. */
module DashboardTabs {
  import opened Wrappers
  import opened Schema
  import opened ProtectedRoute
  import opened AppRoutes

  const DefaultTab: string := "personal"

  /** The ids of the three tab buttons, in display order. */
  const Sections: seq<string> := ["personal", "modulos", "usuarios"]

  datatype Variant = DefaultVariant | SecondaryVariant

  datatype Content = PersonalSection | UserSection

  /** `activeTab`: the route's tab, or the default tab when it is absent or empty. */
  function ActiveTab(tab: Option<string>): (r: string)
    ensures r != ""
    ensures tab.Some? && tab.value != "" ==> r == tab.value
    ensures tab.None? || tab.value == "" ==> r == DefaultTab
  {
    if tab.Some? && tab.value != "" then tab.value else DefaultTab
  }

  /** `handleTabChange`: the path a tab button navigates to. */
  function HandleTabChange(tabId: string): (path: string)
    ensures tabId == DefaultTab ==> path == "/dashboard"
    ensures tabId != DefaultTab ==> path == DashboardPrefix + tabId
  {
    if tabId == DefaultTab then "/dashboard" else DashboardPrefix + tabId
  }

  /** `getVariant`: the active tab's button is highlighted. */
  function GetVariant(activeTab: string, key: string): (v: Variant)
    ensures v == DefaultVariant <==> key == activeTab
  {
    if activeTab == key then DefaultVariant else SecondaryVariant
  }

  /** `renderContent`: only the users tab shows the user section; every other tab, known or
      not, shows the staff section. */
  function RenderContent(activeTab: string): (c: Content)
    ensures c == UserSection <==> activeTab == "usuarios"
  {
    match activeTab
    case "personal" => PersonalSection
    case "modulos" => PersonalSection
    case "usuarios" => UserSection
    case _ => PersonalSection
  }

  /** Round trip: choosing a tab navigates to a path that the route table sends to the
      dashboard, and the dashboard there reads back the chosen tab. */
  lemma TabRoundTrip(tabId: string, isAuth: bool)
    requires tabId != "" && '/' !in tabId
    ensures Route(HandleTabChange(tabId), isAuth).Protected?
    ensures Route(HandleTabChange(tabId), isAuth).page.DashboardPage?
    ensures ActiveTab(Route(HandleTabChange(tabId), isAuth).page.tab) == tabId
  {
    var path := HandleTabChange(tabId);
    if tabId != DefaultTab {
      assert path[..|DashboardPrefix|] == DashboardPrefix;
      assert path[|DashboardPrefix|..] == tabId;
      assert path != "/" && path != "/queue" && path != "/404" && path != "/selection" && path != "/dashboard" by {
        assert |path| > 11;
      }
    }
  }

  /** An admin who clicks a tab sees the dashboard with that tab active. */
  lemma AdminSeesChosenTab(tabId: string)
    requires tabId != "" && '/' !in tabId
    ensures var screen := Visit(Session(false, Some(Admin)), HandleTabChange(tabId), 0);
            screen.Some? && screen.value.Shows? && screen.value.page.DashboardPage?
            && ActiveTab(screen.value.page.tab) == tabId
  {
    TabRoundTrip(tabId, true);
  }

  /** Exactly the active tab's button gets the default variant; an unknown tab highlights no
      button at all. */
  lemma OneHighlightedTab(activeTab: string)
    ensures forall i :: 0 <= i < |Sections| ==> (GetVariant(activeTab, Sections[i]) == DefaultVariant <==> Sections[i] == activeTab)
    ensures forall i, j :: 0 <= i < j < |Sections| ==>
              !(GetVariant(activeTab, Sections[i]) == DefaultVariant && GetVariant(activeTab, Sections[j]) == DefaultVariant)
    ensures (exists i :: 0 <= i < |Sections| && GetVariant(activeTab, Sections[i]) == DefaultVariant) <==> activeTab in Sections
  {
  }
}
