/** The navigation sidebar: its three groups of entries, which entry is highlighted for
    the current path, and what a click on an entry does. */
module Sidebar {
  import opened Common
  import opened Strings
  import opened Seqs
  import Header

  /** `NavigationItem` without its icon. */
  datatype NavItem = NavItem(id: string, title: string, path: string, badge: Option<int>, disabled: bool)

  const PRIMARY_NAV_ITEMS: seq<NavItem> := [
    NavItem("dashboard", "Dashboard", "/dashboard", None, false),
    NavItem("assignments", "Assignments", "/assignments", Some(3), false),
    NavItem("courses", "Courses", "/courses", None, false),
    NavItem("editor", "Draft Editor", "/editor", None, true),
    NavItem("calendar", "Calendar", "/calendar", None, true)
  ]

  const AI_TOOLS_ITEMS: seq<NavItem> := [
    NavItem("ai-feedback", "AI Feedback", "/ai-feedback", None, true),
    NavItem("drafts", "Draft History", "/drafts", None, true),
    NavItem("analytics", "Progress Analytics", "/analytics", None, true)
  ]

  const ACCOUNT_ITEMS: seq<NavItem> := [
    NavItem("profile", "Profile", "/profile", None, false),
    NavItem("notifications", "Notifications", "/notifications", None, true),
    NavItem("settings", "Settings", "/settings", None, true)
  ]

  /** The entries in the order the sidebar renders them. */
  const ALL_ITEMS: seq<NavItem> := PRIMARY_NAV_ITEMS + AI_TOOLS_ITEMS + ACCOUNT_ITEMS

  function IsEnabled(item: NavItem): bool { !item.disabled }

  function Ids(items: seq<NavItem>): (r: seq<string>)
    ensures |r| == |items| && forall i :: 0 <= i < |items| ==> r[i] == items[i].id
  {
    seq(|items|, i requires 0 <= i < |items| => items[i].id)
  }

  /** The ids of the entries are distinct, so an id names one entry. */
  lemma ItemIdsDistinct()
    ensures forall i, j :: 0 <= i < j < |ALL_ITEMS| ==> ALL_ITEMS[i].id != ALL_ITEMS[j].id
  {
    assert Ids(ALL_ITEMS) == ["dashboard", "assignments", "courses", "editor", "calendar", "ai-feedback", "drafts",
                              "analytics", "profile", "notifications", "settings"];
  }

  /** Only the dashboard, the assignments, the courses and the profile can be reached;
      every other entry is disabled. */
  lemma EnabledItems()
    ensures Ids(Filter(ALL_ITEMS, IsEnabled)) == ["dashboard", "assignments", "courses", "profile"]
  {
    var all := ALL_ITEMS;
    assert all == [all[0]] + all[1..];
    assert Filter(ALL_ITEMS, IsEnabled) == [all[0], all[1], all[2], all[8]] by {
      assert Filter(all[11..], IsEnabled) == [];
      assert Filter(all[10..], IsEnabled) == [] by { assert all[10..][1..] == all[11..]; }
      assert Filter(all[9..], IsEnabled) == [] by { assert all[9..][1..] == all[10..]; }
      assert Filter(all[8..], IsEnabled) == [all[8]] by { assert all[8..][1..] == all[9..]; }
      assert Filter(all[7..], IsEnabled) == [all[8]] by { assert all[7..][1..] == all[8..]; }
      assert Filter(all[6..], IsEnabled) == [all[8]] by { assert all[6..][1..] == all[7..]; }
      assert Filter(all[5..], IsEnabled) == [all[8]] by { assert all[5..][1..] == all[6..]; }
      assert Filter(all[4..], IsEnabled) == [all[8]] by { assert all[4..][1..] == all[5..]; }
      assert Filter(all[3..], IsEnabled) == [all[8]] by { assert all[3..][1..] == all[4..]; }
      assert Filter(all[2..], IsEnabled) == [all[2], all[8]] by { assert all[2..][1..] == all[3..]; }
      assert Filter(all[1..], IsEnabled) == [all[1], all[2], all[8]] by { assert all[1..][1..] == all[2..]; }
    }
  }

  /** `isActive`: the dashboard only on its exact path, any other entry on every path that
      starts with its own. */
  function IsActive(pathname: string, path: string): (r: bool)
    ensures path == Header.DASHBOARD_PATH ==> (r <==> pathname == Header.DASHBOARD_PATH)
    ensures path != Header.DASHBOARD_PATH ==> (r <==> StartsWith(pathname, path))
  {
    if path == "/dashboard" then pathname == "/dashboard" else StartsWith(pathname, path)
  }

  /** What `handleNavigation` does: where it navigates, and whether it calls `onClose`. */
  datatype NavEffect = NavEffect(navigateTo: Option<string>, closes: bool)

  /** `handleNavigation`: a disabled entry does nothing at all; any other navigates to its
      path and closes the drawer. */
  function HandleNavigation(path: string, disabled: Option<bool>): (r: NavEffect)
    ensures disabled == Some(true) ==> r == NavEffect(None, false)
    ensures disabled != Some(true) ==> r == NavEffect(Some(path), true)
  {
    if disabled == Some(true) then NavEffect(None, false) else NavEffect(Some(path), true)
  }

  /** A click on a rendered entry navigates exactly when the entry is enabled, and then to
      a path on which the sidebar highlights that very entry. */
  lemma ClickHighlightsItem(i: int)
    requires 0 <= i < |ALL_ITEMS|
    ensures var item := ALL_ITEMS[i];
            var e := HandleNavigation(item.path, Some(item.disabled));
            (e.navigateTo.Some? <==> IsEnabled(item))
            && (e.navigateTo.Some? ==> IsActive(e.navigateTo.value, item.path))
  {
  }

  /** The header and the sidebar highlight the same entry on the dashboard, the profile
      and every path under the assignments; on the courses page the header, which has no
      courses entry, falls back to the dashboard while the sidebar highlights the courses. */
  lemma HeaderAgreesWithSidebar(pathname: string)
    ensures pathname == Header.DASHBOARD_PATH ==>
              Header.GetActiveNavItem(pathname) == "dashboard" && IsActive(pathname, PRIMARY_NAV_ITEMS[0].path)
    ensures StartsWith(pathname, Header.ASSIGNMENTS_PATH) ==>
              Header.GetActiveNavItem(pathname) == "assignments" && IsActive(pathname, PRIMARY_NAV_ITEMS[1].path)
              && !IsActive(pathname, PRIMARY_NAV_ITEMS[0].path)
    ensures pathname == Header.PROFILE_PATH ==>
              Header.GetActiveNavItem(pathname) == "profile" && IsActive(pathname, ACCOUNT_ITEMS[0].path)
              && !IsActive(pathname, PRIMARY_NAV_ITEMS[0].path)
    ensures StartsWith(pathname, "/courses") ==>
              Header.GetActiveNavItem(pathname) == "dashboard" && IsActive(pathname, PRIMARY_NAV_ITEMS[2].path)
              && !IsActive(pathname, PRIMARY_NAV_ITEMS[0].path)
  {
    if StartsWith(pathname, "/courses") {
      assert pathname[1] == 'c';
      assert !StartsWith(pathname, Header.ASSIGNMENTS_PATH) by { assert Header.ASSIGNMENTS_PATH[1] == 'a'; }
      assert pathname != Header.PROFILE_PATH && pathname != Header.DASHBOARD_PATH;
    }
  }
}
