/** `components/app-sidebar.tsx`: the navigation menu, filtered by the session's role. */
module AppSidebar {
  import opened Seqs
  import opened Store

  datatype NavItem = NavItem(title: string, url: string)

  /** `sidebarData.navMain`, in display order. */
  function NavMain(): seq<NavItem> {
    [ NavItem("Dashboard", "/"),
      NavItem("Take Attendance", "/take-attendance"),
      NavItem("View Reports", "/reports"),
      NavItem("Manage Students", "/manage-students"),
      NavItem("Account", "/") ]
  }

  /** `session?.user?.role || "CAPTAIN"`: a missing or empty role is read as CAPTAIN. */
  function UserRole(role: Option<string>): (r: string)
    ensures r != ""
    ensures Truthy(role) ==> r == role.value
    ensures !Truthy(role) ==> r == "CAPTAIN"
  {
    if Truthy(role) then role.value else "CAPTAIN"
  }

  /** The filter callback: COACH sees everything, CAPTAIN loses the two management pages,
      any other role sees everything. */
  function Visible(role: string): NavItem -> bool {
    (item: NavItem) =>
      if role == "COACH" then true
      else if role == "CAPTAIN" then item.url != "/manage-students" && item.url != "/take-attendance"
      else true
  }

  function FilteredNav(role: Option<string>): seq<NavItem> {
    Keep(NavMain(), Visible(UserRole(role)))
  }

  // ---------------------------------------------------------------- properties

  /** Without a role the menu is the captain's. */
  lemma MissingRoleIsCaptain()
    ensures FilteredNav(None) == FilteredNav(Some("CAPTAIN"))
    ensures FilteredNav(Some("")) == FilteredNav(Some("CAPTAIN"))
  {
  }

  /** A coach, and any role other than CAPTAIN, keeps the whole menu. */
  lemma NonCaptainSeesAll(role: Option<string>)
    requires UserRole(role) != "CAPTAIN"
    ensures FilteredNav(role) == NavMain()
  {
    KeepAll(NavMain(), Visible(UserRole(role)));
  }

  /** Which menu items the captain's filter callback accepts. */
  lemma CaptainVisibility()
    ensures var p, m := Visible("CAPTAIN"), NavMain();
      p(m[0]) && !p(m[1]) && p(m[2]) && !p(m[3]) && p(m[4])
  {
  }

  /** The captain's filter, read from the last item back to the first. Unrolling `Keep`
      over the whole five-item list in one proof exceeds the verifier's resource limit, so
      each step is a lemma of its own. */
  lemma KeepLastOne(e: NavItem, p: NavItem -> bool)
    requires p(e)
    ensures Keep([e], p) == [e]
  {
    assert [e][1..] == [];
  }

  lemma KeepLastTwo(d: NavItem, e: NavItem, p: NavItem -> bool)
    requires !p(d) && p(e)
    ensures Keep([d, e], p) == [e]
  {
    KeepLastOne(e, p);
    assert [d, e][1..] == [e];
  }

  lemma KeepLastThree(c: NavItem, d: NavItem, e: NavItem, p: NavItem -> bool)
    requires p(c) && !p(d) && p(e)
    ensures Keep([c, d, e], p) == [c, e]
  {
    KeepLastTwo(d, e, p);
    assert [c, d, e][1..] == [d, e];
  }

  lemma KeepLastFour(b: NavItem, c: NavItem, d: NavItem, e: NavItem, p: NavItem -> bool)
    requires !p(b) && p(c) && !p(d) && p(e)
    ensures Keep([b, c, d, e], p) == [c, e]
  {
    KeepLastThree(c, d, e, p);
    assert [b, c, d, e][1..] == [c, d, e];
  }

  lemma KeepFive(a: NavItem, b: NavItem, c: NavItem, d: NavItem, e: NavItem, p: NavItem -> bool)
    requires p(a) && !p(b) && p(c) && !p(d) && p(e)
    ensures Keep([a, b, c, d, e], p) == [a, c, e]
  {
    KeepLastFour(b, c, d, e, p);
    assert [a, b, c, d, e][1..] == [b, c, d, e];
  }

  /** A captain keeps exactly Dashboard, View Reports and Account, in that order. */
  lemma CaptainMenu()
    ensures FilteredNav(Some("CAPTAIN")) ==
      [NavItem("Dashboard", "/"), NavItem("View Reports", "/reports"), NavItem("Account", "/")]
  {
    var m := NavMain();
    CaptainVisibility();
    KeepFive(m[0], m[1], m[2], m[3], m[4], Visible("CAPTAIN"));
  }

  /** A captain loses exactly the items whose url is a management page. */
  lemma CaptainDropsManagement(item: NavItem)
    ensures Occurrences(FilteredNav(Some("CAPTAIN")), item) ==
      if item.url == "/manage-students" || item.url == "/take-attendance" then 0
      else Occurrences(NavMain(), item)
  {
    KeepOccurrences(NavMain(), Visible("CAPTAIN"), item);
  }

  /** Whatever the role, the menu keeps its order and invents no item. */
  lemma FilteredNavIsSubsequence(role: Option<string>)
    ensures IsSubsequence(FilteredNav(role), NavMain())
  {
    KeepIsSubsequence(NavMain(), Visible(UserRole(role)));
  }
}
