/**
 * The sidebar of the page layout (Layout): the navigation tree, filtered
 * for non-administrators; the set of expanded groups, toggled by caption;
 * the active-link tests; and sign-out.
 */
module Layout {
  import opened JsValues
  import AuthContext
  import DataTable

  /** A link (with `href`) or a group (with `children`); `adminOnly` hides it from non-administrators; `caption` is the item's `label`. */
  datatype NavItem = NavItem(caption: string, href: Option<string>, children: Option<seq<NavItem>>, adminOnly: bool)

  function Link(caption: string, href: string): NavItem
  {
    NavItem(caption, Some(href), None, false)
  }

  /** The sidebar's navigation: the dashboard, the reports group and the administration group. */
  function Navigation(): seq<NavItem>
  {
    [ Link("Dashboard", "/dashboard"),
      NavItem("Reports", None, Some([
        Link("Active Employees", "/reports/active-employees"),
        Link("Department Statistics", "/reports/department-statistics"),
        Link("Attendance Summary", "/reports/attendance-summary"),
        Link("Expiring Contracts", "/reports/expiring-contracts"),
        Link("Leave Balance", "/reports/leave-balance")]), false),
      NavItem("Administration", None, Some([
        Link("Regions", "/admin/regions"),
        Link("Countries", "/admin/countries"),
        Link("Departments", "/admin/departments"),
        Link("Positions", "/admin/positions"),
        Link("Employees", "/admin/employees"),
        Link("Employee History", "/admin/employee-history"),
        Link("Attendance", "/admin/attendance"),
        Link("Contracts", "/admin/contracts"),
        Link("Payroll", "/admin/payroll"),
        Link("Leaves", "/admin/leaves")]), true) ]
  }

  predicate Shown(item: NavItem, isAdmin: bool)
  {
    !item.adminOnly || isAdmin
  }

  /** `items.filter(item => !item.adminOnly || isAdmin)`, for the top level and for a group's children. */
  function VisibleItems(items: seq<NavItem>, isAdmin: bool): (r: seq<NavItem>)
    ensures |r| <= |items|
    ensures forall x :: x in r <==> x in items && Shown(x, isAdmin)
    decreases |items|
  {
    if items == [] then []
    else (if Shown(items[0], isAdmin) then [items[0]] else []) + VisibleItems(items[1..], isAdmin)
  }

  /** Filtering keeps the order of the items it keeps. */
  lemma {:induction false} VisibleItemsInOrder(items: seq<NavItem>, isAdmin: bool)
    ensures DataTable.IsSubsequence(VisibleItems(items, isAdmin), items)
    decreases |items|
  {
    if items != [] {
      VisibleItemsInOrder(items[1..], isAdmin);
      var rest := VisibleItems(items[1..], isAdmin);
      if Shown(items[0], isAdmin) {
        assert VisibleItems(items, isAdmin) == [items[0]] + rest;
        assert ([items[0]] + rest)[1..] == rest;
      } else {
        assert VisibleItems(items, isAdmin) == rest;
      }
    }
  }

  /** An administrator sees every item. */
  lemma {:induction false} AdminSeesEverything(items: seq<NavItem>)
    ensures VisibleItems(items, true) == items
    decreases |items|
  {
    if items != [] {
      AdminSeesEverything(items[1..]);
      assert items == [items[0]] + items[1..];
    }
  }

  /** Anyone else sees the dashboard and the reports, not the administration group. */
  lemma NonAdminNavigation()
    ensures VisibleItems(Navigation(), false) == Navigation()[..2]
    ensures forall x :: x in VisibleItems(Navigation(), false) ==> x.caption != "Administration"
  {
    var nav := Navigation();
    assert nav[1..][1..][1..] == [];
    assert nav[..2] == [nav[0]] + [nav[1]];
  }

  /** `isActive`: the link's path is exactly the current path. */
  predicate IsActive(pathname: string, href: string)
  {
    pathname == href
  }

  /** `isParentActive`: some child has a non-empty `href` equal to the current path. */
  function IsParentActive(pathname: string, children: seq<NavItem>): (b: bool)
    ensures b <==> exists k :: 0 <= k < |children| && children[k].href.Some? &&
                              children[k].href.value != "" && IsActive(pathname, children[k].href.value)
    decreases |children|
  {
    if children == [] then false
    else
      var child := children[0];
      var here := child.href.Some? && child.href.value != "" && IsActive(pathname, child.href.value);
      var later := IsParentActive(pathname, children[1..]);
      assert later <==> exists k :: 1 <= k < |children| && children[k].href.Some? &&
                                   children[k].href.value != "" && IsActive(pathname, children[k].href.value) by {
        forall k | 1 <= k < |children|
          ensures children[k] == children[1..][k - 1]
        {
        }
        if later {
          var k :| 0 <= k < |children[1..]| && children[1..][k].href.Some? &&
                   children[1..][k].href.value != "" && IsActive(pathname, children[1..][k].href.value);
          assert children[k + 1] == children[1..][k];
        }
      }
      here || later
  }

  /** On a report page the reports group is active and the administration group is not. */
  lemma ReportsGroupActive()
    ensures IsParentActive("/reports/leave-balance", Navigation()[1].children.value)
    ensures !IsParentActive("/reports/leave-balance", Navigation()[2].children.value)
  {
    LeaveBalanceLinkActive();
    AdministrationInactiveOnReports();
  }

  lemma LeaveBalanceLinkActive()
    ensures IsParentActive("/reports/leave-balance", Navigation()[1].children.value)
  {
    var reports := Navigation()[1].children.value;
    assert reports[4].href == Some("/reports/leave-balance");
  }

  lemma AdministrationInactiveOnReports()
    ensures !IsParentActive("/reports/leave-balance", Navigation()[2].children.value)
  {
    var admin := Navigation()[2].children.value;
    forall k | 0 <= k < |admin|
      ensures admin[k].href.Some? && |admin[k].href.value| > 1 && admin[k].href.value[1] == 'a'
    {
    }
    NoChildUnder("/reports/leave-balance", admin, 'a');
  }

  /** No child is active when every child's path differs from the current one in its second character. */
  lemma NoChildUnder(pathname: string, children: seq<NavItem>, c: char)
    requires |pathname| > 1 && pathname[1] != c
    requires forall k :: 0 <= k < |children| ==>
               children[k].href.Some? && |children[k].href.value| > 1 && children[k].href.value[1] == c
    ensures !IsParentActive(pathname, children)
  {
  }

  /** `toggleExpanded`: drop every copy of the name if present, else append it. */
  function Toggle(expanded: seq<string>, name: string): (r: seq<string>)
    ensures name in expanded ==> name !in r && forall x :: x in r <==> x in expanded && x != name
    ensures name !in expanded ==> r == expanded + [name]
  {
    if name in expanded then Without(expanded, name) else expanded + [name]
  }

  /** `s.filter(item => item !== name)`. */
  function Without(s: seq<string>, name: string): (r: seq<string>)
    ensures forall x :: x in r <==> x in s && x != name
    ensures name !in s ==> r == s
    decreases |s|
  {
    if s == [] then []
    else (if s[0] == name then [] else [s[0]]) + Without(s[1..], name)
  }

  /** Toggling flips the name's membership and no other's. */
  lemma ToggleFlips(expanded: seq<string>, name: string, other: string)
    requires other != name
    ensures name in Toggle(expanded, name) <==> name !in expanded
    ensures other in Toggle(expanded, name) <==> other in expanded
  {
  }

  /** Toggling twice restores membership; from a collapsed group it restores the list itself. */
  lemma ToggleTwice(expanded: seq<string>, name: string)
    ensures forall x :: x in Toggle(Toggle(expanded, name), name) <==> x in expanded
    ensures name !in expanded ==> Toggle(Toggle(expanded, name), name) == expanded
  {
    if name !in expanded {
      WithoutAppended(expanded, name);
    }
  }

  lemma {:induction false} WithoutAppended(s: seq<string>, name: string)
    requires name !in s
    ensures Without(s + [name], name) == s
    decreases |s|
  {
    if s == [] {
      assert Without([name], name) == [] + Without([], name);
    } else {
      var t := s + [name];
      assert t[0] == s[0] && s[0] != name;
      assert t[1..] == s[1..] + [name];
      assert Without(t, name) == [s[0]] + Without(t[1..], name);
      WithoutAppended(s[1..], name);
      assert s == [s[0]] + s[1..];
    }
  }

  predicate Distinct(s: seq<string>)
  {
    forall i, j :: 0 <= i < j < |s| ==> s[i] != s[j]
  }

  /** Labels never repeat under toggling. */
  lemma ToggleKeepsDistinct(expanded: seq<string>, name: string)
    requires Distinct(expanded)
    ensures Distinct(Toggle(expanded, name))
  {
    if name in expanded {
      WithoutKeepsDistinct(expanded, name);
      assert Toggle(expanded, name) == Without(expanded, name);
    } else {
      var r := expanded + [name];
      forall i, j | 0 <= i < j < |r|
        ensures r[i] != r[j]
      {
        if j == |expanded| {
          assert r[i] == expanded[i];
        }
      }
    }
  }

  lemma {:induction false} WithoutKeepsDistinct(s: seq<string>, name: string)
    requires Distinct(s)
    ensures Distinct(Without(s, name))
    decreases |s|
  {
    if s != [] {
      var tail := s[1..];
      assert forall i, j :: 0 <= i < j < |tail| ==> tail[i] == s[i + 1] && tail[j] == s[j + 1];
      WithoutKeepsDistinct(tail, name);
      assert s[0] !in tail by {
        forall j | 0 <= j < |tail|
          ensures tail[j] != s[0]
        {
          assert tail[j] == s[j + 1];
        }
      }
      var rest := Without(tail, name);
      assert s[0] !in rest;
      if s[0] != name {
        var r := [s[0]] + rest;
        assert Without(s, name) == r;
        forall i, j | 0 <= i < j < |r|
          ensures r[i] != r[j]
        {
          assert r[j] == rest[j - 1] && rest[j - 1] in rest;
          if i > 0 {
            assert r[i] == rest[i - 1];
            assert rest[i - 1] != rest[j - 1];
          }
        }
      } else {
        assert Without(s, name) == [] + rest;
      }
    }
  }

  const InitiallyExpanded: seq<string> := ["Reports", "Administration"]

  class Sidebar {
    var expandedItems: seq<string>

    /** Both groups start expanded. */
    constructor()
      ensures expandedItems == InitiallyExpanded
    {
      expandedItems := InitiallyExpanded;
    }

    /** A group's children are listed while its name is expanded. */
    function IsExpanded(name: string): bool
      reads this
    {
      name in expandedItems
    }

    method ToggleExpanded(name: string)
      modifies this
      ensures expandedItems == Toggle(old(expandedItems), name)
    {
      if name in expandedItems {
        expandedItems := Without(expandedItems, name);
      } else {
        expandedItems := expandedItems + [name];
      }
    }

    /** `handleLogout`: sign out, then go to the sign-in page. */
    method HandleLogout(auth: AuthContext.AuthProvider) returns (navigateTo: string)
      modifies auth
      ensures auth.user == None && auth.storage == AuthContext.LogoutStorage(old(auth.storage))
      ensures auth.isLoading == old(auth.isLoading)
      ensures navigateTo == "/login"
    {
      auth.Logout();
      navigateTo := "/login";
    }
  }
}
