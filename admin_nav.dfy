/**
 * The navigation of components/AdminNav.tsx: which item is highlighted for
 * the current path, and where logging out leads.
 */
module AdminNav {
  import opened Text

  datatype NavItem = NavItem(title: string, href: string)

  const DashboardHref: string := "/admin"

  /** `navItems`, in display order. */
  const NavItems: seq<NavItem> := [
    NavItem("Dashboard", DashboardHref),
    NavItem("POIs", "/admin/pois"),
    NavItem("Novo POI", "/admin/pois/new")
  ]

  /** The `isActive` expression for one item. */
  predicate IsActive(pathname: string, href: string)
  {
    pathname == href || (href != DashboardHref && StartsWith(pathname, href))
  }

  /** `navItems.map(...)`: the highlight of each item, in order. */
  function ActiveFlags(pathname: string): (flags: seq<bool>)
    ensures |flags| == |NavItems|
    ensures forall k :: 0 <= k < |NavItems| ==> (flags[k] <==> IsActive(pathname, NavItems[k].href))
  {
    seq(|NavItems|, k requires 0 <= k < |NavItems| => IsActive(pathname, NavItems[k].href))
  }

  /** The dashboard is highlighted on its own path only. */
  lemma DashboardExact(pathname: string)
    ensures ActiveFlags(pathname)[0] <==> pathname == DashboardHref
  {
  }

  /** Any other item is highlighted on every path that starts with its link. */
  lemma PrefixActive(pathname: string, k: nat)
    requires 1 <= k < |NavItems| && StartsWith(pathname, NavItems[k].href)
    ensures ActiveFlags(pathname)[k]
  {
  }

  /** On the new-POI page both "POIs" and "Novo POI" are highlighted. */
  lemma NewPageTwoActive()
    ensures ActiveFlags("/admin/pois/new") == [false, true, true]
  {
    var p := "/admin/pois/new";
    assert p[..|"/admin/pois"|] == "/admin/pois";
    assert p != DashboardHref && p != "/admin/pois";
  }

  const LoginPath: string := "/admin/login"

  /**
   * `handleLogout`: the logout request may succeed or fail (`requestFailed`);
   * the `finally` block navigates to the login page either way.
   */
  function LogoutDestination(requestFailed: bool): (target: string)
    ensures target == LoginPath
  {
    LoginPath
  }
}
