/** frontend/src/components/AppLayout.tsx: the navigation bar. Which item is
    highlighted for the current path, on the desktop bar and in the mobile menu,
    and the mobile menu's open/closed state. */
module AppLayout {
  import opened Strings

  /** A navigation entry: route path and caption (the icon is presentation). */
  datatype NavItem = NavItem(path: string, caption: string)

  /** `navItems`. */
  const NavItems: seq<NavItem> := [
    NavItem("/", "Dashboard"),
    NavItem("/attendance", "Attendance"),
    NavItem("/sales", "Sales & Expenses"),
    NavItem("/staff", "Staff")
  ]

  /** `path === '/' ? currentPath === '/' : currentPath.startsWith(path)`. */
  predicate IsActive(path: string, current: string) {
    if path == "/" then current == "/" else StartsWith(current, path)
  }

  /** The highlight of each item in a list of navigation links. */
  function Highlights(current: string): (r: seq<bool>)
    ensures |r| == |NavItems|
    ensures forall i :: 0 <= i < |r| ==> r[i] == IsActive(NavItems[i].path, current)
  {
    seq(|NavItems|, i requires 0 <= i < |NavItems| => IsActive(NavItems[i].path, current))
  }

  /** The desktop bar: always rendered. */
  function DesktopNav(current: string): seq<bool> {
    Highlights(current)
  }

  /** The mobile menu: rendered only while open. */
  function MobileNav(current: string, open: bool): seq<bool> {
    if open then Highlights(current) else []
  }

  /** The dashboard item is highlighted exactly on "/", every other item exactly
      on paths it starts; the mobile menu, when shown, highlights the same items
      as the desktop bar. */
  lemma ActiveRule(current: string, i: int, open: bool)
    requires 0 <= i < |NavItems|
    ensures i == 0 ==> (DesktopNav(current)[i] <==> current == "/")
    ensures i > 0 ==> (DesktopNav(current)[i] <==> StartsWith(current, NavItems[i].path))
    ensures open ==> MobileNav(current, open) == DesktopNav(current)
    ensures !open ==> MobileNav(current, open) == []
  {
  }

  /** Two different items never both start a path at the same time. */
  lemma AtMostOneActive(current: string, i: int, j: int)
    requires 0 <= i < j < |NavItems|
    ensures !(IsActive(NavItems[i].path, current) && IsActive(NavItems[j].path, current))
  {
    if i == 0 {
      assert |NavItems[j].path| > 1;
    } else if i == 1 {
      assert NavItems[i].path[1] != NavItems[j].path[1];
    } else {
      assert NavItems[i].path[2] != NavItems[j].path[2];
    }
  }

  /** On each item's own route that item, and only that item, is highlighted. */
  lemma OwnRouteHighlighted(i: int, j: int)
    requires 0 <= i < |NavItems| && 0 <= j < |NavItems|
    ensures Highlights(NavItems[i].path)[j] <==> i == j
  {
    assert StartsWith(NavItems[i].path, NavItems[i].path) by {
      assert NavItems[i].path[..|NavItems[i].path|] == NavItems[i].path;
    }
    if i < j {
      AtMostOneActive(NavItems[i].path, i, j);
    } else if j < i {
      AtMostOneActive(NavItems[i].path, j, i);
    }
  }

  /** The icon of the menu button. */
  datatype MenuIcon = MenuBars | CloseCross

  /** The header's state: whether the mobile menu is open. */
  class Layout {
    var mobileOpen: bool

    /** The menu starts closed. */
    constructor()
      ensures !mobileOpen
    {
      mobileOpen := false;
    }

    /** The menu button: `setMobileOpen(!mobileOpen)`. */
    method ToggleMenu()
      modifies this
      ensures mobileOpen == !old(mobileOpen)
    {
      mobileOpen := !mobileOpen;
    }

    /** Clicking a link of the mobile menu, which exists only while it is open,
        closes it. */
    method FollowMobileLink()
      requires mobileOpen
      modifies this
      ensures !mobileOpen
    {
      mobileOpen := false;
    }

    /** The mobile links rendered for the current path. */
    function MobileLinks(current: string): seq<bool>
      reads this
    {
      MobileNav(current, mobileOpen)
    }

    /** The menu button shows a cross while the menu is open, bars otherwise. */
    function Icon(): MenuIcon
      reads this
    {
      if mobileOpen then CloseCross else MenuBars
    }
  }
}
