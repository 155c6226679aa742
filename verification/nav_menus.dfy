/** The main page's mobile navigation: the menu toggle of `initMobileMenu`
    and the mobile click behaviour of `initDropdownMenus`. One click runs
    every listener it reaches: the listeners on the clicked element, then,
    unless a listener stopped propagation, the document's listener. */
module NavMenus {

  /** The viewport width at and below which the mobile behaviour applies. */
  const MobileWidth := 768

  /** The menu's observable state: the `active` class on the menu and on
      its toggle button, the toggle's `aria-expanded` attribute and the
      body's `overflow` style. */
  datatype Menu = Menu(navActive: bool, toggleActive: bool, ariaExpanded: string, overflow: string)

  /** The page: the menu and the `active` class of each dropdown. */
  datatype Page = Page(menu: Menu, dropdowns: seq<bool>)

  /** What a click lands on. `DropdownLink(k)` is dropdown `k`'s own
      `.nav-link`; `NavLink` is any other `.nav-link`, with whether it sits
      in a `.dropdown` and whether in a `.dropdown-content`. Every link is
      inside the menu. */
  datatype Target =
    | ToggleButton
    | DropdownLink(k: nat)
    | NavLink(inDropdown: bool, inDropdownContent: bool)
    | InsideMenu
    | Outside

  const Closed := Menu(false, false, "false", "")

  /** The menu's attributes agree with its `active` class. */
  predicate Coherent(m: Menu) {
    && m.toggleActive == m.navActive
    && m.ariaExpanded == (if m.navActive then "true" else "false")
    && m.overflow == (if m.navActive then "hidden" else "")
  }

  /** The indices of the active dropdowns. */
  function Active(ds: seq<bool>): set<int> {
    set i | 0 <= i < |ds| && ds[i]
  }

  /** At most one dropdown is active. */
  predicate AtMostOneActive(ds: seq<bool>) {
    forall i, j :: 0 <= i < |ds| && 0 <= j < |ds| && ds[i] && ds[j] ==> i == j
  }

  /** The toggle's listener: both classes flip, and the attribute and the
      overflow follow the menu's new class. */
  function ToggleMenu(m: Menu): (r: Menu)
    ensures r.navActive == !m.navActive && r.toggleActive == !m.toggleActive
    ensures r.ariaExpanded == (if r.navActive then "true" else "false")
    ensures r.overflow == (if r.navActive then "hidden" else "")
    ensures Coherent(m) ==> Coherent(r)
  {
    var isActive := !m.navActive;
    Menu(isActive, !m.toggleActive, if isActive then "true" else "false", if isActive then "hidden" else "")
  }

  /** From a coherent menu, a toggle opens a closed menu and closes an
      open one, and a second toggle restores every attribute. */
  lemma ToggleMenuTwice(m: Menu)
    requires Coherent(m)
    ensures ToggleMenu(m).navActive != m.navActive
    ensures Coherent(ToggleMenu(m))
    ensures ToggleMenu(ToggleMenu(m)) == m
  {
  }

  /** What the link and outside listeners do to close the menu. */
  function CloseMenu(m: Menu): (r: Menu)
    ensures Coherent(r) && !r.navActive
  {
    m.(navActive := false, toggleActive := false, ariaExpanded := "false", overflow := "")
  }

  /** The nav-link listener leaves the menu open for a dropdown's parent
      link at mobile width. */
  predicate IsDropdownParent(inDropdown: bool, inDropdownContent: bool, width: int) {
    inDropdown && !inDropdownContent && width <= MobileWidth
  }

  /** The dropdown link's listener at mobile width: every other dropdown
      loses `active` and the clicked one toggles. */
  function ToggleDropdown(ds: seq<bool>, k: nat): (r: seq<bool>)
    requires k < |ds|
    ensures |r| == |ds| && r[k] == !ds[k]
    ensures forall i :: 0 <= i < |ds| && i != k ==> !r[i]
    ensures Active(r) == if ds[k] then {} else {k}
    ensures AtMostOneActive(r)
  {
    seq(|ds|, i requires 0 <= i < |ds| => if i == k then !ds[k] else false)
  }

  /** When no other dropdown is open, clicking the same dropdown link twice
      restores every dropdown. */
  lemma ToggleDropdownTwice(ds: seq<bool>, k: nat)
    requires k < |ds|
    requires Active(ds) <= {k}
    ensures ToggleDropdown(ToggleDropdown(ds, k), k) == ds
  {
    var r := ToggleDropdown(ToggleDropdown(ds, k), k);
    forall i | 0 <= i < |ds|
      ensures r[i] == ds[i]
    {
      if i != k && ds[i] {
        assert i in Active(ds);
      }
    }
  }

  /** A click's target names an existing dropdown. */
  predicate ValidTarget(p: Page, target: Target) {
    target.DropdownLink? ==> target.k < |p.dropdowns|
  }

  /** One click at viewport width `width`. A mobile dropdown link stops
      propagation, so the document's listener does not see it; every other
      link, and the toggle, is inside the menu or is the toggle, which the
      document's listener ignores. */
  function Click(p: Page, target: Target, width: int): Page
    requires ValidTarget(p, target)
  {
    match target
    case ToggleButton => p.(menu := ToggleMenu(p.menu))
    case DropdownLink(k) =>
      if width <= MobileWidth then p.(dropdowns := ToggleDropdown(p.dropdowns, k))
      else p.(menu := CloseMenu(p.menu))
    case NavLink(inDropdown, inContent) =>
      if IsDropdownParent(inDropdown, inContent, width) then p else p.(menu := CloseMenu(p.menu))
    case InsideMenu => p
    case Outside => if p.menu.navActive then p.(menu := CloseMenu(p.menu)) else p
  }

  /** Every click keeps the menu's attributes in agreement with its class
      and keeps at most one dropdown active. */
  lemma ClickPreserves(p: Page, target: Target, width: int)
    requires ValidTarget(p, target)
    requires Coherent(p.menu) && AtMostOneActive(p.dropdowns)
    ensures Coherent(Click(p, target, width).menu) && AtMostOneActive(Click(p, target, width).dropdowns)
  {
  }

  /** A mobile dropdown click leaves every other dropdown inactive and the
      clicked one flipped, and does not touch the menu. */
  lemma MobileDropdownClick(p: Page, k: nat, width: int)
    requires k < |p.dropdowns| && width <= MobileWidth
    ensures var q := Click(p, DropdownLink(k), width);
      && q.menu == p.menu
      && |q.dropdowns| == |p.dropdowns|
      && q.dropdowns[k] == !p.dropdowns[k]
      && (forall i :: 0 <= i < |p.dropdowns| && i != k ==> !q.dropdowns[i])
      && AtMostOneActive(q.dropdowns)
  {
  }

  /** A link click closes the menu unless it is a dropdown's parent link
      at mobile width, which leaves the menu as it was; an outside click
      leaves the menu closed; the toggle flips it. */
  lemma ClickEffectOnMenu(p: Page, target: Target, width: int)
    requires ValidTarget(p, target)
    ensures var m := Click(p, target, width).menu;
      && (target.ToggleButton? ==> m.navActive == !p.menu.navActive)
      && (target.Outside? ==> !m.navActive)
      && (target.InsideMenu? ==> m == p.menu)
      && (target.DropdownLink? ==> (if width <= MobileWidth then m == p.menu else !m.navActive))
      && (target.NavLink? ==>
            (if IsDropdownParent(target.inDropdown, target.inDropdownContent, width) then m == p.menu
             else !m.navActive))
  {
  }

  /** A sequence of clicks, each at its own viewport width. */
  predicate ValidClicks(p: Page, clicks: seq<(Target, int)>)
    decreases |clicks|
  {
    clicks == [] ||
      (ValidTarget(p, clicks[0].0) && ValidClicks(Click(p, clicks[0].0, clicks[0].1), clicks[1..]))
  }

  function Clicks(p: Page, clicks: seq<(Target, int)>): Page
    requires ValidClicks(p, clicks)
    decreases |clicks|
  {
    if clicks == [] then p else Clicks(Click(p, clicks[0].0, clicks[0].1), clicks[1..])
  }

  /** The page starts with the menu closed and no dropdown active, and
      after any clicks the menu is coherent and at most one dropdown is
      active. */
  lemma {:induction false} ClicksPreserve(p: Page, clicks: seq<(Target, int)>)
    requires ValidClicks(p, clicks)
    requires Coherent(p.menu) && AtMostOneActive(p.dropdowns)
    ensures Coherent(Clicks(p, clicks).menu) && AtMostOneActive(Clicks(p, clicks).dropdowns)
    decreases |clicks|
  {
    if clicks != [] {
      ClickPreserves(p, clicks[0].0, clicks[0].1);
      ClicksPreserve(Click(p, clicks[0].0, clicks[0].1), clicks[1..]);
    }
  }

  /** The page as loaded. */
  function Initial(n: nat): (p: Page)
    ensures Coherent(p.menu) && AtMostOneActive(p.dropdowns) && |p.dropdowns| == n
  {
    Page(Closed, seq(n, _ => false))
  }
}
