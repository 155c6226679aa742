/** The landing page's small UI state machines: the mobile menu of
    `initMobileMenu`, the swipe gesture of `initTouchFriendly`, the target
    choice of `initSmoothScroll` and the header class of
    `initScrollEffects`. */
module LandingUi {
  import opened Wrappers

  /** The `active` class on the toggle and on the menu, and the body's
      `overflow` style. */
  datatype Menu = Menu(toggleActive: bool, navActive: bool, overflow: string)

  const ClosedMenu := Menu(false, false, "")

  /** The toggle and the menu agree, and the page scrolls exactly when
      the menu is closed. */
  predicate Coherent(m: Menu) {
    m.toggleActive == m.navActive && m.overflow == (if m.navActive then "hidden" else "")
  }

  /** Where a click lands: the toggle, a `.nav-link` in the menu, somewhere
      else in the menu, or outside both. */
  datatype Target = ToggleButton | MenuLink | InsideMenu | Outside

  /** The toggle's listener: both classes flip and the overflow follows
      the menu's new class. */
  function Toggle(m: Menu): (r: Menu)
    ensures r.navActive == !m.navActive && r.toggleActive == !m.toggleActive
    ensures r.overflow == (if r.navActive then "hidden" else "")
    ensures Coherent(m) ==> Coherent(r)
  {
    var nav := !m.navActive;
    Menu(!m.toggleActive, nav, if nav then "hidden" else "")
  }

  /** From a coherent menu, a toggle opens a closed menu and closes an
      open one, and a second toggle restores it. */
  lemma ToggleTwice(m: Menu)
    requires Coherent(m)
    ensures Toggle(m).navActive != m.navActive
    ensures Coherent(Toggle(m))
    ensures Toggle(Toggle(m)) == m
  {
  }

  function Close(m: Menu): (r: Menu)
    ensures Coherent(r) && !r.navActive
  {
    Menu(false, false, "")
  }

  /** One click: the listeners on the clicked element, then the
      document's, which ignores clicks on the toggle or in the menu. */
  function Click(m: Menu, target: Target): Menu {
    match target
    case ToggleButton => Toggle(m)
    case MenuLink => Close(m)
    case InsideMenu => m
    case Outside => if m.navActive then Close(m) else m
  }

  /** Clicks keep the menu coherent; the toggle flips it, with overflow
      hidden exactly when it is now open; a link or an outside click
      leaves it closed with overflow cleared. */
  lemma ClickEffect(m: Menu, target: Target)
    requires Coherent(m)
    ensures var r := Click(m, target);
      && Coherent(r)
      && (target == ToggleButton ==> r.navActive == !m.navActive && (r.overflow == "hidden" <==> r.navActive))
      && (target == MenuLink || target == Outside ==> !r.navActive && r.overflow == "")
      && (target == InsideMenu ==> r == m)
  {
  }

  /** The horizontal screen positions where a touch started and ended,
      `Touch.screenX` values, which need not be whole pixels. */
  predicate SwipeOpens(start: real, end: real) {
    end > start + 100.0 && start < 50.0
  }

  predicate SwipeCloses(start: real, end: real) {
    start > end + 100.0
  }

  /** `handleSwipe`: a rightward swipe from the left edge clicks the toggle
      when the menu is closed; then a leftward swipe clicks it when the
      menu is open. A click on the toggle is what `Click` does with it. */
  function Swipe(m: Menu, start: real, end: real): Menu {
    var m1 := if SwipeOpens(start, end) && !m.navActive then Click(m, ToggleButton) else m;
    if SwipeCloses(start, end) && m1.navActive then Click(m1, ToggleButton) else m1
  }

  /** No swipe is both a right swipe from the edge and a left swipe. */
  lemma SwipeExclusive(start: real, end: real)
    ensures !(SwipeOpens(start, end) && SwipeCloses(start, end))
  {
  }

  /** A swipe opens the menu exactly when it is a right swipe from the
      edge and the menu was closed, closes it exactly when it is a left
      swipe and the menu was open, and otherwise leaves it alone. */
  lemma SwipeEffect(m: Menu, start: real, end: real)
    requires Coherent(m)
    ensures var r := Swipe(m, start, end);
      && Coherent(r)
      && (!m.navActive && r.navActive <==> SwipeOpens(start, end) && !m.navActive)
      && (m.navActive && !r.navActive <==> SwipeCloses(start, end) && m.navActive)
      && (r.navActive == m.navActive ==> r == m)
  {
  }

  /** The default height of the fixed header. */
  const DefaultHeader := 80

  /** `document.querySelector('.header')?.offsetHeight || 80`: a missing
      header and a header of height 0 both count as 80. */
  function HeaderOffset(header: Option<nat>): (h: nat)
    ensures h > 0
    ensures header.Some? && header.value > 0 ==> h == header.value
    ensures header.None? || header.value == 0 ==> h == DefaultHeader
  {
    if header.Some? && header.value != 0 then header.value else DefaultHeader
  }

  /** The click handler of an in-page link: `Some(top)` when it scrolls,
      `None` when it leaves the browser's default jump. `target` is the
      `offsetTop` of the element the href selects, if any. */
  function ScrollTop(href: string, target: Option<int>, header: Option<nat>): Option<int> {
    if href == "#" || href == "#home" then Some(0)
    else if target.Some? then Some(target.value - HeaderOffset(header))
    else None
  }

  /** The page top for the empty and home hashes; otherwise the position
      that leaves the target just below the header, whenever there is a
      target; and nothing when there is none. */
  lemma ScrollTopChoice(href: string, target: Option<int>, header: Option<nat>)
    ensures var r := ScrollTop(href, target, header);
      && (href == "#" || href == "#home" ==> r == Some(0))
      && (href != "#" && href != "#home" ==>
            (r.Some? <==> target.Some?)
            && (r.Some? ==> r.value + HeaderOffset(header) == target.value))
  {
  }

  /** `headerScrollThreshold`. */
  const HeaderScrollThreshold: real := 50.0

  /** The scroll listener sets the header's `scrolled` class from the
      current offset, `window.pageYOffset`, alone. */
  function OnScroll(scrolled: bool, offset: real): bool {
    offset > HeaderScrollThreshold
  }

  /** The class after a run of scroll events, from the class before. */
  function AfterScrolls(scrolled: bool, offsets: seq<real>): bool
    decreases |offsets|
  {
    if offsets == [] then scrolled else AfterScrolls(OnScroll(scrolled, offsets[0]), offsets[1..])
  }

  /** Only the last scroll event matters: the header is `scrolled` exactly
      when the last offset exceeds the threshold. */
  lemma {:induction false} LastScrollDecides(scrolled: bool, offsets: seq<real>)
    requires offsets != []
    ensures AfterScrolls(scrolled, offsets) <==> offsets[|offsets| - 1] > HeaderScrollThreshold
    decreases |offsets|
  {
    if |offsets| > 1 {
      LastScrollDecides(OnScroll(scrolled, offsets[0]), offsets[1..]);
    }
  }
}
