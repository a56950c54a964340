/**
 * The menu toggling of assets/js/navbar.js: `toggleMenu`, the mobile toggle's click listener,
 * and the document click listener that keeps at most the clicked dropdown open and closes
 * dropdowns and the mobile menu on a click away from them.
 *
 * The DOM is abstracted to the flags these handlers read and write: the `hidden` class of each
 * cached dropdown menu, of the mobile menu and of the two icons, and the toggle's
 * `aria-expanded` attribute. A click is described by what the handlers' `closest` lookups find.
 */
module Navbar {
  import opened Wrappers

  /** A dropdown menu, identified by its place among the `[data-dropdown-menu]` elements. */
  type MenuId = nat

  /** The menu `toggleMenu` is given: the mobile `#menuItems`, or a dropdown menu. */
  datatype Menu = Mobile | Dropdown(id: MenuId)

  /** The flags: each cached dropdown menu's `hidden` class, the mobile menu's, the hamburger's,
      the close icon's, and `aria-expanded` of the mobile toggle. */
  datatype NavState = NavState(
    dropdownHidden: map<MenuId, bool>,
    mobileHidden: bool,
    iconOpenHidden: bool,
    iconCloseHidden: bool,
    ariaExpanded: string)

  /** `String(b)` for a boolean. */
  function BoolString(b: bool): string {
    if b then "true" else "false"
  }

  predicate HasMenu(s: NavState, menu: Menu) {
    menu.Dropdown? ==> menu.id in s.dropdownHidden
  }

  function IsHidden(s: NavState, menu: Menu): bool
    requires HasMenu(s, menu)
  {
    match menu
    case Mobile => s.mobileHidden
    case Dropdown(id) => s.dropdownHidden[id]
  }

  function SetHidden(s: NavState, menu: Menu, hidden: bool): NavState
    requires HasMenu(s, menu)
  {
    match menu
    case Mobile => s.(mobileHidden := hidden)
    case Dropdown(id) => s.(dropdownHidden := s.dropdownHidden[id := hidden])
  }

  /** `toggleMenu(menu, { open, toggleIcons, toggleAria })`, where `None` stands for `null`;
      the second component is the returned `shouldOpen`. */
  function Toggle(s: NavState, menu: Menu, open: Option<bool>, toggleIcons: bool, toggleAria: Option<bool>): (r: (NavState, bool))
    requires HasMenu(s, menu)
    // shouldOpen is the explicit `open`, or else "the menu is currently hidden"
    ensures r.1 == if open.Some? then open.value else IsHidden(s, menu)
    // the menu ends hidden exactly when it should not be open
    ensures HasMenu(r.0, menu) && IsHidden(r.0, menu) == !r.1
    // with an explicit `open` the menu ends hidden iff not `open`; with `null` its flag flips
    ensures open.Some? ==> IsHidden(r.0, menu) == !open.value
    ensures open.None? ==> IsHidden(r.0, menu) == !IsHidden(s, menu)
    // with toggleIcons exactly one icon is visible, the hamburger iff the menu is closed
    ensures toggleIcons ==> r.0.iconOpenHidden == r.1 && r.0.iconCloseHidden == !r.1
    ensures toggleIcons ==> r.0.iconOpenHidden != r.0.iconCloseHidden
    ensures !toggleIcons ==> r.0.iconOpenHidden == s.iconOpenHidden && r.0.iconCloseHidden == s.iconCloseHidden
    // any non-null toggleAria, even `false`, writes aria-expanded
    ensures toggleAria.Some? ==> r.0.ariaExpanded == BoolString(r.1)
    ensures toggleAria.None? ==> r.0.ariaExpanded == s.ariaExpanded
    // nothing but this menu's flag, the icons and aria changes
    ensures r.0.dropdownHidden.Keys == s.dropdownHidden.Keys
    ensures forall id :: id in s.dropdownHidden && menu != Dropdown(id) ==> r.0.dropdownHidden[id] == s.dropdownHidden[id]
    ensures menu.Dropdown? ==> r.0.mobileHidden == s.mobileHidden
  {
    var shouldOpen := if open.Some? then open.value else IsHidden(s, menu);
    var s1 := SetHidden(s, menu, !shouldOpen);
    var s2 := if toggleIcons then s1.(iconOpenHidden := shouldOpen, iconCloseHidden := !shouldOpen) else s1;
    var s3 := if toggleAria.Some? then s2.(ariaExpanded := BoolString(shouldOpen)) else s2;
    (s3, shouldOpen)
  }

  predicate AllCached(s: NavState, cached: seq<MenuId>) {
    forall i :: 0 <= i < |cached| ==> cached[i] in s.dropdownHidden
  }

  /** `allDropdownMenus.forEach(m => toggleMenu(m, { open: false }))`. */
  function CloseAll(s: NavState, cached: seq<MenuId>): (r: NavState)
    requires AllCached(s, cached)
    ensures r.dropdownHidden.Keys == s.dropdownHidden.Keys
    ensures forall i :: 0 <= i < |cached| ==> r.dropdownHidden[cached[i]]
    ensures forall id :: id in s.dropdownHidden && id !in cached ==> r.dropdownHidden[id] == s.dropdownHidden[id]
    ensures r.mobileHidden == s.mobileHidden && r.iconOpenHidden == s.iconOpenHidden
    ensures r.iconCloseHidden == s.iconCloseHidden && r.ariaExpanded == s.ariaExpanded
    decreases |cached|
  {
    if cached == [] then s
    else
      var n := |cached| - 1;
      assert forall i :: 0 <= i < n ==> cached[..n][i] == cached[i];
      var s1 := CloseAll(s, cached[..n]);
      Toggle(s1, Dropdown(cached[n]), Some(false), false, None).0
  }

  /** Closing is idempotent: closing all dropdowns again changes nothing. */
  lemma CloseAllIdempotent(s: NavState, cached: seq<MenuId>)
    requires AllCached(s, cached)
    ensures CloseAll(CloseAll(s, cached), cached) == CloseAll(s, cached)
  {
  }

  /** What the clicked element's `closest` lookups find: a `[data-dropdown-button]` ancestor; the
      menu of the `[data-dropdown]` ancestor (`None` exactly when there is no such ancestor, since
      every `[data-dropdown]` is taken to hold a menu); a `#menuItems` ancestor; a
      `[data-mobile-toggle]` ancestor. */
  datatype Target = Target(dropdownButton: bool, dropdown: Option<MenuId>, inMenuItems: bool, inMobileToggle: bool)

  predicate OnDropdownButton(t: Target) {
    t.dropdownButton && t.dropdown.Some?
  }

  /** The click arrived at the menus this state knows: the clicked dropdown's menu is cached. */
  predicate ClickOnCachedMenus(s: NavState, cached: seq<MenuId>, t: Target) {
    AllCached(s, cached) && (OnDropdownButton(t) ==> t.dropdown.value in s.dropdownHidden)
  }

  /** The document click listener. */
  function DocumentClick(s: NavState, cached: seq<MenuId>, t: Target): NavState
    requires ClickOnCachedMenus(s, cached, t)
  {
    if OnDropdownButton(t) then
      Toggle(CloseAll(s, cached), Dropdown(t.dropdown.value), None, false, None).0
    else
      var s1 := if t.dropdown.None? then CloseAll(s, cached) else s;
      var clickOutsideMobile := !t.inMenuItems && !t.inMobileToggle;
      if clickOutsideMobile && !s1.mobileHidden then Toggle(s1, Mobile, Some(false), true, Some(true)).0
      else s1
  }

  /** `toggleMenu(mobileMenu, { toggleIcons: true, toggleAria: true })`, the mobile toggle's listener. */
  function MobileToggle(s: NavState): NavState {
    Toggle(s, Mobile, None, true, Some(true)).0
  }

  /** One click: it reaches the mobile toggle's own listener first (when it is inside the toggle)
      and then bubbles to the document listener. */
  function Click(s: NavState, cached: seq<MenuId>, t: Target): NavState
    requires ClickOnCachedMenus(s, cached, t)
  {
    var s1 := if t.inMobileToggle then MobileToggle(s) else s;
    DocumentClick(s1, cached, t)
  }

  /** The mobile menu, its icons and its aria agree. */
  predicate Consistent(s: NavState) {
    && s.iconOpenHidden == !s.mobileHidden
    && s.iconCloseHidden == s.mobileHidden
    && s.ariaExpanded == BoolString(!s.mobileHidden)
  }

  /** The cached dropdown menus are exactly the dropdown menus of the state. */
  ghost predicate CoversMenus(s: NavState, cached: seq<MenuId>) {
    forall id :: id in s.dropdownHidden <==> id in cached
  }

  /** At most one dropdown menu is open. */
  ghost predicate AtMostOneOpen(s: NavState) {
    forall a, b :: a in s.dropdownHidden && b in s.dropdownHidden && !s.dropdownHidden[a] && !s.dropdownHidden[b] ==> a == b
  }

  /** A click on a dropdown button leaves exactly the clicked dropdown open; unless it also lies
      in the mobile toggle, the early return leaves the mobile menu, its icons and aria untouched. */
  lemma DropdownButtonOpensOnlyClicked(s: NavState, cached: seq<MenuId>, t: Target)
    requires ClickOnCachedMenus(s, cached, t) && CoversMenus(s, cached)
    requires OnDropdownButton(t)
    ensures var r := Click(s, cached, t);
      && r.dropdownHidden.Keys == s.dropdownHidden.Keys
      && (forall id :: id in r.dropdownHidden ==> (r.dropdownHidden[id] <==> id != t.dropdown.value))
      && (!t.inMobileToggle ==>
            r.mobileHidden == s.mobileHidden && r.iconOpenHidden == s.iconOpenHidden
            && r.iconCloseHidden == s.iconCloseHidden && r.ariaExpanded == s.ariaExpanded)
  {
  }

  /** A click outside every `[data-dropdown]` leaves every cached dropdown hidden. */
  lemma ClickAwayClosesDropdowns(s: NavState, cached: seq<MenuId>, t: Target)
    requires ClickOnCachedMenus(s, cached, t)
    requires t.dropdown.None?
    ensures var r := Click(s, cached, t);
      forall i :: 0 <= i < |cached| ==> cached[i] in r.dropdownHidden && r.dropdownHidden[cached[i]]
  {
  }

  /** A click outside `#menuItems` and the mobile toggle closes an open mobile menu, showing the
      hamburger, hiding the close icon and setting aria to "false"; on a closed menu it changes
      none of the four. */
  lemma ClickAwayClosesMobileMenu(s: NavState, cached: seq<MenuId>, t: Target)
    requires ClickOnCachedMenus(s, cached, t)
    requires !OnDropdownButton(t) && !t.inMenuItems && !t.inMobileToggle
    ensures var r := Click(s, cached, t);
      if s.mobileHidden then
        r.mobileHidden && r.iconOpenHidden == s.iconOpenHidden
        && r.iconCloseHidden == s.iconCloseHidden && r.ariaExpanded == s.ariaExpanded
      else
        r.mobileHidden && !r.iconOpenHidden && r.iconCloseHidden && r.ariaExpanded == "false"
  {
  }

  /** A click inside a `[data-dropdown]` but not on its button leaves every dropdown as it was. */
  lemma ClickInsideDropdownKeepsDropdowns(s: NavState, cached: seq<MenuId>, t: Target)
    requires ClickOnCachedMenus(s, cached, t)
    requires !OnDropdownButton(t) && t.dropdown.Some?
    ensures Click(s, cached, t).dropdownHidden == s.dropdownHidden
  {
  }

  /** A click inside `#menuItems` (and not on the mobile toggle) leaves the mobile menu, its icons
      and aria as they were, open or closed. */
  lemma ClickInsideMenuItemsKeepsMobileMenu(s: NavState, cached: seq<MenuId>, t: Target)
    requires ClickOnCachedMenus(s, cached, t)
    requires t.inMenuItems && !t.inMobileToggle
    ensures var r := Click(s, cached, t);
      && r.mobileHidden == s.mobileHidden && r.iconOpenHidden == s.iconOpenHidden
      && r.iconCloseHidden == s.iconCloseHidden && r.ariaExpanded == s.ariaExpanded
  {
  }

  /** A click on the mobile toggle flips the mobile menu with icons and aria in agreement, and the
      document listener does not undo the flip. */
  lemma MobileToggleFlips(s: NavState, cached: seq<MenuId>, t: Target)
    requires ClickOnCachedMenus(s, cached, t)
    requires t.inMobileToggle
    ensures var r := Click(s, cached, t);
      && r.mobileHidden == !s.mobileHidden
      && Consistent(r)
  {
  }

  /** Every click keeps the mobile menu, its icons and aria in agreement. */
  lemma ClickPreservesConsistent(s: NavState, cached: seq<MenuId>, t: Target)
    requires ClickOnCachedMenus(s, cached, t) && Consistent(s)
    ensures Consistent(Click(s, cached, t))
  {
  }

  /** Every click keeps at most one dropdown open. */
  lemma ClickPreservesAtMostOneOpen(s: NavState, cached: seq<MenuId>, t: Target)
    requires ClickOnCachedMenus(s, cached, t) && CoversMenus(s, cached) && AtMostOneOpen(s)
    ensures AtMostOneOpen(Click(s, cached, t))
  {
  }

  /** A sequence of clicks, in order. */
  function Clicks(s: NavState, cached: seq<MenuId>, ts: seq<Target>): NavState
    requires CoversMenus(s, cached)
    decreases |ts|
  {
    if ts == [] then s
    else
      var t := ts[|ts| - 1];
      var s1 := Clicks(s, cached, ts[..|ts| - 1]);
      if ClickOnCachedMenus(s1, cached, t) then Click(s1, cached, t) else s1
  }

  /** From a page whose mobile menu agrees with its icons and aria and with at most one dropdown
      open, every sequence of clicks keeps both. */
  lemma {:induction false} ClicksPreserveInvariants(s: NavState, cached: seq<MenuId>, ts: seq<Target>)
    requires CoversMenus(s, cached) && Consistent(s) && AtMostOneOpen(s)
    ensures CoversMenus(Clicks(s, cached, ts), cached)
    ensures Consistent(Clicks(s, cached, ts)) && AtMostOneOpen(Clicks(s, cached, ts))
    decreases |ts|
  {
    if ts != [] {
      var t := ts[|ts| - 1];
      ClicksPreserveInvariants(s, cached, ts[..|ts| - 1]);
      var s1 := Clicks(s, cached, ts[..|ts| - 1]);
      if ClickOnCachedMenus(s1, cached, t) {
        ClickPreservesConsistent(s1, cached, t);
        ClickPreservesAtMostOneOpen(s1, cached, t);
      }
    }
  }

  /** The navbar's state on the page: the cached `allDropdownMenus`, and the flags. */
  class NavBar {
    const cached: seq<MenuId>
    var dropdownHidden: map<MenuId, bool>
    var mobileHidden: bool
    var iconOpenHidden: bool
    var iconCloseHidden: bool
    var ariaExpanded: string

    function State(): NavState
      reads this
    {
      NavState(dropdownHidden, mobileHidden, iconOpenHidden, iconCloseHidden, ariaExpanded)
    }

    ghost predicate Valid()
      reads this
    {
      CoversMenus(State(), cached)
    }

    /** The page after DOMContentLoaded: `allDropdownMenus` cached, flags as the markup sets them. */
    constructor (cached: seq<MenuId>, initial: NavState)
      requires CoversMenus(initial, cached)
      ensures this.cached == cached && State() == initial && Valid()
    {
      this.cached := cached;
      dropdownHidden := initial.dropdownHidden;
      mobileHidden := initial.mobileHidden;
      iconOpenHidden := initial.iconOpenHidden;
      iconCloseHidden := initial.iconCloseHidden;
      ariaExpanded := initial.ariaExpanded;
    }

    /** `toggleMenu`. */
    method ToggleMenu(menu: Menu, open: Option<bool>, toggleIcons: bool, toggleAria: Option<bool>) returns (shouldOpen: bool)
      requires HasMenu(State(), menu)
      modifies this
      ensures (State(), shouldOpen) == Toggle(old(State()), menu, open, toggleIcons, toggleAria)
    {
      var isCurrentlyHidden := match menu
        case Mobile => mobileHidden
        case Dropdown(id) => dropdownHidden[id];
      shouldOpen := if open.Some? then open.value else isCurrentlyHidden;
      match menu {
        case Mobile => mobileHidden := !shouldOpen;
        case Dropdown(id) => dropdownHidden := dropdownHidden[id := !shouldOpen];
      }
      if toggleIcons {
        iconOpenHidden := shouldOpen;
        iconCloseHidden := !shouldOpen;
      }
      if toggleAria.Some? {
        ariaExpanded := BoolString(shouldOpen);
      }
    }

    /** The loop `allDropdownMenus.forEach(m => toggleMenu(m, { open: false }))`. */
    method CloseAllDropdowns()
      requires Valid()
      modifies this
      ensures Valid() && State() == CloseAll(old(State()), cached)
    {
      var i := 0;
      while i < |cached|
        invariant 0 <= i <= |cached|
        invariant AllCached(old(State()), cached[..i])
        invariant State() == CloseAll(old(State()), cached[..i])
        invariant Valid()
      {
        assert cached[..i + 1][..i] == cached[..i];
        var _ := ToggleMenu(Dropdown(cached[i]), Some(false), false, None);
        i := i + 1;
      }
      assert cached[..i] == cached;
    }

    /** The mobile toggle's click listener. */
    method OnMobileToggleClick()
      modifies this
      ensures State() == MobileToggle(old(State()))
    {
      var _ := ToggleMenu(Mobile, None, true, Some(true));
    }

    /** The document click listener. */
    method OnDocumentClick(t: Target)
      requires Valid() && ClickOnCachedMenus(State(), cached, t)
      modifies this
      ensures Valid() && State() == DocumentClick(old(State()), cached, t)
    {
      if OnDropdownButton(t) {
        CloseAllDropdowns();
        var _ := ToggleMenu(Dropdown(t.dropdown.value), None, false, None);
        return;
      }
      if t.dropdown.None? {
        CloseAllDropdowns();
      }
      var clickOutsideMobile := !t.inMenuItems && !t.inMobileToggle;
      if clickOutsideMobile && !mobileHidden {
        var _ := ToggleMenu(Mobile, Some(false), true, Some(true));
      }
    }

    /** A click, dispatched as it bubbles: the toggle's listener, then the document's. */
    method OnClick(t: Target)
      requires Valid() && ClickOnCachedMenus(State(), cached, t)
      modifies this
      ensures Valid() && State() == Click(old(State()), cached, t)
    {
      if t.inMobileToggle {
        OnMobileToggleClick();
      }
      OnDocumentClick(t);
    }
  }
}
