/**
 * The responsive navigation menu of navbar.js.
 *
 * The page holds one or more toggle elements (`.nav-toggle` or
 * `#nav-toggle`), one menu panel (`#nav-links`, else `.nav-links`) and at
 * most one call-to-action group (`.nav-cta-group`).  The script keeps two
 * variables of its own, whether the menu is open and the body's `overflow`
 * style saved at the first open, and on every open and close it writes the
 * panel's `active` class, the CTA group's inline `display`, the body's
 * `overflow` and, on every toggle, the `active` class, `aria-expanded` and
 * `aria-label`.
 *
 * The pure part below states what each transition and each event does to
 * the whole observable state; the class `Menu` holds that state in fields
 * and an array of toggle records and is proved to follow it.  Element lookup
 * and `contains`/`closest` are replaced by the booleans they produce, and
 * the resize debounce by the callback that runs after it.
 */
module Navbar {
  import opened Wrappers

  const OpenLabel := "Open navigation menu"
  const CloseLabel := "Close navigation menu"
  const OverflowHidden := "hidden"

  /**
   * What the script reads and writes on one toggle element: membership of
   * the `active` class and four attributes (`None` when absent).
   */
  datatype ToggleAttrs = ToggleAttrs(
    active: bool,
    ariaExpanded: Option<string>,
    ariaLabel: Option<string>,
    role: Option<string>,
    tabindex: Option<string>)

  /** The toggle presents the menu as `expanded`, visually and to assistive technology. */
  predicate Shows(t: ToggleAttrs, expanded: bool) {
    t.active == expanded
    && t.ariaExpanded == Some(if expanded then "true" else "false")
    && t.ariaLabel == Some(if expanded then CloseLabel else OpenLabel)
  }

  /** One element's turn in `setToggleAttributes(expanded)`. */
  function SetExpanded(t: ToggleAttrs, expanded: bool): (r: ToggleAttrs)
    ensures Shows(r, expanded)
    ensures r.role == t.role && r.tabindex == t.tabindex
  {
    t.(active := expanded,
       ariaExpanded := Some(if expanded then "true" else "false"),
       ariaLabel := Some(if expanded then CloseLabel else OpenLabel))
  }

  /** `setToggleAttributes(expanded)` over every toggle, in order. */
  function SetAllExpanded(ts: seq<ToggleAttrs>, expanded: bool): (r: seq<ToggleAttrs>)
    ensures |r| == |ts|
    ensures forall i :: 0 <= i < |r| ==> Shows(r[i], expanded)
    ensures forall i :: 0 <= i < |r| ==> r[i].role == ts[i].role && r[i].tabindex == ts[i].tabindex
  {
    seq(|ts|, i requires 0 <= i < |ts| => SetExpanded(ts[i], expanded))
  }

  /**
   * The accessibility repair done at setup: a toggle without `role` gets
   * `role="button"`, one without `tabindex` gets `tabindex="0"`, and an
   * attribute the markup already sets is never overwritten.
   */
  function Repaired(t: ToggleAttrs): (r: ToggleAttrs)
    ensures r.role == (if t.role.Some? then t.role else Some("button"))
    ensures r.tabindex == (if t.tabindex.Some? then t.tabindex else Some("0"))
    ensures r.active == t.active && r.ariaExpanded == t.ariaExpanded && r.ariaLabel == t.ariaLabel
  {
    t.(role := Some(t.role.GetOr("button")), tabindex := Some(t.tabindex.GetOr("0")))
  }

  /** The repair over every toggle. */
  function RepairAll(ts: seq<ToggleAttrs>): (r: seq<ToggleAttrs>)
    ensures |r| == |ts|
    ensures forall i :: 0 <= i < |r| ==> r[i].role.Some? && r[i].tabindex.Some?
    ensures forall i :: 0 <= i < |r| && ts[i].role.Some? ==> r[i].role == ts[i].role
    ensures forall i :: 0 <= i < |r| && ts[i].tabindex.Some? ==> r[i].tabindex == ts[i].tabindex
    ensures forall i :: 0 <= i < |r| && ts[i].role.None? ==> r[i].role == Some("button")
    ensures forall i :: 0 <= i < |r| && ts[i].tabindex.None? ==> r[i].tabindex == Some("0")
    ensures forall i :: 0 <= i < |r| ==>
      r[i].active == ts[i].active && r[i].ariaExpanded == ts[i].ariaExpanded && r[i].ariaLabel == ts[i].ariaLabel
  {
    seq(|ts|, i requires 0 <= i < |ts| => Repaired(ts[i]))
  }

  /**
   * Everything the controller reads or writes: its two variables
   * (`isMenuOpen`, `_previousBodyOverflow`), the panel's `active` class,
   * the CTA group's inline display (`None` when the page has no CTA
   * group), the body's inline `overflow` ("" when unset) and the toggles.
   */
  datatype MenuState = MenuState(
    isOpen: bool,
    saved: Option<string>,
    panelActive: bool,
    cta: Option<string>,
    overflow: string,
    toggles: seq<ToggleAttrs>)

  /**
   * The open state, the panel's class and every toggle's class and ARIA
   * attributes agree.
   */
  predicate Synced(s: MenuState) {
    s.panelActive == s.isOpen
    && forall i :: 0 <= i < |s.toggles| ==> Shows(s.toggles[i], s.isOpen)
  }

  /**
   * Scroll lock as seen from a page whose own overflow is `pageOverflow`:
   * while open the body is locked and the page's value is held; while
   * closed the page's value is in place and nothing is held.
   */
  predicate ScrollLock(s: MenuState, pageOverflow: string) {
    if s.isOpen then s.saved == Some(pageOverflow) && s.overflow == OverflowHidden
    else s.saved.None? && s.overflow == pageOverflow
  }

  /** The CTA group, if the page has one, shows `display`. */
  function CtaShows(cta: Option<string>, display: string): Option<string> {
    if cta.Some? then Some(display) else None
  }

  /**
   * `openMenu`: the panel and toggles show the menu open, the CTA group is
   * hidden and the body is locked.  The body's value is saved only when
   * nothing is saved yet, so a second open keeps the first snapshot.
   */
  function Open(s: MenuState): (r: MenuState)
    ensures r.isOpen && Synced(r)
    ensures r.overflow == OverflowHidden
    ensures s.saved.None? ==> r.saved == Some(s.overflow)
    ensures s.saved.Some? ==> r.saved == s.saved
    ensures r.cta.Some? == s.cta.Some? && (r.cta.Some? ==> r.cta.value == "none")
    ensures |r.toggles| == |s.toggles|
    ensures forall i :: 0 <= i < |r.toggles| ==>
      r.toggles[i].role == s.toggles[i].role && r.toggles[i].tabindex == s.toggles[i].tabindex
  {
    var saved := if s.saved.None? then Some(s.overflow) else s.saved;
    MenuState(true, saved, true, CtaShows(s.cta, "none"), OverflowHidden, SetAllExpanded(s.toggles, true))
  }

  /**
   * `closeMenu`: the panel and toggles show the menu closed, the CTA group
   * gets its stylesheet display back, the body gets the saved value (""
   * when nothing was saved) and the snapshot is dropped.
   */
  function Close(s: MenuState): (r: MenuState)
    ensures !r.isOpen && Synced(r)
    ensures r.saved.None?
    ensures s.saved.Some? ==> r.overflow == s.saved.value
    ensures s.saved.None? ==> r.overflow == ""
    ensures r.cta.Some? == s.cta.Some? && (r.cta.Some? ==> r.cta.value == "")
    ensures |r.toggles| == |s.toggles|
    ensures forall i :: 0 <= i < |r.toggles| ==>
      r.toggles[i].role == s.toggles[i].role && r.toggles[i].tabindex == s.toggles[i].tabindex
  {
    MenuState(false, None, false, CtaShows(s.cta, ""), s.saved.GetOr(""), SetAllExpanded(s.toggles, false))
  }

  /** `toggleMenu` always flips the open state, and leaves everything in agreement. */
  function Toggle(s: MenuState): (r: MenuState)
    ensures r.isOpen == !s.isOpen && Synced(r)
  {
    if s.isOpen then Close(s) else Open(s)
  }

  /**
   * The events the script listens to, with what the listeners compute from
   * the DOM passed in as booleans.
   */
  datatype Event =
    | ToggleClick                                               // click on a toggle (default and propagation stopped)
    | ToggleKeydown(key: string)                                // keydown on a toggle
    | DocumentKeydown(key: string)                              // keydown anywhere
    | DocumentClick(insideToggle: bool, insidePanel: bool)      // click reaching the document
    | PanelClick(onLink: bool)                                  // click inside the panel; onLink: `closest('a')` found one
    | ResizeSettled(innerWidth: int)                            // the debounced resize callback

  /** Events that toggle the menu whatever its state: a click, Enter or Space on a toggle. */
  predicate Activates(e: Event) {
    e.ToggleClick? || (e.ToggleKeydown? && (e.key == "Enter" || e.key == " "))
  }

  /**
   * Events that close an open menu: Escape, a click outside every toggle
   * and the panel, a click on a link in the panel, the window settling
   * wider than the 768 pixel breakpoint.
   */
  predicate Dismisses(e: Event) {
    match e
    case DocumentKeydown(key) => key == "Escape"
    case DocumentClick(insideToggle, insidePanel) => !insideToggle && !insidePanel
    case PanelClick(onLink) => onLink
    case ResizeSettled(width) => width > 768
    case _ => false
  }

  /**
   * One listener run.  Activating events toggle; dismissing events close
   * the menu only when it is open; every other event, and every dismissing
   * event on a closed menu, changes nothing.  Whatever changes ends in
   * agreement, and only an activating event opens the menu.
   */
  function Handle(s: MenuState, e: Event): (r: MenuState)
    ensures Activates(e) ==> r == Toggle(s)
    ensures !Activates(e) && Dismisses(e) && s.isOpen ==> r == Close(s)
    ensures !Activates(e) && !(Dismisses(e) && s.isOpen) ==> r == s
    ensures r == s || Synced(r)
    ensures r.isOpen ==> s.isOpen || Activates(e)
  {
    match e
    case ToggleClick => Toggle(s)
    case ToggleKeydown(key) => if key == "Enter" || key == " " then Toggle(s) else s
    case DocumentKeydown(key) => if key == "Escape" && s.isOpen then Close(s) else s
    case DocumentClick(insideToggle, insidePanel) =>
      if s.isOpen && !insideToggle && !insidePanel then Close(s) else s
    case PanelClick(onLink) => if onLink && s.isOpen then Close(s) else s
    case ResizeSettled(width) => if width > 768 && s.isOpen then Close(s) else s
  }

  /** Listener runs one after another. */
  function Run(s: MenuState, events: seq<Event>): MenuState
    decreases |events|
  {
    if events == [] then s else Run(Handle(s, events[0]), events[1..])
  }

  /** Open then close puts back exactly the overflow the page had, and holds no snapshot. */
  lemma OpenThenCloseRestores(s: MenuState)
    requires s.saved.None?
    ensures Close(Open(s)).overflow == s.overflow
    ensures Close(Open(s)).saved.None?
  {
  }

  /**
   * A second open keeps the first snapshot instead of saving "hidden", so
   * open, open, close still restores the page's overflow; and it changes
   * nothing else either.
   */
  lemma OpenTwice(s: MenuState)
    ensures Open(Open(s)) == Open(s)
    ensures s.saved.None? ==> Close(Open(Open(s))).overflow == s.overflow
  {
  }

  /** Keys other than Escape, Enter and Space change nothing, on a toggle or anywhere else. */
  lemma OtherKeysIgnored(s: MenuState, key: string)
    requires key != "Escape" && key != "Enter" && key != " "
    ensures Handle(s, ToggleKeydown(key)) == s
    ensures Handle(s, DocumentKeydown(key)) == s
  {
  }

  /**
   * Over any run of listener calls, the body is locked exactly while the
   * menu is open and gets the page's own overflow back whenever it is
   * closed: close is only ever reached from an open menu.
   */
  lemma {:induction false} RunKeepsScrollLock(s: MenuState, events: seq<Event>, pageOverflow: string)
    requires ScrollLock(s, pageOverflow)
    ensures ScrollLock(Run(s, events), pageOverflow)
    decreases |events|
  {
    if events != [] {
      RunKeepsScrollLock(Handle(s, events[0]), events[1..], pageOverflow);
    }
  }

  /** Once the panel and the toggles agree with the open state, no run of listener calls breaks it. */
  lemma {:induction false} RunKeepsSynced(s: MenuState, events: seq<Event>)
    requires Synced(s)
    ensures Synced(Run(s, events))
    decreases |events|
  {
    if events != [] {
      RunKeepsSynced(Handle(s, events[0]), events[1..]);
    }
  }

  /**
   * From any page state, in particular the one setup leaves, a run of
   * listener calls either changes nothing or ends with the open state, the
   * panel and the toggles in agreement.
   */
  lemma {:induction false} RunEndsSynced(s: MenuState, events: seq<Event>)
    ensures Run(s, events) == s || Synced(Run(s, events))
    decreases |events|
  {
    if events != [] {
      var next := Handle(s, events[0]);
      if next == s {
        RunEndsSynced(s, events[1..]);
      } else {
        RunKeepsSynced(next, events[1..]);
      }
    }
  }

  /**
   * The controller as the script builds it: its variables as fields, the
   * toggle elements as an array of records updated in place.
   */
  class Menu {
    var isOpen: bool
    var savedOverflow: Option<string>
    var panelActive: bool
    var cta: Option<string>
    var bodyOverflow: string
    const toggles: array<ToggleAttrs>

    /** The observable state the methods are specified against. */
    ghost function State(): MenuState
      reads this, toggles
    {
      MenuState(isOpen, savedOverflow, panelActive, cta, bodyOverflow, toggles[..])
    }

    /** A controller that starts closed, holding no snapshot, over the page state it is given. */
    constructor (toggleEls: array<ToggleAttrs>, panelActive: bool, cta: Option<string>, bodyOverflow: string)
      ensures toggles == toggleEls
      ensures State() == MenuState(false, None, panelActive, cta, bodyOverflow, toggleEls[..])
    {
      isOpen := false;
      savedOverflow := None;
      this.panelActive := panelActive;
      this.cta := cta;
      this.bodyOverflow := bodyOverflow;
      toggles := toggleEls;
    }

    /** `setToggleAttributes(expanded)`: each toggle in turn, in place. */
    method SetToggleAttributes(expanded: bool)
      modifies toggles
      ensures toggles[..] == SetAllExpanded(old(toggles[..]), expanded)
    {
      var i := 0;
      while i < toggles.Length
        invariant 0 <= i <= toggles.Length
        invariant forall j :: 0 <= j < i ==> toggles[j] == SetExpanded(old(toggles[j]), expanded)
        invariant forall j :: i <= j < toggles.Length ==> toggles[j] == old(toggles[j])
      {
        toggles[i] := SetExpanded(toggles[i], expanded);
        i := i + 1;
      }
    }

    /** The role/tabindex repair, each toggle in turn, in place. */
    method RepairToggles()
      modifies toggles
      ensures toggles[..] == RepairAll(old(toggles[..]))
    {
      var i := 0;
      while i < toggles.Length
        invariant 0 <= i <= toggles.Length
        invariant forall j :: 0 <= j < i ==> toggles[j] == Repaired(old(toggles[j]))
        invariant forall j :: i <= j < toggles.Length ==> toggles[j] == old(toggles[j])
      {
        var t := toggles[i];
        if t.role.None? {
          t := t.(role := Some("button"));
        }
        if t.tabindex.None? {
          t := t.(tabindex := Some("0"));
        }
        toggles[i] := t;
        i := i + 1;
      }
    }

    method OpenMenu()
      modifies this, toggles
      ensures State() == Open(old(State()))
    {
      panelActive := true;
      if cta.Some? {
        cta := Some("none");
      }
      if savedOverflow.None? {
        savedOverflow := Some(bodyOverflow);
      }
      bodyOverflow := OverflowHidden;
      isOpen := true;
      SetToggleAttributes(true);
    }

    method CloseMenu()
      modifies this, toggles
      ensures State() == Close(old(State()))
    {
      panelActive := false;
      if cta.Some? {
        cta := Some("");
      }
      bodyOverflow := if savedOverflow.Some? then savedOverflow.value else "";
      savedOverflow := None;
      isOpen := false;
      SetToggleAttributes(false);
    }

    method ToggleMenu()
      modifies this, toggles
      ensures State() == Toggle(old(State()))
    {
      if isOpen {
        CloseMenu();
      } else {
        OpenMenu();
      }
    }

    /** Click listener on a toggle. */
    method OnToggleClick()
      modifies this, toggles
      ensures State() == Handle(old(State()), ToggleClick)
    {
      ToggleMenu();
    }

    /** Keydown listener on a toggle. */
    method OnToggleKeydown(key: string)
      modifies this, toggles
      ensures State() == Handle(old(State()), ToggleKeydown(key))
    {
      if key == "Enter" || key == " " {
        ToggleMenu();
      }
    }

    /** Passive click listener on the document. */
    method OnDocumentClick(insideToggle: bool, insidePanel: bool)
      modifies this, toggles
      ensures State() == Handle(old(State()), DocumentClick(insideToggle, insidePanel))
    {
      if isOpen && !insideToggle && !insidePanel {
        CloseMenu();
      }
    }

    /** Click listener on the panel. */
    method OnPanelClick(onLink: bool)
      modifies this, toggles
      ensures State() == Handle(old(State()), PanelClick(onLink))
    {
      if onLink && isOpen {
        CloseMenu();
      }
    }

    /** Keydown listener on the document. */
    method OnDocumentKeydown(key: string)
      modifies this, toggles
      ensures State() == Handle(old(State()), DocumentKeydown(key))
    {
      if key == "Escape" && isOpen {
        CloseMenu();
      }
    }

    /** The resize callback once 120 ms have passed without another resize. */
    method OnResizeSettled(innerWidth: int)
      modifies this, toggles
      ensures State() == Handle(old(State()), ResizeSettled(innerWidth))
    {
      if innerWidth > 768 && isOpen {
        CloseMenu();
      }
    }
  }

  /**
   * The `DOMContentLoaded` setup: nothing at all without a toggle or
   * without a panel; otherwise a closed controller with no snapshot over
   * the page as found, after the toggles' role and tabindex repair.
   */
  method Setup(toggleEls: array<ToggleAttrs>, hasPanel: bool, panelActive: bool, cta: Option<string>, bodyOverflow: string)
    returns (menu: Menu?)
    modifies toggleEls
    ensures menu == null <==> toggleEls.Length == 0 || !hasPanel
    ensures menu == null ==> unchanged(toggleEls)
    ensures menu != null ==> fresh(menu) && menu.toggles == toggleEls
    ensures menu != null ==>
      menu.State() == MenuState(false, None, panelActive, cta, bodyOverflow, RepairAll(old(toggleEls[..])))
    ensures menu != null ==> ScrollLock(menu.State(), bodyOverflow)
  {
    if toggleEls.Length == 0 || !hasPanel {
      return null;
    }
    menu := new Menu(toggleEls, panelActive, cta, bodyOverflow);
    menu.RepairToggles();
  }
}
