/** The mobile navigation menu: an open/closed state shown as the `is-open`
    class on the nav container and as the `aria-label`/`aria-expanded` pair on
    the toggle button. Either element may be missing from the page, in which
    case every operation leaves everything as it was. */
module Nav {

  const CloseLabel := "Close menu"
  const OpenLabel := "Open menu"

  /** `String(v)` for a boolean. */
  function BoolText(v: bool): (t: string)
    ensures t == "true" <==> v
  {
    if v then "true" else "false"
  }

  /** What the page shows of the menu: which elements exist, whether the nav has
      `is-open`, and the toggle's `aria-label` and `aria-expanded`. */
  datatype Menu = Menu(hasNav: bool, hasToggle: bool, isOpen: bool, ariaLabel: string, ariaExpanded: string)
  {
    /** Both elements exist; only then are the listeners attached. */
    predicate Wired() { hasNav && hasToggle }

    /** The class and the two attributes agree. */
    predicate Consistent() {
      && ariaExpanded == BoolText(isOpen)
      && ariaLabel == (if isOpen then CloseLabel else OpenLabel)
    }
  }

  /** Where a click landed, as the document-level listener tests it. */
  datatype ClickTarget = ClickTarget(
    isToggle: bool,        // the target is the toggle itself
    toggleContains: bool,  // `toggle.contains(target)`
    navContains: bool,     // `nav.contains(target)`
    onNavLink: bool        // the target is an `<a>` inside the nav, or inside one
  )

  /** `setExpanded(v)`: writes `aria-expanded` when the toggle exists. */
  function WithExpanded(m: Menu, v: bool): (r: Menu)
    ensures m.hasToggle ==> r == m.(ariaExpanded := BoolText(v))
    ensures !m.hasToggle ==> r == m
  {
    if !m.hasToggle then m else m.(ariaExpanded := BoolText(v))
  }

  /** `openNav()`. */
  function OpenNav(m: Menu): (r: Menu)
    ensures r.hasNav == m.hasNav && r.hasToggle == m.hasToggle
    ensures m.Wired() ==> r.isOpen && r.ariaLabel == CloseLabel && r.ariaExpanded == "true"
    ensures m.Wired() ==> r.Consistent()
    ensures !m.Wired() ==> r == m
  {
    if !m.hasNav || !m.hasToggle then m
    else WithExpanded(m.(isOpen := true, ariaLabel := CloseLabel), true)
  }

  /** `closeNav()`. */
  function CloseNav(m: Menu): (r: Menu)
    ensures r.hasNav == m.hasNav && r.hasToggle == m.hasToggle
    ensures m.Wired() ==> !r.isOpen && r.ariaLabel == OpenLabel && r.ariaExpanded == "false"
    ensures m.Wired() ==> r.Consistent()
    ensures !m.Wired() ==> r == m
  {
    if !m.hasNav || !m.hasToggle then m
    else WithExpanded(m.(isOpen := false, ariaLabel := OpenLabel), false)
  }

  /** The toggle's click listener: close when open, open otherwise. */
  function ToggleClick(m: Menu): (r: Menu)
    ensures r.hasNav == m.hasNav && r.hasToggle == m.hasToggle
    ensures m.Wired() ==> r.isOpen == !m.isOpen && r.Consistent()
    ensures !m.Wired() ==> r == m
  {
    if !m.Wired() then m
    else if m.isOpen then CloseNav(m) else OpenNav(m)
  }

  /** The click listener on each link inside the nav. */
  function LinkClick(m: Menu): (r: Menu)
    ensures m.Wired() ==> r == CloseNav(m)
    ensures !m.Wired() ==> r == m
  {
    if !m.Wired() then m else CloseNav(m)
  }

  /** The document's click listener: closes an open menu when the click landed
      outside both the toggle and the nav. */
  function DocumentClick(m: Menu, t: ClickTarget): (r: Menu)
    ensures r == m || r == CloseNav(m)
    ensures m.Wired() && m.isOpen && !t.isToggle && !t.toggleContains && !t.navContains
            ==> !r.isOpen
    ensures !m.isOpen || t.isToggle || t.toggleContains || t.navContains ==> r == m
  {
    if !m.Wired() then m
    else if !m.isOpen then m
    else if t.isToggle || t.toggleContains || t.navContains then m
    else CloseNav(m)
  }

  /** The document's keydown listener: Escape closes the menu. */
  function KeyDown(m: Menu, key: string): (r: Menu)
    ensures m.Wired() && key == "Escape" ==> r == CloseNav(m) && !r.isOpen
    ensures key != "Escape" ==> r == m
    ensures !m.Wired() ==> r == m
  {
    if m.Wired() && key == "Escape" then CloseNav(m) else m
  }

  /** A click as the browser dispatches it: the listeners on the toggle and on a
      nav link fire first (the target or one of its ancestors), then the
      document's, which sees the state those left. */
  function Click(m: Menu, t: ClickTarget): (r: Menu)
    ensures r.hasNav == m.hasNav && r.hasToggle == m.hasToggle
    ensures !m.Wired() ==> r == m
    ensures m.Consistent() ==> r.Consistent()
    ensures (t.isToggle || t.toggleContains) && !t.onNavLink ==> r == ToggleClick(m)
  {
    var afterToggle := if t.isToggle || t.toggleContains then ToggleClick(m) else m;
    var afterLink := if t.onNavLink then LinkClick(afterToggle) else afterToggle;
    DocumentClick(afterLink, t)
  }

  /** `closeNav` is idempotent. */
  lemma CloseIdempotent(m: Menu)
    ensures CloseNav(CloseNav(m)) == CloseNav(m)
  {
  }

  /** Two toggle clicks give back the open state; when the class and attributes
      agreed to begin with, they give back the whole menu. */
  lemma ToggleTwice(m: Menu)
    ensures ToggleClick(ToggleClick(m)).isOpen == m.isOpen
    ensures m.Consistent() ==> ToggleClick(ToggleClick(m)) == m
  {
  }

  /** Opening then closing a closed, consistent menu gives back its label and
      `aria-expanded`. */
  lemma OpenThenClose(m: Menu)
    requires m.Consistent() && !m.isOpen
    ensures CloseNav(OpenNav(m)) == m
  {
  }

  /** Each listener keeps the class and attributes in agreement. */
  lemma ListenersKeepConsistent(m: Menu, t: ClickTarget, key: string)
    requires m.Consistent()
    ensures ToggleClick(m).Consistent()
    ensures LinkClick(m).Consistent()
    ensures DocumentClick(m, t).Consistent()
    ensures KeyDown(m, key).Consistent()
    ensures Click(m, t).Consistent()
  {
  }

  /** A full click on the toggle flips the menu: the document listener that
      follows ignores the click because its target is the toggle. */
  lemma {:induction false} ClickOnToggleFlips(m: Menu, t: ClickTarget)
    requires m.Wired() && (t.isToggle || t.toggleContains) && !t.onNavLink
    ensures Click(m, t).isOpen == !m.isOpen
  {
    assert Click(m, t) == ToggleClick(m);
  }

  /** A full click on a nav link, or anywhere outside the toggle and the nav,
      leaves the menu closed. */
  lemma {:induction false} ClickElsewhereCloses(m: Menu, t: ClickTarget)
    requires m.Wired() && !t.isToggle && !t.toggleContains
    requires t.onNavLink || !t.navContains
    ensures !Click(m, t).isOpen
  {
    if t.onNavLink {
      assert Click(m, t) == DocumentClick(CloseNav(m), t);
    } else {
      assert Click(m, t) == DocumentClick(m, t);
    }
  }

  /** The menu elements as the script holds them. */
  class NavMenu {
    const hasNav: bool
    const hasToggle: bool
    var isOpen: bool
    var ariaLabel: string
    var ariaExpanded: string

    function Snapshot(): Menu
      reads this
    {
      Menu(hasNav, hasToggle, isOpen, ariaLabel, ariaExpanded)
    }

    /** The page as loaded: presence of the elements and their markup. */
    constructor (hasNav: bool, hasToggle: bool, isOpen: bool, ariaLabel: string, ariaExpanded: string)
      ensures Snapshot() == Menu(hasNav, hasToggle, isOpen, ariaLabel, ariaExpanded)
    {
      this.hasNav, this.hasToggle := hasNav, hasToggle;
      this.isOpen, this.ariaLabel, this.ariaExpanded := isOpen, ariaLabel, ariaExpanded;
    }

    method SetExpanded(v: bool)
      modifies this
      ensures Snapshot() == WithExpanded(old(Snapshot()), v)
    {
      if !hasToggle {
        return;
      }
      ariaExpanded := BoolText(v);
    }

    method Open()
      modifies this
      ensures Snapshot() == OpenNav(old(Snapshot()))
    {
      if !hasNav || !hasToggle {
        return;
      }
      isOpen := true;
      ariaLabel := CloseLabel;
      SetExpanded(true);
    }

    method Close()
      modifies this
      ensures Snapshot() == CloseNav(old(Snapshot()))
    {
      if !hasNav || !hasToggle {
        return;
      }
      isOpen := false;
      ariaLabel := OpenLabel;
      SetExpanded(false);
    }

    method OnToggleClick()
      modifies this
      ensures Snapshot() == ToggleClick(old(Snapshot()))
    {
      if !(hasToggle && hasNav) {
        return;
      }
      if isOpen {
        Close();
      } else {
        Open();
      }
    }

    method OnLinkClick()
      modifies this
      ensures Snapshot() == LinkClick(old(Snapshot()))
    {
      if !(hasToggle && hasNav) {
        return;
      }
      Close();
    }

    method OnDocumentClick(t: ClickTarget)
      modifies this
      ensures Snapshot() == DocumentClick(old(Snapshot()), t)
    {
      if !(hasToggle && hasNav) {
        return;
      }
      if !isOpen {
        return;
      }
      if t.isToggle || t.toggleContains || t.navContains {
        return;
      }
      Close();
    }

    method OnKeyDown(key: string)
      modifies this
      ensures Snapshot() == KeyDown(old(Snapshot()), key)
    {
      if !(hasToggle && hasNav) {
        return;
      }
      if key == "Escape" {
        Close();
      }
    }
  }
}
