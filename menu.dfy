/** The mobile menu: a panel whose `show` and `hidden` classes say whether
    it is open, and a button icon (bars or a cross) that should say the
    same. */
module MobileMenu {

  const Show := "show"
  const Hidden := "hidden"

  /** Width from which the desktop layout applies. */
  const DesktopWidth := 768

  /** The icon path drawn in the menu button: three bars ("M4 6h16M4 12h16M4
      18h16") or a cross ("M6 18L18 6M6 6l12 12"). */
  datatype Icon = Bars | Cross

  datatype MenuState = MenuState(classes: set<string>, icon: Icon)

  /** `classList.contains('show')`. */
  predicate IsOpen(s: MenuState) {
    Show in s.classes
  }

  /** Exactly one of `show` and `hidden` is set. */
  predicate Exclusive(s: MenuState) {
    (Show in s.classes) != (Hidden in s.classes)
  }

  /** The icon matches the panel: a cross while open, bars while closed. */
  predicate InSync(s: MenuState) {
    s.icon == if IsOpen(s) then Cross else Bars
  }

  /** The panel closed: `show` removed, `hidden` added, other classes kept. */
  function Closed(c: set<string>): (r: set<string>)
    ensures Show !in r && Hidden in r
    ensures forall name :: name != Show && name != Hidden ==> (name in r <==> name in c)
  {
    (c - {Show}) + {Hidden}
  }

  /** The panel opened: `hidden` removed, `show` added, other classes kept. */
  function Opened(c: set<string>): (r: set<string>)
    ensures Show in r && Hidden !in r
    ensures forall name :: name != Show && name != Hidden ==> (name in r <==> name in c)
  {
    (c - {Hidden}) + {Show}
  }

  /** The menu button: close an open menu and draw bars, open a closed one
      and draw a cross. Afterwards the panel is in exactly one state and the
      icon agrees with it, whatever the state before. */
  function Toggled(s: MenuState): (r: MenuState)
    ensures IsOpen(r) <==> !IsOpen(s)
    ensures Exclusive(r) && InSync(r)
    ensures forall name :: name != Show && name != Hidden ==> (name in r.classes <==> name in s.classes)
  {
    if IsOpen(s) then MenuState(Closed(s.classes), Bars)
    else MenuState(Opened(s.classes), Cross)
  }

  /** A click on a mobile nav button: close the panel and draw bars. */
  function ClosedByNav(s: MenuState): (r: MenuState)
    ensures !IsOpen(r) && Exclusive(r) && InSync(r)
    ensures forall name :: name != Show && name != Hidden ==> (name in r.classes <==> name in s.classes)
  {
    MenuState(Closed(s.classes), Bars)
  }

  /** The debounced resize handler: from 768 pixels up, add `hidden` and
      remove `show`; the icon is left as it is. */
  function Resized(s: MenuState, width: int): (r: MenuState)
    ensures r.icon == s.icon
    ensures width >= DesktopWidth ==> !IsOpen(r) && Exclusive(r)
    ensures width >= DesktopWidth ==>
      forall name :: name != Show && name != Hidden ==> (name in r.classes <==> name in s.classes)
    ensures width < DesktopWidth ==> r == s
  {
    if width >= DesktopWidth then MenuState((s.classes + {Hidden}) - {Show}, s.icon) else s
  }

  /** Two presses of the menu button restore the menu, provided exactly one
      of `show` and `hidden` was set and the icon agreed with it. */
  lemma ToggleTwice(s: MenuState)
    requires Exclusive(s) && InSync(s)
    ensures Toggled(Toggled(s)) == s
  {
    var c := s.classes;
    if IsOpen(s) {
      assert Opened(Closed(c)) == c by {
        forall name ensures name in Opened(Closed(c)) <==> name in c {
          if name != Show && name != Hidden {
          }
        }
      }
    } else {
      assert Closed(Opened(c)) == c by {
        forall name ensures name in Closed(Opened(c)) <==> name in c {
          if name != Show && name != Hidden {
          }
        }
      }
    }
  }

  /** Without the "exactly one" condition two presses need not restore the
      menu: a panel with neither class ends up hidden. */
  lemma ToggleTwiceNeedsExclusive()
    ensures Toggled(Toggled(MenuState({}, Bars))) != MenuState({}, Bars)
  {
    assert Hidden in Toggled(Toggled(MenuState({}, Bars))).classes;
  }

  /** No handler ever leaves both `show` and `hidden` set, and from an
      exclusive state every handler leaves exactly one set. */
  lemma HandlersKeepExclusive(s: MenuState, width: int)
    requires Exclusive(s)
    ensures Exclusive(Toggled(s)) && Exclusive(ClosedByNav(s)) && Exclusive(Resized(s, width))
  {
  }

  /** Closing the panel on a resize to the desktop width leaves a cross on
      the button if the menu was open, so the icon no longer agrees with the
      panel; the next press then opens the menu again. */
  lemma ResizeLeavesCross(s: MenuState, width: int)
    requires IsOpen(s) && InSync(s) && width >= DesktopWidth
    ensures !IsOpen(Resized(s, width)) && Resized(s, width).icon == Cross
    ensures !InSync(Resized(s, width))
    ensures IsOpen(Toggled(Resized(s, width)))
  {
  }

  /** The panel element and the button icon, as the handlers change them. */
  class Menu {
    var classes: set<string>
    var icon: Icon

    function State(): MenuState
      reads this
    {
      MenuState(classes, icon)
    }

    /** The panel and icon as the page's markup sets them up. */
    constructor (classes: set<string>, icon: Icon)
      ensures State() == MenuState(classes, icon)
    {
      this.classes := classes;
      this.icon := icon;
    }

    /** The menu button's click handler. */
    method Toggle()
      modifies this
      ensures State() == Toggled(old(State()))
    {
      var isOpen := Show in classes;
      if isOpen {
        classes := classes - {Show};
        classes := classes + {Hidden};
        icon := Bars;
      } else {
        classes := classes - {Hidden};
        classes := classes + {Show};
        icon := Cross;
      }
    }

    /** The click handler of a nav button inside the mobile menu. */
    method CloseFromNav()
      modifies this
      ensures State() == ClosedByNav(old(State()))
    {
      classes := classes - {Show};
      classes := classes + {Hidden};
      icon := Bars;
    }

    /** The debounced resize handler, given `window.innerWidth`. */
    method OnResize(width: int)
      modifies this
      ensures State() == Resized(old(State()), width)
    {
      if width >= DesktopWidth {
        classes := classes + {Hidden};
        classes := classes - {Show};
      }
    }
  }
}
