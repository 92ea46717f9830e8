/** The page's event handlers that move between sections: navigation and
    footer clicks, in-page hash links, the debounced scroll handler, the
    back button, and a click on a search result. */
module Navigation {
  import opened Scrolling
  import opened ActiveNav
  import opened Search

  /** `location.hash.substring(1)` and `getAttribute('href').substring(1)`:
      the text after the leading character, "" for the empty string. */
  function AfterFirst(s: string): (r: string)
    ensures |s| == 0 ==> r == ""
    ensures |s| > 0 ==> [s[0]] + r == s
  {
    if |s| == 0 then "" else s[1..]
  }

  /** A click on a `.nav-btn` or a `.footer-link`: scroll to the button's
      section and mark it active. The nav is restyled even when the page
      has no element with that id. */
  method NavigateTo(view: Viewport, nav: NavBar, sectionId: string)
    requires nav.Valid()
    modifies view, nav.classes
    ensures nav.Valid()
    ensures sectionId in view.layout ==> view.scrollY == view.layout[sectionId].top - HeaderHeight
    ensures sectionId !in view.layout ==> view.scrollY == old(view.scrollY)
    ensures nav.classes[..] == Restyled(old(nav.classes[..]), nav.sections, sectionId)
  {
    view.ScrollToSection(sectionId);
    nav.UpdateActiveNav(sectionId);
  }

  /** A click on an `a[href^="#"]` link: scroll to the named section unless
      the link is a bare "#". The nav is not touched. */
  method OnHashLinkClick(view: Viewport, href: string)
    modifies view
    ensures var id := AfterFirst(href);
      if id != "" && id in view.layout then view.scrollY == view.layout[id].top - HeaderHeight
      else view.scrollY == old(view.scrollY)
  {
    var targetId := AfterFirst(href);
    if targetId != "" {
      view.ScrollToSection(targetId);
    }
  }

  /** The debounced scroll callback: restyle the nav for the last tracked
      section straddling the probe line; when none does, leave the nav as it
      is rather than clearing it. */
  method OnScroll(view: Viewport, nav: NavBar)
    requires nav.Valid()
    modifies nav.classes
    ensures nav.Valid()
    ensures var current := LastStraddling(TrackedSections, view.Rects());
      if current == "" then nav.classes[..] == old(nav.classes[..])
      else nav.classes[..] == Restyled(old(nav.classes[..]), nav.sections, current)
  {
    var current := PickCurrent(view.Rects());
    if current != "" {
      nav.UpdateActiveNav(current);
    }
  }

  /** The `popstate` handler: restyle the nav for the section named by the
      new hash, only when the hash is not empty and an element with that id
      exists. The window is not scrolled. */
  method OnPopState(view: Viewport, nav: NavBar, hash: string)
    requires nav.Valid()
    modifies nav.classes
    ensures nav.Valid()
    ensures var id := AfterFirst(hash);
      if id != "" && id in view.layout then nav.classes[..] == Restyled(old(nav.classes[..]), nav.sections, id)
      else nav.classes[..] == old(nav.classes[..])
  {
    var id := AfterFirst(hash);
    if id != "" && id in view.layout {
      nav.UpdateActiveNav(id);
    }
  }

  /** A click on the `k`-th search result: scroll to its section, mark the
      section active, hide the results and empty the input. */
  method SelectSearchResult(box: SearchBox, view: Viewport, nav: NavBar, k: int)
    requires box.Valid() && nav.Valid()
    requires box.listing.Entries? && 0 <= k < |box.listing.items|
    modifies box, view, nav.classes
    ensures box.Valid() && nav.Valid()
    ensures box.hidden && box.value == "" && box.listing == old(box.listing)
    ensures var section := old(box.listing.items[k].section);
      (section in view.layout ==> view.scrollY == view.layout[section].top - HeaderHeight) &&
      (section !in view.layout ==> view.scrollY == old(view.scrollY)) &&
      nav.classes[..] == Restyled(old(nav.classes[..]), nav.sections, section)
  {
    var section := box.listing.items[k].section;
    view.ScrollToSection(section);
    nav.UpdateActiveNav(section);
    box.Dismiss();
  }

  /** Navigating to a tracked section and then letting the scroll handler
      run agrees: the handler picks the same section, so the nav keeps the
      styling the click gave it. This holds when the section is taller than
      the gap between header and probe line and the later tracked sections
      start below that gap. */
  lemma ScrollAfterNavigateAgrees(layout: map<string, Rect>, classes: seq<set<string>>, sections: seq<string>, k: int)
    requires |classes| == |sections|
    requires 0 <= k < |TrackedSections| && TrackedSections[k] in layout
    requires layout[TrackedSections[k]].bottom - layout[TrackedSections[k]].top >= ProbeLine - HeaderHeight
    requires forall j :: k < j < |TrackedSections| && TrackedSections[j] in layout ==>
      layout[TrackedSections[j]].top > layout[TrackedSections[k]].top + (ProbeLine - HeaderHeight)
    ensures var id := TrackedSections[k];
      var current := LastStraddling(TrackedSections, InView(layout, layout[id].top - HeaderHeight));
      current == id && Restyled(Restyled(classes, sections, id), sections, current) == Restyled(classes, sections, id)
  {
    TargetIsPicked(layout, k);
    UpdateIdempotent(classes, sections, TrackedSections[k]);
  }
}
