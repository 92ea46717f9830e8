/** Scroll geometry: where `scrollToSection` sends the window, and which
    tracked section the scroll handler of `initActiveNavHighlight` picks.
    Positions are whole pixels. */
module Scrolling {
  import opened Wrappers

  /** The vertical extent of an element: in page coordinates in a layout,
      in viewport coordinates as `getBoundingClientRect` reports it. */
  datatype Rect = Rect(top: int, bottom: int)

  /** Height of the sticky header that a scroll target leaves room for. */
  const HeaderHeight := 80

  /** Distance from the top of the viewport of the line a section must
      straddle to be the current one. */
  const ProbeLine := 100

  /** The sections the scroll handler tracks, in the order it scans them. */
  const TrackedSections := ["destinations", "travel-info", "accommodations", "culture"]

  /** `rect.top <= 100 && rect.bottom >= 100`. */
  predicate Straddles(r: Rect) {
    r.top <= ProbeLine && r.bottom >= ProbeLine
  }

  predicate StraddlesIn(rects: map<string, Rect>, id: string) {
    id in rects && Straddles(rects[id])
  }

  /** The viewport rectangles of a layout scrolled down by `scrollY`. */
  function InView(layout: map<string, Rect>, scrollY: int): (rects: map<string, Rect>)
    ensures rects.Keys == layout.Keys
    ensures forall id :: id in rects ==> rects[id].top - layout[id].top == -scrollY
    ensures forall id :: id in rects ==> rects[id].bottom - rects[id].top == layout[id].bottom - layout[id].top
  {
    map id | id in layout :: Rect(layout[id].top - scrollY, layout[id].bottom - scrollY)
  }

  /** In page coordinates: a section straddles the probe line exactly when
      its extent contains the point 100 pixels below the top of the window. */
  lemma StraddlesInPage(layout: map<string, Rect>, scrollY: int, id: string)
    ensures StraddlesIn(InView(layout, scrollY), id) <==>
      id in layout && layout[id].top <= scrollY + ProbeLine <= layout[id].bottom
  {
  }

  /** `current` is what a scan over `ids` may end with: "" when no section
      straddles the line (and, when no id is "", only then), and otherwise a
      straddling section with none after it. */
  ghost predicate IsScanResult(ids: seq<string>, rects: map<string, Rect>, current: string) {
    && ((forall i :: 0 <= i < |ids| ==> !StraddlesIn(rects, ids[i])) ==> current == "")
    && ("" !in ids && current == "" ==> forall i :: 0 <= i < |ids| ==> !StraddlesIn(rects, ids[i]))
    && (current != "" ==>
      exists k :: 0 <= k < |ids| && ids[k] == current && StraddlesIn(rects, ids[k]) &&
        forall j :: k < j < |ids| ==> !StraddlesIn(rects, ids[j]))
  }

  /** The section the scroll handler ends up with: each tracked section
      that exists and straddles the probe line overwrites the previous
      candidate, so the last one wins; "" when none does. */
  function LastStraddling(ids: seq<string>, rects: map<string, Rect>): (current: string)
    ensures IsScanResult(ids, rects, current)
  {
    if ids == [] then ""
    else
      var c := LastStraddling(ids[..|ids| - 1], rects);
      ScanStep(ids, rects, c);
      if StraddlesIn(rects, ids[|ids| - 1]) then ids[|ids| - 1] else c
  }

  /** Scanning one more section keeps the candidate a scan result. */
  lemma ScanStep(ids: seq<string>, rects: map<string, Rect>, c: string)
    requires ids != [] && IsScanResult(ids[..|ids| - 1], rects, c)
    ensures IsScanResult(ids, rects, if StraddlesIn(rects, ids[|ids| - 1]) then ids[|ids| - 1] else c)
  {
    var n := |ids| - 1;
    var front := ids[..n];
    if !StraddlesIn(rects, ids[n]) {
      if forall i :: 0 <= i < |ids| ==> !StraddlesIn(rects, ids[i]) {
        forall i | 0 <= i < n ensures !StraddlesIn(rects, front[i]) {
          assert front[i] == ids[i];
        }
      }
      if "" !in ids && c == "" {
        assert "" !in front by {
          forall i | 0 <= i < n ensures front[i] != "" {
            assert front[i] == ids[i];
          }
        }
        forall i | 0 <= i < |ids| ensures !StraddlesIn(rects, ids[i]) {
          if i < n {
            assert ids[i] == front[i];
          }
        }
      }
      if c != "" {
        var k :| 0 <= k < n && front[k] == c && StraddlesIn(rects, front[k]) &&
          forall j :: k < j < n ==> !StraddlesIn(rects, front[j]);
        assert ids[k] == front[k];
        forall j | k < j < |ids| ensures !StraddlesIn(rects, ids[j]) {
          if j < n {
            assert ids[j] == front[j];
          }
        }
      }
    }
  }

  /** A section that straddles the line with no straddling section after it
      is the one picked. */
  lemma {:induction false} LastStraddlingPicks(ids: seq<string>, rects: map<string, Rect>, k: int)
    requires 0 <= k < |ids| && StraddlesIn(rects, ids[k])
    requires forall j :: k < j < |ids| ==> !StraddlesIn(rects, ids[j])
    ensures LastStraddling(ids, rects) == ids[k]
  {
    var n := |ids| - 1;
    if k < n {
      var front := ids[..n];
      assert front[k] == ids[k];
      forall j | k < j < |front| ensures !StraddlesIn(rects, front[j]) {
        assert front[j] == ids[j];
      }
      LastStraddlingPicks(front, rects, k);
    }
  }

  /** The scroll handler's `forEach` over the tracked sections, keeping the
      last one whose rectangle straddles the probe line. */
  method PickCurrent(rects: map<string, Rect>) returns (current: string)
    ensures current == LastStraddling(TrackedSections, rects)
  {
    current := "";
    var sections := TrackedSections;
    for i := 0 to |sections|
      invariant current == LastStraddling(sections[..i], rects)
    {
      assert sections[..i + 1][..i] == sections[..i];
      if sections[i] in rects {
        var rect := rects[sections[i]];
        if rect.top <= ProbeLine && rect.bottom >= ProbeLine {
          current := sections[i];
        }
      }
    }
    assert sections[..|sections|] == sections;
  }

  /** When the travel information and the accommodation sections both
      straddle the line, the later one in scan order, accommodations, wins
      whatever the others do. */
  lemma LaterSectionWins(rects: map<string, Rect>)
    requires StraddlesIn(rects, "travel-info") && StraddlesIn(rects, "accommodations")
    requires !StraddlesIn(rects, "culture")
    ensures LastStraddling(TrackedSections, rects) == "accommodations"
  {
    LastStraddlingPicks(TrackedSections, rects, 2);
  }

  /** `scrollToSection`'s target: the element's viewport top plus the page
      offset, less the header height; `None` when there is no element with
      that id, in which case nothing is scrolled. */
  function ScrollTarget(rects: map<string, Rect>, pageYOffset: int, id: string): (target: Option<int>)
    ensures target.None? <==> id !in rects
    ensures target.Some? ==> target.value + HeaderHeight - pageYOffset == rects[id].top
  {
    if id in rects then Some(rects[id].top + pageYOffset - HeaderHeight) else None
  }

  /** The target does not depend on where the page was scrolled, and once
      the window is there the element's top sits just below the header. */
  lemma ScrollTargetLandsBelowHeader(layout: map<string, Rect>, scrollY: int, id: string)
    requires id in layout
    ensures ScrollTarget(InView(layout, scrollY), scrollY, id) == Some(layout[id].top - HeaderHeight)
    ensures InView(layout, layout[id].top - HeaderHeight)[id].top == HeaderHeight
  {
  }

  /** A section taller than the 20 pixels between the header and the probe
      line, with every later tracked section starting at or below its
      bottom, is the one the scroll handler picks once the window has been
      scrolled to it. */
  lemma {:induction false} TargetIsPicked(layout: map<string, Rect>, k: int)
    requires 0 <= k < |TrackedSections| && TrackedSections[k] in layout
    requires layout[TrackedSections[k]].bottom - layout[TrackedSections[k]].top >= ProbeLine - HeaderHeight
    requires forall j :: k < j < |TrackedSections| && TrackedSections[j] in layout ==>
      layout[TrackedSections[j]].top > layout[TrackedSections[k]].top + (ProbeLine - HeaderHeight)
    ensures LastStraddling(TrackedSections, InView(layout, layout[TrackedSections[k]].top - HeaderHeight)) == TrackedSections[k]
  {
    var id := TrackedSections[k];
    var rects := InView(layout, layout[id].top - HeaderHeight);
    assert rects[id].top == HeaderHeight;
    forall j | k < j < |TrackedSections| ensures !StraddlesIn(rects, TrackedSections[j]) {
      if TrackedSections[j] in layout {
        assert rects[TrackedSections[j]].top > ProbeLine;
      }
    }
    LastStraddlingPicks(TrackedSections, rects, k);
  }

  /** The browser window: the page layout and how far it is scrolled. */
  class Viewport {
    const layout: map<string, Rect>
    var scrollY: int

    constructor (layout: map<string, Rect>, scrollY: int)
      ensures this.layout == layout && this.scrollY == scrollY
    {
      this.layout := layout;
      this.scrollY := scrollY;
    }

    /** What `getBoundingClientRect` reports for each element. */
    function Rects(): map<string, Rect>
      reads this
    {
      InView(layout, scrollY)
    }

    /** `scrollToSection(id)`: scroll so that the element's top sits at the
        header's bottom edge, or do nothing when there is no such element. */
    method ScrollToSection(id: string)
      modifies this
      ensures id in layout ==> scrollY == layout[id].top - HeaderHeight && Rects()[id].top == HeaderHeight
      ensures id !in layout ==> scrollY == old(scrollY)
    {
      var target := ScrollTarget(Rects(), scrollY, id);
      if target.Some? {
        scrollY := target.value;
      }
    }
  }
}
