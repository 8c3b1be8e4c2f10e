/** FloatingNav: a bottom navigation bar that appears once the page is
    scrolled past 100 px and marks the section the reader is in. On every
    scroll event `handleScroll` scans the four sections from the last to the
    first and makes the first one found whose top is at or above
    `scrollY + 100` the active one; if none is, the active section stays.

    `window.scrollY` and each section's `offsetTop` (None where
    `getElementById` finds no element) are inputs of the scroll event.
    `scrollY` is a real number (browsers report fractional scroll offsets);
    `offsetTop` is an integer. */
module FloatingNav {
  import opened Util

  const NavIds: seq<string> := ["home", "about", "projects", "contact"]
  const VisibleAfter: real := 100.0
  const ScrollLineOffset: real := 100.0

  /** A section qualifies when its element exists and its top is at or
      above the scroll line. */
  predicate Qualifies(offset: Option<int>, scrollPos: real): (b: bool)
    ensures b ==> offset.Some?
  {
    offset.Some? && offset.value as real <= scrollPos
  }

  /** The highest index whose section qualifies, if any. */
  function LastQualifying(offsets: seq<Option<int>>, scrollPos: real): (r: Option<nat>)
    ensures r.Some? ==> r.value < |offsets| && Qualifies(offsets[r.value], scrollPos)
    ensures r.Some? ==> forall j :: r.value < j < |offsets| ==> !Qualifies(offsets[j], scrollPos)
    ensures r.None? ==> forall j :: 0 <= j < |offsets| ==> !Qualifies(offsets[j], scrollPos)
    decreases |offsets|
  {
    if offsets == [] then None
    else if Qualifies(offsets[|offsets| - 1], scrollPos) then Some(|offsets| - 1)
    else LastQualifying(offsets[..|offsets| - 1], scrollPos)
  }

  /** The backward `for` loop with `break`. */
  method ScanActive(offsets: seq<Option<int>>, scrollPos: real) returns (found: Option<nat>)
    ensures found == LastQualifying(offsets, scrollPos)
  {
    found := None;
    var i := |offsets| - 1;
    while i >= 0
      invariant -1 <= i < |offsets|
      invariant forall j :: i < j < |offsets| ==> !Qualifies(offsets[j], scrollPos)
      decreases i + 1
    {
      var section := offsets[i];
      if section.Some? && section.value as real <= scrollPos {
        found := Some(i);
        break;
      }
      i := i - 1;
    }
  }

  /** `isVisible` and `activeSection`. */
  datatype State = State(isVisible: bool, activeSection: string)

  const Initial: State := State(false, "home")

  ghost predicate Inv(s: State)
  {
    s.activeSection in NavIds
  }

  /** The effect of one scroll event. */
  function Scroll(s: State, scrollY: real, offsets: seq<Option<int>>): (r: State)
    requires |offsets| == |NavIds|
    ensures r.isVisible <==> scrollY > VisibleAfter
    ensures match LastQualifying(offsets, scrollY + ScrollLineOffset)
      case Some(i) => r.activeSection == NavIds[i]
      case None => r.activeSection == s.activeSection
    ensures Inv(s) ==> Inv(r)
  {
    var active := match LastQualifying(offsets, scrollY + ScrollLineOffset)
      case Some(i) => NavIds[i]
      case None => s.activeSection;
    State(scrollY > VisibleAfter, active)
  }

  /** Scrolling further down never moves the highlight to an earlier
      section: the section found at the lower position still qualifies. */
  lemma {:induction false} ScanMonotone(offsets: seq<Option<int>>, y1: real, y2: real)
    requires y1 <= y2 && LastQualifying(offsets, y1 + ScrollLineOffset).Some?
    ensures LastQualifying(offsets, y2 + ScrollLineOffset).Some?
    ensures LastQualifying(offsets, y1 + ScrollLineOffset).value <= LastQualifying(offsets, y2 + ScrollLineOffset).value
  {
    var i := LastQualifying(offsets, y1 + ScrollLineOffset).value;
    assert Qualifies(offsets[i], y2 + ScrollLineOffset);
  }

  /** The four nav ids are pairwise distinct. */
  lemma NavIdsDistinct()
    ensures forall i, j :: 0 <= i < j < |NavIds| ==> NavIds[i] != NavIds[j]
  {
    assert NavIds[0][0] == 'h' && NavIds[1][0] == 'a' && NavIds[2][0] == 'p' && NavIds[3][0] == 'c';
  }

  /** `isActive` of each button, in nav order. */
  function ActiveFlags(s: State): (flags: seq<bool>)
    ensures |flags| == |NavIds|
    ensures forall i :: 0 <= i < |NavIds| ==> (flags[i] <==> NavIds[i] == s.activeSection)
  {
    seq(|NavIds|, i requires 0 <= i < |NavIds| => s.activeSection == NavIds[i])
  }

  /** In a reachable state exactly one button is marked active. */
  lemma ExactlyOneActive(s: State)
    requires Inv(s)
    ensures exists i :: 0 <= i < |NavIds| && ActiveFlags(s)[i]
    ensures forall i, j :: 0 <= i < |NavIds| && 0 <= j < |NavIds| && ActiveFlags(s)[i] && ActiveFlags(s)[j] ==> i == j
  {
    NavIdsDistinct();
    var i :| 0 <= i < |NavIds| && NavIds[i] == s.activeSection;
    assert ActiveFlags(s)[i];
  }

  /** The mounted component. */
  class Nav {
    var isVisible: bool
    var activeSection: string

    function Snapshot(): State
      reads this
    {
      State(isVisible, activeSection)
    }

    ghost predicate Valid()
      reads this
    {
      Inv(Snapshot())
    }

    constructor ()
      ensures Snapshot() == Initial && Valid()
    {
      isVisible, activeSection := false, "home";
    }

    method HandleScroll(scrollY: real, offsets: seq<Option<int>>)
      requires Valid() && |offsets| == |NavIds|
      modifies this
      ensures Valid() && Snapshot() == Scroll(old(Snapshot()), scrollY, offsets)
    {
      isVisible := scrollY > VisibleAfter;
      var found := ScanActive(offsets, scrollY + ScrollLineOffset);
      if found.Some? {
        activeSection := NavIds[found.value];
      }
    }
  }
}
