/** HoverInfo: a tooltip that follows the mouse and, at most once every
    2500 ms, shows a random one of eight personal facts, clearing it again
    2000 ms later. Over the design-arsenal area the tooltip is cleared and
    nothing is rendered.

    The pointer position, whether the element under it lies in the arsenal,
    `Date.now()` and `Math.random()` are inputs of each mouse-move event. */
module HoverInfo {
  import opened Util

  const ThrottleMs: int := 2500
  const HideAfterMs: int := 2000
  const TooltipWidth: int := 250
  const TooltipHeight: int := 80

  datatype InfoItem = InfoItem(id: string, content: string)

  const PersonalInfo: seq<InfoItem> := [
    InfoItem("figma", "Figma power user"),
    InfoItem("coffee", "Coffee lover ☕"),
    InfoItem("ui", "Designed 50+ UI screens for mobile apps"),
    InfoItem("research", "User research enthusiast"),
    InfoItem("social", "Social media strategist"),
    InfoItem("music", "Bollywood music while designing"),
    InfoItem("canva", "Canva pro for quick mockups"),
    InfoItem("pizza", "Pizza lover")
  ]

  /** `Math.floor(r * personalInfo.length)` for r = Math.random(). */
  function PickIndex(r: real): (k: int)
    requires 0.0 <= r < 1.0
    ensures 0 <= k < |PersonalInfo| && |PersonalInfo| == 8
  {
    (r * 8.0).Floor
  }

  /** `currentInfo` (an index into PersonalInfo), `lastShowTime`,
      `isInArsenal`, and the due times of the pending hide timeouts. */
  datatype State = State(currentInfo: Option<nat>, lastShowTime: int, isInArsenal: bool, hides: seq<int>)

  const Initial: State := State(None, 0, false, [])

  ghost predicate Inv(s: State)
  {
    && (s.currentInfo.Some? ==> s.currentInfo.value < |PersonalInfo|)
    && (forall i :: 0 <= i < |s.hides| ==> s.hides[i] <= s.lastShowTime + HideAfterMs)
  }

  /** The throttle effect, run with the `isInArsenal` of the current render. */
  function Effect(s: State, now: int, r: real): (t: State)
    requires 0.0 <= r < 1.0
    ensures s.isInArsenal ==> t == s.(currentInfo := None)
    ensures !s.isInArsenal && now - s.lastShowTime > ThrottleMs ==>
              t == s.(currentInfo := Some(PickIndex(r)), lastShowTime := now, hides := s.hides + [now + HideAfterMs])
    ensures !s.isInArsenal && now - s.lastShowTime <= ThrottleMs ==> t == s
    ensures Inv(s) ==> Inv(t)
  {
    if s.isInArsenal then s.(currentInfo := None)
    else if now - s.lastShowTime > ThrottleMs then
      s.(currentInfo := Some(PickIndex(r)), lastShowTime := now, hides := s.hides + [now + HideAfterMs])
    else s
  }

  /** A mouse move. The effect first runs with the arsenal flag of the
      previous render; when the flag changes, the re-render runs it again
      with the new one. */
  function Move(s: State, inArsenal: bool, now: int, r: real): (t: State)
    requires 0.0 <= r < 1.0
    ensures t.isInArsenal == inArsenal
    ensures inArsenal ==> t.currentInfo == None
    ensures s.isInArsenal && inArsenal ==> t.lastShowTime == s.lastShowTime
    ensures t.lastShowTime != s.lastShowTime ==> t.lastShowTime == now && now - s.lastShowTime > ThrottleMs
    ensures Inv(s) ==> Inv(t)
  {
    var first := Effect(s, now, r);
    if inArsenal == s.isInArsenal then first else Effect(first.(isInArsenal := inArsenal), now, r)
  }

  /** On mount both effects run as on a move, from lastShowTime 0: outside
      the arsenal an item is shown at once (the clock is far past 2500). */
  function Mount(inArsenal: bool, now: int, r: real): (t: State)
    requires 0.0 <= r < 1.0
    ensures !inArsenal && now > ThrottleMs ==>
      t.currentInfo == Some(PickIndex(r)) && t.lastShowTime == now && t.hides == [now + HideAfterMs]
    ensures inArsenal ==> t.currentInfo == None
    ensures Inv(t)
  {
    Move(Initial, inArsenal, now, r)
  }

  /** The oldest hide timeout fires and clears the tooltip. */
  function Hide(s: State): (t: State)
    requires s.hides != []
    ensures t.currentInfo == None && t.hides == s.hides[1..]
    ensures t.lastShowTime == s.lastShowTime && t.isInArsenal == s.isInArsenal
    ensures Inv(s) ==> Inv(t)
  {
    s.(currentInfo := None, hides := s.hides[1..])
  }

  datatype Event = MouseMoved(inArsenal: bool, now: int, r: real) | HideFired

  predicate ValidEvent(e: Event)
  {
    e.MouseMoved? ==> 0.0 <= e.r < 1.0
  }

  function Step(s: State, e: Event): State
    requires ValidEvent(e)
  {
    match e
    case MouseMoved(a, now, r) => Move(s, a, now, r)
    case HideFired => if s.hides == [] then s else Hide(s)
  }

  /** The times at which a tooltip is shown along a trace of events: the
      steps that change lastShowTime. */
  function ShowTimes(s: State, es: seq<Event>): seq<int>
    requires forall i :: 0 <= i < |es| ==> ValidEvent(es[i])
    decreases |es|
  {
    if es == [] then []
    else
      var t := Step(s, es[0]);
      (if t.lastShowTime != s.lastShowTime then [t.lastShowTime] else []) + ShowTimes(t, es[1..])
  }

  /** Whatever the clock does, each show is more than 2500 ms after the
      previous one (the first, after the starting lastShowTime). */
  lemma {:induction false} ShowsAreThrottled(s: State, es: seq<Event>)
    requires forall i :: 0 <= i < |es| ==> ValidEvent(es[i])
    ensures var ts := ShowTimes(s, es);
      && (ts != [] ==> ts[0] - s.lastShowTime > ThrottleMs)
      && (forall i :: 0 <= i < |ts| - 1 ==> ts[i + 1] - ts[i] > ThrottleMs)
    decreases |es|
  {
    if es != [] {
      var t := Step(s, es[0]);
      ShowsAreThrottled(t, es[1..]);
      var rest := ShowTimes(t, es[1..]);
      if t.lastShowTime != s.lastShowTime {
        var ts := [t.lastShowTime] + rest;
        assert ShowTimes(s, es) == ts;
        forall i | 0 <= i < |ts| - 1 ensures ts[i + 1] - ts[i] > ThrottleMs {
          if i > 0 {
            assert ts[i] == rest[i - 1] && ts[i + 1] == rest[i];
          }
        }
      } else {
        assert ShowTimes(s, es) == rest;
      }
    }
  }

  /** Entering the arsenal right when the throttle allows a show: the effect
      of the stale render shows an item and moves lastShowTime, the re-render
      clears it, so the arsenal visit uses up the 2500 ms window. */
  lemma EnteringArsenalUsesWindow()
    ensures var s := State(None, 0, false, []); var t := Move(s, true, 3000, 0.5);
      t.currentInfo == None && t.lastShowTime == 3000
  {
  }

  /** What is drawn: nothing in the arsenal or with no item; otherwise the
      item at `left = min(x + 20, innerWidth - 250)`,
      `top = min(y - 10, innerHeight - 80)`. */
  datatype Tooltip = Tooltip(item: InfoItem, left: int, top: int)

  function Render(s: State, x: int, y: int, innerWidth: int, innerHeight: int): (t: Option<Tooltip>)
    requires Inv(s)
    ensures s.isInArsenal || s.currentInfo == None ==> t == None
    ensures t.Some? ==> t.value.item in PersonalInfo
    ensures t.Some? ==> t.value.left <= innerWidth - TooltipWidth && t.value.top <= innerHeight - TooltipHeight
    ensures t.Some? ==> t.value.left <= x + 20 && t.value.top <= y - 10
    ensures t.Some? ==> (t.value.left == x + 20 || t.value.left == innerWidth - TooltipWidth)
    ensures !s.isInArsenal && s.currentInfo.Some? ==>
      t == Some(Tooltip(PersonalInfo[s.currentInfo.value], Min(x + 20, innerWidth - TooltipWidth), Min(y - 10, innerHeight - TooltipHeight)))
  {
    if s.isInArsenal then None
    else match s.currentInfo
      case None => None
      case Some(k) => Some(Tooltip(PersonalInfo[k], Min(x + 20, innerWidth - TooltipWidth), Min(y - 10, innerHeight - TooltipHeight)))
  }

  /** The mounted component. */
  class Tooltips {
    var currentInfo: Option<nat>
    var lastShowTime: int
    var isInArsenal: bool
    var hides: seq<int>

    function Snapshot(): State
      reads this
    {
      State(currentInfo, lastShowTime, isInArsenal, hides)
    }

    ghost predicate Valid()
      reads this
    {
      Inv(Snapshot())
    }

    constructor (inArsenal: bool, now: int, r: real)
      requires 0.0 <= r < 1.0
      ensures Snapshot() == Mount(inArsenal, now, r) && Valid()
    {
      currentInfo, lastShowTime, isInArsenal, hides := None, 0, false, [];
      new;
      OnMouseMove(inArsenal, now, r);
    }

    method RunEffect(now: int, r: real)
      requires 0.0 <= r < 1.0 && Valid()
      modifies this
      ensures Valid() && Snapshot() == Effect(old(Snapshot()), now, r)
    {
      if isInArsenal {
        currentInfo := None;
        return;
      }
      if now - lastShowTime > ThrottleMs {
        currentInfo := Some(PickIndex(r));
        lastShowTime := now;
        hides := hides + [now + HideAfterMs];
      }
    }

    method OnMouseMove(inArsenal: bool, now: int, r: real)
      requires 0.0 <= r < 1.0 && Valid()
      modifies this
      ensures Valid() && Snapshot() == Move(old(Snapshot()), inArsenal, now, r)
    {
      var changed := inArsenal != isInArsenal;
      RunEffect(now, r);
      if changed {
        isInArsenal := inArsenal;
        RunEffect(now, r);
      }
    }

    method OnHideTimeout()
      requires Valid() && hides != []
      modifies this
      ensures Valid() && Snapshot() == Hide(old(Snapshot()))
    {
      currentInfo := None;
      hides := hides[1..];
    }
  }
}
