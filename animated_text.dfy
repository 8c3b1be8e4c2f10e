/** The AnimatedText reveal: once its element is seen in the viewport it waits
    `delay` seconds, then an interval shows `text.slice(0, currentIndex)` and
    bumps `currentIndex`, one tick every 1000 / speed ms; the tick after the
    whole text was shown stops the interval and marks the reveal complete. The
    blinking cursor is switched on at the start and, unless it is kept, off
    again 1000 ms after completion.

    Timers and the intersection observer are modelled as explicit events: each
    callback that fires is one call. */
module AnimatedText {

  /** The component's props (defaults: delay 0 s, 15 characters per second,
      cursor shown, cursor not kept after completion). */
  datatype Config = Config(
    text: string,
    delay: real,
    speed: real,
    showCursor: bool,
    keepCursorAfterComplete: bool)

  function DefaultConfig(text: string): (c: Config)
    ensures c.text == text && c.delay == 0.0 && c.speed == 15.0
    ensures c.showCursor && !c.keepCursorAfterComplete
  {
    Config(text, 0.0, 15.0, true, false)
  }

  /** Milliseconds between two interval ticks; the source divides by `speed`
      without checking it, so a positive speed is demanded of the caller. */
  function TickPeriodMs(c: Config): (p: real)
    requires c.speed > 0.0
    ensures p > 0.0 && p * c.speed == 1000.0
  {
    1000.0 / c.speed
  }

  /** Which timer owns the reveal: none yet, the start timeout, the character
      interval (with the value of its closure counter), or none any more. */
  datatype Phase = Idle | Waiting | Typing(currentIndex: nat) | Finished

  /** The four React state variables plus the timers that are pending. */
  datatype State = State(
    phase: Phase,
    hasStarted: bool,
    displayText: string,
    isComplete: bool,
    showBlinkingCursor: bool,
    hidePending: bool)

  const Initial: State := State(Idle, false, "", false, false, false)

  /** `p` is a prefix of `s`. */
  predicate IsPrefix(p: string, s: string)
  {
    |p| <= |s| && p == s[..|p|]
  }

  /** What every reachable state satisfies. */
  ghost predicate Inv(c: Config, s: State)
  {
    && IsPrefix(s.displayText, c.text)
    && (s.hasStarted <==> s.phase != Idle)
    && (s.isComplete <==> s.phase == Finished)
    && (s.phase == Idle || s.phase == Waiting ==> s.displayText == "" && !s.showBlinkingCursor)
    && (s.phase.Typing? ==>
          s.phase.currentIndex <= |c.text| + 1 &&
          |s.displayText| == (if s.phase.currentIndex == 0 then 0 else s.phase.currentIndex - 1))
    && (s.isComplete ==> s.displayText == c.text)
    && (s.hidePending ==> s.isComplete && !c.keepCursorAfterComplete && s.showBlinkingCursor)
    && (s.isComplete && c.keepCursorAfterComplete ==> s.showBlinkingCursor)
    && (s.phase.Typing? ==> s.showBlinkingCursor)
  }

  lemma InitialInv(c: Config)
    ensures Inv(c, Initial) && !Initial.hasStarted && CursorRendered(c, Initial) == false
  {
  }

  /** The observer callback for one entry: only an intersecting entry while
      `hasStarted` is false starts the reveal; the latch is never reset. */
  function Intersect(c: Config, s: State, isIntersecting: bool): (r: State)
    ensures r.hasStarted == (s.hasStarted || isIntersecting)
    ensures s.hasStarted || !isIntersecting ==> r == s
    ensures !s.hasStarted && isIntersecting ==> r.phase == Waiting && r.displayText == s.displayText
    ensures Inv(c, s) ==> Inv(c, r)
  {
    if isIntersecting && !s.hasStarted then s.(hasStarted := true, phase := Waiting) else s
  }

  /** The number of reveals one observer batch starts in the source. The
      callback tests the `hasStarted` its closure captured when the effect
      last ran, not the current state: while that captured value is false,
      every intersecting entry delivered before the effect re-runs starts a
      reveal of its own. */
  function BatchStarts(seenStarted: bool, entries: seq<bool>): (n: nat)
    ensures n <= |entries|
    ensures seenStarted ==> n == 0
    ensures !seenStarted && (forall i :: 0 <= i < |entries| ==> entries[i]) ==> n == |entries|
    ensures (forall i :: 0 <= i < |entries| ==> !entries[i]) ==> n == 0
    ensures n == (if seenStarted then 0 else multiset(entries)[true])
    decreases |entries|
  {
    if entries == [] then 0
    else
      assert entries == [entries[0]] + entries[1..];
      (if entries[0] && !seenStarted then 1 else 0) + BatchStarts(seenStarted, entries[1..])
  }

  /** Two intersecting entries seen with the captured flag false start two
      reveals in the source; `Intersect`, which reads the current flag,
      starts one and ignores the second entry. */
  lemma DoubleStart(c: Config)
    ensures BatchStarts(false, [true, true]) == 2
    ensures var s := Intersect(c, Initial, true); s.phase == Waiting && Intersect(c, s, true) == s
  {
  }

  /** The start timeout fires: the cursor turns on and the interval starts
      with its counter at 0. */
  function StartTimer(c: Config, s: State): (r: State)
    requires s.phase == Waiting
    ensures r.phase == Typing(0) && r.showBlinkingCursor
    ensures r.displayText == s.displayText && r.hasStarted == s.hasStarted
    ensures Inv(c, s) ==> Inv(c, r)
  {
    s.(phase := Typing(0), showBlinkingCursor := true)
  }

  /** One interval tick: show the next prefix, or, once the counter is past
      the text, stop and complete (scheduling the cursor hide unless kept). */
  function IntervalTick(c: Config, s: State): (r: State)
    requires s.phase.Typing? && s.phase.currentIndex <= |c.text| + 1
    ensures s.phase.currentIndex <= |c.text| ==>
              r.phase == Typing(s.phase.currentIndex + 1) && r.displayText == c.text[..s.phase.currentIndex]
              && r.isComplete == s.isComplete
    ensures s.phase.currentIndex == |c.text| + 1 ==>
              r.phase == Finished && r.isComplete && r.displayText == s.displayText
              && r.hidePending == !c.keepCursorAfterComplete
    ensures s.phase.currentIndex <= |c.text| ==> r.hidePending == s.hidePending
    ensures r.hasStarted == s.hasStarted && r.showBlinkingCursor == s.showBlinkingCursor
    ensures Inv(c, s) && 0 < s.phase.currentIndex <= |c.text| ==> |r.displayText| == |s.displayText| + 1
    ensures Inv(c, s) ==> Inv(c, r) && IsPrefix(s.displayText, r.displayText)
  {
    var i := s.phase.currentIndex;
    if i <= |c.text| then
      s.(displayText := c.text[..i], phase := Typing(i + 1))
    else
      s.(phase := Finished, isComplete := true, hidePending := !c.keepCursorAfterComplete)
  }

  /** The 1000 ms timeout scheduled at completion fires. */
  function HideTimer(c: Config, s: State): (r: State)
    requires s.hidePending
    ensures !r.showBlinkingCursor && !r.hidePending
    ensures r.displayText == s.displayText && r.isComplete == s.isComplete && r.phase == s.phase
    ensures Inv(c, s) ==> Inv(c, r)
  {
    s.(showBlinkingCursor := false, hidePending := false)
  }

  /** The cursor element is rendered only when both flags are set. */
  function CursorRendered(c: Config, s: State): (b: bool)
    ensures !c.showCursor ==> !b
    ensures b ==> s.showBlinkingCursor
    ensures c.showCursor && s.showBlinkingCursor ==> b
  {
    c.showCursor && s.showBlinkingCursor
  }

  /** Everything that can happen to a mounted instance. */
  datatype Event = Intersection(isIntersecting: bool) | StartTimerFired | IntervalTicked | HideTimerFired

  /** A timer event can only happen while that timer is pending. */
  predicate Enabled(c: Config, s: State, e: Event)
  {
    match e
    case Intersection(_) => true
    case StartTimerFired => s.phase == Waiting
    case IntervalTicked => s.phase.Typing? && s.phase.currentIndex <= |c.text| + 1
    case HideTimerFired => s.hidePending
  }

  function Step(c: Config, s: State, e: Event): (r: State)
    requires Enabled(c, s, e)
    ensures Inv(c, s) ==> Inv(c, r)
  {
    match e
    case Intersection(b) => Intersect(c, s, b)
    case StartTimerFired => StartTimer(c, s)
    case IntervalTicked => IntervalTick(c, s)
    case HideTimerFired => HideTimer(c, s)
  }

  /** Runs a trace of events; an event whose timer is not pending does not
      happen and is skipped. */
  function Run(c: Config, s: State, es: seq<Event>): State
    decreases |es|
  {
    if es == [] then s
    else Run(c, if Enabled(c, s, es[0]) then Step(c, s, es[0]) else s, es[1..])
  }

  /** Runs `n` interval ticks (or fewer, if the interval stops). */
  function Ticks(c: Config, s: State, n: nat): State
    decreases n
  {
    if n == 0 || !(s.phase.Typing? && s.phase.currentIndex <= |c.text| + 1) then s
    else Ticks(c, IntervalTick(c, s), n - 1)
  }

  /** From the interval with counter k, n more ticks show the prefix of
      length k + n - 1 (0 at the very first tick), and tick |text| + 2 overall
      completes with the whole text shown. */
  lemma {:induction false} TicksFrom(c: Config, s: State, n: nat)
    requires Inv(c, s) && s.phase.Typing?
    ensures var k := s.phase.currentIndex; var r := Ticks(c, s, n);
      && Inv(c, r)
      && (k + n <= |c.text| + 1 ==>
            r.phase == Typing(k + n) && !r.isComplete &&
            r.displayText == c.text[..if k + n == 0 then 0 else k + n - 1])
      && (k + n > |c.text| + 1 ==> r.phase == Finished && r.isComplete && r.displayText == c.text)
    decreases n
  {
    var k := s.phase.currentIndex;
    if n == 0 {
      assert s.displayText == c.text[..|s.displayText|];
    } else {
      var s' := IntervalTick(c, s);
      if s'.phase.Typing? {
        TicksFrom(c, s', n - 1);
      } else {
        assert s'.phase == Finished;
        assert Ticks(c, s, n) == Ticks(c, s', n - 1) == s';
      }
    }
  }

  /** The whole reveal from a fresh mount: after the first intersection and
      the start timeout, tick t (1 <= t <= |text| + 1) shows text[..t-1], so
      the shown length grows by exactly one per tick after the first, and tick
      |text| + 2 completes with displayText == text. */
  lemma RevealSchedule(c: Config, t: nat)
    ensures var s0 := StartTimer(c, Intersect(c, Initial, true)); var r := Ticks(c, s0, t);
      && (1 <= t <= |c.text| + 1 ==> r.displayText == c.text[..t - 1] && !r.isComplete)
      && (t >= |c.text| + 2 ==> r.isComplete && r.displayText == c.text)
  {
    var s0 := StartTimer(c, Intersect(c, Initial, true));
    assert Inv(c, s0);
    TicksFrom(c, s0, t);
  }

  /** A trace with no intersecting entry leaves the component untouched: the
      reveal never starts before the element has been seen. */
  lemma {:induction false} NoRevealBeforeIntersection(c: Config, es: seq<Event>)
    requires forall i :: 0 <= i < |es| ==> es[i] != Intersection(true)
    ensures Run(c, Initial, es) == Initial
    decreases |es|
  {
    if es != [] {
      assert Enabled(c, Initial, es[0]) ==> Step(c, Initial, es[0]) == Initial;
      NoRevealBeforeIntersection(c, es[1..]);
    }
  }

  /** Once started, nothing in any trace of the model resets the latch or
      shortens the shown text. (The source can start a second reveal from
      an entry seen before its effect re-runs; see BatchStarts.) */
  lemma {:induction false} RestartProof(c: Config, s: State, es: seq<Event>)
    requires Inv(c, s) && s.hasStarted
    ensures var r := Run(c, s, es); Inv(c, r) && r.hasStarted && IsPrefix(s.displayText, r.displayText)
    decreases |es|
  {
    if es != [] {
      var s' := if Enabled(c, s, es[0]) then Step(c, s, es[0]) else s;
      assert IsPrefix(s.displayText, s'.displayText);
      RestartProof(c, s', es[1..]);
    }
  }

  /** Completion is final: the text stays the whole text, and with
      keepCursorAfterComplete the cursor stays rendered for ever. */
  lemma {:induction false} CompleteIsFinal(c: Config, s: State, es: seq<Event>)
    requires Inv(c, s) && s.isComplete
    ensures var r := Run(c, s, es);
      && r.isComplete && r.displayText == c.text
      && (c.keepCursorAfterComplete ==> r.showBlinkingCursor)
      && (c.showCursor && c.keepCursorAfterComplete ==> CursorRendered(c, r))
    decreases |es|
  {
    if es != [] {
      var s' := if Enabled(c, s, es[0]) then Step(c, s, es[0]) else s;
      CompleteIsFinal(c, s', es[1..]);
    }
  }

  /** Without keepCursorAfterComplete, the hide timeout scheduled at
      completion turns the cursor off. */
  lemma CursorHiddenAfterComplete(c: Config, s: State)
    requires Inv(c, s) && s.phase == Typing(|c.text| + 1) && !c.keepCursorAfterComplete
    ensures var done := IntervalTick(c, s);
      done.isComplete && done.hidePending && !CursorRendered(c, HideTimer(c, done))
  {
  }

  /** The mounted component: its React state and the timers it has pending. */
  class Animator {
    const config: Config
    var phase: Phase
    var hasStarted: bool
    var displayText: string
    var isComplete: bool
    var showBlinkingCursor: bool
    var hidePending: bool

    function Snapshot(): State
      reads this
    {
      State(phase, hasStarted, displayText, isComplete, showBlinkingCursor, hidePending)
    }

    ghost predicate Valid()
      reads this
    {
      config.speed > 0.0 && Inv(config, Snapshot())
    }

    constructor (c: Config)
      requires c.speed > 0.0
      ensures config == c && Snapshot() == Initial && Valid()
    {
      config := c;
      phase, hasStarted, displayText := Idle, false, "";
      isComplete, showBlinkingCursor, hidePending := false, false, false;
    }

    method OnIntersection(isIntersecting: bool)
      requires Valid()
      modifies this
      ensures Valid() && Snapshot() == Intersect(config, old(Snapshot()), isIntersecting)
    {
      if isIntersecting && !hasStarted {
        hasStarted := true;
        phase := Waiting;
      }
    }

    method OnStartTimer()
      requires Valid() && phase == Waiting
      modifies this
      ensures Valid() && Snapshot() == StartTimer(config, old(Snapshot()))
    {
      showBlinkingCursor := true;
      phase := Typing(0);
    }

    method OnIntervalTick()
      requires Valid() && phase.Typing?
      modifies this
      ensures Valid() && Snapshot() == IntervalTick(config, old(Snapshot()))
    {
      var currentIndex := phase.currentIndex;
      if currentIndex <= |config.text| {
        displayText := config.text[..currentIndex];
        phase := Typing(currentIndex + 1);
      } else {
        phase := Finished;
        isComplete := true;
        if !config.keepCursorAfterComplete {
          hidePending := true;
        }
      }
    }

    method OnHideTimer()
      requires Valid() && hidePending
      modifies this
      ensures Valid() && Snapshot() == HideTimer(config, old(Snapshot()))
    {
      showBlinkingCursor := false;
      hidePending := false;
    }
  }
}
