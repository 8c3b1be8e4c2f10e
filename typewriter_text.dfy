/** The TypewriterText component: after a `startDelay` timeout sets
    `hasStarted`, an effect schedules one `speed`-ms timeout per character;
    each appends `text[currentIndex]` to `displayedText` and bumps
    `currentIndex`, until the whole text is shown. The cursor is rendered
    whenever `showCursor` is set, whatever the progress. */
module TypewriterText {
  import opened Util

  /** Props; the defaults are 50 ms per character, cursor shown, no delay. */
  datatype Config = Config(text: string, speed: nat, showCursor: bool, startDelay: nat)

  function DefaultConfig(text: string): (c: Config)
    ensures c.text == text && c.speed == 50 && c.showCursor && c.startDelay == 0
  {
    Config(text, 50, true, 0)
  }

  datatype State = State(displayedText: string, currentIndex: nat, hasStarted: bool)

  const Initial: State := State("", 0, false)

  ghost predicate Inv(c: Config, s: State)
  {
    s.currentIndex <= |c.text| && s.displayedText == c.text[..s.currentIndex]
  }

  /** The startDelay timeout fires. */
  function Start(s: State): (r: State)
    ensures r.hasStarted
    ensures r.displayedText == s.displayedText && r.currentIndex == s.currentIndex
  {
    s.(hasStarted := true)
  }

  /** A per-character timeout is pending exactly when the effect scheduled
      one: the reveal has started and text is left to show. */
  predicate StepScheduled(c: Config, s: State)
  {
    s.hasStarted && s.currentIndex < |c.text|
  }

  /** One per-character timeout: append text[currentIndex] and advance.
      With no timeout pending nothing happens. */
  function Step(c: Config, s: State): (r: State)
    ensures !s.hasStarted ==> r == s
    ensures s.currentIndex >= |c.text| ==> r == s
    ensures StepScheduled(c, s) ==>
              r.displayedText == s.displayedText + [c.text[s.currentIndex]] &&
              r.currentIndex == s.currentIndex + 1 && r.hasStarted
    ensures Inv(c, s) ==> Inv(c, r)
  {
    if StepScheduled(c, s) then
      s.(displayedText := s.displayedText + [c.text[s.currentIndex]], currentIndex := s.currentIndex + 1)
    else s
  }

  /** The cursor does not depend on the progress at all. */
  function CursorRendered(c: Config, s: State): (b: bool)
    ensures b == c.showCursor
  {
    c.showCursor
  }

  function Steps(c: Config, s: State, n: nat): State
    decreases n
  {
    if n == 0 then s else Steps(c, Step(c, s), n - 1)
  }

  /** After the start, n timeouts show exactly the first min(n, |text|)
      characters; the invariant holds throughout. */
  lemma {:induction false} StepsFrom(c: Config, s: State, n: nat)
    requires Inv(c, s) && s.hasStarted
    ensures var r := Steps(c, s, n);
      && Inv(c, r) && r.hasStarted
      && r.currentIndex == Min(s.currentIndex + n, |c.text|)
      && r.displayedText == c.text[..Min(s.currentIndex + n, |c.text|)]
    decreases n
  {
    if n > 0 {
      StepsFrom(c, Step(c, s), n - 1);
    }
  }

  /** From mount: the start timeout and then n character timeouts reveal the
      prefix of length min(n, |text|). */
  lemma Reveal(c: Config, n: nat)
    ensures Steps(c, Start(Initial), n).displayedText == c.text[..Min(n, |c.text|)]
  {
    StepsFrom(c, Start(Initial), n);
  }

  /** Before the start timeout nothing is ever appended. */
  lemma {:induction false} NothingBeforeStart(c: Config, s: State, n: nat)
    requires !s.hasStarted
    ensures Steps(c, s, n) == s
    decreases n
  {
    if n > 0 {
      NothingBeforeStart(c, Step(c, s), n - 1);
    }
  }

  /** With the whole text shown no timeout is scheduled: the state is final. */
  lemma {:induction false} FinalState(c: Config, s: State, n: nat)
    requires s.currentIndex == |c.text|
    ensures !StepScheduled(c, s) && Steps(c, s, n) == s
    decreases n
  {
    if n > 0 {
      FinalState(c, Step(c, s), n - 1);
    }
  }

  /** The mounted component. */
  class Typewriter {
    const config: Config
    var displayedText: string
    var currentIndex: nat
    var hasStarted: bool

    function Snapshot(): State
      reads this
    {
      State(displayedText, currentIndex, hasStarted)
    }

    ghost predicate Valid()
      reads this
    {
      Inv(config, Snapshot())
    }

    constructor (c: Config)
      ensures config == c && Snapshot() == Initial && Valid()
    {
      config := c;
      displayedText, currentIndex, hasStarted := "", 0, false;
    }

    method OnStartTimer()
      requires Valid()
      modifies this
      ensures Valid() && Snapshot() == Start(old(Snapshot()))
    {
      hasStarted := true;
    }

    method OnStepTimer()
      requires Valid()
      modifies this
      ensures Valid() && Snapshot() == Step(config, old(Snapshot()))
    {
      if !hasStarted {
        return;
      }
      if currentIndex < |config.text| {
        displayedText := displayedText + [config.text[currentIndex]];
        currentIndex := currentIndex + 1;
      }
    }
  }
}
