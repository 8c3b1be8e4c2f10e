/** The AlternatingText rotator: hidden (the first text at opacity 0) until a
    `delay` timeout sets `isVisible`; from then on an interval replaces
    `currentTextIndex` by `(prev + 1) % texts.length` every `switchInterval`
    ms and the current text is shown. */
module AlternatingText {
  import opened Util

  /** Props; the defaults are no delay and 3000 ms between switches. */
  datatype Config = Config(texts: seq<string>, delay: nat, switchInterval: nat)

  function DefaultConfig(texts: seq<string>): (c: Config)
    ensures c.texts == texts && c.delay == 0 && c.switchInterval == 3000
  {
    Config(texts, 0, 3000)
  }

  datatype State = State(currentTextIndex: nat, isVisible: bool)

  const Initial: State := State(0, false)

  /** The interval's update `(prev + 1) % n`. */
  function Next(prev: nat, n: nat): (r: nat)
    requires n > 0
    ensures r < n
    ensures prev < n ==> r == (if prev == n - 1 then 0 else prev + 1)
  {
    (prev + 1) % n
  }

  /** The delay timeout fires. */
  function Reveal(s: State): (r: State)
    ensures r.isVisible && r.currentTextIndex == s.currentTextIndex
  {
    s.(isVisible := true)
  }

  /** One switch interval tick; the interval only exists while visible. */
  function Switch(c: Config, s: State): (r: State)
    requires |c.texts| > 0
    ensures !s.isVisible ==> r == s
    ensures s.isVisible ==> r.isVisible && r.currentTextIndex == Next(s.currentTextIndex, |c.texts|)
    ensures s.currentTextIndex < |c.texts| ==> r.currentTextIndex < |c.texts|
  {
    if s.isVisible then s.(currentTextIndex := Next(s.currentTextIndex, |c.texts|)) else s
  }

  function Switches(c: Config, s: State, k: nat): State
    requires |c.texts| > 0
    decreases k
  {
    if k == 0 then s else Switches(c, Switch(c, s), k - 1)
  }

  /** While visible, k switches move the index k steps round the cycle. */
  lemma {:induction false} SwitchesAdvance(c: Config, s: State, k: nat)
    requires |c.texts| > 0 && s.isVisible && s.currentTextIndex < |c.texts|
    ensures Switches(c, s, k) == State((s.currentTextIndex + k) % |c.texts|, true)
    decreases k
  {
    if k > 0 {
      var n := |c.texts|;
      var s' := Switch(c, s);
      SwitchesAdvance(c, s', k - 1);
      if s.currentTextIndex == n - 1 {
        ModAddPeriod(k - 1, n);
      }
    }
  }

  /** A full cycle of |texts| switches returns to the starting text. */
  lemma FullCycle(c: Config, s: State)
    requires |c.texts| > 0 && s.isVisible && s.currentTextIndex < |c.texts|
    ensures Switches(c, s, |c.texts|) == s
  {
    SwitchesAdvance(c, s, |c.texts|);
    ModAddPeriod(s.currentTextIndex, |c.texts|);
    DivModUnique(s.currentTextIndex, |c.texts|, 0, s.currentTextIndex);
  }

  /** Before the delay timeout nothing switches. */
  lemma {:induction false} NoSwitchWhileHidden(c: Config, s: State, k: nat)
    requires |c.texts| > 0 && !s.isVisible
    ensures Switches(c, s, k) == s
    decreases k
  {
    if k > 0 {
      NoSwitchWhileHidden(c, Switch(c, s), k - 1);
    }
  }

  /** What is rendered: the text and its opacity (0 while hidden, when the
      first text is used, and 1 afterwards). */
  datatype Rendered = Rendered(text: string, opacity: nat)

  function Render(c: Config, s: State): (r: Rendered)
    requires |c.texts| > 0 && s.currentTextIndex < |c.texts|
    ensures !s.isVisible ==> r == Rendered(c.texts[0], 0)
    ensures s.isVisible ==> r == Rendered(c.texts[s.currentTextIndex], 1) && r.text in c.texts
  {
    if !s.isVisible then Rendered(c.texts[0], 0) else Rendered(c.texts[s.currentTextIndex], 1)
  }

  /** The mounted component. */
  class Rotator {
    const config: Config
    var currentTextIndex: nat
    var isVisible: bool

    function Snapshot(): State
      reads this
    {
      State(currentTextIndex, isVisible)
    }

    ghost predicate Valid()
      reads this
    {
      |config.texts| > 0 && currentTextIndex < |config.texts|
    }

    constructor (c: Config)
      requires |c.texts| > 0
      ensures config == c && Snapshot() == Initial && Valid()
    {
      config := c;
      currentTextIndex, isVisible := 0, false;
    }

    method OnDelayTimeout()
      requires Valid()
      modifies this
      ensures Valid() && Snapshot() == Reveal(old(Snapshot()))
    {
      isVisible := true;
    }

    method OnSwitchInterval()
      requires Valid()
      modifies this
      ensures Valid() && Snapshot() == Switch(config, old(Snapshot()))
    {
      if !isVisible {
        return;
      }
      currentTextIndex := (currentTextIndex + 1) % |config.texts|;
    }
  }
}
