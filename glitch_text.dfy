/** The GlitchText effect: `triggerGlitch` (ignored while a glitch runs)
    starts a 50 ms interval; each tick maps every character of the shown
    text, with probability 0.3, to a random character of `glitchChars` and
    otherwise back to the original character; after 10 ticks the original
    text is restored and the glitch ends.

    `Math.random()` is an input: for each character a `Roll` holds the two
    numbers in [0, 1) that the tick draws for it. */
module GlitchText {

  const GlitchChars: string := "!@#$%^&*()_+-=[]{}|;:,.<>?"
  const MaxIterations: nat := 10
  const GlitchProbability: real := 0.3
  const TickMs: nat := 50

  /** The two draws of `Math.random()` made for one character: `chance`
      decides whether it glitches, `pick` which glitch character it gets. */
  datatype Roll = Roll(chance: real, pick: real)

  predicate IsRandom(r: real)
  {
    0.0 <= r < 1.0
  }

  predicate ValidRolls(rolls: seq<Roll>)
  {
    forall i :: 0 <= i < |rolls| ==> IsRandom(rolls[i].chance) && IsRandom(rolls[i].pick)
  }

  /** `Math.floor(r * glitchChars.length)`: always a valid index. */
  function PickIndex(r: real): (k: int)
    requires IsRandom(r)
    ensures 0 <= k < |GlitchChars|
  {
    assert |GlitchChars| == 26;
    (r * 26.0).Floor
  }

  /** What position `index` of the shown text becomes in one tick: a glitch
      character, or `text[index] || char` (the original character, or the
      current one where the original text is shorter). */
  function ScrambleChar(text: string, prev: string, index: nat, roll: Roll): (ch: char)
    requires index < |prev| && IsRandom(roll.pick)
    ensures roll.chance < GlitchProbability ==> ch in GlitchChars
    ensures roll.chance >= GlitchProbability ==> ch == (if index < |text| then text[index] else prev[index])
  {
    if roll.chance < GlitchProbability then GlitchChars[PickIndex(roll.pick)]
    else if index < |text| then text[index]
    else prev[index]
  }

  /** `prev.split('').map(...).join('')`. */
  function Scramble(text: string, prev: string, rolls: seq<Roll>): (r: string)
    requires |rolls| == |prev| && ValidRolls(rolls)
    ensures |r| == |prev|
    ensures forall i :: 0 <= i < |r| ==>
              r[i] in GlitchChars || r[i] == (if i < |text| then text[i] else prev[i])
  {
    seq(|prev|, i requires 0 <= i < |prev| => ScrambleChar(text, prev, i, rolls[i]))
  }

  /** The component state plus the interval's closure counter. */
  datatype State = State(glitchText: string, isGlitching: bool, iterations: nat, running: bool)

  function Mount(text: string): (s: State)
    ensures s.glitchText == text && !s.isGlitching && !s.running
  {
    State(text, false, 0, false)
  }

  ghost predicate Inv(text: string, s: State)
  {
    && |s.glitchText| == |text|
    && (s.running <==> s.isGlitching)
    && (s.running ==> s.iterations < MaxIterations)
    && (!s.isGlitching ==> s.glitchText == text)
  }

  /** `triggerGlitch`: a no-op while a glitch runs, otherwise starts one. */
  function Trigger(s: State): (r: State)
    ensures s.isGlitching ==> r == s
    ensures !s.isGlitching ==> r.isGlitching && r.running && r.iterations == 0 && r.glitchText == s.glitchText
  {
    if s.isGlitching then s else s.(isGlitching := true, iterations := 0, running := true)
  }

  /** One 50 ms tick of the glitch interval. */
  function Tick(text: string, s: State, rolls: seq<Roll>): (r: State)
    requires s.running && |rolls| == |s.glitchText| && ValidRolls(rolls)
    ensures r.iterations == s.iterations + 1
    ensures r.iterations >= MaxIterations ==> r.glitchText == text && !r.isGlitching && !r.running
    ensures r.iterations < MaxIterations ==> r.glitchText == Scramble(text, s.glitchText, rolls) && r.running == s.running
    ensures |r.glitchText| == |s.glitchText| || r.glitchText == text
    ensures Inv(text, s) ==> Inv(text, r)
  {
    var scrambled := Scramble(text, s.glitchText, rolls);
    var iterations := s.iterations + 1;
    if iterations >= MaxIterations then State(text, false, iterations, false)
    else s.(glitchText := scrambled, iterations := iterations)
  }

  /** A list of per-tick draws fits the text. */
  predicate ValidDraws(text: string, draws: seq<seq<Roll>>)
  {
    forall j :: 0 <= j < |draws| ==> |draws[j]| == |text| && ValidRolls(draws[j])
  }

  /** Runs the interval over the given draws, one tick each, until it stops. */
  function Ticks(text: string, s: State, draws: seq<seq<Roll>>): State
    requires Inv(text, s) && ValidDraws(text, draws)
    decreases |draws|
  {
    if draws == [] || !s.running then s
    else Ticks(text, Tick(text, s, draws[0]), draws[1..])
  }

  /** A triggered glitch keeps the text's length for its first nine ticks
      and, after exactly ten, shows the original text again and is over. */
  lemma {:induction false} GlitchRun(text: string, s: State, draws: seq<seq<Roll>>)
    requires Inv(text, s) && s.running && ValidDraws(text, draws)
    ensures var r := Ticks(text, s, draws);
      && Inv(text, r)
      && (s.iterations + |draws| < MaxIterations ==> r.isGlitching && r.iterations == s.iterations + |draws|)
      && (s.iterations + |draws| >= MaxIterations ==> r.glitchText == text && !r.isGlitching)
    decreases |draws|
  {
    if draws != [] {
      var s' := Tick(text, s, draws[0]);
      if s'.running {
        GlitchRun(text, s', draws[1..]);
      } else {
        assert Ticks(text, s, draws) == s';
      }
    }
  }

  /** From a fresh trigger, ten ticks restore the text whatever is drawn. */
  lemma TenTicksRestore(text: string, draws: seq<seq<Roll>>)
    requires |draws| == MaxIterations && ValidDraws(text, draws)
    ensures var r := Ticks(text, Trigger(Mount(text)), draws); r.glitchText == text && !r.isGlitching
  {
    GlitchRun(text, Trigger(Mount(text)), draws);
  }

  /** The mounted component. */
  class Glitcher {
    const text: string
    var glitchText: string
    var isGlitching: bool
    var iterations: nat
    var running: bool

    function Snapshot(): State
      reads this
    {
      State(glitchText, isGlitching, iterations, running)
    }

    ghost predicate Valid()
      reads this
    {
      Inv(text, Snapshot())
    }

    constructor (t: string)
      ensures text == t && Snapshot() == Mount(t) && Valid()
    {
      text := t;
      glitchText, isGlitching, iterations, running := t, false, 0, false;
    }

    method TriggerGlitch()
      requires Valid()
      modifies this
      ensures Valid() && Snapshot() == Trigger(old(Snapshot()))
    {
      if isGlitching {
        return;
      }
      isGlitching := true;
      iterations := 0;
      running := true;
    }

    method OnIntervalTick(rolls: seq<Roll>)
      requires Valid() && running && |rolls| == |glitchText| && ValidRolls(rolls)
      modifies this
      ensures Valid() && Snapshot() == Tick(text, old(Snapshot()), rolls)
    {
      glitchText := Scramble(text, glitchText, rolls);
      iterations := iterations + 1;
      if iterations >= MaxIterations {
        running := false;
        glitchText := text;
        isGlitching := false;
      }
    }
  }
}
