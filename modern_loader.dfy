/** Two of the page loaders. ModernLoader bumps a `progress` percentage by 2
    every 110 ms until it reaches 100, and 200 ms after it reaches 100 calls
    `onComplete`. TypewriterLoader types "BHAVYA KAPOOR" one character per
    200 ms tick with `substring(0, index)` and, once the index is past the
    name, stops and calls `onComplete` 1000 ms later.

    Each interval callback is one call of a tick; a scheduled `onComplete`
    is recorded, not run. */
module ModernLoader {
  import opened Util

  const ProgressStep: int := 2
  const ProgressMax: int := 100
  const ProgressTickMs: nat := 110
  const CompleteDelayMs: nat := 200

  /** `completions` counts how many times the `onComplete` timeout has been
      scheduled by the effect that watches `progress`. */
  datatype Progress = Progress(progress: int, running: bool, completions: nat)

  /** On mount the interval runs only if the loader is visible. */
  function Mount(isVisible: bool): (p: Progress)
    ensures p.progress == 0 && p.running == isVisible && p.completions == 0
  {
    Progress(0, isVisible, 0)
  }

  ghost predicate ProgressInv(p: Progress)
  {
    && 0 <= p.progress <= ProgressMax && p.progress % 2 == 0
    && p.completions == (if p.progress == ProgressMax then 1 else 0)
  }

  /** One interval tick: at or above 100 the interval is cleared and the
      value pinned to 100, otherwise 2 is added. The effect on `progress`
      schedules `onComplete` when a changed value is at least 100. */
  function ProgressTick(p: Progress): (r: Progress)
    ensures p.progress < ProgressMax ==> r.progress == p.progress + ProgressStep && r.running == p.running
    ensures p.progress >= ProgressMax ==> r.progress == ProgressMax && !r.running
    ensures r.completions == p.completions + (if r.progress != p.progress && r.progress >= ProgressMax then 1 else 0)
    ensures ProgressInv(p) ==> ProgressInv(r)
  {
    var next := if p.progress >= ProgressMax then ProgressMax else p.progress + ProgressStep;
    var running := if p.progress >= ProgressMax then false else p.running;
    var scheduled := if next != p.progress && next >= ProgressMax then 1 else 0;
    Progress(next, running, p.completions + scheduled)
  }

  /** `n` ticks of the interval (the interval stops itself). */
  function ProgressTicks(p: Progress, n: nat): Progress
    decreases n
  {
    if n == 0 || !p.running then p else ProgressTicks(ProgressTick(p), n - 1)
  }

  /** From a visible mount, n ticks give progress min(2n, 100); the interval
      is still running after 50 ticks (the 51st clears it), and onComplete is
      scheduled exactly once, at the 50th tick. */
  lemma {:induction false} ProgressSchedule(n: nat)
    ensures var r := ProgressTicks(Mount(true), n);
      && ProgressInv(r)
      && r.progress == Min(2 * n, ProgressMax)
      && r.running == (n <= 50)
      && r.completions == (if n >= 50 then 1 else 0)
  {
    ProgressFrom(Mount(true), n);
  }

  lemma {:induction false} ProgressFrom(p: Progress, n: nat)
    requires ProgressInv(p) && p.running
    ensures var r := ProgressTicks(p, n); var k := p.progress / 2;
      && ProgressInv(r)
      && r.progress == Min(p.progress + 2 * n, ProgressMax)
      && r.running == (k + n <= 50)
    decreases n
  {
    if n > 0 {
      var p' := ProgressTick(p);
      if p'.running {
        ProgressFrom(p', n - 1);
      } else {
        assert ProgressTicks(p, n) == p';
      }
    }
  }

  /** Once at 100 the value stays 100 whatever happens next. */
  lemma {:induction false} ProgressStaysFull(p: Progress, n: nat)
    requires ProgressInv(p) && p.progress == ProgressMax
    ensures ProgressTicks(p, n).progress == ProgressMax && ProgressTicks(p, n).completions == 1
    decreases n
  {
    if n > 0 && p.running {
      ProgressStaysFull(ProgressTick(p), n - 1);
    }
  }

  /** A hidden loader never moves. */
  lemma HiddenLoaderStays(n: nat)
    ensures ProgressTicks(Mount(false), n) == Mount(false)
  {
  }

  const Name: string := "BHAVYA KAPOOR"
  const TypeTickMs: nat := 200
  const TypeCompleteDelayMs: nat := 1000

  /** JavaScript's `s.substring(0, k)` for k >= 0: the index is clamped to
      the length. */
  function Substring0(s: string, k: nat): (r: string)
    ensures |r| == Min(k, |s|) && r == s[..|r|]
  {
    if k <= |s| then s[..k] else s
  }

  /** The TypewriterLoader's closure counter, its state and its timers. */
  datatype Typing = Typing(index: nat, text: string, running: bool, completeScheduled: bool)

  function TypingMount(isVisible: bool): (t: Typing)
    ensures t.index == 0 && t.text == "" && t.running == isVisible && !t.completeScheduled
  {
    Typing(0, "", isVisible, false)
  }

  ghost predicate TypingInv(full: string, t: Typing)
  {
    && t.index <= |full| + 1
    && t.text == full[..if t.index == 0 then 0 else t.index - 1]
    && (t.completeScheduled <==> t.index == |full| + 1)
    && (t.index == |full| + 1 ==> !t.running)
  }

  /** One 200 ms tick: show `substring(0, index)`, bump the index, and stop
      with onComplete scheduled once the index is past the text. */
  function TypingTick(full: string, t: Typing): (r: Typing)
    requires t.running
    ensures r.text == Substring0(full, t.index) && r.index == t.index + 1
    ensures r.running == (r.index <= |full|)
    ensures r.completeScheduled == (t.completeScheduled || r.index > |full|)
    ensures TypingInv(full, t) ==> TypingInv(full, r)
  {
    var text := Substring0(full, t.index);
    var index := t.index + 1;
    if index > |full| then Typing(index, text, false, true) else Typing(index, text, t.running, t.completeScheduled)
  }

  function TypingTicks(full: string, t: Typing, n: nat): Typing
    decreases n
  {
    if n == 0 || !t.running then t else TypingTicks(full, TypingTick(full, t), n - 1)
  }

  lemma {:induction false} TypingFrom(full: string, t: Typing, n: nat)
    requires TypingInv(full, t) && t.running
    ensures var r := TypingTicks(full, t, n); var m := Min(t.index + n, |full| + 1);
      && TypingInv(full, r)
      && r.index == m && r.running == (m <= |full|)
      && r.text == full[..if m == 0 then 0 else m - 1]
    decreases n
  {
    if n > 0 {
      var t' := TypingTick(full, t);
      if t'.running {
        TypingFrom(full, t', n - 1);
      } else {
        assert TypingTicks(full, t, n) == t';
      }
    }
  }

  /** Tick k (1 <= k <= 14) shows the first k - 1 letters of the name, so the
      shown prefixes have lengths 0, 1, ..., 13 in order; onComplete is
      scheduled at tick 14, after the whole name has been shown, and not
      before. */
  lemma NameSchedule(k: nat)
    requires 1 <= k
    ensures |Name| == 13
    ensures var r := TypingTicks(Name, TypingMount(true), k); var m := Min(k, 14);
      && r.text == Name[..m - 1]
      && (r.completeScheduled <==> k >= 14)
      && (r.running <==> k < 14)
  {
    assert |Name| == 13;
    TypingFrom(Name, TypingMount(true), k);
  }

  /** The ModernLoader instance. */
  class ProgressLoader {
    var progress: int
    var running: bool
    var completions: nat

    function Snapshot(): Progress
      reads this
    {
      Progress(progress, running, completions)
    }

    ghost predicate Valid()
      reads this
    {
      ProgressInv(Snapshot())
    }

    constructor (isVisible: bool)
      ensures Snapshot() == Mount(isVisible) && Valid()
    {
      progress, running, completions := 0, isVisible, 0;
    }

    method OnIntervalTick()
      requires Valid() && running
      modifies this
      ensures Valid() && Snapshot() == ProgressTick(old(Snapshot()))
    {
      var prev := progress;
      if prev >= ProgressMax {
        running := false;
        progress := ProgressMax;
      } else {
        progress := prev + ProgressStep;
      }
      if progress != prev && progress >= ProgressMax {
        completions := completions + 1;
      }
    }
  }

  /** The TypewriterLoader instance over the fixed name. */
  class NameTypewriter {
    var index: nat
    var text: string
    var running: bool
    var completeScheduled: bool

    function Snapshot(): Typing
      reads this
    {
      Typing(index, text, running, completeScheduled)
    }

    ghost predicate Valid()
      reads this
    {
      TypingInv(Name, Snapshot())
    }

    constructor (isVisible: bool)
      ensures Snapshot() == TypingMount(isVisible) && Valid()
    {
      index, text, running, completeScheduled := 0, "", isVisible, false;
    }

    method OnIntervalTick()
      requires Valid() && running
      modifies this
      ensures Valid() && Snapshot() == TypingTick(Name, old(Snapshot()))
    {
      text := Substring0(Name, index);
      index := index + 1;
      if index > |Name| {
        running := false;
        completeScheduled := true;
      }
    }
  }
}
