/** TextReveal: the text is split on single spaces (`text.split(" ")`), and
    word i of n is given the scroll-progress range [i / n, i / n + 1 / n],
    over which it fades in. The ranges are computed here on exact reals. */
module TextReveal {

  /** JavaScript's `s.split(" ")`: the pieces between single spaces, empty
      pieces included; the empty string gives one empty piece. */
  function Split(s: string): (ws: seq<string>)
    ensures |ws| >= 1
    decreases |s|
  {
    if s == [] then [""]
    else if s[0] == ' ' then [""] + Split(s[1..])
    else
      var rest := Split(s[1..]);
      [[s[0]] + rest[0]] + rest[1..]
  }

  /** `ws.join(" ")`. */
  function Join(ws: seq<string>): string
    requires |ws| >= 1
    decreases |ws|
  {
    if |ws| == 1 then ws[0] else ws[0] + " " + Join(ws[1..])
  }

  predicate NoSpace(w: string)
  {
    forall i :: 0 <= i < |w| ==> w[i] != ' '
  }

  function CountSpaces(s: string): nat
    decreases |s|
  {
    if s == [] then 0 else (if s[0] == ' ' then 1 else 0) + CountSpaces(s[1..])
  }

  /** Joining the words with single spaces gives back the text. */
  lemma {:induction false} JoinSplit(s: string)
    ensures Join(Split(s)) == s
    decreases |s|
  {
    if s != [] {
      JoinSplit(s[1..]);
      var rest := Split(s[1..]);
      if s[0] == ' ' {
        assert Split(s) == [""] + rest;
        assert Join(Split(s)) == "" + " " + Join(rest);
        assert s == [s[0]] + s[1..];
      } else {
        var ws := Split(s);
        assert ws == [[s[0]] + rest[0]] + rest[1..];
        if |rest| == 1 {
          assert Join(ws) == [s[0]] + rest[0];
        } else {
          assert ws[1..] == rest[1..];
          assert Join(ws) == [s[0]] + rest[0] + " " + Join(rest[1..]);
        }
        assert s == [s[0]] + s[1..];
      }
    }
  }

  /** The words never contain a space, and there is one more word than
      there are spaces (so there is always at least one). */
  lemma {:induction false} SplitShape(s: string)
    ensures |Split(s)| == CountSpaces(s) + 1
    ensures forall j :: 0 <= j < |Split(s)| ==> NoSpace(Split(s)[j])
    decreases |s|
  {
    if s != [] {
      SplitShape(s[1..]);
      var rest := Split(s[1..]);
      if s[0] != ' ' {
        var w := [s[0]] + rest[0];
        assert NoSpace(rest[0]);
        assert NoSpace(w) by {
          forall i | 0 <= i < |w| ensures w[i] != ' ' {
            if i > 0 { assert w[i] == rest[0][i - 1]; }
          }
        }
      }
    }
  }

  /** Splitting a space-free prefix glues it to the first word. */
  lemma {:induction false} SplitPrefix(w: string, s: string)
    requires NoSpace(w)
    ensures Split(w + s) == [w + Split(s)[0]] + Split(s)[1..]
    decreases |w|
  {
    if w != [] {
      SplitPrefix(w[1..], s);
      var ss := Split(s);
      assert (w + s)[0] == w[0] != ' ' && (w + s)[1..] == w[1..] + s;
      var rest := Split(w[1..] + s);
      assert rest == [w[1..] + ss[0]] + ss[1..];
      assert rest[0] == w[1..] + ss[0] && rest[1..] == ss[1..];
      assert Split(w + s) == [[w[0]] + rest[0]] + rest[1..];
      assert [w[0]] + (w[1..] + ss[0]) == w + ss[0];
      assert [w[0]] + rest[0] == w + ss[0];
    } else {
      var ss := Split(s);
      assert w + s == s && w + ss[0] == ss[0];
      assert [ss[0]] + ss[1..] == ss;
    }
  }

  /** Splitting the join of space-free words gives the words back. */
  lemma {:induction false} SplitJoin(ws: seq<string>)
    requires |ws| >= 1 && forall j :: 0 <= j < |ws| ==> NoSpace(ws[j])
    ensures Split(Join(ws)) == ws
    decreases |ws|
  {
    if |ws| == 1 {
      SplitPrefix(ws[0], "");
      assert ws[0] + "" == ws[0];
    } else {
      SplitJoin(ws[1..]);
      var tail := Join(ws[1..]);
      assert Join(ws) == ws[0] + (" " + tail);
      SplitPrefix(ws[0], " " + tail);
      assert (" " + tail)[1..] == tail;
      assert Split(" " + tail) == [""] + ws[1..];
      assert ws[0] + "" == ws[0];
      assert ws == [ws[0]] + ws[1..];
    }
  }

  /** The fade-in range of word i of n. */
  datatype Range = Range(start: real, end: real)

  function WordRange(i: nat, n: nat): (r: Range)
    requires i < n
    ensures r.end - r.start == 1.0 / n as real
    ensures 0.0 <= r.start < r.end <= 1.0
    ensures r.start == i as real / n as real && r.end == (i + 1) as real / n as real
  {
    var start := i as real / n as real;
    var end := start + 1.0 / n as real;
    assert end == (i + 1) as real / n as real;
    assert (i + 1) as real <= n as real;
    Range(start, end)
  }

  /** The ranges of all the words of a text. */
  function Ranges(text: string): (rs: seq<Range>)
    ensures |rs| == |Split(text)|
  {
    var n := |Split(text)|;
    seq(n, i requires 0 <= i < n => WordRange(i, n))
  }

  /** The ranges partition [0, 1]: the first starts at 0, the last ends at 1,
      each ends where the next starts, and all have width 1 / (word count). */
  lemma RangesPartition(text: string)
    ensures var rs := Ranges(text); var n := |rs|;
      && n >= 1
      && rs[0].start == 0.0 && rs[n - 1].end == 1.0
      && (forall i :: 0 <= i < n - 1 ==> rs[i].end == rs[i + 1].start)
      && (forall i :: 0 <= i < n ==> rs[i].end - rs[i].start == 1.0 / n as real)
  {
    var rs := Ranges(text);
    var n := |rs|;
    assert rs[n - 1].end == n as real / n as real;
  }
}
