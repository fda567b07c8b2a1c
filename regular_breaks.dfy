/**
 * `add_regular_line_breaks`: a counter walks the measures and a line break
 * is inserted whenever it has reached the number of measures per line. A
 * rehearsal mark restarts the count at 1, a bar line at 0, and the measures
 * of a multi-measure rest reset it without receiving a break.
 */
module RegularBreaks {
  import opened Wrappers
  import opened Staff

  /** The counter once the voice of `c` has been looked at: a bar line wins over a rehearsal mark. */
  function Restarted(c: Child, i: int): int {
    if VoiceBarLine(c) then 0 else if VoiceRehearsalMark(c) then 1 else i
  }

  /** Whether a line break is inserted at `c` when the counter stands at `i` before it. */
  predicate BreaksHere(c: Child, i: int, perLine: int) {
    c.Measure? && !HasMm(c) && Restarted(c, i) == perLine && !HasBreak(c)
  }

  /** The counter after child `c`; other children than measures leave it alone. */
  function NextCounter(c: Child, i: int, perLine: int): int {
    if !c.Measure? then i
    else if HasMm(c) then 0
    else if BreaksHere(c, i, perLine) then 0
    else Restarted(c, i) + 1
  }

  /** What the pass does to child `c` when the counter stands at `i` before it. */
  function RegularChild(c: Child, i: int, perLine: int): (r: Child)
    ensures SameButBreaks(c, r)
    ensures r != c ==> c.Measure? && !HasMm(c) && !HasBreak(c) && r.breaks == [LineBreak]
    ensures BreaksHere(c, i, perLine) <==> r != c
  {
    if BreaksHere(c, i, perLine) then AddLineBreak(c) else c
  }

  /** The counter when the loop reaches child `k`. */
  function CounterBefore(s: seq<Child>, perLine: int, k: nat): int
    requires k <= |s|
  {
    if k == 0 then 0 else NextCounter(s[k - 1], CounterBefore(s, perLine, k - 1), perLine)
  }

  /** The staff after `add_regular_line_breaks`. */
  function RegularLineBreaks(s: seq<Child>, perLine: int): (r: seq<Child>)
    ensures |r| == |s|
    ensures forall k :: 0 <= k < |s| ==> SameButBreaks(s[k], r[k])
    // only adds, only where there was no break, and never on a rest measure
    ensures forall k :: 0 <= k < |s| && r[k] != s[k] ==>
      s[k].Measure? && !HasMm(s[k]) && !HasBreak(s[k]) && r[k].breaks == [LineBreak]
    ensures AllAtMostOneBreak(s) ==> AllAtMostOneBreak(r)
  {
    seq(|s|, k requires 0 <= k < |s| => RegularChild(s[k], CounterBefore(s, perLine, k), perLine))
  }

  /** `add_regular_line_breaks(staff, measures_per_line)` */
  method AddRegularLineBreaks(a: array<Child>, measuresPerLine: int)
    modifies a
    ensures a[..] == RegularLineBreaks(old(a[..]), measuresPerLine)
  {
    ghost var s := a[..];
    var i := 0;
    var k := 0;
    while k < a.Length
      invariant 0 <= k <= a.Length
      invariant i == CounterBefore(s, measuresPerLine, k)
      invariant forall j {:trigger a[j]} :: 0 <= j < k ==>
        a[j] == RegularChild(s[j], CounterBefore(s, measuresPerLine, j), measuresPerLine)
      invariant forall j {:trigger a[j]} :: k <= j < a.Length ==> a[j] == s[j]
    {
      var elem := a[k];
      assert elem == s[k];
      if elem.Measure? {
        if elem.voiceRehearsalMark {
          i := 1;
        }
        if elem.voiceBarLine {
          i := 0;
        }
        if HasMm(elem) {
          i := 0;
        } else {
          if i == measuresPerLine && !HasBreak(elem) {
            a[k] := AddLineBreak(elem);
            i := 0;
          } else {
            i := i + 1;
          }
        }
      }
      assert a[k] == RegularChild(s[k], CounterBefore(s, measuresPerLine, k), measuresPerLine);
      assert i == CounterBefore(s, measuresPerLine, k + 1);
      k := k + 1;
    }
    assert a[..] == RegularLineBreaks(s, measuresPerLine);
  }

  /** A run of plain measures: no marks, no bar lines, no rests and no breaks yet. */
  predicate Plain(s: seq<Child>) {
    forall k :: 0 <= k < |s| ==>
      s[k].Measure? && !VoiceRehearsalMark(s[k]) && !VoiceBarLine(s[k]) && !HasMm(s[k]) && !HasBreak(s[k])
  }

  /**
   * On plain measures the counter before measure k is `k mod (N+1)`: the
   * break is inserted when the counter already equals N, so lines hold
   * N + 1 measures.
   */
  lemma {:induction false} PlainCounter(s: seq<Child>, perLine: nat, k: nat)
    requires Plain(s) && k <= |s|
    ensures CounterBefore(s, perLine, k) == k % (perLine + 1)
    decreases k
  {
    if k > 0 {
      var d := perLine + 1;
      var prev := CounterBefore(s, perLine, k - 1);
      PlainCounter(s, perLine, k - 1);
      PlainStep(s[k - 1], prev, perLine);
      ModStep(k - 1, d);
      assert CounterBefore(s, perLine, k) == NextCounter(s[k - 1], prev, perLine);
    }
  }

  /** A plain measure only counts: the counter restarts only after a break. */
  lemma PlainStep(c: Child, i: int, perLine: int)
    requires c.Measure? && !VoiceRehearsalMark(c) && !VoiceBarLine(c) && !HasMm(c) && !HasBreak(c)
    ensures NextCounter(c, i, perLine) == if i == perLine then 0 else i + 1
  {
  }

  lemma ModStep(k: nat, d: int)
    requires 0 < d
    ensures (k + 1) % d == if k % d == d - 1 then 0 else k % d + 1
  {
    var q, r := k / d, k % d;
    if r == d - 1 {
      ModUnique(k + 1, d, q + 1, 0);
    } else {
      ModUnique(k + 1, d, q, r + 1);
    }
  }

  lemma ModUnique(x: int, d: int, a: int, b: int)
    requires 0 < d && 0 <= b < d && x == d * a + b
    ensures x % d == b
  {
    var q, r := x / d, x % d;
    assert d * (a - q) == r - b;
    if a - q > 0 {
      MulAtLeast(d, a - q);
    } else if a - q < 0 {
      MulAtLeast(d, q - a);
    }
  }

  lemma {:induction false} MulAtLeast(d: int, m: nat)
    requires 0 < d && 1 <= m
    ensures d * m >= d
    decreases m
  {
    if m > 1 {
      MulAtLeast(d, m - 1);
      assert d * m == d * (m - 1) + d;
    }
  }

  /** On plain measures the breaks fall exactly on the measures `k` with `k mod (N+1) == N`. */
  lemma PlainSpacing(s: seq<Child>, perLine: nat, k: nat)
    requires Plain(s) && k < |s|
    ensures HasBreak(RegularLineBreaks(s, perLine)[k]) <==> k % (perLine + 1) == perLine
  {
    PlainCounter(s, perLine, k);
  }
}
