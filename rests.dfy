/**
 * The passes that clear old breaks and that add and remove the transient
 * `_mm` marker on the measures of multi-measure rests
 * (`strip_existing_linebreaks`, `prep_mm_rests`, `cleanup_mm_rests`).
 */
module Rests {
  import opened Wrappers
  import opened Staff

  // ---------------------------------------------------------------- stripping

  /** What `strip_existing_linebreaks` does to one child of the staff. */
  function StripChild(c: Child): (r: Child)
    ensures SameButBreaks(c, r)
    ensures !c.Measure? ==> r == c
    ensures c.Measure? && HasBreak(c) ==> r.breaks == c.breaks[1..]
    ensures c.Measure? && AtMostOneBreak(c) ==> !HasBreak(r)
    ensures AtMostOneBreak(c) ==> AtMostOneBreak(r)
  {
    if c.Measure? then RemoveFirstBreak(c) else c
  }

  /** The staff after `strip_existing_linebreaks`. */
  function Strip(s: seq<Child>): (r: seq<Child>)
    ensures |r| == |s|
    ensures forall k :: 0 <= k < |s| ==> r[k] == StripChild(s[k])
    ensures AllAtMostOneBreak(s) ==> forall k :: 0 <= k < |s| && r[k].Measure? ==> !HasBreak(r[k])
    ensures AllAtMostOneBreak(s) ==> AllAtMostOneBreak(r)
  {
    seq(|s|, k requires 0 <= k < |s| => StripChild(s[k]))
  }

  /** `strip_existing_linebreaks`: every measure loses its first <LayoutBreak>. */
  method StripExistingLinebreaks(a: array<Child>)
    modifies a
    ensures forall k :: 0 <= k < a.Length ==> a[k] == StripChild(old(a[k]))
    ensures a[..] == Strip(old(a[..]))
  {
    for i := 0 to a.Length
      invariant forall k :: 0 <= k < i ==> a[k] == StripChild(old(a[k]))
      invariant forall k :: i <= k < a.Length ==> a[k] == old(a[k])
    {
      var elem := a[i];
      if elem.Measure? && HasBreak(elem) {
        a[i] := RemoveFirstBreak(elem);
      }
    }
  }

  // ------------------------------------------------------ marking rest runs

  /** `if elem.attrib.get("len")`: a measure whose `len` attribute is present and non-empty. */
  predicate IsRestHead(c: Child) {
    c.Measure? && c.lenAttr.Some? && c.lenAttr.value != ""
  }

  /**
   * Every rest head has a <multiMeasureRest> child with integer text; for any
   * other head `int(elem.find("multiMeasureRest").text)` raises.
   */
  predicate WellFormedRests(s: seq<Child>) {
    forall k :: 0 <= k < |s| && IsRestHead(s[k]) ==> s[k].restCount.Some?
  }

  /**
   * `measure_to_mark` after child `c` when it was `p` before. A head without
   * a count raises; WellFormedRests rules that out, so the 0 there is never used.
   */
  function NextToMark(p: int, c: Child): int {
    if !c.Measure? then p
    else if IsRestHead(c) then (if c.restCount.Some? then c.restCount.value - 1 else 0)
    else if p > 0 then p - 1
    else p
  }

  /** The value of `measure_to_mark` when the loop reaches child `i`. */
  function ToMark(s: seq<Child>, i: nat): int
    requires i <= |s|
  {
    if i == 0 then 0 else NextToMark(ToMark(s, i - 1), s[i - 1])
  }

  predicate SameButMm(c: Child, d: Child) {
    if c.Measure? then d.Measure? && c.(mm := d.mm) == d else d == c
  }

  /** A measure reached while `measure_to_mark` is positive gets `_mm` set to that value. */
  function MarkChild(p: int, c: Child): (r: Child)
    ensures SameButMm(c, r)
    ensures r != c ==> r.mm == Some(p) && 0 < p
  {
    if c.Measure? && p > 0 then c.(mm := Some(p)) else c
  }

  /** The staff after `prep_mm_rests`. */
  function MarkRests(s: seq<Child>): (r: seq<Child>)
    ensures |r| == |s|
    ensures forall k :: 0 <= k < |s| ==> SameButMm(s[k], r[k])
  {
    seq(|s|, k requires 0 <= k < |s| => MarkChild(ToMark(s, k), s[k]))
  }

  /**
   * `prep_mm_rests`. It fails (returns false) exactly when some rest head has
   * no integer <multiMeasureRest>; the document is then abandoned.
   */
  method PrepMmRests(a: array<Child>) returns (ok: bool)
    modifies a
    ensures ok == WellFormedRests(old(a[..]))
    ensures ok ==> a[..] == MarkRests(old(a[..]))
  {
    ghost var s := a[..];
    var measureToMark := 0;
    var i := 0;
    while i < a.Length
      invariant 0 <= i <= a.Length
      invariant measureToMark == ToMark(s, i)
      invariant WellFormedRests(s[..i])
      // the trigger keeps ToMark's unfolding from re-instantiating this invariant
      invariant forall k {:trigger a[k]} :: 0 <= k < i ==> a[k] == MarkChild(ToMark(s, k), s[k])
      invariant forall k {:trigger a[k]} :: i <= k < a.Length ==> a[k] == s[k]
    {
      var elem := a[i];
      assert elem == s[i];
      if elem.Measure? {
        if measureToMark > 0 {
          a[i] := MarkChild(measureToMark, elem);
        }
        if IsRestHead(elem) && elem.restCount.None? {
          assert !WellFormedRests(s);
          return false;
        }
        measureToMark := NextToMark(measureToMark, elem);
      }
      assert a[i] == MarkChild(ToMark(s, i), s[i]);
      assert measureToMark == ToMark(s, i + 1);
      assert s[..i + 1] == s[..i] + [s[i]];
      i := i + 1;
    }
    assert s[..i] == s;
    assert a[..] == MarkRests(s);
    return true;
  }

  /** Number of <Measure> children among `s[lo..hi]`. */
  function MeasuresIn(s: seq<Child>, lo: nat, hi: nat): nat
    requires lo <= hi <= |s|
    decreases hi
  {
    if hi == lo then 0 else MeasuresIn(s, lo, hi - 1) + (if s[hi - 1].Measure? then 1 else 0)
  }

  /** Inside a run, `measure_to_mark` counts down from L-1 by one per measure and stops at 0. */
  lemma {:induction false} ToMarkAfterHead(s: seq<Child>, h: nat, j: nat)
    requires WellFormedRests(s)
    requires h < j <= |s| && IsRestHead(s[h])
    requires forall k :: h < k < j ==> !IsRestHead(s[k])
    ensures var last := s[h].restCount.value - 1;
            var m := MeasuresIn(s, h + 1, j);
            ToMark(s, j) == if last <= 0 then last else if last - m > 0 then last - m else 0
    decreases j
  {
    if j > h + 1 {
      ToMarkAfterHead(s, h, j - 1);
    }
  }

  /**
   * The run property of `prep_mm_rests`: the c-th measure after a head of
   * length L (no other head in between) carries `_mm` = L - c while c <= L - 1,
   * and is left as it was beyond the run.
   */
  lemma RestRunMarks(s: seq<Child>, h: nat, j: nat)
    requires WellFormedRests(s)
    requires h < j < |s| && IsRestHead(s[h]) && s[j].Measure?
    requires forall k :: h < k < j ==> !IsRestHead(s[k])
    ensures var count := s[h].restCount.value;
            var c := MeasuresIn(s, h + 1, j + 1);
            MarkRests(s)[j].mm == if c <= count - 1 then Some(count - c) else s[j].mm
  {
    ToMarkAfterHead(s, h, j);
  }

  /** Before the first rest head nothing is marked; in particular the first head itself is not. */
  lemma {:induction false} NothingMarkedBeforeFirstHead(s: seq<Child>, k: nat)
    requires k < |s|
    requires forall j :: 0 <= j < k ==> !IsRestHead(s[j])
    ensures ToMark(s, k) == 0 && MarkRests(s)[k] == s[k]
  {
    ZeroToMarkWithoutHeads(s, k);
  }

  lemma {:induction false} ZeroToMarkWithoutHeads(s: seq<Child>, k: nat)
    requires k <= |s|
    requires forall j :: 0 <= j < k ==> !IsRestHead(s[j])
    ensures ToMark(s, k) == 0
  {
    if k > 0 {
      ZeroToMarkWithoutHeads(s, k - 1);
    }
  }

  // ---------------------------------------------------------------- cleanup

  /** What `cleanup_mm_rests` does to one child. */
  function ClearMm(c: Child): (r: Child)
    ensures SameButMm(c, r) && !HasMm(r)
  {
    if c.Measure? then c.(mm := None) else c
  }

  /** The staff after `cleanup_mm_rests`. */
  function Cleanup(s: seq<Child>): (r: seq<Child>)
    ensures |r| == |s|
    ensures forall k :: 0 <= k < |s| ==> r[k] == ClearMm(s[k]) && !HasMm(r[k]) && r[k].breaks == s[k].breaks
  {
    seq(|s|, k requires 0 <= k < |s| => ClearMm(s[k]))
  }

  /** `cleanup_mm_rests`: no child keeps an `_mm` attribute. */
  method CleanupMmRests(a: array<Child>)
    modifies a
    ensures forall k :: 0 <= k < a.Length ==> a[k] == ClearMm(old(a[k]))
    ensures forall k :: 0 <= k < a.Length ==> !HasMm(a[k])
    ensures a[..] == Cleanup(old(a[..]))
  {
    for i := 0 to a.Length
      invariant forall k :: 0 <= k < i ==> a[k] == ClearMm(old(a[k]))
      invariant forall k :: i <= k < a.Length ==> a[k] == old(a[k])
    {
      if HasMm(a[i]) {
        a[i] := ClearMm(a[i]);
      }
    }
  }
}
