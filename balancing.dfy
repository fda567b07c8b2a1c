/**
 * `new_final_pass_through`: evens out a long line followed by a very short
 * one. Three cursors walk the measures: `initial` (the first measure of the
 * first line), `first` (the measure ending it) and `second` (the measure
 * ending the next line). Unlike the other passes, this one looks for
 * <BarLine> and <RehearsalMark> among the measure's direct children.
 */
module Balancing {
  import opened Wrappers
  import opened Staff

  /** The loop's cursors between two children (`second` is never set between children). */
  datatype Cursor = Cursor(initial: Option<int>, first: Option<int>)

  /** What the loop keeps true of its cursors before child `i`. */
  predicate CursorOk(c: Cursor, i: nat) {
    (c.initial.Some? ==> 0 <= c.initial.value <= i) &&
    (c.first.Some? ==> c.initial.Some? && c.initial.value <= c.first.value < i)
  }

  function Line1Len(initial: int, first: int): int { first - initial + 1 }

  function Line2Len(first: int, second: int): int { second - first + 1 }

  /** The balancing of one window `[initial, second]`, with `first` ending its first line. */
  function BalanceWindow(t: seq<Child>, initial: nat, first: nat, second: nat): (r: seq<Child>)
    requires initial <= first < second < |t|
    ensures |r| == |t|
    ensures forall k :: 0 <= k < |t| ==> SameButBreaks(t[k], r[k])
    ensures forall k :: 0 <= k < |t| && (k < initial || second < k) ==> r[k] == t[k]
    ensures !(Line1Len(initial, first) >= 4 && Line2Len(first, second) <= 2) ==> r == t
    // `line2_len` counts the measure at `first`, so a short second line is the single measure after `first`
    ensures Line2Len(first, second) <= 2 ==> second == first + 1
    ensures Line1Len(initial, first) == 4 && Line2Len(first, second) <= 2 ==>
      r == t[first := RemoveFirstBreak(t[first])]
    ensures Line1Len(initial, first) > 4 && Line2Len(first, second) <= 2 ==>
      var mid := (initial + second) / 2;
      initial <= mid <= first - 2 &&
      r == t[first := RemoveFirstBreak(t[first])][mid := AddLineBreakOpt(t[mid])]
    ensures AllAtMostOneBreak(t) ==> AllAtMostOneBreak(r)
  {
    var line1 := Line1Len(initial, first);
    var line2 := Line2Len(first, second);
    if line1 >= 4 && line2 <= 2 then
      var removed := t[first := RemoveFirstBreak(t[first])];
      if line1 > 4 then
        var mid := (initial + second) / 2;
        removed[mid := AddLineBreakOpt(removed[mid])]
      else removed
    else t
  }

  /**
   * A second line of two measures (the break two measures after `first`) is
   * never rebalanced, however long the first line is: `line2_len` is then 3.
   */
  lemma TwoMeasureSecondLineKept(t: seq<Child>, initial: nat, first: nat)
    requires initial <= first && first + 2 < |t|
    ensures BalanceWindow(t, initial, first, first + 2) == t
  {
  }

  /** One turn of the loop at child `i`: the new staff and cursors. */
  function BalanceStep(t: seq<Child>, i: nat, c: Cursor): (r: (seq<Child>, Cursor))
    requires i < |t| && CursorOk(c, i)
    ensures |r.0| == |t| && CursorOk(r.1, i + 1)
    ensures forall k :: 0 <= k < |t| ==> SameButBreaks(t[k], r.0[k])
    ensures AllAtMostOneBreak(t) ==> AllAtMostOneBreak(r.0)
  {
    var elem := t[i];
    if !elem.Measure? then (t, c)
    else
      var initial := if c.initial.None? then Some(i) else c.initial;
      if elem.barLineChild && c.first.Some? then (t, Cursor(Some(i + 1), None))
      else if elem.rehearsalMarkChild then (t, Cursor(Some(i), None))
      else if !HasBreak(elem) then (t, Cursor(initial, c.first))
      else if c.first.None? then (t, Cursor(initial, Some(i)))
      else (BalanceWindow(t, initial.value, c.first.value, i), Cursor(Some(i + 1), None))
  }

  /** The loop from child `i` on, with cursors `c`. */
  function BalanceFrom(t: seq<Child>, i: nat, c: Cursor): (r: seq<Child>)
    requires i <= |t| && CursorOk(c, i)
    ensures |r| == |t|
    ensures forall k :: 0 <= k < |t| ==> SameButBreaks(t[k], r[k])
    ensures AllAtMostOneBreak(t) ==> AllAtMostOneBreak(r)
    decreases |t| - i
  {
    if i == |t| then t
    else
      var next := BalanceStep(t, i, c);
      BalanceFrom(next.0, i + 1, next.1)
  }

  /** The staff after `new_final_pass_through`. */
  function Balance(s: seq<Child>): (r: seq<Child>)
    ensures |r| == |s|
    ensures AllAtMostOneBreak(s) ==> AllAtMostOneBreak(r)
  {
    BalanceFrom(s, 0, Cursor(None, None))
  }

  /** `new_final_pass_through` */
  method NewFinalPassThrough(a: array<Child>)
    modifies a
    ensures a[..] == Balance(old(a[..]))
  {
    var initial: Option<int> := None;
    var first: Option<int> := None;
    for i := 0 to a.Length
      invariant CursorOk(Cursor(initial, first), i)
      invariant BalanceFrom(a[..], i, Cursor(initial, first)) == Balance(old(a[..]))
    {
      initial, first := BalanceAt(a, i, initial, first);
    }
  }

  /** The body of the loop for child `i`. */
  method BalanceAt(a: array<Child>, i: nat, initial0: Option<int>, first0: Option<int>)
    returns (initial: Option<int>, first: Option<int>)
    requires i < a.Length && CursorOk(Cursor(initial0, first0), i)
    modifies a
    ensures (a[..], Cursor(initial, first)) == BalanceStep(old(a[..]), i, Cursor(initial0, first0))
  {
    initial, first := initial0, first0;
    var elem := a[i];
    if !elem.Measure? {
      return;
    }
    if initial.None? {
      initial := Some(i);
    }
    if elem.barLineChild && first.Some? {
      initial, first := Some(i + 1), None;
      return;
    }
    if elem.rehearsalMarkChild {
      initial, first := Some(i), None;
      return;
    }
    if !HasBreak(elem) {
      return;
    }
    if first.None? {
      first := Some(i);
      return;
    }
    var second := i;
    var line1 := Line1Len(initial.value, first.value);
    var line2 := Line2Len(first.value, second);
    if line1 >= 4 && line2 <= 2 {
      a[first.value] := RemoveFirstBreak(a[first.value]);
      if line1 > 4 {
        var mid := (initial.value + second) / 2;
        a[mid] := AddLineBreakOpt(a[mid]);
      }
    }
    initial, first := Some(i + 1), None;
  }
}
