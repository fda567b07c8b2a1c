/**
 * The two passes that put line breaks where the music asks for them:
 * before a rehearsal mark (`add_rehearsal_mark_line_breaks`) and on a
 * double bar (`add_double_bar_line_breaks`). Both look inside the first
 * <voice> of each measure and both only ever add breaks.
 */
module MarkBreaks {
  import opened Wrappers
  import opened Staff

  // ------------------------------------------------ rehearsal-mark breaks

  /** The nearest index `k <= j` whose child has a `len` attribute, searching backwards. */
  function NearestLen(s: seq<Child>, j: nat): (r: Option<nat>)
    requires j < |s|
    ensures r.Some? ==> r.value <= j && HasLen(s[r.value])
    ensures r.Some? ==> forall k :: r.value < k <= j ==> !HasLen(s[k])
    ensures r.None? ==> forall k :: 0 <= k <= j ==> !HasLen(s[k])
    decreases j
  {
    if HasLen(s[j]) then Some(j)
    else if j == 0 then None
    else NearestLen(s, j - 1)
  }

  /** The children that a rehearsal mark in the voice of child `i` sends a line break to. */
  function MarkTargets(s: seq<Child>, i: nat): set<nat>
    requires i < |s|
  {
    if i > 0 && VoiceRehearsalMark(s[i]) then
      {i - 1} + (if HasMm(s[i - 1]) && NearestLen(s, i - 1).Some? then {NearestLen(s, i - 1).value} else {})
    else {}
  }

  /** Everything the loop has sent a line break to once it has looked at children `0 .. n-1`. */
  function TargetsBefore(s: seq<Child>, n: nat): (r: set<nat>)
    requires n <= |s|
    ensures forall k :: k in r ==> k < n
  {
    if n == 0 then {} else TargetsBefore(s, n - 1) + MarkTargets(s, n - 1)
  }

  /** Membership in the targets, in the loop-free terms of the docstring. */
  lemma {:induction false} TargetsBeforeMembers(s: seq<Child>, n: nat, k: nat)
    requires n <= |s|
    ensures k in TargetsBefore(s, n) <==>
      exists i :: 0 <= i < n && k in MarkTargets(s, i)
    decreases n
  {
    if n > 0 {
      TargetsBeforeMembers(s, n - 1, k);
    }
  }

  /** `s` with a line break added (unless present) at each index in `targets`. */
  function WithBreaksAt(s: seq<Child>, targets: set<nat>): (r: seq<Child>)
    ensures |r| == |s|
    ensures forall k :: 0 <= k < |s| ==> SameButBreaks(s[k], r[k])
    ensures forall k :: 0 <= k < |s| && HasBreak(s[k]) ==> r[k] == s[k]
    ensures forall k :: 0 <= k < |s| && r[k] != s[k] ==> r[k].breaks == [LineBreak]
  {
    seq(|s|, k requires 0 <= k < |s| => if k in targets then AddLineBreakOpt(s[k]) else s[k])
  }

  /** Adding one more target is one more `_add_line_break_to_measure_opt`. */
  lemma WithOneMoreBreak(s: seq<Child>, targets: set<nat>, k: nat)
    requires k < |s|
    ensures WithBreaksAt(s, targets + {k}) ==
      WithBreaksAt(s, targets)[k := AddLineBreakOpt(WithBreaksAt(s, targets)[k])]
  {
  }

  /** The staff after a successful `add_rehearsal_mark_line_breaks`. */
  function RehearsalBreaks(s: seq<Child>): (r: seq<Child>)
    ensures |r| == |s|
  {
    WithBreaksAt(s, TargetsBefore(s, |s|))
  }

  /** The pass raises on a rehearsal mark in the first child (`assert i > 0`). */
  predicate RehearsalPassFails(s: seq<Child>) {
    |s| > 0 && VoiceRehearsalMark(s[0])
  }

  /**
   * `add_rehearsal_mark_line_breaks`. On failure nothing has been changed yet,
   * since the first child is the first one looked at.
   */
  method AddRehearsalMarkLineBreaks(a: array<Child>) returns (ok: bool)
    modifies a
    ensures ok == !RehearsalPassFails(old(a[..]))
    ensures ok ==> a[..] == RehearsalBreaks(old(a[..]))
    ensures !ok ==> a[..] == old(a[..])
  {
    ghost var s := a[..];
    var i := 0;
    while i < a.Length
      invariant 0 <= i <= a.Length
      invariant i > 0 ==> !RehearsalPassFails(s)
      invariant a[..] == WithBreaksAt(s, TargetsBefore(s, i))
    {
      ghost var targets := TargetsBefore(s, i);
      var elem := a[i];
      assert elem == s[i] by { assert i !in targets; }
      if elem.Measure? && elem.voiceRehearsalMark {
        if i == 0 {
          return false;
        }
        BreaksForMark(a, s, i);
      } else {
        assert TargetsBefore(s, i + 1) == TargetsBefore(s, i);
      }
      i := i + 1;
    }
    return true;
  }

  /** The breaks a rehearsal mark at child `i` sends: to child `i - 1`, and to the head of its rest run. */
  method BreaksForMark(a: array<Child>, ghost s: seq<Child>, i: nat)
    requires 0 < i < a.Length == |s| && VoiceRehearsalMark(s[i])
    requires a[..] == WithBreaksAt(s, TargetsBefore(s, i))
    modifies a
    ensures a[..] == WithBreaksAt(s, TargetsBefore(s, i + 1))
  {
    ghost var targets := TargetsBefore(s, i);
    var prev := a[i - 1];
    WithOneMoreBreak(s, targets, i - 1);
    a[i - 1] := AddLineBreakOpt(prev);
    targets := targets + {i - 1};
    if HasMm(prev) {
      SameLensSameNearest(s, a[..], i - 1);
      var j := FindRestHead(a, i - 1);
      if j.Some? {
        WithOneMoreBreak(s, targets, j.value);
        a[j.value] := AddLineBreakOpt(a[j.value]);
        targets := targets + {j.value};
      }
    }
    assert targets == TargetsBefore(s, i + 1);
  }

  /** `for j in range(from, -1, -1)`: the search for the nearest child with `len`. */
  method FindRestHead(a: array<Child>, from: nat) returns (r: Option<nat>)
    requires from < a.Length
    ensures r == NearestLen(a[..], from)
  {
    var j := from;
    while true
      invariant 0 <= j <= from
      invariant NearestLen(a[..], from) == NearestLen(a[..], j)
      decreases j
    {
      if HasLen(a[j]) {
        return Some(j);
      }
      if j == 0 {
        return None;
      }
      j := j - 1;
    }
  }

  /** The search only looks at `len`, which the passes never change. */
  lemma {:induction false} SameLensSameNearest(s: seq<Child>, t: seq<Child>, j: nat)
    requires j < |s| == |t|
    requires forall k :: 0 <= k < |s| ==> SameButBreaks(s[k], t[k])
    ensures NearestLen(s, j) == NearestLen(t, j)
    decreases j
  {
    assert HasLen(s[j]) == HasLen(t[j]);
    if j > 0 {
      SameLensSameNearest(s, t, j - 1);
    }
  }

  /**
   * The promise of the pass: the child before every rehearsal mark has a
   * break, and when that child is inside a multi-measure rest so has the
   * nearest earlier child with `len`; a child that already had a break is
   * left as it was, and nothing else changes.
   */
  lemma RehearsalBreaksPlaced(s: seq<Child>, i: nat)
    requires 0 < i < |s| && VoiceRehearsalMark(s[i])
    ensures HasBreak(RehearsalBreaks(s)[i - 1])
    ensures HasMm(s[i - 1]) && NearestLen(s, i - 1).Some? ==>
      HasBreak(RehearsalBreaks(s)[NearestLen(s, i - 1).value])
  {
    TargetsInclude(s, |s|, i);
  }

  lemma {:induction false} TargetsInclude(s: seq<Child>, n: nat, i: nat)
    requires i < n <= |s|
    ensures MarkTargets(s, i) <= TargetsBefore(s, n)
    decreases n
  {
    if i < n - 1 {
      TargetsInclude(s, n - 1, i);
    }
  }

  lemma RehearsalBreaksOnlyThere(s: seq<Child>, k: nat)
    requires k < |s|
    requires forall i :: 0 <= i < |s| ==> k !in MarkTargets(s, i)
    ensures RehearsalBreaks(s)[k] == s[k]
  {
    TargetsBeforeMembers(s, |s|, k);
  }

  // ------------------------------------------------------ double-bar breaks

  /** The staff after a successful `add_double_bar_line_breaks`. */
  function DoubleBarBreaks(s: seq<Child>): (r: seq<Child>)
    ensures |r| == |s|
    ensures forall k :: 0 <= k < |s| ==> SameButBreaks(s[k], r[k])
    ensures forall k :: 0 <= k < |s| && VoiceBarLine(s[k]) ==> HasBreak(r[k])
    ensures forall k :: 0 <= k < |s| && (!VoiceBarLine(s[k]) || HasBreak(s[k])) ==> r[k] == s[k]
  {
    seq(|s|, k requires 0 <= k < |s| => if VoiceBarLine(s[k]) then AddLineBreakOpt(s[k]) else s[k])
  }

  /** The pass raises on a bar line in the voice of the first child (`assert i > 0`). */
  predicate DoubleBarPassFails(s: seq<Child>) {
    |s| > 0 && VoiceBarLine(s[0])
  }

  /** `add_double_bar_line_breaks`: each measure with a bar line in its voice gets a break itself. */
  method AddDoubleBarLineBreaks(a: array<Child>) returns (ok: bool)
    modifies a
    ensures ok == !DoubleBarPassFails(old(a[..]))
    ensures ok ==> a[..] == DoubleBarBreaks(old(a[..]))
    ensures !ok ==> a[..] == old(a[..])
  {
    var i := 0;
    while i < a.Length
      invariant 0 <= i <= a.Length
      invariant i > 0 ==> !DoubleBarPassFails(old(a[..]))
      invariant forall k :: 0 <= k < i ==> a[k] == DoubleBarBreaks(old(a[..]))[k]
      invariant forall k :: i <= k < a.Length ==> a[k] == old(a[k])
    {
      var elem := a[i];
      if elem.Measure? && elem.voiceBarLine {
        if i == 0 {
          return false;
        }
        a[i] := AddLineBreakOpt(elem);
      }
      i := i + 1;
    }
    return true;
  }
}
