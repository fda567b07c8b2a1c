/**
 * `add_page_breaks`: counts the line breaks of measures that are not inside
 * a multi-measure rest and, once a page holds enough lines (7 on the first
 * page, 8 after), picks one of two candidate line breaks and turns it into a
 * page break.
 */
module PageBreaks {
  import opened Wrappers
  import opened Staff

  /** `is_line_break`: a measure with a break that is not inside a multi-measure rest. */
  predicate IsLineBreak(c: Child) {
    c.Measure? && HasBreak(c) && !HasMm(c)
  }

  /** `has_rehearsal_mark`: a rehearsal mark in the voice, and the measure carries `_mm`. */
  predicate HasRehearsalMarkMm(c: Child) {
    VoiceRehearsalMark(c) && HasMm(c)
  }

  /** `has_double_bar`: a bar line in the voice, and the measure carries `_mm`. */
  predicate HasDoubleBarMm(c: Child) {
    VoiceBarLine(c) && HasMm(c)
  }

  /**
   * `choose_best_break` between the candidate breaks at `fi` and `si`: the
   * page break goes at `fi` (result 1: one line of the new page is already
   * counted) or at `si` (result 0).
   */
  function ChooseBest(t: seq<Child>, fi: nat, si: nat): (r: (seq<Child>, int))
    requires fi < si < |t|
    ensures |r.0| == |t| && (r.1 == 0 || r.1 == 1)
    ensures r.1 == 1 ==> r.0 == t[fi := AddPageBreak(t[fi])]
    ensures r.1 == 0 ==> r.0 == t[si := AddPageBreak(t[si])]
    // the preferences for rehearsal marks and double bars can never decide,
    // because they ask for `_mm` where the rest preference has already failed
    ensures IsLineBreak(t[fi]) && IsLineBreak(t[si]) ==>
      (r.1 == 0 <==> !HasMm(t[fi + 1]) && si + 1 < |t| && HasMm(t[si + 1]))
  {
    var atFirst := (t[fi := AddPageBreak(t[fi])], 1);
    var atSecond := (t[si := AddPageBreak(t[si])], 0);
    // `next_first` always exists, since `fi < si`
    if HasMm(t[fi + 1]) then atFirst
    else if si + 1 < |t| && HasMm(t[si + 1]) then atSecond
    else if HasRehearsalMarkMm(t[fi + 1]) || HasDoubleBarMm(t[fi]) then atFirst
    else if si + 1 < |t| && (HasRehearsalMarkMm(t[si + 1]) || HasDoubleBarMm(t[si])) then atSecond
    else atFirst
  }

  /** The planner's state between two children. */
  datatype Planner = Planner(count: int, firstPage: bool, first: Option<nat>)

  function Cutoff(p: Planner): int {
    if p.firstPage then 7 else 8
  }

  /** What the loop keeps true before child `i` of the current staff `t`. */
  predicate PlannerOk(t: seq<Child>, i: nat, p: Planner) {
    0 <= p.count < Cutoff(p) &&
    (p.first.Some? ==> p.first.value < i <= |t| && IsLineBreak(t[p.first.value]))
  }

  /** One turn of the loop at child `i`. */
  function PageStep(t: seq<Child>, i: nat, p: Planner): (r: (seq<Child>, Planner))
    requires i < |t| && PlannerOk(t, i, p)
    ensures |r.0| == |t| && PlannerOk(r.0, i + 1, r.1)
    ensures forall k :: 0 <= k < |t| ==>
      r.0[k] == t[k] || (IsLineBreak(t[k]) && r.0[k] == AddPageBreak(t[k]))
  {
    var elem := t[i];
    if !elem.Measure? then (t, p)
    else
      var count := if IsLineBreak(elem) then p.count + 1 else p.count;
      if count == Cutoff(p) then
        if p.first.None? then (t, Planner(count - 1, p.firstPage, Some(i)))
        else
          var chosen := ChooseBest(t, p.first.value, i);
          (chosen.0, Planner(chosen.1, false, None))
      else (t, Planner(count, p.firstPage, p.first))
  }

  /** The loop from child `i` on. */
  function PagesFrom(t: seq<Child>, i: nat, p: Planner): (r: seq<Child>)
    requires i <= |t| && PlannerOk(t, i, p)
    ensures |r| == |t|
    // only the first break of a real line break is rewritten (to "page"): no break is added or removed
    ensures forall k :: 0 <= k < |t| ==>
      r[k] == t[k] || (IsLineBreak(t[k]) && r[k] == AddPageBreak(t[k]))
    ensures forall k :: 0 <= k < |t| ==> SameButBreaks(t[k], r[k]) && |r[k].breaks| == |t[k].breaks|
    decreases |t| - i
  {
    if i == |t| then t
    else
      var next := PageStep(t, i, p);
      var r := PagesFrom(next.0, i + 1, next.1);
      assert forall k :: 0 <= k < |t| ==> AddPageBreak(AddPageBreak(t[k])) == AddPageBreak(t[k]);
      r
  }

  /** The staff after `add_page_breaks`. */
  function Pages(s: seq<Child>): (r: seq<Child>)
    ensures |r| == |s|
    ensures forall k :: 0 <= k < |s| ==> |r[k].breaks| == |s[k].breaks|
  {
    PagesFrom(s, 0, Planner(0, true, None))
  }

  /** `add_page_breaks` */
  method AddPageBreaks(a: array<Child>)
    modifies a
    ensures a[..] == Pages(old(a[..]))
  {
    var count := 0;
    var firstPage := true;
    var first: Option<nat> := None;
    for i := 0 to a.Length
      invariant PlannerOk(a[..], i, Planner(count, firstPage, first))
      invariant PagesFrom(a[..], i, Planner(count, firstPage, first)) == Pages(old(a[..]))
    {
      count, firstPage, first := PlanAt(a, i, count, firstPage, first);
    }
  }

  /** The body of the loop for child `i`. */
  method PlanAt(a: array<Child>, i: nat, count0: int, firstPage0: bool, first0: Option<nat>)
    returns (count: int, firstPage: bool, first: Option<nat>)
    requires i < a.Length && PlannerOk(a[..], i, Planner(count0, firstPage0, first0))
    modifies a
    ensures (a[..], Planner(count, firstPage, first)) == PageStep(old(a[..]), i, Planner(count0, firstPage0, first0))
  {
    count, firstPage, first := count0, firstPage0, first0;
    var elem := a[i];
    if !elem.Measure? {
      return;
    }
    var cutoff := if firstPage then 7 else 8;
    if IsLineBreak(elem) {
      count := count + 1;
    }
    if count == cutoff {
      if first.None? {
        first := Some(i);
        count := count - 1;
      } else {
        var res := ChooseBestBreak(a, first.value, i);
        count, firstPage, first := res, false, None;
      }
    }
  }

  /** `choose_best_break`, which writes the page break into the staff. */
  method ChooseBestBreak(a: array<Child>, firstIndex: nat, secondIndex: nat) returns (res: int)
    requires firstIndex < secondIndex < a.Length
    modifies a
    ensures (a[..], res) == ChooseBest(old(a[..]), firstIndex, secondIndex)
  {
    var nextFirst: Option<Child> := if firstIndex + 1 < a.Length then Some(a[firstIndex + 1]) else None;
    var nextSecond: Option<Child> := if secondIndex + 1 < a.Length then Some(a[secondIndex + 1]) else None;
    if nextFirst.Some? && HasMm(nextFirst.value) {
      a[firstIndex] := AddPageBreak(a[firstIndex]);
      return 1;
    } else if nextSecond.Some? && HasMm(nextSecond.value) {
      a[secondIndex] := AddPageBreak(a[secondIndex]);
      return 0;
    }
    if nextFirst.Some? && (HasRehearsalMarkMm(nextFirst.value) || HasDoubleBarMm(a[firstIndex])) {
      a[firstIndex] := AddPageBreak(a[firstIndex]);
      return 1;
    } else if nextSecond.Some? && (HasRehearsalMarkMm(nextSecond.value) || HasDoubleBarMm(a[secondIndex])) {
      a[secondIndex] := AddPageBreak(a[secondIndex]);
      return 0;
    } else {
      a[firstIndex] := AddPageBreak(a[firstIndex]);
      return 1;
    }
  }

  /** Number of real line breaks among the measures `t[lo..]`. */
  function LineBreaksFrom(t: seq<Child>, lo: nat): nat
    requires lo <= |t|
    decreases |t| - lo
  {
    if lo == |t| then 0 else (if IsLineBreak(t[lo]) then 1 else 0) + LineBreaksFrom(t, lo + 1)
  }

  /** While the remaining line breaks cannot fill the page, nothing changes. */
  lemma {:induction false} ShortRestUnchanged(t: seq<Child>, i: nat, p: Planner)
    requires i <= |t| && PlannerOk(t, i, p) && p.first.None?
    requires p.count + LineBreaksFrom(t, i) < Cutoff(p)
    ensures PagesFrom(t, i, p) == t
    decreases |t| - i
  {
    if i < |t| {
      ShortRestUnchanged(t, i + 1, PageStep(t, i, p).1);
    }
  }

  /** A staff with fewer than seven real line breaks gets no page break. */
  lemma FewLinesNoPageBreak(s: seq<Child>)
    requires LineBreaksFrom(s, 0) < 7
    ensures Pages(s) == s
  {
    ShortRestUnchanged(s, 0, Planner(0, true, None));
  }
}
