/**
 * The layout part of `process_mscx`: the passes run in a fixed order over
 * the first staff, and any exception a pass raises abandons the document.
 */
module Pipeline {
  import opened Wrappers
  import opened Staff
  import opened Rests
  import opened MarkBreaks
  import opened RegularBreaks
  import opened Balancing
  import opened PageBreaks
  import opened Headers

  /** `add_part_name` is called without a name, so the default is used. */
  const DefaultPartName := "CONDUCTOR SCORE"

  /** `NUM_MEASURES_PER_LINE`, the default of `measures_per_line`. */
  const NumMeasuresPerLine := 6

  /** The staff after the first four passes, or None when one of them raised. */
  function Marked(s: seq<Child>): (r: Option<seq<Child>>)
    ensures r.Some? ==> |r.value| == |s|
  {
    var stripped := Strip(s);
    if !WellFormedRests(stripped) then None
    else
      var marked := MarkRests(stripped);
      if RehearsalPassFails(marked) then None
      else
        var rehearsal := RehearsalBreaks(marked);
        if DoubleBarPassFails(rehearsal) then None
        else Some(DoubleBarBreaks(rehearsal))
  }

  /** The passes after the double bars, none of which can raise. */
  function Finish(d: seq<Child>, style: Style, measuresPerLine: int, showNumber: string, showTitle: string)
    : (r: seq<Child>)
    ensures |r| == |d|
  {
    var regular := RegularLineBreaks(d, measuresPerLine);
    var balanced := Balance(regular);
    var paged := Pages(balanced);
    var cleaned := Cleanup(paged);
    var headed := if style == Broadway then BroadwayHeader(cleaned, showNumber, showTitle) else cleaned;
    WithPartName(headed, DefaultPartName)
  }

  /** The first staff after `process_mscx`, or None when a pass raised. */
  function Layout(s: seq<Child>, style: Style, measuresPerLine: int, showNumber: string, showTitle: string)
    : (r: Option<seq<Child>>)
    ensures r.Some? ==> |r.value| == |s|
  {
    var m := Marked(s);
    if m.None? then None else Some(Finish(m.value, style, measuresPerLine, showNumber, showTitle))
  }

  /** The staff part of `process_mscx`, pass by pass. */
  method ProcessStaff(a: array<Child>, style: Style, measuresPerLine: int, showNumber: string, showTitle: string)
    returns (ok: bool)
    modifies a
    ensures ok == Layout(old(a[..]), style, measuresPerLine, showNumber, showTitle).Some?
    ensures ok ==> a[..] == Layout(old(a[..]), style, measuresPerLine, showNumber, showTitle).value
  {
    StripExistingLinebreaks(a);
    ok := PrepMmRests(a);
    if !ok {
      return;
    }
    ok := AddRehearsalMarkLineBreaks(a);
    if !ok {
      return;
    }
    ok := AddDoubleBarLineBreaks(a);
    if !ok {
      return;
    }
    AddRegularLineBreaks(a, measuresPerLine);
    NewFinalPassThrough(a);
    AddPageBreaks(a);
    CleanupMmRests(a);
    if style == Broadway {
      AddBroadwayHeader(a, showNumber, showTitle);
    }
    AddPartName(a, DefaultPartName);
  }

  /**
   * The document is abandoned exactly when a rest head lacks its count, or
   * the first child is a measure whose voice has a rehearsal mark or a bar line.
   */
  lemma LayoutFails(s: seq<Child>, style: Style, measuresPerLine: int, showNumber: string, showTitle: string)
    ensures Layout(s, style, measuresPerLine, showNumber, showTitle).None? <==>
      !WellFormedRests(s) || (|s| > 0 && (VoiceRehearsalMark(s[0]) || VoiceBarLine(s[0])))
  {
    MarkedFails(s);
  }

  lemma MarkedFails(s: seq<Child>)
    ensures Marked(s).None? <==>
      !WellFormedRests(s) || (|s| > 0 && (VoiceRehearsalMark(s[0]) || VoiceBarLine(s[0])))
  {
    var stripped := Strip(s);
    assert WellFormedRests(stripped) <==> WellFormedRests(s) by {
      assert forall k :: 0 <= k < |s| ==> (IsRestHead(stripped[k]) <==> IsRestHead(s[k]));
    }
    if WellFormedRests(s) && |s| > 0 {
      var marked := MarkRests(stripped);
      assert VoiceRehearsalMark(marked[0]) == VoiceRehearsalMark(s[0]);
      assert VoiceBarLine(RehearsalBreaks(marked)[0]) == VoiceBarLine(s[0]);
    }
  }

  /** No `_mm` marker survives a successful layout. */
  lemma LayoutLeavesNoMarker(s: seq<Child>, style: Style, measuresPerLine: int, showNumber: string, showTitle: string)
    requires Layout(s, style, measuresPerLine, showNumber, showTitle).Some?
    ensures forall k :: 0 <= k < |s| ==> !HasMm(Layout(s, style, measuresPerLine, showNumber, showTitle).value[k])
  {
    FinishLeavesNoMarker(Marked(s).value, style, measuresPerLine, showNumber, showTitle);
  }

  lemma FinishLeavesNoMarker(d: seq<Child>, style: Style, measuresPerLine: int, showNumber: string, showTitle: string)
    ensures forall k :: 0 <= k < |d| ==> !HasMm(Finish(d, style, measuresPerLine, showNumber, showTitle)[k])
  {
    var cleaned := Cleanup(Pages(Balance(RegularLineBreaks(d, measuresPerLine))));
    var headed := if style == Broadway then BroadwayHeader(cleaned, showNumber, showTitle) else cleaned;
    assert forall k :: 0 <= k < |d| ==> !HasMm(headed[k]);
  }

  /** If no child starts with more than one break, none ends with more than one. */
  lemma LayoutKeepsOneBreak(s: seq<Child>, style: Style, measuresPerLine: int, showNumber: string, showTitle: string)
    requires AllAtMostOneBreak(s)
    requires Layout(s, style, measuresPerLine, showNumber, showTitle).Some?
    ensures AllAtMostOneBreak(Layout(s, style, measuresPerLine, showNumber, showTitle).value)
  {
    MarkedKeepsOneBreak(s);
    FinishKeepsOneBreak(Marked(s).value, style, measuresPerLine, showNumber, showTitle);
  }

  lemma MarkedKeepsOneBreak(s: seq<Child>)
    requires AllAtMostOneBreak(s) && Marked(s).Some?
    ensures AllAtMostOneBreak(Marked(s).value)
  {
    var stripped := Strip(s);
    var marked := MarkRests(stripped);
    assert AllAtMostOneBreak(marked) by {
      assert forall k :: 0 <= k < |s| ==> SameButMm(stripped[k], marked[k]);
    }
    assert AllAtMostOneBreak(RehearsalBreaks(marked));
  }

  lemma FinishKeepsOneBreak(d: seq<Child>, style: Style, measuresPerLine: int, showNumber: string, showTitle: string)
    requires AllAtMostOneBreak(d)
    ensures AllAtMostOneBreak(Finish(d, style, measuresPerLine, showNumber, showTitle))
  {
    var balanced := Balance(RegularLineBreaks(d, measuresPerLine));
    assert AllAtMostOneBreak(balanced);
    var cleaned := Cleanup(Pages(balanced));
    assert AllAtMostOneBreak(cleaned);
    var headed := if style == Broadway then BroadwayHeader(cleaned, showNumber, showTitle) else cleaned;
    assert AllAtMostOneBreak(headed);
  }
}
