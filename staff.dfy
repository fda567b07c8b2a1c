/**
 * The part of a MuseScore document the layout engine works on: the children
 * of the first <Staff> element, in document order. A child is either a
 * <Measure> or some other element (a <VBox> title frame, for one). Only the
 * details the passes read or write are kept.
 */
module Staff {
  import opened Wrappers

  /** The text of a <LayoutBreak>'s <subtype> child. */
  datatype BreakKind = LineBreak | PageBreak | OtherBreak(subtype: string)

  /** A <Text> child of a frame: the text of its <style> child (if any) and of its <text> child. */
  datatype TextEntry = TextEntry(style: Option<string>, text: string)

  datatype Child =
    | Measure(
        breaks: seq<BreakKind>,     // the <LayoutBreak> children, first one first
        voiceRehearsalMark: bool,   // the first <voice> child holds a <RehearsalMark>
        voiceBarLine: bool,         // the first <voice> child holds a <BarLine>
        rehearsalMarkChild: bool,   // a <RehearsalMark> is a direct child of the measure
        barLineChild: bool,         // a <BarLine> is a direct child of the measure
        lenAttr: Option<string>,    // the `len` attribute of a multi-measure rest head
        restCount: Option<int>,     // the integer text of the <multiMeasureRest> child
        mm: Option<int>)            // the transient `_mm` attribute
    | Frame(tag: string, breaks: seq<BreakKind>, texts: seq<TextEntry>)

  /** `measure.find("LayoutBreak") is not None` */
  predicate HasBreak(c: Child) {
    |c.breaks| > 0
  }

  /** `elem.attrib.get("_mm") is not None` (only measures ever carry `_mm`) */
  predicate HasMm(c: Child) {
    c.Measure? && c.mm.Some?
  }

  /** `elem.attrib.get("len") is not None` */
  predicate HasLen(c: Child) {
    c.Measure? && c.lenAttr.Some?
  }

  /** `voice.find("RehearsalMark") is not None` for a measure with a voice. */
  predicate VoiceRehearsalMark(c: Child) {
    c.Measure? && c.voiceRehearsalMark
  }

  /** `voice.find("BarLine") is not None` for a measure with a voice. */
  predicate VoiceBarLine(c: Child) {
    c.Measure? && c.voiceBarLine
  }

  /** `d` is `c` with possibly different <LayoutBreak> children. */
  predicate SameButBreaks(c: Child, d: Child) {
    c.(breaks := d.breaks) == d
  }

  predicate AtMostOneBreak(c: Child) {
    |c.breaks| <= 1
  }

  predicate AllAtMostOneBreak(s: seq<Child>) {
    forall k :: 0 <= k < |s| ==> AtMostOneBreak(s[k])
  }

  /**
   * `_add_line_break_to_measure`: insert a line <LayoutBreak> in front of the
   * first <voice>. The <LayoutBreak>s of a measure come before its <voice>,
   * so the new break goes after them, and a break already there stays the
   * one `find("LayoutBreak")` returns.
   */
  function AddLineBreak(c: Child): (r: Child)
    ensures SameButBreaks(c, r) && r.breaks == c.breaks + [LineBreak]
    ensures HasBreak(c) ==> r.breaks[0] == c.breaks[0]
    ensures !HasBreak(c) ==> r.breaks == [LineBreak]
  {
    c.(breaks := c.breaks + [LineBreak])
  }

  /** `_add_line_break_to_measure_opt`: add a line break unless a break is already there. */
  function AddLineBreakOpt(c: Child): (r: Child)
    ensures SameButBreaks(c, r) && HasBreak(r)
    ensures HasBreak(c) ==> r == c
    ensures !HasBreak(c) ==> r.breaks == [LineBreak]
    ensures AtMostOneBreak(c) ==> AtMostOneBreak(r)
  {
    if HasBreak(c) then c else AddLineBreak(c)
  }

  /** `_remove_line_break_from_measure`: remove the first <LayoutBreak>, if any. */
  function RemoveFirstBreak(c: Child): (r: Child)
    ensures SameButBreaks(c, r)
    ensures HasBreak(c) ==> r.breaks == c.breaks[1..]
    ensures !HasBreak(c) ==> r == c
  {
    if HasBreak(c) then c.(breaks := c.breaks[1..]) else c
  }

  /**
   * `_add_page_break_to_measure`: turn the first <LayoutBreak>'s subtype into
   * "page", or insert a page break when there is none.
   */
  function AddPageBreak(c: Child): (r: Child)
    ensures SameButBreaks(c, r)
    ensures HasBreak(c) ==> |r.breaks| == |c.breaks| && r.breaks[0] == PageBreak && r.breaks[1..] == c.breaks[1..]
    ensures !HasBreak(c) ==> r.breaks == [PageBreak]
  {
    if HasBreak(c) then c.(breaks := [PageBreak] + c.breaks[1..]) else c.(breaks := [PageBreak])
  }

  lemma AddPageBreakIdempotent(c: Child)
    ensures AddPageBreak(AddPageBreak(c)) == AddPageBreak(c)
  {
  }

  /** `_make_show_number_text` */
  function ShowNumberText(showNumber: string): TextEntry {
    TextEntry(Some("user_2"), showNumber)
  }

  /** `_make_show_title_text` */
  function ShowTitleText(showTitle: string): TextEntry {
    TextEntry(Some("user_3"), showTitle)
  }

  /** `_make_part_name_text` */
  function PartNameText(partName: string): TextEntry {
    TextEntry(Some("instrument_excerpt"), partName)
  }
}
