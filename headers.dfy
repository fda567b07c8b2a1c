/**
 * The title-frame texts (`add_broadway_header`, `add_part_name`) and the
 * choice of style sheet for the score and its parts
 * (`add_styles_to_score_and_parts`).
 */
module Headers {
  import opened Wrappers
  import opened Text
  import opened Staff

  predicate IsVBox(c: Child) {
    c.Frame? && c.tag == "VBox"
  }

  /** The index of the first <VBox> child of the staff, if any. */
  function FirstVBox(s: seq<Child>): (r: Option<nat>)
    ensures r.Some? ==> r.value < |s| && IsVBox(s[r.value]) &&
                        forall k :: 0 <= k < r.value ==> !IsVBox(s[k])
    ensures r.None? ==> forall k :: 0 <= k < |s| ==> !IsVBox(s[k])
  {
    if s == [] then None
    else if IsVBox(s[0]) then Some(0)
    else
      var rest := FirstVBox(s[1..]);
      if rest.Some? then Some(rest.value + 1) else None
  }

  /** `s` with `extra` appended to the texts of the first <VBox>, if there is one. */
  function AppendToFirstVBox(s: seq<Child>, extra: seq<TextEntry>): (r: seq<Child>)
    ensures |r| == |s|
    ensures forall k :: 0 <= k < |s| ==> r[k].breaks == s[k].breaks && r[k].Measure? == s[k].Measure?
    ensures FirstVBox(s).None? ==> r == s
    ensures FirstVBox(s).Some? ==>
      var v := FirstVBox(s).value;
      r == s[v := s[v].(texts := s[v].texts + extra)]
  {
    var v := FirstVBox(s);
    if v.None? then s else s[v.value := s[v.value].(texts := s[v.value].texts + extra)]
  }

  /** The staff after `add_broadway_header`. */
  function BroadwayHeader(s: seq<Child>, showNumber: string, showTitle: string): (r: seq<Child>)
    ensures |r| == |s|
    ensures forall k :: 0 <= k < |s| ==> r[k].breaks == s[k].breaks && (s[k].Measure? ==> r[k] == s[k])
  {
    AppendToFirstVBox(s, [ShowNumberText(showNumber), ShowTitleText(showTitle)])
  }

  /** The first <VBox> gets the show number and the show title, in that order, after its other texts. */
  lemma BroadwayHeaderTexts(s: seq<Child>, showNumber: string, showTitle: string)
    requires FirstVBox(s).Some?
    ensures var v := FirstVBox(s).value;
            var r := BroadwayHeader(s, showNumber, showTitle);
            |r[v].texts| == |s[v].texts| + 2 &&
            r[v].texts[..|s[v].texts|] == s[v].texts &&
            r[v].texts[|s[v].texts|] == TextEntry(Some("user_2"), showNumber) &&
            r[v].texts[|s[v].texts| + 1] == TextEntry(Some("user_3"), showTitle) &&
            forall k :: 0 <= k < |s| && k != v ==> r[k] == s[k]
  {
    var v := FirstVBox(s).value;
    var r := BroadwayHeader(s, showNumber, showTitle);
    assert r[v].texts == s[v].texts + [ShowNumberText(showNumber), ShowTitleText(showTitle)];
  }

  /** `add_broadway_header`: only the first <VBox> is changed. */
  method AddBroadwayHeader(a: array<Child>, showNumber: string, showTitle: string)
    modifies a
    ensures a[..] == BroadwayHeader(old(a[..]), showNumber, showTitle)
  {
    var i := 0;
    while i < a.Length
      invariant 0 <= i <= a.Length
      invariant forall k :: 0 <= k < i ==> !IsVBox(a[k])
      invariant a[..] == old(a[..])
    {
      if IsVBox(a[i]) {
        assert FirstVBox(a[..]) == Some(i);
        a[i] := a[i].(texts := a[i].texts + [ShowNumberText(showNumber), ShowTitleText(showTitle)]);
        return;
      }
      i := i + 1;
    }
  }

  /** A <Text> of the frame has the "instrument_excerpt" style. */
  predicate HasPartNameText(texts: seq<TextEntry>) {
    exists k :: 0 <= k < |texts| && texts[k].style == Some("instrument_excerpt")
  }

  /** The staff after `add_part_name`: a part-name text unless the first <VBox> already has one. */
  function WithPartName(s: seq<Child>, partName: string): (r: seq<Child>)
    ensures |r| == |s|
    ensures forall k :: 0 <= k < |s| ==> r[k].breaks == s[k].breaks && (s[k].Measure? ==> r[k] == s[k])
    ensures FirstVBox(s).None? ==> r == s
    ensures FirstVBox(s).Some? && HasPartNameText(s[FirstVBox(s).value].texts) ==> r == s
    ensures FirstVBox(s).Some? ==> IsVBox(r[FirstVBox(s).value]) && HasPartNameText(r[FirstVBox(s).value].texts)
    ensures forall k :: 0 <= k < |s| && FirstVBox(s) != Some(k) ==> r[k] == s[k]
    // without a part-name text, the name's text is appended after the frame's other texts
    ensures FirstVBox(s).Some? && !HasPartNameText(s[FirstVBox(s).value].texts) ==>
      r == AppendToFirstVBox(s, [PartNameText(partName)])
  {
    var v := FirstVBox(s);
    if v.None? || HasPartNameText(s[v.value].texts) then s
    else
      var r := AppendToFirstVBox(s, [PartNameText(partName)]);
      assert r[v.value].texts[|s[v.value].texts|] == PartNameText(partName);
      r
  }

  /**
   * A first <VBox> without a part-name text keeps its texts and gets one
   * more, the "instrument_excerpt" text holding the name, at the end.
   */
  lemma PartNameTexts(s: seq<Child>, partName: string)
    requires FirstVBox(s).Some? && !HasPartNameText(s[FirstVBox(s).value].texts)
    ensures var v := FirstVBox(s).value;
            var r := WithPartName(s, partName);
            |r[v].texts| == |s[v].texts| + 1 &&
            r[v].texts[..|s[v].texts|] == s[v].texts &&
            r[v].texts[|s[v].texts|] == TextEntry(Some("instrument_excerpt"), partName) &&
            forall k :: 0 <= k < |s| && k != v ==> r[k] == s[k]
  {
    var v := FirstVBox(s).value;
    var r := WithPartName(s, partName);
    assert r[v].texts == s[v].texts + [PartNameText(partName)];
  }

  /** Adding the part name twice, whatever the names, is adding it once. */
  lemma PartNameIdempotent(s: seq<Child>, name1: string, name2: string)
    ensures WithPartName(WithPartName(s, name1), name2) == WithPartName(s, name1)
  {
    var r := WithPartName(s, name1);
    if FirstVBox(s).Some? {
      var v := FirstVBox(s).value;
      assert forall k :: 0 <= k < v ==> r[k] == s[k];
      assert IsVBox(r[v]);
      assert FirstVBox(r) == Some(v);
    } else {
      assert r == s;
    }
  }

  /** `add_part_name` */
  method AddPartName(a: array<Child>, partName: string)
    modifies a
    ensures a[..] == WithPartName(old(a[..]), partName)
  {
    var i := 0;
    while i < a.Length
      invariant 0 <= i <= a.Length
      invariant forall k :: 0 <= k < i ==> !IsVBox(a[k])
      invariant a[..] == old(a[..])
    {
      var elem := a[i];
      if IsVBox(elem) {
        assert FirstVBox(a[..]) == Some(i);
        var j := 0;
        while j < |elem.texts|
          invariant 0 <= j <= |elem.texts|
          invariant forall k :: 0 <= k < j ==> elem.texts[k].style != Some("instrument_excerpt")
        {
          if elem.texts[j].style == Some("instrument_excerpt") {
            return;
          }
          j := j + 1;
        }
        a[i] := elem.(texts := elem.texts + [PartNameText(partName)]);
        return;
      }
      i := i + 1;
    }
  }

  // ------------------------------------------------------------------ styles

  /** The `Style` enum; `Style(name)` raises for any other name. */
  datatype Style = Broadway | Jazz

  function StyleFromName(name: string): (r: Option<Style>)
    ensures r == Some(Broadway) <==> name == "broadway"
    ensures r == Some(Jazz) <==> name == "jazz"
  {
    if name == "broadway" then Some(Broadway)
    else if name == "jazz" then Some(Jazz)
    else None
  }

  /** `os.path.join(dir, name)` for a relative `name`. */
  function PathJoin(dir: string, name: string): (r: string)
    ensures dir <= r && EndsWith(r, name)
    ensures dir != [] && !EndsWith(dir, "/") ==> |r| > |dir| && r[|dir|] == '/'
  {
    if dir == [] || EndsWith(dir, "/") then dir + name else dir + "/" + name
  }

  /** The (score, part) style sheets for a style, under the styles directory. */
  function StyleSheets(style: Style, stylesDir: string): (r: (string, string))
    ensures style == Broadway ==> EndsWith(r.0, "broadway_score.mss") && EndsWith(r.1, "broadway_part.mss")
    ensures style == Jazz ==> EndsWith(r.0, "jazz_score.mss") && EndsWith(r.1, "jazz_part.mss")
    ensures r.0 != r.1
  {
    match style
    case Broadway => (PathJoin(stylesDir, "broadway_score.mss"), PathJoin(stylesDir, "broadway_part.mss"))
    case Jazz => (PathJoin(stylesDir, "jazz_score.mss"), PathJoin(stylesDir, "jazz_part.mss"))
  }

  /**
   * The sheet copied over a file of the unpacked score: none for a file that
   * is not a style sheet, the part sheet inside an "Excerpts" path, the score
   * sheet otherwise.
   */
  function SheetFor(style: Style, stylesDir: string, relPath: string, fileName: string): (r: Option<string>)
    ensures r.None? <==> !EndsWith(LowerAscii(fileName), ".mss")
    ensures r.Some? && Contains(relPath, "Excerpts") ==> r.value == StyleSheets(style, stylesDir).1
    ensures r.Some? && !Contains(relPath, "Excerpts") ==> r.value == StyleSheets(style, stylesDir).0
  {
    if !EndsWith(LowerAscii(fileName), ".mss") then None
    else if Contains(relPath, "Excerpts") then Some(StyleSheets(style, stylesDir).1)
    else Some(StyleSheets(style, stylesDir).0)
  }

  /** The file-name test ignores ASCII case: "style.MSS" and "style.Mss" are style sheets too. */
  lemma {:induction false} SheetForIgnoresCase(style: Style, stylesDir: string, relPath: string, fileName: string, suffix: string)
    requires |suffix| == 4 && EndsWith(fileName, suffix) && LowerAscii(suffix) == ".mss"
    ensures SheetFor(style, stylesDir, relPath, fileName).Some?
  {
    var n := |fileName|;
    var lower := LowerAscii(fileName);
    assert lower[n - 4..] == LowerAscii(fileName[n - 4..]);
  }
}
