/**
 * `getNewVersionNumber` of the upload page: the label the next version of
 * an arrangement will get, computed in the browser from the arrangement's
 * `latest_version_num` and shown beside each version type.
 */
module UploadVersionPage {
  import opened Wrappers
  import opened Text
  import opened VersionLabel
  import opened ArrangementVersions
  import opened LegacyModels

  /** A JavaScript number as this function meets it: an integer, or NaN. */
  datatype JsNumber = Num(n: int) | NaN

  /** A number in a template string: decimal, or "NaN". */
  function JsFormat(x: JsNumber): (r: string)
    ensures '.' !in r
  {
    if x.NaN? then "NaN" else IntToString(x.n)
  }

  /** `x + 1`, where NaN stays NaN. */
  function JsAdd1(x: JsNumber): (r: JsNumber)
    ensures r.NaN? <==> x.NaN?
    ensures x.Num? ==> r.n == x.n + 1
  {
    if x.NaN? then NaN else Num(x.n + 1)
  }

  /** The white space and line terminators `parseInt` skips before the number. */
  predicate IsJsSpace(c: char) {
    c == ' ' || c as int == 9 || c as int == 11 || c as int == 12 || c as int == 0xA0 || c as int == 0xFEFF ||
    c as int == 0x1680 || 0x2000 <= c as int <= 0x200A || c as int == 0x202F || c as int == 0x205F ||
    c as int == 0x3000 || c as int == 10 || c as int == 13 || c as int == 0x2028 || c as int == 0x2029
  }

  function JsTrimStart(s: string): (r: string)
    ensures r == [] || !IsJsSpace(r[0])
  {
    if s != [] && IsJsSpace(s[0]) then JsTrimStart(s[1..]) else s
  }

  /** The longest prefix of decimal digits. */
  function DigitPrefix(s: string): (d: string)
    ensures d <= s && AllDigits(d)
    ensures |d| < |s| ==> !IsDigit(s[|d|])
  {
    if s == [] || !IsDigit(s[0]) then [] else [s[0]] + DigitPrefix(s[1..])
  }

  /**
   * `parseInt(part, 10)`: leading white space, an optional sign, then as
   * many decimal digits as there are; NaN without any digit.
   */
  function JsParseInt(s: string): (r: JsNumber)
    ensures r.Num? ==> exists k :: 0 <= k < |s| && IsDigit(s[k])
  {
    var t := JsTrimStart(s);
    var negative := t != [] && t[0] == '-';
    var unsigned := if t != [] && (t[0] == '-' || t[0] == '+') then t[1..] else t;
    var digits := DigitPrefix(unsigned);
    if digits == [] then NaN
    else
      assert IsDigit(unsigned[0]);
      JsTrimStartContains(s, unsigned);
      var magnitude: int := DigitsValue(digits);
      Num(if negative then -magnitude else magnitude)
  }

  lemma {:induction false} JsTrimStartContains(s: string, u: string)
    requires u != [] && IsDigit(u[0])
    requires u == JsTrimStart(s) || (JsTrimStart(s) != [] && u == JsTrimStart(s)[1..])
    ensures exists k :: 0 <= k < |s| && IsDigit(s[k])
  {
    if s != [] && IsJsSpace(s[0]) {
      JsTrimStartContains(s[1..], u);
      var k :| 0 <= k < |s[1..]| && IsDigit(s[1..][k]);
      assert IsDigit(s[k + 1]);
    } else {
      var k := if u == s then 0 else 1;
      assert s[k] == u[0];
    }
  }

  /** `parseInt` reads back every integer the back end formats. */
  lemma JsParseIntToString(i: int)
    ensures JsParseInt(IntToString(i)) == Num(i)
  {
    var s := IntToString(i);
    var n: nat := if i < 0 then -i else i;
    var d := NatToString(n);
    DigitPrefixAll(d);
    DigitsValueOfNatToString(n);
    // the text starts with a digit or '-', so trimming leaves it alone
    assert IsDigit(d[0]);
    assert s[0] == '-' || s[0] == d[0];
    assert JsTrimStart(s) == s;
    if i < 0 {
      assert s[1..] == d;
    }
  }

  lemma {:induction false} DigitPrefixAll(d: string)
    requires AllDigits(d)
    ensures DigitPrefix(d) == d
  {
    if d != [] {
      DigitPrefixAll(d[1..]);
    }
  }

  /** The `while (versionParts.length < 3) versionParts.push(0)` padding. */
  function Padded(xs: seq<JsNumber>): (r: seq<JsNumber>)
    ensures |xs| >= 3 ==> r == xs
    ensures |xs| < 3 ==> |r| == 3 && r[..|xs|] == xs && forall i :: |xs| <= i < 3 ==> r[i] == Num(0)
    decreases 3 - |xs|
  {
    if |xs| >= 3 then xs else Padded(xs + [Num(0)])
  }

  /** `currentVersion.split('.').map(part => parseInt(part, 10))` */
  function ParsedParts(current: string): (r: seq<JsNumber>)
    ensures |r| == |Split(current, '.')| && 0 < |r|
    ensures forall i :: 0 <= i < |r| ==> r[i] == JsParseInt(Split(current, '.')[i])
  {
    var parts := Split(current, '.');
    seq(|parts|, i requires 0 <= i < |parts| => JsParseInt(parts[i]))
  }

  datatype Numbers = Numbers(major: JsNumber, minor: JsNumber, patch: JsNumber)

  /**
   * The destructured `[major, minor, patch]` after the padding and the NaN
   * check: a missing component is 0, a NaN major is 0, further components
   * are ignored.
   */
  function CurrentNumbers(current: string): (r: Numbers)
    ensures var parsed := ParsedParts(current);
      r.major == (if parsed[0].NaN? then Num(0) else parsed[0]) &&
      r.minor == (if |parsed| > 1 then parsed[1] else Num(0)) &&
      r.patch == (if |parsed| > 2 then parsed[2] else Num(0))
  {
    var padded := Padded(ParsedParts(current));
    Numbers(if padded[0].NaN? then Num(0) else padded[0], padded[1], padded[2])
  }

  /** `type || versionType`: an empty or missing argument falls back to the page's state. */
  function TargetType(typeArg: Option<string>, versionType: string): string {
    if typeArg.Some? && typeArg.value != "" then typeArg.value else versionType
  }

  /** The `switch (targetType)`. */
  function BumpNumbers(targetType: string, x: Numbers): (r: Numbers)
    ensures targetType == "major" ==> r == Numbers(JsAdd1(x.major), Num(0), Num(0))
    ensures targetType == "minor" ==> r == Numbers(x.major, JsAdd1(x.minor), Num(0))
    ensures targetType == "patch" ==> r == Numbers(x.major, x.minor, JsAdd1(x.patch))
    ensures targetType != "major" && targetType != "minor" && targetType != "patch" ==> r == x
  {
    match targetType
    case "major" => x.(major := JsAdd1(x.major), minor := Num(0), patch := Num(0))
    case "minor" => x.(minor := JsAdd1(x.minor), patch := Num(0))
    case "patch" => x.(patch := JsAdd1(x.patch))
    case _ => x
  }

  /** The template string `${major}.${minor}.${patch}`: it splits back into its three numbers. */
  function FormatNumbers(x: Numbers): (r: string)
    ensures Split(r, '.') == [JsFormat(x.major), JsFormat(x.minor), JsFormat(x.patch)]
  {
    var major, minor, patch := JsFormat(x.major), JsFormat(x.minor), JsFormat(x.patch);
    JoinThree(major, minor, patch, '.');
    SplitJoin([major, minor, patch], '.');
    major + "." + minor + "." + patch
  }

  /** What `getNewVersionNumber(type)` returns; `latestVersionNum` is None when there is no arrangement. */
  function NewVersionNumber(latestVersionNum: Option<string>, typeArg: Option<string>, versionType: string): (r: string)
    ensures latestVersionNum.None? || latestVersionNum.value == "" ==> r == "1.0.0"
    ensures |Split(r, '.')| == 3
  {
    if latestVersionNum.None? || latestVersionNum.value == "" then "1.0.0"
    else FormatNumbers(BumpNumbers(TargetType(typeArg, versionType), CurrentNumbers(latestVersionNum.value)))
  }

  /** `getNewVersionNumber(type)`, step by step. */
  method GetNewVersionNumber(latestVersionNum: Option<string>, typeArg: Option<string>, versionType: string)
    returns (r: string)
    ensures r == NewVersionNumber(latestVersionNum, typeArg, versionType)
  {
    if latestVersionNum.None? || latestVersionNum.value == "" {
      return "1.0.0";
    }
    var currentVersion := latestVersionNum.value;
    var parts := Split(currentVersion, '.');
    var versionParts := seq(|parts|, i requires 0 <= i < |parts| => JsParseInt(parts[i]));
    assert versionParts == ParsedParts(currentVersion);
    while |versionParts| < 3
      invariant 0 < |versionParts|
      invariant Padded(versionParts) == Padded(ParsedParts(currentVersion))
      decreases 3 - |versionParts|
    {
      versionParts := versionParts + [Num(0)];
    }
    var major, minor, patch := versionParts[0], versionParts[1], versionParts[2];
    if major.NaN? {
      major := Num(0);
    }
    var targetType := if typeArg.Some? && typeArg.value != "" then typeArg.value else versionType;
    if targetType == "major" {
      major := JsAdd1(major);
      minor := Num(0);
      patch := Num(0);
    } else if targetType == "minor" {
      minor := JsAdd1(minor);
      patch := Num(0);
    } else if targetType == "patch" {
      patch := JsAdd1(patch);
    }
    r := JsFormat(major) + "." + JsFormat(minor) + "." + JsFormat(patch);
  }

  // ------------------------------------------------ agreement with the back end

  /** The numbers of a triple, as the page holds them. */
  function NumbersOf(t: Triple): Numbers {
    Numbers(Num(t.major), Num(t.minor), Num(t.patch))
  }

  /** The page's switch on numbers does what `_bump_version_label` does on triples, for the types the page offers. */
  lemma BumpNumbersOfTriple(targetType: string, t: Triple)
    requires targetType == "major" || targetType == "minor" || targetType == "patch"
    ensures BumpNumbers(targetType, NumbersOf(t)) == NumbersOf(BumpTriple(targetType, t))
    ensures FormatNumbers(NumbersOf(BumpTriple(targetType, t))) == FormatLabel(BumpTriple(targetType, t))
  {
  }

  /** The numbers the page reads from a label the back end formatted are that label's numbers. */
  lemma CurrentNumbersOfLabel(t: Triple)
    ensures CurrentNumbers(FormatLabel(t)) == NumbersOf(t)
  {
    var parts := [IntToString(t.major), IntToString(t.minor), IntToString(t.patch)];
    JoinThree(parts[0], parts[1], parts[2], '.');
    SplitJoin(parts, '.');
    JsParseIntToString(t.major);
    JsParseIntToString(t.minor);
    JsParseIntToString(t.patch);
  }

  /** "N/A" has no '.' and no digit, so the page reads it as NaN, padded with zeros, and the NaN major becomes 0. */
  lemma CurrentNumbersOfNotAvailable()
    ensures CurrentNumbers("N/A") == NumbersOf(Triple(0, 0, 0))
  {
    SplitNoSeparator("N/A", '.');
    var parsed := ParsedParts("N/A");
    assert |parsed| == 1;
    assert parsed[0] == JsParseInt("N/A");
    assert JsTrimStart("N/A") == "N/A";
    assert DigitPrefix("N/A") == [];
  }

  /** For the three types the page offers, it shows exactly the label `_bump_version_label` makes. */
  lemma PageMatchesBump(t: Triple, targetType: string, versionType: string)
    requires targetType == "major" || targetType == "minor" || targetType == "patch"
    ensures BumpVersionLabel(targetType, FormatLabel(t)) ==
            Some(NewVersionNumber(Some(FormatLabel(t)), Some(targetType), versionType))
  {
    var formatted, bumped := FormatLabel(t), BumpTriple(targetType, t);
    assert formatted != "";
    CurrentNumbersOfLabel(t);
    BumpNumbersOfTriple(targetType, t);
    assert NewVersionNumber(Some(formatted), Some(targetType), versionType) == FormatLabel(bumped);
    ParseFormat(t);
    assert BumpVersionLabel(targetType, formatted) == Some(FormatLabel(bumped));
  }

  /**
   * Without a latest version the back end reports "N/A", which the page
   * reads as 0.0.0, the label the back end bumps from in that case.
   */
  lemma PageWithoutLatest(targetType: string, versionType: string)
    requires targetType == "major" || targetType == "minor" || targetType == "patch"
    ensures BumpVersionLabel(targetType, InitialLabel) ==
            Some(NewVersionNumber(Some("N/A"), Some(targetType), versionType))
  {
    var zero := Triple(0, 0, 0);
    CurrentNumbersOfNotAvailable();
    CurrentNumbersOfLabel(zero);
    assert NewVersionNumber(Some("N/A"), Some(targetType), versionType) ==
           NewVersionNumber(Some(FormatLabel(zero)), Some(targetType), versionType);
    PageMatchesBump(zero, targetType, versionType);
    InitialLabelParses();
    ParseFormat(zero);
  }

  /**
   * The label shown for a version type is the one a save with that type
   * gives the new version, whenever the arrangement's latest label is one
   * the back end formatted or there is none.
   */
  lemma PagePredictsSave(db: Db, inst: Instance, targetType: string, t: Triple)
    requires targetType == "major" || targetType == "minor" || targetType == "patch"
    requires FirstLatest(db.rows, inst.arrangement).None? || LatestLabel(db.rows, inst.arrangement) == FormatLabel(t)
    ensures SaveSpec(db, inst, Some(targetType)).Some?
    ensures NewVersionNumber(Some(LatestVersionNum(db.rows, inst.arrangement)), Some(targetType), "") ==
            SaveSpec(db, inst, Some(targetType)).value.1.versionLabel
  {
    var a := inst.arrangement;
    assert SaveSpec(db, inst, Some(targetType)) == BumpAndWrite(db, inst, targetType);
    var shown := NewVersionNumber(Some(LatestVersionNum(db.rows, a)), Some(targetType), "");
    if FirstLatest(db.rows, a).None? {
      PageWithoutLatest(targetType, "");
      assert LatestLabel(db.rows, a) == InitialLabel;
    } else {
      PageMatchesBump(t, targetType, "");
    }
    assert BumpVersionLabel(targetType, LatestLabel(db.rows, a)) == Some(shown);
    BumpSavesBumpedLabel(db, inst, targetType);
  }

  /** An explicit, non-empty type argument decides the type, whatever the page's state is. */
  lemma TypeArgOverrides(latestVersionNum: Option<string>, typeArg: string, versionType: string)
    requires typeArg != ""
    ensures NewVersionNumber(latestVersionNum, Some(typeArg), versionType) ==
            NewVersionNumber(latestVersionNum, None, typeArg)
  {
  }

  /** An unknown type shows the current label of a formatted label unchanged. */
  lemma UnknownTypeKeepsLabel(t: Triple, targetType: string)
    requires targetType != "major" && targetType != "minor" && targetType != "patch"
    ensures NewVersionNumber(Some(FormatLabel(t)), Some(targetType), "") == FormatLabel(t)
  {
    CurrentNumbersOfLabel(t);
  }
}
