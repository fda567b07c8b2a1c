/**
 * `increment_version` of the older scores app: bumps a label of the form
 * "vM.m.p" by a version type ("major", "minor" or "release").
 */
module ScoresVersions {
  import opened Wrappers
  import opened Text
  import opened VersionLabel

  /** The exceptions `increment_version` can raise: the type check, and the indexing or `int()` of a character. */
  datatype VersionError = InvalidType | IndexError | ValueError

  predicate ValidType(versionType: string) {
    versionType == "major" || versionType == "minor" || versionType == "release"
  }

  /** `int(version[k])`: the single character at index `k` read as a digit. */
  function DigitAt(version: string, k: nat): (r: Result<int, VersionError>)
    ensures r.Ok? <==> k < |version| && IsDigit(version[k])
    ensures r == Err(IndexError) <==> k >= |version|
    ensures r.Ok? ==> 0 <= r.value < 10 && version[k] == DigitChar(r.value)
  {
    if k >= |version| then Err(IndexError)
    else if !IsDigit(version[k]) then Err(ValueError)
    else Ok(DigitValue(version[k]))
  }

  /** The label as written: the type is checked, then the characters at 1, 3 and 5 are read, left to right. */
  function IncrementVersion(version: string, versionType: string): (r: Result<string, VersionError>)
    ensures !ValidType(versionType) ==> r == Err(InvalidType)
    ensures r.Ok? <==>
      ValidType(versionType) && |version| > 5 &&
      IsDigit(version[1]) && IsDigit(version[3]) && IsDigit(version[5])
    // the output always has the form "v{a}.{b}.{c}", and (a, b, c) is the bump of the three digits read
    ensures r.Ok? ==>
      0 < |r.value| && r.value[0] == 'v' &&
      ParseLabel(r.value[1..]) == Some(BumpTriple(versionType,
        Triple(DigitValue(version[1]), DigitValue(version[3]), DigitValue(version[5]))))
  {
    if !ValidType(versionType) then Err(InvalidType)
    else
      var major := DigitAt(version, 1);
      if major.Err? then Err(major.error)
      else
        var minor := DigitAt(version, 3);
        if minor.Err? then Err(minor.error)
        else
          var patch := DigitAt(version, 5);
          if patch.Err? then Err(patch.error)
          else
            var bumped := BumpTriple(versionType, Triple(major.value, minor.value, patch.value));
            ParseFormat(bumped);
            assert ("v" + FormatLabel(bumped))[1..] == FormatLabel(bumped);
            Ok("v" + FormatLabel(bumped))
  }

  /**
   * Reading one character per component silently truncates a component
   * with more than one digit: a release of a label with a two-digit patch,
   * such as "v1.2.10", reads only the patch's first digit and gives a label
   * lower than the one it increments ("v1.2.2").
   */
  lemma IncrementVersionGoesBackwards(t: Triple)
    requires 0 <= t.major < 10 && 0 <= t.minor < 10 && 10 <= t.patch < 100
    ensures var r := IncrementVersion("v" + FormatLabel(t), "release");
      r.Ok? && ParseLabel(r.value[1..]) == Some(Triple(t.major, t.minor, t.patch / 10 + 1)) &&
      Less(ParseLabel(r.value[1..]).value, t)
  {
    var version := "v" + FormatLabel(t);
    assert IntToString(t.major) == [DigitChar(t.major)];
    assert IntToString(t.minor) == [DigitChar(t.minor)];
    assert NatToString(t.patch / 10) == [DigitChar(t.patch / 10)];
    assert IntToString(t.patch) == [DigitChar(t.patch / 10), DigitChar(t.patch % 10)];
    assert version == ['v', DigitChar(t.major), '.', DigitChar(t.minor), '.', DigitChar(t.patch / 10), DigitChar(t.patch % 10)];
    assert DigitValue(version[5]) == t.patch / 10;
  }

  /**
   * The evidently intended `increment_version`: the text after the "v" is
   * parsed as a whole "major.minor.patch" label, as the back end's
   * `_bump_version_label` does.
   */
  function IncrementVersionFixed(version: string, versionType: string): (r: Result<string, VersionError>)
    ensures !ValidType(versionType) ==> r == Err(InvalidType)
    ensures r.Ok? <==>
      ValidType(versionType) && 0 < |version| && version[0] == 'v' && ParseLabel(version[1..]).Some?
    ensures r.Ok? ==>
      0 < |r.value| && r.value[0] == 'v' &&
      ParseLabel(r.value[1..]) == Some(BumpTriple(versionType, ParseLabel(version[1..]).value))
  {
    if !ValidType(versionType) then Err(InvalidType)
    else if |version| == 0 || version[0] != 'v' then Err(ValueError)
    else
      var parsed := ParseLabel(version[1..]);
      if parsed.None? then Err(ValueError)
      else
        var bumped := BumpTriple(versionType, parsed.value);
        ParseFormat(bumped);
        assert ("v" + FormatLabel(bumped))[1..] == FormatLabel(bumped);
        Ok("v" + FormatLabel(bumped))
  }

  /** Every increment of the corrected version is a strictly greater label, which can itself be incremented. */
  lemma FixedIncreases(version: string, versionType: string, nextType: string)
    requires IncrementVersionFixed(version, versionType).Ok?
    requires ValidType(nextType)
    ensures var out := IncrementVersionFixed(version, versionType).value;
      Less(ParseLabel(version[1..]).value, ParseLabel(out[1..]).value) &&
      IncrementVersionFixed(out, nextType).Ok?
  {
  }

  /** On labels whose components are single digits, the code as written and the corrected version agree. */
  lemma FixedAgreesOnSingleDigits(t: Triple, versionType: string)
    requires 0 <= t.major < 10 && 0 <= t.minor < 10 && 0 <= t.patch < 10
    ensures IncrementVersion("v" + FormatLabel(t), versionType) ==
            IncrementVersionFixed("v" + FormatLabel(t), versionType)
  {
    var version := "v" + FormatLabel(t);
    SingleDigitLabel(t);
    assert version[1..] == FormatLabel(t);
    ParseFormat(t);
    if ValidType(versionType) {
      // both read the triple `t` back, so both format the same bump
      assert DigitAt(version, 1) == Ok(t.major);
      assert DigitAt(version, 3) == Ok(t.minor);
      assert DigitAt(version, 5) == Ok(t.patch);
      var bumped := BumpTriple(versionType, t);
      assert IncrementVersion(version, versionType) == Ok("v" + FormatLabel(bumped));
      assert IncrementVersionFixed(version, versionType) == Ok("v" + FormatLabel(bumped));
    }
  }

  /** A label of single digits is six characters: 'v', a digit, '.', a digit, '.', a digit. */
  lemma SingleDigitLabel(t: Triple)
    requires 0 <= t.major < 10 && 0 <= t.minor < 10 && 0 <= t.patch < 10
    ensures "v" + FormatLabel(t) == ['v', DigitChar(t.major), '.', DigitChar(t.minor), '.', DigitChar(t.patch)]
  {
    assert IntToString(t.major) == [DigitChar(t.major)];
    assert IntToString(t.minor) == [DigitChar(t.minor)];
    assert IntToString(t.patch) == [DigitChar(t.patch)];
  }
}
