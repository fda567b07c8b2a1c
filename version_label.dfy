/**
 * Version labels "major.minor.patch" and `_bump_version_label`, which both
 * `ArrangementVersion` models of the back end share.
 */
module VersionLabel {
  import opened Wrappers
  import opened Text

  datatype Triple = Triple(major: int, minor: int, patch: int)

  /** Lexicographic (major, minor, patch) order. */
  predicate Less(a: Triple, b: Triple) {
    a.major < b.major ||
    (a.major == b.major && (a.minor < b.minor || (a.minor == b.minor && a.patch < b.patch)))
  }

  predicate NonNegative(t: Triple) {
    t.major >= 0 && t.minor >= 0 && t.patch >= 0
  }

  /** `f"{major}.{minor}.{patch}"` */
  function FormatLabel(t: Triple): string {
    IntToString(t.major) + "." + IntToString(t.minor) + "." + IntToString(t.patch)
  }

  /**
   * `map(int, label.split("."))` unpacked into three names: None stands for
   * the ValueError raised by a component that is not an integer or by a
   * label with other than three components.
   */
  function ParseLabel(versionLabel: string): (r: Option<Triple>)
    ensures r.Some? ==> |Split(versionLabel, '.')| == 3
  {
    var parts := Split(versionLabel, '.');
    if |parts| != 3 then None
    else
      var major, minor, patch := ParseInt(parts[0]), ParseInt(parts[1]), ParseInt(parts[2]);
      if major.None? || minor.None? || patch.None? then None
      else Some(Triple(major.value, minor.value, patch.value))
  }

  /** Every formatted label parses back to its triple. */
  lemma ParseFormat(t: Triple)
    ensures ParseLabel(FormatLabel(t)) == Some(t)
  {
    var parts := [IntToString(t.major), IntToString(t.minor), IntToString(t.patch)];
    JoinThree(parts[0], parts[1], parts[2], '.');
    SplitJoin(parts, '.');
    ParseIntToString(t.major);
    ParseIntToString(t.minor);
    ParseIntToString(t.patch);
  }

  /** The label a new version starts from when its arrangement has no latest version. */
  const InitialLabel := "0.0.0"

  /** The numbers a version type bumps: "major", "minor", and any other type bumps the patch. */
  function BumpTriple(versionType: string, t: Triple): (r: Triple)
    ensures Less(t, r)
    // the components above the bumped one are kept
    ensures versionType != "major" ==> r.major == t.major
    ensures versionType != "major" && versionType != "minor" ==> r.minor == t.minor
    // the bumped component goes up by one and the ones below it restart at 0
    ensures versionType == "major" ==> r == Triple(t.major + 1, 0, 0)
    ensures versionType == "minor" ==> r == Triple(t.major, t.minor + 1, 0)
    ensures versionType != "major" && versionType != "minor" ==> r == Triple(t.major, t.minor, t.patch + 1)
  {
    if versionType == "major" then Triple(t.major + 1, 0, 0)
    else if versionType == "minor" then Triple(t.major, t.minor + 1, 0)
    else Triple(t.major, t.minor, t.patch + 1)
  }

  /**
   * The bump goes to the next label at its level: every label with
   * non-negative components strictly between the old and the new one only
   * differs from the old one below the bumped component, and a patch bump
   * skips nothing at all.
   */
  lemma BumpIsNextAtLevel(versionType: string, t: Triple, u: Triple)
    requires NonNegative(u) && Less(t, u) && Less(u, BumpTriple(versionType, t))
    ensures u.major == t.major
    ensures versionType != "major" ==> u.minor == t.minor
    ensures versionType != "major" && versionType != "minor" ==> false
  {
  }

  /** `_bump_version_label(version_type, old_version_label)`; None is the ValueError of the unpacking. */
  function BumpVersionLabel(versionType: string, oldLabel: string): (r: Option<string>)
    ensures r.Some? <==> ParseLabel(oldLabel).Some?
    ensures r.Some? ==> ParseLabel(r.value) == Some(BumpTriple(versionType, ParseLabel(oldLabel).value))
  {
    var parsed := ParseLabel(oldLabel);
    if parsed.None? then None
    else
      var r := FormatLabel(BumpTriple(versionType, parsed.value));
      ParseFormat(BumpTriple(versionType, parsed.value));
      Some(r)
  }

  /** The first bump of an arrangement starts from 0.0.0, whose triple is (0, 0, 0). */
  lemma InitialLabelParses()
    ensures ParseLabel(InitialLabel) == Some(Triple(0, 0, 0))
  {
    assert IntToString(0) == "0";
    assert InitialLabel == FormatLabel(Triple(0, 0, 0));
    ParseFormat(Triple(0, 0, 0));
  }
}
