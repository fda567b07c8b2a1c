/**
 * The `ArrangementVersion` model of the ensembles app: its export status
 * flags, the storage keys of its files, the key list `delete` removes, and
 * the "latest version" bookkeeping of `save`. The database table is a
 * sequence of rows, newest first (the model's ordering is `-timestamp`, and
 * a new row is always the newest).
 */
module ArrangementVersions {
  import opened Wrappers
  import opened Text
  import opened VersionLabel

  // ------------------------------------------------------------------ status

  /** The codes of `_Status`, stored in `export_state`. */
  const StatusNone := 'N'
  const StatusProcessing := 'P'
  const StatusComplete := 'C'
  const StatusError := 'E'

  predicate IsProcessing(exportState: char) {
    exportState == StatusProcessing
  }

  predicate ErrorOnExport(exportState: char) {
    exportState == StatusError
  }

  /** A version is never both processing and in error. */
  lemma ProcessingExcludesError(exportState: char)
    ensures !(IsProcessing(exportState) && ErrorOnExport(exportState))
  {
  }

  /** `version_label_full`: the label with its "v". */
  function VersionLabelFull(versionLabel: string): (r: string)
    ensures |r| == |versionLabel| + 1 && r[0] == 'v' && r[1..] == versionLabel
  {
    "v" + versionLabel
  }

  // ------------------------------------------------------------ storage keys

  /** What the keys of a version are made of: the slugs, the label and the uploaded file's name. */
  datatype Location = Location(ensembleSlug: string, arrangementSlug: string, versionLabel: string, fileName: string)

  /** `f"{x}/{y}"` */
  function Slash(x: string, y: string): string {
    x + "/" + y
  }

  /** "ensembles/{ensemble}/{arrangement}/{label}/{segment}/{name}" */
  function StorageKey(loc: Location, segment: string, name: string): (r: string)
    ensures |r| > 10 && r[..10] == "ensembles/"
    ensures EndsWith(r, "/" + Slash(segment, name))
  {
    var tail := Slash(segment, name);
    assert Slash(loc.versionLabel, tail) == loc.versionLabel + ("/" + tail);
    Slash("ensembles", Slash(loc.ensembleSlug, Slash(loc.arrangementSlug, Slash(loc.versionLabel, Slash(segment, name)))))
  }

  /** The index of the last `c` in `s`, or -1. */
  function LastIndexOf(s: string, c: char): (r: int)
    ensures -1 <= r < |s|
    ensures r >= 0 ==> s[r] == c
    ensures forall k :: r < k < |s| ==> s[k] != c
  {
    if s == [] then -1
    else if s[|s| - 1] == c then |s| - 1
    else LastIndexOf(s[..|s| - 1], c)
  }

  /**
   * `os.path.splitext(p)[0]`: `p` without its extension, the part from the
   * last dot of the last path component, unless that component has only
   * dots before it.
   */
  function SplitExtRoot(p: string): (r: string)
    ensures r <= p
    ensures r != p ==> p[|r|] == '.' && '.' !in p[|r| + 1..] && '/' !in p[|r|..]
  {
    var sep := LastIndexOf(p, '/');
    var dot := LastIndexOf(p, '.');
    if dot > sep && exists k :: sep < k < dot && p[k] != '.' then p[..dot] else p
  }

  /** The root of "name.ext" is "name" when "name" does not end with a dot or a slash. */
  lemma RootOfName(base: string, ext: string)
    requires base != [] && base[|base| - 1] != '.' && base[|base| - 1] != '/'
    requires '.' !in ext && '/' !in ext
    ensures SplitExtRoot(base + "." + ext) == base
  {
    var p := base + "." + ext;
    var d := |base|;
    assert p[d] == '.';
    assert forall k :: d < k < |p| ==> p[k] == ext[k - d - 1];
    var dot := LastIndexOf(p, '.');
    var sep := LastIndexOf(p, '/');
    assert dot == d;
    assert sep < d - 1 && p[d - 1] != '.';
    assert p[..d] == base;
  }

  function MsczFileKey(loc: Location): (r: string)
    ensures EndsWith(r, "/" + Slash("raw", loc.fileName))
  {
    StorageKey(loc, "raw", loc.fileName)
  }

  function OutputFileKey(loc: Location): (r: string)
    ensures EndsWith(r, "/" + Slash("processed", loc.fileName))
  {
    StorageKey(loc, "processed", loc.fileName)
  }

  function ScorePdfKey(loc: Location): (r: string)
    ensures EndsWith(r, "/" + Slash("processed", SplitExtRoot(loc.fileName) + ".pdf"))
  {
    StorageKey(loc, "processed", SplitExtRoot(loc.fileName) + ".pdf")
  }

  function AudioFileKey(loc: Location): (r: string)
    ensures EndsWith(r, "/" + Slash("processed", SplitExtRoot(loc.fileName) + ".mp3"))
  {
    StorageKey(loc, "processed", SplitExtRoot(loc.fileName) + ".mp3")
  }

  function ScorePartsPdfKey(loc: Location): (r: string)
    ensures EndsWith(r, "/" + Slash("processed", SplitExtRoot(loc.fileName) + " - Score+Parts.pdf"))
  {
    StorageKey(loc, "processed", SplitExtRoot(loc.fileName) + " - Score+Parts.pdf")
  }

  /** The slugs and the label hold no "/", as slugify and the label format guarantee. */
  predicate PlainSegments(loc: Location) {
    '/' !in loc.ensembleSlug && '/' !in loc.arrangementSlug && '/' !in loc.versionLabel
  }

  lemma SlashInjective(x: string, y: string, x': string, y': string)
    requires '/' !in x && '/' !in x' && Slash(x, y) == Slash(x', y')
    ensures x == x' && y == y'
  {
    var s := Slash(x, y);
    assert s[|x|] == '/' && s[|x'|] == '/';
    if |x| < |x'| {
      assert false;
    } else if |x'| < |x| {
      assert false;
    }
    assert x == s[..|x|] == x';
    assert y == s[|x| + 1..] == y';
  }

  /** Two keys built from plain segments are equal only when every part is. */
  lemma StorageKeyInjective(l1: Location, seg1: string, name1: string, l2: Location, seg2: string, name2: string)
    requires PlainSegments(l1) && PlainSegments(l2) && '/' !in seg1 && '/' !in seg2
    requires StorageKey(l1, seg1, name1) == StorageKey(l2, seg2, name2)
    ensures l1.ensembleSlug == l2.ensembleSlug && l1.arrangementSlug == l2.arrangementSlug
    ensures l1.versionLabel == l2.versionLabel && seg1 == seg2 && name1 == name2
  {
    var inner1 := Slash(l1.arrangementSlug, Slash(l1.versionLabel, Slash(seg1, name1)));
    var inner2 := Slash(l2.arrangementSlug, Slash(l2.versionLabel, Slash(seg2, name2)));
    SlashInjective("ensembles", Slash(l1.ensembleSlug, inner1), "ensembles", Slash(l2.ensembleSlug, inner2));
    SlashInjective(l1.ensembleSlug, inner1, l2.ensembleSlug, inner2);
    SlashInjective(l1.arrangementSlug, Slash(l1.versionLabel, Slash(seg1, name1)),
                   l2.arrangementSlug, Slash(l2.versionLabel, Slash(seg2, name2)));
    SlashInjective(l1.versionLabel, Slash(seg1, name1), l2.versionLabel, Slash(seg2, name2));
    SlashInjective(seg1, name1, seg2, name2);
  }

  /**
   * An upload's raw key never equals a processed key of any version, and
   * the raw and processed keys of a version differ only in that segment.
   */
  lemma RawNeverProcessed(l1: Location, l2: Location, name: string)
    requires PlainSegments(l1) && PlainSegments(l2)
    ensures MsczFileKey(l1) != StorageKey(l2, "processed", name)
  {
    if MsczFileKey(l1) == StorageKey(l2, "processed", name) {
      StorageKeyInjective(l1, "raw", l1.fileName, l2, "processed", name);
    }
  }

  /** Two versions share an upload key only when they agree on slugs, label and file name. */
  lemma MsczFileKeyInjective(l1: Location, l2: Location)
    requires PlainSegments(l1) && PlainSegments(l2) && MsczFileKey(l1) == MsczFileKey(l2)
    ensures l1 == l2
  {
    StorageKeyInjective(l1, "raw", l1.fileName, l2, "raw", l2.fileName);
  }

  /** The score of "song.mscz" is stored as "song.pdf" next to the processed score. */
  lemma ScorePdfOfMscz(loc: Location, base: string)
    requires base != [] && base[|base| - 1] != '.' && base[|base| - 1] != '/'
    requires loc.fileName == base + ".mscz"
    ensures ScorePdfKey(loc) == StorageKey(loc, "processed", base + ".pdf")
    ensures ScorePartsPdfKey(loc) == StorageKey(loc, "processed", base + " - Score+Parts.pdf")
  {
    RootOfName(base, "mscz");
    assert base + "." + "mscz" == base + ".mscz";
  }

  // ---------------------------------------------------------------- delete

  /** The four keys `delete` always lists, in its order. */
  function FixedKeys(loc: Location): seq<string> {
    [MsczFileKey(loc), OutputFileKey(loc), ScorePdfKey(loc), ScorePartsPdfKey(loc)]
  }

  predicate NoDuplicates(s: seq<string>) {
    forall i, j :: 0 <= i < j < |s| ==> s[i] != s[j]
  }

  /** The storage keys `delete` removes: the four fixed keys, then each part's key not listed yet. */
  method DeleteKeys(loc: Location, partKeys: seq<string>) returns (keys: seq<string>)
    ensures |keys| >= 4 && keys[..4] == FixedKeys(loc)
    ensures forall key :: key in keys <==> key in FixedKeys(loc) || key in partKeys
    // no appended key repeats an earlier one
    ensures forall i, j :: 0 <= i < j < |keys| && 4 <= j ==> keys[i] != keys[j]
    ensures NoDuplicates(FixedKeys(loc)) ==> NoDuplicates(keys)
  {
    keys := FixedKeys(loc);
    for n := 0 to |partKeys|
      invariant |keys| >= 4 && keys[..4] == FixedKeys(loc)
      invariant forall key :: key in keys <==> key in FixedKeys(loc) || key in partKeys[..n]
      invariant forall i, j :: 0 <= i < j < |keys| && 4 <= j ==> keys[i] != keys[j]
    {
      if partKeys[n] !in keys {
        keys := keys + [partKeys[n]];
      }
      assert partKeys[..n + 1] == partKeys[..n] + [partKeys[n]];
    }
    assert partKeys[..|partKeys|] == partKeys;
  }

  /** For an uploaded .mscz file the four fixed keys are distinct, so `delete` lists no key twice. */
  lemma FixedKeysDistinct(loc: Location, base: string)
    requires PlainSegments(loc)
    requires base != [] && base[|base| - 1] != '.' && base[|base| - 1] != '/'
    requires loc.fileName == base + ".mscz"
    ensures NoDuplicates(FixedKeys(loc))
  {
    ScorePdfOfMscz(loc, base);
    var names := [base + ".mscz", base + ".pdf", base + " - Score+Parts.pdf"];
    // the three names differ in length
    assert |names[0]| == |base| + 5 && |names[1]| == |base| + 4 && |names[2]| == |base| + 18;
    ProcessedKeysDiffer(loc, names[0], names[1]);
    ProcessedKeysDiffer(loc, names[0], names[2]);
    ProcessedKeysDiffer(loc, names[1], names[2]);
    assert OutputFileKey(loc) == StorageKey(loc, "processed", names[0]);
    RawNeverProcessed(loc, loc, names[0]);
    RawNeverProcessed(loc, loc, names[1]);
    RawNeverProcessed(loc, loc, names[2]);
  }

  /** Two processed files of one version with different names have different keys. */
  lemma ProcessedKeysDiffer(loc: Location, name1: string, name2: string)
    requires PlainSegments(loc) && name1 != name2
    ensures StorageKey(loc, "processed", name1) != StorageKey(loc, "processed", name2)
  {
    if StorageKey(loc, "processed", name1) == StorageKey(loc, "processed", name2) {
      StorageKeyInjective(loc, "processed", name1, loc, "processed", name2);
    }
  }

  // ------------------------------------------------------------ the table

  /** A row of the versions table: the columns the bookkeeping reads and writes. */
  datatype Row = Row(pk: nat, arrangement: nat, versionLabel: string, isLatest: bool)

  /** The table, newest row first, and the next primary key the database hands out. */
  datatype Db = Db(rows: seq<Row>, nextPk: nat)

  /** Primary keys are distinct and all below the next one. */
  predicate ValidDb(db: Db) {
    (forall i, j :: 0 <= i < j < |db.rows| ==> db.rows[i].pk != db.rows[j].pk) &&
    (forall i :: 0 <= i < |db.rows| ==> db.rows[i].pk < db.nextPk)
  }

  /** The fields of an instance in memory, before or after `save`. */
  datatype Instance = Instance(pk: Option<nat>, arrangement: nat, versionLabel: string, isLatest: bool)

  /** Python truthiness of a `version_type` keyword argument (None and "" are false). */
  predicate Truthy(versionType: Option<string>) {
    versionType.Some? && versionType.value != ""
  }

  /** `filter(arrangement=a, is_latest=True).first()`: the newest latest row of the arrangement. */
  function FirstLatest(rows: seq<Row>, a: nat): (r: Option<nat>)
    ensures r.Some? ==> r.value < |rows| && rows[r.value].arrangement == a && rows[r.value].isLatest
    ensures r.Some? ==> forall k :: 0 <= k < r.value ==> !(rows[k].arrangement == a && rows[k].isLatest)
    ensures r.None? ==> forall k :: 0 <= k < |rows| ==> !(rows[k].arrangement == a && rows[k].isLatest)
  {
    if rows == [] then None
    else if rows[0].arrangement == a && rows[0].isLatest then Some(0)
    else
      var rest := FirstLatest(rows[1..], a);
      if rest.Some? then Some(rest.value + 1) else None
  }

  /** The label a typed save bumps from: the latest version's, or "0.0.0". */
  function LatestLabel(rows: seq<Row>, a: nat): string {
    var latest := FirstLatest(rows, a);
    if latest.None? then InitialLabel else rows[latest.value].versionLabel
  }

  /** `filter(arrangement=a).update(is_latest=False)` */
  function ClearLatest(rows: seq<Row>, a: nat): (r: seq<Row>)
    ensures |r| == |rows|
    ensures forall k :: 0 <= k < |rows| ==>
      r[k] == if rows[k].arrangement == a then rows[k].(isLatest := false) else rows[k]
  {
    seq(|rows|, k requires 0 <= k < |rows| =>
      if rows[k].arrangement == a then rows[k].(isLatest := false) else rows[k])
  }

  function IndexOfPk(rows: seq<Row>, p: nat): (r: Option<nat>)
    ensures r.Some? ==> r.value < |rows| && rows[r.value].pk == p
    ensures r.None? ==> forall k :: 0 <= k < |rows| ==> rows[k].pk != p
  {
    if rows == [] then None
    else if rows[0].pk == p then Some(0)
    else
      var rest := IndexOfPk(rows[1..], p);
      if rest.Some? then Some(rest.value + 1) else None
  }

  function RowOf(inst: Instance, p: nat): Row {
    Row(p, inst.arrangement, inst.versionLabel, inst.isLatest)
  }

  /** The facts about `Model.save()` on the table that the bookkeeping relies on. */
  predicate WriteOk(db: Db, inst: Instance, r: (Db, Instance)) {
    r.1 == inst.(pk := r.1.pk) && r.1.pk.Some? &&
    (inst.pk.Some? ==> r.1.pk == inst.pk) &&
    RowOf(r.1, r.1.pk.value) in r.0.rows &&
    // every other row is kept, and no other row is new
    (forall k :: 0 <= k < |db.rows| && Some(db.rows[k].pk) != inst.pk ==> db.rows[k] in r.0.rows) &&
    (forall k :: 0 <= k < |r.0.rows| && r.0.rows[k].pk != r.1.pk.value ==> r.0.rows[k] in db.rows) &&
    (ValidDb(db) ==> ValidDb(r.0)) &&
    (ValidDb(db) ==> forall k :: 0 <= k < |r.0.rows| && r.0.rows[k].pk == r.1.pk.value ==>
      r.0.rows[k] == RowOf(r.1, r.1.pk.value))
  }

  /**
   * `Model.save()` on the table: an UPDATE of the row with the instance's
   * pk when there is one, otherwise an INSERT of the newest row, under the
   * next key when the instance has none.
   */
  function Write(db: Db, inst: Instance): (r: (Db, Instance))
    ensures WriteOk(db, inst, r)
  {
    var existing := if inst.pk.Some? then IndexOfPk(db.rows, inst.pk.value) else None;
    if existing.Some? then UpdateRow(db, existing.value, inst) else InsertRow(db, inst)
  }

  /** The UPDATE of row `i`, which has the instance's pk. */
  function UpdateRow(db: Db, i: nat, inst: Instance): (r: (Db, Instance))
    requires inst.pk.Some? && i < |db.rows| && db.rows[i].pk == inst.pk.value
    ensures WriteOk(db, inst, r)
  {
    var rows := db.rows[i := RowOf(inst, inst.pk.value)];
    assert rows[i] == RowOf(inst, inst.pk.value);
    assert forall k :: 0 <= k < |db.rows| && k != i ==> rows[k] == db.rows[k];
    assert ValidDb(db) ==> ValidDb(db.(rows := rows)) by {
      if ValidDb(db) {
        ReplaceKeepsValid(db, i, RowOf(inst, inst.pk.value));
      }
    }
    (db.(rows := rows), inst)
  }

  /** The INSERT of a new newest row, when no row has the instance's pk. */
  function InsertRow(db: Db, inst: Instance): (r: (Db, Instance))
    requires inst.pk.Some? ==> IndexOfPk(db.rows, inst.pk.value).None?
    ensures WriteOk(db, inst, r)
  {
    var p := if inst.pk.Some? then inst.pk.value else db.nextPk;
    var next := if p + 1 > db.nextPk then p + 1 else db.nextPk;
    InsertRowOk(db, inst, p, next);
    (Db([RowOf(inst, p)] + db.rows, next), inst.(pk := Some(p)))
  }

  /** A new first row whose pk `p` no row of a valid table has is a write of the instance under `p`. */
  lemma InsertRowOk(db: Db, inst: Instance, p: nat, next: nat)
    requires inst.pk.Some? ==> p == inst.pk.value
    requires p < next && db.nextPk <= next
    requires ValidDb(db) ==> forall k :: 0 <= k < |db.rows| ==> db.rows[k].pk != p
    ensures WriteOk(db, inst, (Db([RowOf(inst, p)] + db.rows, next), inst.(pk := Some(p))))
  {
    var rows := [RowOf(inst, p)] + db.rows;
    assert forall k :: 0 <= k < |db.rows| ==> rows[k + 1] == db.rows[k];
    if ValidDb(db) {
      InsertKeepsValid(db, RowOf(inst, p), next);
    }
    assert forall k :: 1 <= k < |rows| ==> rows[k] == db.rows[k - 1];
    assert forall k :: 0 <= k < |rows| && rows[k].pk != p ==> rows[k] in db.rows;
  }

  lemma ClearKeepsValid(db: Db, a: nat)
    ensures ValidDb(db) ==> ValidDb(Db(ClearLatest(db.rows, a), db.nextPk))
  {
  }

  lemma ReplaceKeepsValid(db: Db, i: nat, row: Row)
    requires ValidDb(db) && i < |db.rows| && row.pk == db.rows[i].pk
    ensures ValidDb(db.(rows := db.rows[i := row]))
  {
  }

  lemma InsertKeepsValid(db: Db, row: Row, next: nat)
    requires ValidDb(db) && row.pk < next && db.nextPk <= next
    requires forall k :: 0 <= k < |db.rows| ==> db.rows[k].pk != row.pk
    ensures ValidDb(Db([row] + db.rows, next))
  {
    var rows := [row] + db.rows;
    forall i, j | 0 <= i < j < |rows|
      ensures rows[i].pk != rows[j].pk
    {
      assert rows[j] == db.rows[j - 1];
      if i > 0 {
        assert rows[i] == db.rows[i - 1];
      }
    }
  }

  /** The branch of `save` that bumps: None is the ValueError of an unparsable latest label. */
  function BumpAndWrite(db: Db, inst: Instance, versionType: string): (r: Option<(Db, Instance)>)
    ensures r.None? <==> ParseLabel(LatestLabel(db.rows, inst.arrangement)).None?
    ensures r.Some? ==>
      ParseLabel(r.value.1.versionLabel) == Some(BumpTriple(versionType, ParseLabel(LatestLabel(db.rows, inst.arrangement)).value))
    ensures r.Some? ==> r.value.1.isLatest && r.value.1.arrangement == inst.arrangement
    ensures r.Some? && ValidDb(db) ==> ValidDb(r.value.0)
  {
    var bumped := BumpVersionLabel(versionType, LatestLabel(db.rows, inst.arrangement));
    if bumped.None? then None
    else
      var cleared := Db(ClearLatest(db.rows, inst.arrangement), db.nextPk);
      ClearKeepsValid(db, inst.arrangement);
      Some(Write(cleared, inst.(versionLabel := bumped.value, isLatest := true)))
  }

  /** A bump saves the label `_bump_version_label` makes from the arrangement's latest label. */
  lemma BumpSavesBumpedLabel(db: Db, inst: Instance, versionType: string)
    requires BumpAndWrite(db, inst, versionType).Some?
    ensures var bumped := BumpVersionLabel(versionType, LatestLabel(db.rows, inst.arrangement));
      bumped.Some? && BumpAndWrite(db, inst, versionType).value.1.versionLabel == bumped.value
  {
  }

  /**
   * After a bump, the saved version is the one latest version of its
   * arrangement, and it is in the table.
   */
  lemma BumpLeavesOneLatest(db: Db, inst: Instance, versionType: string)
    requires ValidDb(db) && BumpAndWrite(db, inst, versionType).Some?
    ensures var (db', inst') := BumpAndWrite(db, inst, versionType).value;
      ValidDb(db') && inst'.pk.Some? && RowOf(inst', inst'.pk.value) in db'.rows &&
      (forall k :: 0 <= k < |db'.rows| && db'.rows[k].pk == inst'.pk.value ==> db'.rows[k] == RowOf(inst', inst'.pk.value)) &&
      forall k :: 0 <= k < |db'.rows| && db'.rows[k].arrangement == inst.arrangement ==>
        (db'.rows[k].isLatest <==> db'.rows[k].pk == inst'.pk.value)
  {
    var a := inst.arrangement;
    ClearKeepsValid(db, a);
    var cleared := ClearLatest(db.rows, a);
    assert forall row :: row in cleared && row.arrangement == a ==> !row.isLatest;
    var (db', inst') := BumpAndWrite(db, inst, versionType).value;
    var p := inst'.pk.value;
    forall k | 0 <= k < |db'.rows| && db'.rows[k].arrangement == a
      ensures db'.rows[k].isLatest <==> db'.rows[k].pk == p
    {
      if db'.rows[k].pk != p {
        assert db'.rows[k] in cleared;
      }
    }
  }

  /** A new or saved row never changes the rows of other arrangements, apart from its own. */
  lemma BumpKeepsOtherArrangements(db: Db, inst: Instance, versionType: string, k: nat)
    requires BumpAndWrite(db, inst, versionType).Some?
    requires k < |db.rows| && db.rows[k].arrangement != inst.arrangement && Some(db.rows[k].pk) != inst.pk
    ensures db.rows[k] in BumpAndWrite(db, inst, versionType).value.0.rows
  {
    var cleared := ClearLatest(db.rows, inst.arrangement);
    assert cleared[k] == db.rows[k];
  }

  // --------------------------------------------------------------- save

  /** `ArrangementVersion.save(version_type=...)`: None is the ValueError of the bump. */
  function SaveSpec(db: Db, inst: Instance, versionType: Option<string>): (r: Option<(Db, Instance)>)
    ensures !Truthy(versionType) ==> r.Some? && r.value.1.versionLabel == inst.versionLabel &&
                                      r.value.1.isLatest == inst.isLatest
    ensures Truthy(versionType) ==> r == BumpAndWrite(db, inst, versionType.value)
    ensures r.Some? && ValidDb(db) ==> ValidDb(r.value.0)
  {
    if Truthy(versionType) then BumpAndWrite(db, inst, versionType.value)
    else Some(Write(db, inst))
  }

  /**
   * After a typed save, the label a next typed save bumps from is the label
   * just saved, so successive typed saves of an arrangement give strictly
   * increasing labels.
   */
  lemma SavedIsLatest(db: Db, inst: Instance, versionType: Option<string>)
    requires ValidDb(db) && Truthy(versionType) && SaveSpec(db, inst, versionType).Some?
    ensures var (db', inst') := SaveSpec(db, inst, versionType).value;
      LatestLabel(db'.rows, inst.arrangement) == inst'.versionLabel
  {
    var (db', inst') := BumpAndWrite(db, inst, versionType.value).value;
    BumpLeavesOneLatest(db, inst, versionType.value);
    var latest := FirstLatest(db'.rows, inst.arrangement);
    assert latest.Some?;
  }

  lemma SuccessiveSavesIncrease(db: Db, inst1: Instance, type1: Option<string>, inst2: Instance, type2: Option<string>)
    requires ValidDb(db) && Truthy(type1) && Truthy(type2) && inst1.arrangement == inst2.arrangement
    requires SaveSpec(db, inst1, type1).Some?
    ensures var (db1, saved1) := SaveSpec(db, inst1, type1).value;
      SaveSpec(db1, inst2, type2).Some? &&
      Less(ParseLabel(saved1.versionLabel).value, ParseLabel(SaveSpec(db1, inst2, type2).value.1.versionLabel).value)
  {
    SavedIsLatest(db, inst1, type1);
  }

  /** A saved model instance and the table it lives in. */
  class ArrangementVersion {
    var pk: Option<nat>
    var arrangement: nat
    var versionLabel: string
    var isLatest: bool

    function Value(): Instance
      reads this
    {
      Instance(pk, arrangement, versionLabel, isLatest)
    }

    constructor (arrangement: nat)
      ensures Value() == Instance(None, arrangement, InitialLabel, false)
    {
      this.pk := None;
      this.arrangement := arrangement;
      this.versionLabel := InitialLabel;
      this.isLatest := false;
    }

    /** `save(version_type=...)`; false is the ValueError, raised before anything is written. */
    method Save(db: VersionTable, versionType: Option<string>) returns (ok: bool)
      modifies this, db
      ensures ok == SaveSpec(old(db.State()), old(Value()), versionType).Some?
      ensures ok ==> (db.State(), Value()) == SaveSpec(old(db.State()), old(Value()), versionType).value
      ensures !ok ==> db.State() == old(db.State()) && Value() == old(Value())
    {
      if versionType.Some? && versionType.value != "" {
        var oldLabel := LatestLabel(db.rows, arrangement);
        var bumped := BumpVersionLabel(versionType.value, oldLabel);
        if bumped.None? {
          return false;
        }
        versionLabel := bumped.value;
        db.UpdateNotLatest(arrangement);
        isLatest := true;
      }
      var saved := db.SaveRow(Value());
      pk := Some(saved);
      ok := true;
    }
  }

  /** The versions table. */
  class VersionTable {
    var rows: seq<Row>
    var nextPk: nat

    function State(): Db
      reads this
    {
      Db(rows, nextPk)
    }

    constructor ()
      ensures State() == Db([], 1)
    {
      rows := [];
      nextPk := 1;
    }

    /** `filter(arrangement=a).update(is_latest=False)` */
    method UpdateNotLatest(a: nat)
      modifies this
      ensures State() == Db(ClearLatest(old(rows), a), old(nextPk))
    {
      rows := ClearLatest(rows, a);
    }

    /** The table side of `Model.save()`; the key the row is stored under. */
    method SaveRow(inst: Instance) returns (p: nat)
      modifies this
      ensures (State(), inst.(pk := Some(p))) == Write(old(State()), inst)
    {
      var existing := if inst.pk.Some? then IndexOfPk(rows, inst.pk.value) else None;
      if existing.Some? {
        p := inst.pk.value;
        rows := rows[existing.value := RowOf(inst, p)];
      } else {
        p := if inst.pk.Some? then inst.pk.value else nextPk;
        rows := [RowOf(inst, p)] + rows;
        if p + 1 > nextPk {
          nextPk := p + 1;
        }
      }
    }
  }
}
