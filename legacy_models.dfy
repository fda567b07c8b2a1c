/**
 * The single-file models module of the ensembles app: `Ensemble` and
 * `Arrangement`, whose `save` fills in a unique slug (and the piece number),
 * the movement number and latest-version label of an arrangement, and its
 * own `ArrangementVersion`, which only bumps the label of a version that has
 * no primary key yet.
 */
module LegacyModels {
  import opened Wrappers
  import opened Text
  import opened VersionLabel
  import opened Slugs
  import opened ArrangementVersions

  // ------------------------------------------------------------ Ensemble

  /** The slugs of a table's rows, by primary key, and the next primary key. */
  class SlugTable {
    var slugs: map<nat, string>
    var nextPk: nat

    constructor ()
      ensures Valid() && slugs == map[] && nextPk == 1
    {
      slugs := map[];
      nextPk := 1;
    }

    /** Every row's key is below the next key the table hands out. */
    predicate Valid()
      reads this
    {
      forall q :: q in slugs ==> q < nextPk
    }

    /** The table side of `Model.save()`: the row's key, a new one when the instance has none. */
    method Put(pk: Option<nat>, slug: string) returns (p: nat)
      requires Valid()
      modifies this
      ensures Valid()
      ensures pk.Some? ==> p == pk.value
      ensures pk.None? ==> p == old(nextPk) && p !in old(slugs)
      ensures slugs == old(slugs)[p := slug]
    {
      p := if pk.Some? then pk.value else nextPk;
      slugs := slugs[p := slug];
      if p + 1 > nextPk {
        nextPk := p + 1;
      }
    }
  }

  /** The `unique=True` of the slug column. */
  predicate UniqueSlugs(slugs: map<nat, string>) {
    forall p, q :: p in slugs && q in slugs && p != q ==> slugs[p] != slugs[q]
  }

  /** Writing a slug the collision check let through keeps the column unique. */
  lemma GeneratedSlugKeepsUnique(slugs: map<nat, string>, pk: Option<nat>, p: nat, slug: string)
    requires UniqueSlugs(slugs) && slug !in Taken(slugs, pk)
    requires PkTruthy(pk) ==> p == pk.value
    ensures UniqueSlugs(slugs[p := slug])
  {
    forall q | q in slugs && q != p
      ensures slugs[q] != slug
    {
      assert slugs[q] in Taken(slugs, pk);
    }
  }

  class Ensemble {
    var pk: Option<nat>
    var slug: string

    constructor ()
      ensures pk == None && slug == ""
    {
      pk := None;
      slug := "";
    }

    /** `save`: an empty slug becomes a unique slug made from the name (`nameSlug` is `slugify(name)`). */
    method Save(table: SlugTable, nameSlug: string)
      requires table.Valid()
      modifies this, table
      ensures table.Valid()
      ensures old(slug) != "" ==> slug == old(slug)
      ensures old(slug) == "" ==> slug !in Taken(old(table.slugs), old(pk))
      // the slug is nameSlug itself when free, else the first free nameSlug-1, nameSlug-2, ...
      ensures old(slug) == "" && nameSlug !in Taken(old(table.slugs), old(pk)) ==> slug == nameSlug
      ensures old(slug) == "" && nameSlug in Taken(old(table.slugs), old(pk)) ==>
        exists k :: 1 <= k && slug == Candidate(nameSlug, k) &&
                    forall j :: 0 <= j < k ==> Candidate(nameSlug, j) in Taken(old(table.slugs), old(pk))
      ensures old(slug) == "" && UniqueSlugs(old(table.slugs)) ==> UniqueSlugs(table.slugs)
      ensures old(pk).Some? ==> pk == old(pk)
      ensures pk.Some? && table.slugs == old(table.slugs)[pk.value := slug]
    {
      if slug == "" {
        slug := GenerateUniqueSlug(nameSlug, table.slugs, pk);
      }
      var p := table.Put(pk, slug);
      pk := Some(p);
      if old(slug) == "" && UniqueSlugs(old(table.slugs)) {
        GeneratedSlugKeepsUnique(old(table.slugs), old(pk), p, slug);
      }
    }
  }

  // --------------------------------------------------------- Arrangement

  /** Python's `str()` of an optional integer field. */
  function OptionalIntToString(n: Option<int>): (r: string)
    ensures r == "None" <==> n.None?
    ensures n.Some? ==> ParseInt(r) == n
  {
    if n.None? then "None"
    else
      ParseIntToString(n.value);
      IntToString(n.value)
  }

  /** `get_mvtno`: "act-piece" when the act number is set, else "piece". */
  function GetMvtno(actNumber: Option<int>, pieceNumber: Option<int>): (r: string)
    // with numbers that are not negative, the '-' marks exactly the presence of an act
    ensures (actNumber.None? || actNumber.value >= 0) && (pieceNumber.None? || pieceNumber.value >= 0) ==>
      ('-' in r <==> actNumber.Some?)
  {
    if actNumber.Some? then OptionalIntToString(actNumber) + "-" + OptionalIntToString(pieceNumber)
    else OptionalIntToString(pieceNumber)
  }

  /**
   * The movement number can be read back: with both numbers set and not
   * negative it splits at its one '-' into the act and the piece; without an
   * act it has no '-' and is the piece itself.
   */
  lemma MvtnoReadsBack(act: Option<nat>, piece: nat)
    ensures var mvtno := GetMvtno(if act.Some? then Some(act.value as int) else None, Some(piece));
      var parts := Split(mvtno, '-');
      if act.Some? then
        |parts| == 2 && ParseInt(parts[0]) == Some(act.value as int) && ParseInt(parts[1]) == Some(piece as int)
      else
        |parts| == 1 && ParseInt(mvtno) == Some(piece as int)
  {
    ParseIntToString(piece);
    if act.Some? {
      var parts := [IntToString(act.value), IntToString(piece)];
      assert GetMvtno(Some(act.value as int), Some(piece)) == Join(parts, '-') by {
        assert parts[1..] == [parts[1]];
      }
      SplitJoin(parts, '-');
      ParseIntToString(act.value);
    } else {
      SplitNoSeparator(IntToString(piece), '-');
    }
  }

  /** `latest_version_num`: the label of the newest latest version, or "N/A". */
  function LatestVersionNum(rows: seq<Row>, a: nat): (r: string)
    ensures FirstLatest(rows, a).Some? ==> r == LatestLabel(rows, a)
    ensures FirstLatest(rows, a).None? ==> r == "N/A"
  {
    var latest := FirstLatest(rows, a);
    if latest.None? then "N/A" else rows[latest.value].versionLabel
  }

  class Arrangement {
    var pk: Option<nat>
    var slug: string
    var actNumber: Option<int>
    var pieceNumber: Option<int>

    constructor ()
      ensures pk == None && slug == "" && actNumber == Some(1) && pieceNumber == Some(1)
    {
      pk := None;
      slug := "";
      actNumber := Some(1);
      pieceNumber := Some(1);
    }

    /**
     * `save`: an empty slug becomes a unique slug made from the title
     * (`titleSlug` is `slugify(title)`), and a None piece number becomes the
     * primary key, which a new arrangement only has after its first write.
     */
    method Save(table: SlugTable, titleSlug: string)
      requires table.Valid()
      modifies this, table
      ensures table.Valid()
      ensures old(slug) != "" ==> slug == old(slug)
      ensures old(slug) == "" ==> slug !in Taken(old(table.slugs), old(pk))
      // the slug is titleSlug itself when free, else the first free titleSlug-1, titleSlug-2, ...
      ensures old(slug) == "" && titleSlug !in Taken(old(table.slugs), old(pk)) ==> slug == titleSlug
      ensures old(slug) == "" && titleSlug in Taken(old(table.slugs), old(pk)) ==>
        exists k :: 1 <= k && slug == Candidate(titleSlug, k) &&
                    forall j :: 0 <= j < k ==> Candidate(titleSlug, j) in Taken(old(table.slugs), old(pk))
      ensures old(slug) == "" && UniqueSlugs(old(table.slugs)) ==> UniqueSlugs(table.slugs)
      ensures old(pk).Some? ==> pk == old(pk)
      ensures old(pk).None? ==> pk == Some(old(table.nextPk))
      ensures pk.Some? && table.slugs == old(table.slugs)[pk.value := slug]
      ensures pieceNumber == if old(pieceNumber).None? then Some(pk.value as int) else old(pieceNumber)
      ensures actNumber == old(actNumber)
    {
      if slug == "" {
        slug := GenerateUniqueSlug(titleSlug, table.slugs, pk);
      }
      if pk.None? {
        var p := table.Put(pk, slug);
        pk := Some(p);
        if pieceNumber.None? {
          pieceNumber := Some(p);
          p := table.Put(pk, slug);
        }
      } else {
        if pieceNumber.None? {
          pieceNumber := Some(pk.value);
        }
        var p := table.Put(pk, slug);
      }
      if old(slug) == "" && UniqueSlugs(old(table.slugs)) {
        GeneratedSlugKeepsUnique(old(table.slugs), old(pk), pk.value, slug);
      }
    }
  }

  // -------------------------------------------------- ArrangementVersion

  /**
   * This module's `ArrangementVersion.save`: the label is bumped only for an
   * instance without a (truthy) pk saved with a version type; None is the
   * ValueError of the bump.
   */
  function LegacySaveSpec(db: Db, inst: Instance, versionType: Option<string>): (r: Option<(Db, Instance)>)
    ensures PkTruthy(inst.pk) || !Truthy(versionType) ==>
      r.Some? && r.value.1.versionLabel == inst.versionLabel && r.value.1.isLatest == inst.isLatest
    ensures !PkTruthy(inst.pk) && Truthy(versionType) ==> r == BumpAndWrite(db, inst, versionType.value)
    ensures r.Some? && ValidDb(db) ==> ValidDb(r.value.0)
  {
    if !PkTruthy(inst.pk) && Truthy(versionType) then BumpAndWrite(db, inst, versionType.value)
    else Some(Write(db, inst))
  }

  /**
   * After a new version is saved with a type, `latest_version_num` shows
   * its label, and the arrangement has no other latest version.
   */
  lemma LatestVersionNumAfterSave(db: Db, inst: Instance, versionType: Option<string>)
    requires ValidDb(db) && !PkTruthy(inst.pk) && Truthy(versionType)
    requires LegacySaveSpec(db, inst, versionType).Some?
    ensures var (db', inst') := LegacySaveSpec(db, inst, versionType).value;
      LatestVersionNum(db'.rows, inst.arrangement) == inst'.versionLabel &&
      forall k :: 0 <= k < |db'.rows| && db'.rows[k].arrangement == inst.arrangement ==>
        (db'.rows[k].isLatest <==> db'.rows[k].pk == inst'.pk.value)
  {
    BumpLeavesOneLatest(db, inst, versionType.value);
    SavedIsLatest(db, inst, versionType);
  }

  class LegacyArrangementVersion {
    var pk: Option<nat>
    var arrangement: nat
    var versionLabel: string
    var isLatest: bool

    function Value(): Instance
      reads this
    {
      Instance(pk, arrangement, versionLabel, isLatest)
    }

    constructor (arrangement: nat)
      ensures Value() == Instance(None, arrangement, InitialLabel, false)
    {
      this.pk := None;
      this.arrangement := arrangement;
      this.versionLabel := InitialLabel;
      this.isLatest := false;
    }

    /** `save(version_type=...)`; false is the ValueError, raised before anything is written. */
    method Save(db: VersionTable, versionType: Option<string>) returns (ok: bool)
      modifies this, db
      ensures ok == LegacySaveSpec(old(db.State()), old(Value()), versionType).Some?
      ensures ok ==> (db.State(), Value()) == LegacySaveSpec(old(db.State()), old(Value()), versionType).value
      ensures !ok ==> db.State() == old(db.State()) && Value() == old(Value())
    {
      if !(pk.Some? && pk.value != 0) && versionType.Some? && versionType.value != "" {
        var oldLabel := LatestLabel(db.rows, arrangement);
        var bumped := BumpVersionLabel(versionType.value, oldLabel);
        if bumped.None? {
          return false;
        }
        versionLabel := bumped.value;
        db.UpdateNotLatest(arrangement);
        isLatest := true;
      }
      var saved := db.SaveRow(Value());
      pk := Some(saved);
      ok := true;
    }
  }
}
