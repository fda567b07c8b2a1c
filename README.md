# Divisi core in Dafny

This project models the core of Divisi, a tool for preparing ensemble sheet
music. It covers:

- **The part formatter's layout engine.** It rewrites the first staff of a
  MuseScore `.mscx` document in a fixed order of passes:
  - strip the existing `<LayoutBreak>`s;
  - mark multi-measure rests with a transient `_mm` attribute;
  - add line breaks before rehearsal marks and at double bar lines;
  - add regular line breaks every N measures;
  - rebalance short last lines;
  - turn some line breaks into page breaks;
  - remove the `_mm` markers;
  - add the Broadway header and the part name to the title frame.

  It also chooses the style sheet copied over each `.mss` file.
- **Arrangement-version bookkeeping.** This covers the `major.minor.patch`
  label bump and the single "latest" version per arrangement. It also covers
  the storage keys of a version's files and the list of keys deleted with
  the version.
- **The older single-file models module.** This covers `Ensemble.save`,
  `Arrangement.save` (unique slug, piece number), `get_mvtno`,
  `latest_version_num`, and that module's own `ArrangementVersion.save`.
- **Unique slugs** (`generate_unique_slug`).
- **Part-name aliases.** `normalize` and `save`.
- **The part-name merge serializer's `validate`.**
- **The older scores app's `increment_version`.**
- **The upload page's `getNewVersionNumber`** on the front end. Lemmas relate
  it to the label the back end will store.

A staff is an `array<Child>`. A child is:

- a `Measure`, with its layout breaks, the rehearsal-mark and bar-line flags
  of its first voice, the `len` and `multiMeasureRest` of a rest head, and
  `_mm`;
- or a frame, such as a `<VBox>` with its `<Text>` entries.

No pass adds or removes children of the staff, so the array keeps its length.
Each pass is a method that works on the array in place. Its `ensures` ties the
new contents to a function of the old contents. The lemmas are proved about
those functions. A pass that raises in Python (`assert i > 0`, a rest head
without a `multiMeasureRest`) returns `false`. The database is modelled as
values:

- `Db`, a sequence of version rows, newest first, plus the next primary key;
- `SlugTable`, a map from primary key to slug.

Classes hold fields that the source updates in place:

- `ArrangementVersion`, `Ensemble`, `Arrangement`, `PartNameAlias`;
- the serializer's `attrs`;
- the tables.

### Where the code and its description differ (the model follows the code)

- **Regular line breaks.** The break goes on the measure at which the counter
  already equals N. So, starting from a plain staff, every line holds N + 1
  measures (`RegularBreaks.PlainSpacing`).
- **Balancing a short second line.** The docstring of
  `new_final_pass_through` measures the second line from `first + 1` to
  `second`, so a second line of one or two measures would be balanced.
  The code computes `line2_len = second - first + 1`, which counts the
  measure at `first`, the last one of the first line. So `line2_len <= 2`
  holds only for a second line of one measure. A first line of four or more
  measures followed by a line of two (a 4 + 2 or 5 + 2 pair) is left as it
  is (`Balancing.TwoMeasureSecondLineKept`).
- **The head of a multi-measure rest is not marked with `_mm`.** Only the
  L − 1 measures after it are marked (`Rests.RestRunMarks`,
  `Rests.NothingMarkedBeforeFirstHead`).
- **The double-bar pass does not follow a rest run back to its head.** It
  breaks the bar-line measure itself (the code reads `staff[i]`, not
  `staff[i - 1]`). It raises when the first child is such a measure.
- **`choose_best_break`.** Its preferences for rehearsal marks and double bars
  can never decide. They test `_mm` exactly where the rest preference has
  already found none (`PageBreaks.ChooseBest`).
- **`add_part_name` is always called with its default name,
  "CONDUCTOR SCORE".**
- **Two `ArrangementVersion` models.** The package's model and the one in the
  single-file `models.py` differ: only the latter requires the instance to
  have no primary key before it bumps the label. Python imports the package
  `models/` in preference to `models.py`, so the single-file module is
  shadowed. It is modelled separately (`LegacyModels`).
- **The upload page's default case.** The page offers only "major", "minor"
  and "patch", and it keeps the label for any other type. The back end bumps
  the patch for every type other than "major" and "minor"
  (`UploadVersionPage.UnknownTypeKeepsLabel`).

## Model

| member | source | states |
|---|---|---|
| Staff.AddLineBreak | backend/divisi/part_formatter/processing.py:82-88 | the new line break goes after the measure's existing breaks, where its first `<voice>` is, so an existing first break stays the one `find("LayoutBreak")` returns; a measure without breaks gets exactly one line break; nothing else about the child changes |
| Staff.AddLineBreakOpt | backend/divisi/part_formatter/processing.py:91-94 | a child that already has a break is unchanged; otherwise it gets exactly one line break; at most one break is preserved |
| Staff.RemoveFirstBreak | backend/divisi/part_formatter/processing.py:96-99 | the first break (the one `find` returns) is removed when there is one, else the child is unchanged |
| Staff.AddPageBreak | backend/divisi/part_formatter/processing.py:102-115 | an existing first break becomes a page break, keeping the number of breaks; a child without one gets a single page break |
| Staff.AddPageBreakIdempotent | backend/divisi/part_formatter/processing.py:102-115 | adding a page break twice is the same as once |
| Rests.StripChild | backend/divisi/part_formatter/processing.py:150-154 | only a measure changes, losing its first break; a measure with at most one break ends with none |
| Rests.Strip | backend/divisi/part_formatter/processing.py:145-155 | every child is stripped; if no child had more than one break, no measure has a break afterwards |
| Rests.StripExistingLinebreaks | backend/divisi/part_formatter/processing.py:145-155 | the loop leaves the staff equal to `Strip` of the old staff |
| Rests.MarkChild | backend/divisi/part_formatter/processing.py:165-169 | only `_mm` may change, and only to the positive countdown value |
| Rests.NextToMark | backend/divisi/part_formatter/processing.py:165-171 | the definition of `measure_to_mark` after one child: a non-measure leaves it alone; a head of a multimeasure rest sets it to its count minus one; any other measure lowers a positive counter by one. `Rests.ToMarkAfterHead` and `Rests.RestRunMarks` carry its properties |
| Rests.ToMark | backend/divisi/part_formatter/processing.py:163-171 | the definition of `measure_to_mark` when the loop reaches child `i`: 0 at the start, then `NextToMark` applied child by child |
| Rests.MarkRests | backend/divisi/part_formatter/processing.py:158-172 | the marked staff differs from the input only in `_mm` |
| Rests.PrepMmRests | backend/divisi/part_formatter/processing.py:158-172 | succeeds exactly when every rest head has an integer count (else `int()` raises), and then equals `MarkRests` of the old staff |
| Rests.ToMarkAfterHead | backend/divisi/part_formatter/processing.py:163-171 | inside a run, the countdown starts at L − 1 and drops by one per measure until it stops at 0 |
| Rests.RestRunMarks | backend/divisi/part_formatter/processing.py:158-172 | the c-th measure after a head of length L carries `_mm` = L − c while c ≤ L − 1, and is untouched beyond the run |
| Rests.NothingMarkedBeforeFirstHead | backend/divisi/part_formatter/processing.py:163-171 | before and at the first rest head nothing is marked |
| Rests.ClearMm | backend/divisi/part_formatter/processing.py:180-181 | the `_mm` attribute is removed and nothing else changes |
| Rests.Cleanup | backend/divisi/part_formatter/processing.py:175-182 | no child keeps `_mm`, and the breaks are unchanged |
| Rests.CleanupMmRests | backend/divisi/part_formatter/processing.py:175-182 | the loop clears `_mm` on every child, and the staff equals `Cleanup` of the old staff |
| MarkBreaks.NearestLen | backend/divisi/part_formatter/processing.py:208-214 | the nearest index at or before j whose child has `len`, or none when there is no such child |
| MarkBreaks.TargetsBeforeMembers | backend/divisi/part_formatter/processing.py:192-214 | an index is a target exactly when some rehearsal mark before n selects it |
| MarkBreaks.WithBreaksAt | backend/divisi/part_formatter/processing.py:205 | children with a break are kept; a changed child has exactly one line break; only breaks change |
| MarkBreaks.WithOneMoreBreak | backend/divisi/part_formatter/processing.py:205 | adding a target is one more `_add_line_break_to_measure_opt` on the current staff |
| MarkBreaks.RehearsalPassFails | backend/divisi/part_formatter/processing.py:201-202 | the pass raises (`assert i > 0`) exactly when the first child is a measure whose voice has a rehearsal mark |
| MarkBreaks.RehearsalBreaks | backend/divisi/part_formatter/processing.py:185-215 | the staff after a successful rehearsal-mark pass keeps its length; it is the staff with a break added at every target before a rehearsal mark. `RehearsalBreaksPlaced` and `RehearsalBreaksOnlyThere` say where the breaks go |
| MarkBreaks.BreaksForMark | backend/divisi/part_formatter/processing.py:201-214 | the breaks one rehearsal mark sends, to the child before it and to the head of that child's rest run, add exactly that mark's targets |
| MarkBreaks.AddRehearsalMarkLineBreaks | backend/divisi/part_formatter/processing.py:185-215 | fails exactly when the first child is a measure with a rehearsal mark (leaving the staff unchanged); otherwise the staff equals `RehearsalBreaks` of the old staff |
| MarkBreaks.FindRestHead | backend/divisi/part_formatter/processing.py:208-214 | the backward scan returns `NearestLen` of the staff |
| MarkBreaks.SameLensSameNearest | backend/divisi/part_formatter/processing.py:208-214 | the scan only depends on `len`, which the pass never changes |
| MarkBreaks.RehearsalBreaksPlaced | backend/divisi/part_formatter/processing.py:201-214 | the child before every rehearsal mark has a break; when it lies in a rest run, so does the run's head |
| MarkBreaks.RehearsalBreaksOnlyThere | backend/divisi/part_formatter/processing.py:192-215 | a child no rehearsal mark selects is left as it was |
| MarkBreaks.DoubleBarBreaks | backend/divisi/part_formatter/processing.py:229-244 | every measure with a bar line in its voice has a break; every other child, and every child already with a break, is unchanged |
| MarkBreaks.DoubleBarPassFails | backend/divisi/part_formatter/processing.py:238-239 | the pass raises (`assert i > 0`) exactly when the first child is a measure whose voice has a bar line |
| MarkBreaks.AddDoubleBarLineBreaks | backend/divisi/part_formatter/processing.py:218-244 | fails exactly when the first child is a measure with a bar line (unchanged staff); otherwise equals `DoubleBarBreaks` |
| RegularBreaks.RegularChild | backend/divisi/part_formatter/processing.py:296-309 | a child changes exactly when the counter has reached N on a measure without `_mm` and without a break, and then gets one line break |
| RegularBreaks.Restarted | backend/divisi/part_formatter/processing.py:284-294 | the definition of the counter after the voice is looked at: a bar line sets it to 0, which wins over a rehearsal mark setting it to 1; otherwise it is unchanged |
| RegularBreaks.NextCounter | backend/divisi/part_formatter/processing.py:278-309 | the definition of the counter after one child: non-measures leave it alone; an `_mm` measure or a measure that gets a break resets it to 0; any other measure adds one to the restarted counter. `PlainCounter` gives its closed form |
| RegularBreaks.RegularLineBreaks | backend/divisi/part_formatter/processing.py:273-311 | only breaks change; a changed child is a plain measure that gets one line break; at most one break is preserved |
| RegularBreaks.AddRegularLineBreaks | backend/divisi/part_formatter/processing.py:273-311 | the loop leaves the staff equal to `RegularLineBreaks` of the old staff |
| RegularBreaks.PlainCounter | backend/divisi/part_formatter/processing.py:278-309 | on plain measures the counter before measure k is k mod (N+1) |
| RegularBreaks.PlainSpacing | backend/divisi/part_formatter/processing.py:304-309 | on plain measures, measure k gets a break exactly when k mod (N+1) = N |
| Balancing.BalanceWindow | backend/divisi/part_formatter/processing.py:482-488 | the window is rebalanced only when line 1 has at least 4 measures and line 2 has at most 2; with exactly 4 the break at `first` is removed; with more, the break moves to the midpoint, which lies inside line 1; nothing outside the window changes |
| Balancing.TwoMeasureSecondLineKept | backend/divisi/part_formatter/processing.py:477-482 | a second line of two measures is never rebalanced, however long the first line is, because `line2_len` counts the measure at `first` |
| Balancing.BalanceStep | backend/divisi/part_formatter/processing.py:440-492 | one child of the loop changes only breaks and keeps the cursor consistent |
| Balancing.BalanceFrom | backend/divisi/part_formatter/processing.py:440-492 | the rest of the loop changes only breaks and keeps at most one break per child |
| Balancing.Balance | backend/divisi/part_formatter/processing.py:415-494 | the staff keeps its length, and at most one break per child is preserved |
| Balancing.NewFinalPassThrough | backend/divisi/part_formatter/processing.py:415-494 | the loop leaves the staff equal to `Balance` of the old staff |
| Balancing.BalanceAt | backend/divisi/part_formatter/processing.py:440-492 | one iteration of the loop body equals `BalanceStep` |
| PageBreaks.IsLineBreak | backend/divisi/part_formatter/processing.py:324-328 | a measure with a `LayoutBreak` and no `_mm` |
| PageBreaks.HasRehearsalMarkMm | backend/divisi/part_formatter/processing.py:330-336 | a measure with a voice, a rehearsal mark in it, and `_mm` set |
| PageBreaks.HasDoubleBarMm | backend/divisi/part_formatter/processing.py:338-344 | a measure with a voice, a bar line in it, and `_mm` set |
| PageBreaks.ChooseBest | backend/divisi/part_formatter/processing.py:346-375 | the page break goes at the first or the second candidate; for two real line breaks it goes at the second exactly when the child after the first has no `_mm` and the child after the second has one |
| PageBreaks.ChooseBestBreak | backend/divisi/part_formatter/processing.py:346-375 | the method equals `ChooseBest` |
| PageBreaks.PageStep | backend/divisi/part_formatter/processing.py:378-412 | one child of the planner only rewrites breaks |
| PageBreaks.Cutoff | backend/divisi/part_formatter/processing.py:388 | the definition of the lines-per-page cutoff: 7 on the first page, 8 after it |
| PageBreaks.PagesFrom | backend/divisi/part_formatter/processing.py:378-412 | each child is either unchanged or a real line break turned into a page break; no break is added or removed |
| PageBreaks.Pages | backend/divisi/part_formatter/processing.py:314-413 | the number of breaks of every child is kept |
| PageBreaks.AddPageBreaks | backend/divisi/part_formatter/processing.py:314-413 | the loop leaves the staff equal to `Pages` of the old staff |
| PageBreaks.PlanAt | backend/divisi/part_formatter/processing.py:378-412 | one iteration of the loop body equals `PageStep` |
| PageBreaks.ShortRestUnchanged | backend/divisi/part_formatter/processing.py:388-397 | while the remaining line breaks cannot reach the cutoff, nothing changes |
| PageBreaks.FewLinesNoPageBreak | backend/divisi/part_formatter/processing.py:388-397 | a staff with fewer than seven line breaks gets no page break |
| Headers.FirstVBox | backend/divisi/part_formatter/processing.py:124-127 | the index of the first `<VBox>`, or none when there is no `<VBox>` |
| Headers.AppendToFirstVBox | backend/divisi/part_formatter/processing.py:124-130 | only the first `<VBox>` changes, and it gains exactly the extra texts |
| Headers.BroadwayHeader | backend/divisi/part_formatter/processing.py:124-130 | measures and breaks are untouched |
| Staff.ShowNumberText | backend/divisi/part_formatter/processing.py:32-38 | the definition of the show-number `<Text>`: style `user_2` holding the show number. `Headers.BroadwayHeaderTexts` pins where it goes |
| Staff.ShowTitleText | backend/divisi/part_formatter/processing.py:41-47 | the definition of the show-title `<Text>`: style `user_3` holding the show title |
| Staff.PartNameText | backend/divisi/part_formatter/processing.py:50-56 | the definition of the part-name `<Text>`: style `instrument_excerpt` holding the part name. `Headers.PartNameTexts` pins where it goes |
| Headers.BroadwayHeaderTexts | backend/divisi/part_formatter/processing.py:124-130 | the first `<VBox>` ends with the show number text followed by the show title text |
| Headers.AddBroadwayHeader | backend/divisi/part_formatter/processing.py:124-130 | the loop equals `BroadwayHeader` |
| Headers.WithPartName | backend/divisi/part_formatter/processing.py:133-141 | a frame that already has an `instrument_excerpt` text is unchanged; otherwise the first `<VBox>` gets the `instrument_excerpt` text holding the part name, after its existing texts; nothing else changes |
| Headers.PartNameTexts | backend/divisi/part_formatter/processing.py:133-141 | a first `<VBox>` without a part-name text keeps its texts in order and gains exactly one more at the end, `instrument_excerpt` with the given name; every other child is unchanged |
| Headers.PartNameIdempotent | backend/divisi/part_formatter/processing.py:133-141 | adding the part name twice is the same as once, whatever the second name |
| Headers.AddPartName | backend/divisi/part_formatter/processing.py:133-141 | the loop equals `WithPartName`, so it appends the part name's text as that function says |
| Headers.StyleFromName | backend/divisi/part_formatter/processing.py:18-20 | only "broadway" and "jazz" name a style |
| Headers.SheetFor | backend/divisi/part_formatter/processing.py:563-585 | non-`.mss` files are skipped; paths containing "Excerpts" get the part sheet, others the score sheet |
| Headers.SheetForIgnoresCase | backend/divisi/part_formatter/processing.py:576 | a file whose suffix is `.mss` in any ASCII case is a style sheet |
| Headers.PathJoin | backend/divisi/part_formatter/processing.py:565-569 | `os.path.join`: the result starts with the directory and ends with the name, and a directory without a trailing '/' is followed by one |
| Headers.StyleSheets | backend/divisi/part_formatter/processing.py:563-571 | Broadway picks `broadway_score.mss` and `broadway_part.mss`, Jazz `jazz_score.mss` and `jazz_part.mss`; the score and part sheets differ |
| Pipeline.ProcessStaff | backend/divisi/part_formatter/processing.py:670-681 | the passes in order succeed exactly when `Layout` does, and then leave the staff equal to it |
| Pipeline.LayoutFails | backend/divisi/part_formatter/processing.py:670-681 | the document is abandoned exactly when a rest head lacks its count, or the first child is a measure with a rehearsal mark or bar line |
| Pipeline.LayoutLeavesNoMarker | backend/divisi/part_formatter/processing.py:670-681 | no `_mm` marker survives a successful layout |
| Pipeline.LayoutKeepsOneBreak | backend/divisi/part_formatter/processing.py:670-681 | if no child starts with more than one break, none ends with more than one |
| Pipeline.Marked | backend/divisi/part_formatter/processing.py:670-674 | the first four passes in order; when none raises, the staff keeps its length |
| Pipeline.Finish | backend/divisi/part_formatter/processing.py:675-681 | the passes after the double bars, which cannot raise, keep the staff's length |
| Pipeline.Layout | backend/divisi/part_formatter/processing.py:670-681 | all the passes in order; when none raises, the staff keeps its length |
| Pipeline.MarkedFails | backend/divisi/part_formatter/processing.py:670-674 | the first four passes raise exactly when a rest head lacks its count or the first child is a measure with a rehearsal mark or a bar line |
| Pipeline.FinishLeavesNoMarker | backend/divisi/part_formatter/processing.py:675-681 | after the last passes no child carries `_mm` |
| Text.Split | backend/ensembles/models/arrangement_version.py:107 | `str.split(sep)`: the parts have no separator and join back to the input |
| Text.IntToString | backend/ensembles/models/arrangement_version.py:117 | `str(i)` / f-string formatting of an integer: non-empty, without '.', and with a '-' only in front. `Text.ParseIntToString` reads it back |
| Text.ParseInt | backend/ensembles/models/arrangement_version.py:107 | `int(s)` on an optional sign and decimal digits, None for the ValueError; a parse succeeds only on a non-empty string. `Text.ParseIntToString` is its round trip with `IntToString` |
| Text.ParseIntToString | backend/ensembles/models/arrangement_version.py:107 | `int(str(i)) == i` |
| Text.StripLeft | backend/ensembles/models/part_name_alias.py:34 | the result is a suffix, every removed character is whitespace, and it does not start with whitespace |
| Text.IsSpace | backend/ensembles/models/part_name_alias.py:34 | the definition of the whitespace set of `str.split()` and `str.strip()`: space, \t to \r, \x1c to \x1f, \x85, \xa0 and the Unicode space and line separators |
| Text.Strip | backend/ensembles/models/part_name_alias.py:34 | the definition of `str.strip()`: `StripRight` after `StripLeft`. `NonSpaceStrip`, `WordsStrip` and `LowerStrip` carry its properties |
| Text.LowerAscii | backend/ensembles/models/part_name_alias.py:34 | `.lower()` on ASCII letters: the same length, and each character is lowered one to one with no upper-case letter left |
| Text.StripRight | backend/ensembles/models/part_name_alias.py:34 | the result is a prefix, every removed character is whitespace, and it does not end with whitespace |
| Text.Words | backend/ensembles/models/part_name_alias.py:34 | `str.split()`: every word is non-empty and without whitespace |
| Text.WordsConcat | backend/ensembles/models/part_name_alias.py:34 | the words one after the other are exactly the input's non-whitespace characters, in order |
| Text.WordsCons | backend/ensembles/models/part_name_alias.py:34 | `split()` character by character: leading whitespace is dropped; a non-whitespace character followed by whitespace or the end is a word of its own; one followed by a non-whitespace character starts the first word of the rest. So consecutive words are separated by whitespace in the input |
| Text.WordsDropSpaces | backend/ensembles/models/part_name_alias.py:34 | whitespace before a string adds no word |
| Text.WordsAppendSpaces | backend/ensembles/models/part_name_alias.py:34 | whitespace after a string adds no word |
| Text.WordsStrip | backend/ensembles/models/part_name_alias.py:34 | `s.strip().split()` equals `s.split()` |
| Text.WordsSpaceRun | backend/ensembles/models/part_name_alias.py:34 | any two non-empty whitespace runs between the same text give the same words |
| Text.NonSpaceStrip | backend/ensembles/models/part_name_alias.py:34 | stripping removes only whitespace characters |
| Text.NonSpaceLower | backend/ensembles/models/part_name_alias.py:34 | lowering commutes with removing whitespace |
| Text.LowerStrip | backend/ensembles/models/part_name_alias.py:34 | `s.strip().lower()` equals `s.lower().strip()` |
| Text.WordsNoUpper | backend/ensembles/models/part_name_alias.py:34 | splitting a string without upper-case letters gives words without them |
| VersionLabel.ParseLabel | backend/ensembles/models/arrangement_version.py:107 | a label parses only when it has exactly three dot-separated parts |
| VersionLabel.ParseFormat | backend/ensembles/models/arrangement_version.py:107-117 | the formatted label parses back to the same triple |
| VersionLabel.FormatLabel | backend/ensembles/models/arrangement_version.py:117 | the definition of `f"{major}.{minor}.{patch}"`. `VersionLabel.ParseFormat` shows that it parses back to the triple |
| VersionLabel.BumpTriple | backend/ensembles/models/arrangement_version.py:106-117 | "major" gives (M+1, 0, 0), "minor" gives (M, m+1, 0), any other type gives (M, m, p+1); the bump is strictly greater |
| VersionLabel.BumpIsNextAtLevel | backend/ensembles/models/arrangement_version.py:106-117 | a label strictly between a label and its bump keeps the major (and, below "major", the minor); none lies between a label and its patch bump |
| VersionLabel.BumpVersionLabel | backend/ensembles/models/arrangement_version.py:106-117 | succeeds exactly when the old label parses (else `int()` raises); the new label parses to the bump of the old one |
| VersionLabel.InitialLabelParses | backend/ensembles/models/arrangement_version.py:34 | the default label "0.0.0" is the zero triple |
| ArrangementVersions.IsProcessing | backend/ensembles/models/arrangement_version.py:49-51 | the export state is PROCESSING |
| ArrangementVersions.ErrorOnExport | backend/ensembles/models/arrangement_version.py:53-55 | the export state is ERROR |
| ArrangementVersions.ProcessingExcludesError | backend/ensembles/models/arrangement_version.py:49-55 | a version is never both processing and in error |
| ArrangementVersions.VersionLabelFull | backend/ensembles/models/arrangement_version.py:57-60 | the label with a "v" in front: one character longer, starting with 'v', and the rest is the label |
| ArrangementVersions.StorageKey | backend/ensembles/models/arrangement_version.py:62-83 | every key starts with "ensembles/" and ends with "/{segment}/{name}" |
| ArrangementVersions.MsczFileKey | backend/ensembles/models/arrangement_version.py:62-64 | the key ends with "/raw/" and the file name |
| ArrangementVersions.OutputFileKey | backend/ensembles/models/arrangement_version.py:66-68 | the key ends with "/processed/" and the file name |
| ArrangementVersions.ScorePdfKey | backend/ensembles/models/arrangement_version.py:70-73 | the key ends with "/processed/", the file name without its extension, and ".pdf" |
| ArrangementVersions.AudioFileKey | backend/ensembles/models/arrangement_version.py:75-78 | the key ends with "/processed/", the file name without its extension, and ".mp3" |
| ArrangementVersions.ScorePartsPdfKey | backend/ensembles/models/arrangement_version.py:80-83 | the key ends with "/processed/", the file name without its extension, and " - Score+Parts.pdf" |
| ArrangementVersions.SplitExtRoot | backend/ensembles/models/arrangement_version.py:72 | `os.path.splitext(name)[0]`: a prefix; anything removed starts at the last '.' after the last '/' |
| ArrangementVersions.LastIndexOf | backend/ensembles/models/arrangement_version.py:72 | the index of the last occurrence of a character, or -1, as `os.path.splitext` finds the last separator and dot: the character is at that index and not after it |
| ArrangementVersions.RootOfName | backend/ensembles/models/arrangement_version.py:72 | the root of "base.ext" is base |
| ArrangementVersions.StorageKeyInjective | backend/ensembles/models/arrangement_version.py:62-83 | when slugs, label and segment contain no '/', two equal storage keys agree on slugs, label, segment and name |
| ArrangementVersions.RawNeverProcessed | backend/ensembles/models/arrangement_version.py:62-68 | when slugs and labels contain no '/', an uploaded file's key is never the key of a processed file |
| ArrangementVersions.MsczFileKeyInjective | backend/ensembles/models/arrangement_version.py:62-64 | two versions whose slugs and label contain no '/' share a raw key only when they agree on slugs, label and file name |
| ArrangementVersions.ScorePdfOfMscz | backend/ensembles/models/arrangement_version.py:70-83 | for a file named "base.mscz", the score and score+parts PDFs are the processed keys of "base.pdf" and "base - Score+Parts.pdf" |
| ArrangementVersions.DeleteKeys | backend/ensembles/models/arrangement_version.py:140-152 | the list starts with the four fixed keys, contains exactly those and the part keys, and adds no duplicates |
| ArrangementVersions.FixedKeysDistinct | backend/ensembles/models/arrangement_version.py:142-147 | the four fixed keys are pairwise distinct |
| ArrangementVersions.FirstLatest | backend/ensembles/models/arrangement_version.py:124-126 | the first latest row of the arrangement in table order, or none when there is none |
| ArrangementVersions.LatestLabel | backend/ensembles/models/arrangement_version.py:123-128 | the definition of the label a typed save bumps from: the label of `FirstLatest`, or "0.0.0" when there is none. `SuccessiveSavesIncrease` and `SavedIsLatest` use it |
| ArrangementVersions.ClearLatest | backend/ensembles/models/arrangement_version.py:132-134 | every row of the arrangement is no longer latest, and the other rows are untouched |
| ArrangementVersions.Write | backend/ensembles/models/arrangement_version.py:138 | `super().save()` updates the row of the pk or inserts a row with a fresh pk |
| ArrangementVersions.UpdateRow | backend/ensembles/models/arrangement_version.py:138 | the UPDATE branch of `super().save()`: replaces the row with the instance's pk and meets `WriteOk`, so every other row is kept, none is new, and the table stays valid |
| ArrangementVersions.InsertRow | backend/ensembles/models/arrangement_version.py:138 | the INSERT branch of `super().save()`, when no row has the pk: adds the instance's row under its pk or the next key, and meets `WriteOk` |
| ArrangementVersions.BumpAndWrite | backend/ensembles/models/arrangement_version.py:124-138 | fails exactly when the latest label does not parse; the saved label is the bump of the latest label (or of "0.0.0"); the instance is the latest; the table stays valid |
| ArrangementVersions.BumpLeavesOneLatest | backend/ensembles/models/arrangement_version.py:131-136 | after a bumping save the saved row is the only latest version of its arrangement |
| ArrangementVersions.BumpKeepsOtherArrangements | backend/ensembles/models/arrangement_version.py:132-134 | rows of other arrangements are left as they were |
| ArrangementVersions.SaveSpec | backend/ensembles/models/arrangement_version.py:119-138 | without a truthy version type, the label and latest flag are kept; with one, the label is bumped; the table stays valid |
| ArrangementVersions.SavedIsLatest | backend/ensembles/models/arrangement_version.py:124-138 | after a save with a type, the arrangement's latest label is the saved label |
| ArrangementVersions.SuccessiveSavesIncrease | backend/ensembles/models/arrangement_version.py:119-138 | a second save with a type on the same arrangement succeeds and gives a strictly greater label than the first |
| ArrangementVersions.ArrangementVersion.Save | backend/ensembles/models/arrangement_version.py:119-138 | the method's new table and instance are `SaveSpec`'s; on a `ValueError` nothing is written |
| ArrangementVersions.VersionTable.UpdateNotLatest | backend/ensembles/models/arrangement_version.py:132-134 | the table becomes `ClearLatest` of the old one |
| ArrangementVersions.VersionTable.SaveRow | backend/ensembles/models/arrangement_version.py:138 | the table and pk become `Write`'s |
| Slugs.CandidatesDistinct | backend/ensembles/lib/slug.py:17 | different counters give different candidates |
| Slugs.Candidate | backend/ensembles/lib/slug.py:8-17 | the definition of the k-th slug tried: the base for k = 0, else `f"{base_slug}-{k}"`. `Slugs.CandidatesDistinct` shows the candidates are distinct |
| Slugs.Taken | backend/ensembles/lib/slug.py:12-16 | the definition of the slugs the collision query sees: every row's slug except the instance's own row when its pk is truthy. `Slugs.OwnSlugIsFree` shows that excluding the own row matters |
| Slugs.OwnSlugIsFree | backend/ensembles/lib/slug.py:13-14 | an instance being updated never collides with its own row |
| Slugs.GenerateUniqueSlug | backend/ensembles/lib/slug.py:3-20 | the slug is not taken by another row; it is the base when the base is free, else "base-k" for the smallest k ≥ 1 whose candidate is free |
| Slugs.FirstFree | backend/ensembles/lib/slug.py:16-20 | the loop stops at the first free candidate |
| LegacyModels.SlugTable.Put | backend/ensembles/models.py:41 | the row is written at the instance's pk, or at a fresh pk not yet used |
| LegacyModels.GeneratedSlugKeepsUnique | backend/ensembles/models.py:31 | writing a generated slug keeps the slug column unique |
| LegacyModels.Ensemble.Save | backend/ensembles/models.py:38-41 | a set slug is kept; an empty one is made from `slugify(name)`: that base when no other row has it, else the first `base-k`, k ≥ 1, that no other row has; the column stays unique; the row is written at the pk |
| LegacyModels.OptionalIntToString | backend/ensembles/models.py:76-77 | `f"{x}"` of an optional integer: "None" exactly for None, and a number reads back as itself |
| LegacyModels.GetMvtno | backend/ensembles/models.py:74-77 | with numbers that are not negative, the movement number contains a '-' exactly when there is an act |
| LegacyModels.MvtnoReadsBack | backend/ensembles/models.py:74-77 | with an act the movement number splits at its one '-' into act and piece; without one it is the piece |
| LegacyModels.LatestVersionNum | backend/ensembles/models.py:83-90 | the label of the first latest version, or "N/A" |
| LegacyModels.Arrangement.Save | backend/ensembles/models.py:59-72 | slug as for an ensemble, made from `slugify(title)`; a missing piece number becomes the pk, which a new arrangement gets from its first write; the act is unchanged |
| LegacyModels.LegacySaveSpec | backend/ensembles/models.py:121-140 | the label is bumped only when there is no truthy pk and a truthy type; otherwise label and latest flag are kept |
| LegacyModels.LatestVersionNumAfterSave | backend/ensembles/models.py:83-90 | after a bumping save, `latest_version_num` shows the new label and no other version of the arrangement is latest |
| LegacyModels.LegacyArrangementVersion.Save | backend/ensembles/models.py:121-140 | the method's new table and instance are `LegacySaveSpec`'s |
| PartNameAliases.Normalize | backend/ensembles/models/part_name_alias.py:32-34 | None or "" gives ""; the result has no outer whitespace, only single plain spaces, and no upper-case letters |
| PartNameAliases.NormalizeIdempotent | backend/ensembles/models/part_name_alias.py:32-34 | normalising a normal form changes nothing |
| PartNameAliases.NormalizeIgnoresLeadingSpace | backend/ensembles/models/part_name_alias.py:34 | leading whitespace does not change the normal form |
| PartNameAliases.NormalizeIsJoinedWords | backend/ensembles/models/part_name_alias.py:34 | the normal form is the words of the lowered alias joined by single spaces |
| PartNameAliases.NormalizeSameWords | backend/ensembles/models/part_name_alias.py:28-34 | the case- and whitespace-insensitive lookup: two aliases have the same normal form if and only if their lowered words are the same |
| PartNameAliases.NormalizeKeepsCharacters | backend/ensembles/models/part_name_alias.py:33-34 | the normal form's non-whitespace characters are the alias's, lowered, in the same order |
| PartNameAliases.NormalizeIgnoresCase | backend/ensembles/models/part_name_alias.py:28-34 | aliases equal up to ASCII case have the same normal form |
| PartNameAliases.NormalizeCollapsesSpace | backend/ensembles/models/part_name_alias.py:33-34 | any non-empty whitespace run inside an alias normalises as a single space would |
| PartNameAliases.NonSpaceOfJoinWords | backend/ensembles/models/part_name_alias.py:34 | joining whitespace-free words with spaces keeps exactly their characters |
| PartNameAliases.JoinWordsShape | backend/ensembles/models/part_name_alias.py:34 | words joined by single spaces have no outer or repeated whitespace |
| PartNameAliases.WordsOfJoin | backend/ensembles/models/part_name_alias.py:34 | splitting the joined words gives the words back |
| PartNameAliases.PartNameAlias.Save | backend/ensembles/models/part_name_alias.py:36-39 | an empty normalised alias is filled from the alias; a preset one is kept |
| PartNameMerge.Check | backend/ensembles/serializers/ensemble.py:134-161 | `invalid_part_id` exactly when a part is missing, the two ensembles differ or they are not the request's; self-merge exactly when otherwise the ids are equal; else both part names |
| PartNameMerge.Message | backend/ensembles/serializers/ensemble.py:126-155 | the definition of the two error messages: "One or both of these part ids is incorrect." for `invalid_part_id`, and "Cannot merge a PartName with itself." |
| PartNameMerge.MergeSerializer.Validate | backend/ensembles/serializers/ensemble.py:134-161 | fails as `Check` does, leaving `attrs` unchanged; on success adds `first_part` and `second_part` and nothing else |
| ScoresVersions.DigitAt | divisi-django/scores/utils.py:6 | `int(version[k])` succeeds exactly for an in-range digit; `IndexError` exactly when out of range |
| ScoresVersions.IncrementVersion | divisi-django/scores/utils.py:1-17 | invalid type is rejected; succeeds exactly when characters 1, 3, 5 are digits; the result is "v" plus the bump of those three digits |
| ScoresVersions.IncrementVersionGoesBackwards | divisi-django/scores/utils.py:6 | for a single-digit major and minor and a two-digit patch, a release gives a label lower than its input |
| ScoresVersions.IncrementVersionFixed | divisi-django/scores/utils.py:1-17 | corrected: succeeds exactly for "v" plus a parsable label, and gives "v" plus its bump |
| ScoresVersions.FixedIncreases | divisi-django/scores/utils.py:1-17 | corrected: every increment is strictly greater and can itself be incremented |
| ScoresVersions.FixedAgreesOnSingleDigits | divisi-django/scores/utils.py:6 | on single-digit components, the code as written and the corrected version agree |
| UploadVersionPage.JsParseInt | frontend/src/pages/ensembles/UploadArrangementVersionPage.tsx:43 | `parseInt(part, 10)`: a number only when the part contains a digit |
| UploadVersionPage.JsParseIntToString | frontend/src/pages/ensembles/UploadArrangementVersionPage.tsx:43 | `parseInt(String(i), 10) == i` |
| UploadVersionPage.Padded | frontend/src/pages/ensembles/UploadArrangementVersionPage.tsx:46-48 | fewer than three parts are padded with zeros to three; longer lists are kept |
| UploadVersionPage.CurrentNumbers | frontend/src/pages/ensembles/UploadArrangementVersionPage.tsx:42-54 | the three numbers parsed from the label; missing ones are 0 and a NaN major is 0 |
| UploadVersionPage.ParsedParts | frontend/src/pages/ensembles/UploadArrangementVersionPage.tsx:43 | `currentVersion.split('.').map(part => parseInt(part, 10))`: one number per dot-separated part, each `JsParseInt` of that part |
| UploadVersionPage.BumpNumbers | frontend/src/pages/ensembles/UploadArrangementVersionPage.tsx:58-73 | "major", "minor" and "patch" bump their level and reset the lower ones; any other type keeps the numbers |
| UploadVersionPage.TargetType | frontend/src/pages/ensembles/UploadArrangementVersionPage.tsx:56 | `type || versionType`: a missing or empty argument falls back to the page's selected type |
| UploadVersionPage.JsFormat | frontend/src/pages/ensembles/UploadArrangementVersionPage.tsx:75 | a number formatted as in a template string contains no '.' |
| UploadVersionPage.FormatNumbers | frontend/src/pages/ensembles/UploadArrangementVersionPage.tsx:75 | the template string `${major}.${minor}.${patch}` splits at '.' back into its three numbers |
| UploadVersionPage.NewVersionNumber | frontend/src/pages/ensembles/UploadArrangementVersionPage.tsx:39-76 | without a latest label (missing or empty) the page shows "1.0.0"; every label it shows has three dot-separated parts |
| UploadVersionPage.GetNewVersionNumber | frontend/src/pages/ensembles/UploadArrangementVersionPage.tsx:39-76 | the function, padding loop included, computes `NewVersionNumber` |
| UploadVersionPage.CurrentNumbersOfLabel | frontend/src/pages/ensembles/UploadArrangementVersionPage.tsx:42-54 | a back-end label is read back as its three numbers |
| UploadVersionPage.CurrentNumbersOfNotAvailable | frontend/src/pages/ensembles/UploadArrangementVersionPage.tsx:42-54 | "N/A" reads as 0.0.0 |
| UploadVersionPage.PageMatchesBump | frontend/src/pages/ensembles/UploadArrangementVersionPage.tsx:39-76 | for "major", "minor" and "patch", the page's label matches the back end's bump of the latest label |
| UploadVersionPage.PageWithoutLatest | frontend/src/pages/ensembles/UploadArrangementVersionPage.tsx:39-76 | with "N/A", the page matches the back end's bump of "0.0.0" |
| UploadVersionPage.PagePredictsSave | frontend/src/pages/ensembles/UploadArrangementVersionPage.tsx:39-76 | the label the page shows is the label the back end saves for that arrangement |
| UploadVersionPage.TypeArgOverrides | frontend/src/pages/ensembles/UploadArrangementVersionPage.tsx:56 | a given type argument takes precedence over the selected version type |
| UploadVersionPage.UnknownTypeKeepsLabel | frontend/src/pages/ensembles/UploadArrangementVersionPage.tsx:71-72 | any other type shows the latest label unchanged |

## Left out

- Reading and writing the document: XML parsing and serialisation, the
  `.mscz` zip, walking and copying files, and the metadata tags set at the
  start of `process_mscx`. The model starts from the
  first staff as a sequence of children.
- `print` and logging in every pass.
- `balance_mm_rest_line_breaks` and `final_pass_through`: neither pass is
  called by `process_mscx`.
- Storage I/O in `delete`: only the list of keys it deletes is modelled, not
  the `exists`/`delete` calls or their errors.
- The `*_url` properties: these are calls into the storage back end.
- `slugify`: given as its result (`nameSlug`, `titleSlug`, `base`), because
  it is a Django library function.
- The database: it is a value.
  - Timestamps and the `-timestamp` ordering are not modelled. The row order
    of `Db` stands for that ordering, and `.first()` is the first row.
  - The `unique_together` constraint on arrangement and label, the
    part-name alias unique constraint, and the `IntegrityError` they raise
    are not modelled.
- Celery tasks, views and the rest of the front end.
- The `max_length=10` of the `version_label` column: a bump whose label
  would be longer than ten characters (for example "100.100.100") is an
  error of the database. The model keeps labels of any length and does not
  model that error.
- PartNameAliases.Normalize: lowers ASCII letters only; Python's `str.lower`
  also lowers non-ASCII letters.
- VersionLabel.ParseLabel: reads each part with an optional '+' or '-' sign
  followed by ASCII digits. Python's `int()` also accepts surrounding
  whitespace, underscores and non-ASCII digits.
- ScoresVersions.DigitAt: reads ASCII digits only; `int()` of one non-ASCII
  digit character is not modelled.
- UploadVersionPage.JsParseInt: unbounded integers instead of IEEE doubles.
  Precision loss and exponent formatting for huge numbers are not modelled.
- Pipeline.Layout: after a failed pass the staff is not specified, because
  `process_mscx` raises and discards the document.
- Balancing.Balance and PageBreaks.Pages: promise only the preserved shape
  (length, breaks per child). The exact placement is the loop-threaded
  specification functions `BalanceFrom` and `PagesFrom`.

## Findings

| source | as written | input that shows it | evidently intended | confidence | as-written member | corrected member |
|---|---|---|---|---|---|---|
| divisi-django/scores/utils.py:6 | reads single characters at indices 1, 3 and 5 as the three components | "v1.2.10" with "release" gives "v1.2.2" | "v1.2.11": parse each whole component | not executed | ScoresVersions.IncrementVersionGoesBackwards | ScoresVersions.FixedIncreases |
