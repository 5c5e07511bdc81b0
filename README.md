# Highway defect assignment: a Dafny model of the script's own logic

The script prepares highway defect records for the maintenance depots. It
filters the defect report down to outstanding defects. It gives each defect a
responsible depot, a section, a chainage and an offset from the centreline,
and turns the offset into a cross-section position (XSP): hard shoulder,
lane 1 to 4, or off the carriageway. It splits the result into one feature
class per depot and audits the derived columns for missing values.

The GIS engine does the geometry: the depot catchments, the spatial join and
the linear referencing. That is outside this model. What the script spells
out itself is modelled:

- `selection.dfy` (module `Selection`): the attribute selection tool. It
  copies the rows that an SQL where-clause selects, in their order. NULL is
  handled with SQL's three-valued logic: a comparison with NULL is unknown,
  and an unknown row is not selected.
- `status_filter.dfy` (`StatusFilter`): the outstanding-defect filter,
  `Defect_Status <> 'COMPLETED' AND Defect_Status <> 'SUPERSEDED'`.
- `depot_split.dfy` (`DepotSplit`): the eleven selections
  `Responsible_Depot = '<depot>'` that fill the DefectByDepot database.
  They are written here as one loop over a table of the eleven
  (output name, depot name) pairs. The database is a workspace that already
  exists: the eleven outputs replace feature classes of the same names, and
  any other feature class in it stays.
- `xsp.dfy` (`XspCalc`): the `CalcXSP` code block exactly as written. Its
  Lane 2/3/4 range tests are quoted strings, and a non-empty Python string
  is always true. Beside it is the evidently intended rule, with the real
  range tests and lane guards, and the exact set of inputs on which the two
  differ.
- `audits.dfy` (`Audits`): the four cursor loops at the end of the script.
  Each one reports the `Defect_Id` of every row whose derived value is
  missing. Chainage is tested with `is None`. The text columns are tested
  with Python 2's `not filter(None, value)`. That test is true exactly for
  the empty string, and it raises TypeError on NULL, which ends the script.
- `defects.dfy` (`Defects`): the row type (nullable columns are `Option`)
  and the Python truth of strings and `filter(None, s)`.

Rows are values (`seq<Defect>`). The modelled steps never update a row in
place: a selection writes a new feature class, and an audit only reads.
Printing becomes the sequence of reported ids.

Two places where the script's own text says more than its code does, and
one consequence of SQL's rules:
- The strings at Script.py:166-170 spell out range tests and lane guards
  that the code never evaluates: each is a non-empty string, which Python
  takes as true. So as written `CalcXSP` never returns "Lane 4" or
  "Off Carriageway" (see "## Findings").
- The comment at Script.py:297-299 says `None` tests empty or missing
  fields. But `filter(None, None)` raises TypeError, which ends the script:
  a string audit that meets NULL stops there and reports nothing more, and
  the audits after it do not run (see "## Findings").
- A defect whose `Defect_Status` is NULL is dropped by the outstanding
  filter: `NULL <> 'COMPLETED'` is unknown in SQL, and an unknown row is
  not selected.

## Model

| member | source | states |
|---|---|---|
| `Defects.FilterNone` | Script.py:300 | Python 2 `filter(None, s)` on a string gives a result no longer than `s` (that it is `s` itself is `FilterNoneKeepsAll`) |
| `Defects.FilterNoneKeepsAll` | Script.py:300 | `filter(None, s)` on a string returns `s` itself, so `not filter(None, s)` holds exactly when `s` is empty |
| `Selection.AndTruth` | Script.py:76 | SQL's AND is True iff both sides are True, and False iff either side is False |
| `Selection.Eval` | Script.py:76 | three-valued evaluation of a where-clause; on a row without NULLs it is never unknown |
| `Selection.KeepsMeaning` | Script.py:76 | a row is selected by `col = 'x'` iff its value is non-NULL and equal to `x`, by `col <> 'x'` iff non-NULL and different, by `A AND B` iff by both |
| `Selection.Select` | Script.py:76 | a selection never has more rows than its input |
| `Selection.SelectAppend` | Script.py:76 | selection distributes over concatenation, so it keeps row order |
| `Selection.SelectMember` | Script.py:76 | a row is in the output iff it is in the input and the clause is true for it |
| `Selection.SelectMultiplicity` | Script.py:76 | every selected row occurs as often as in the input; every other row does not occur |
| `Selection.SelectIdempotent` | Script.py:76 | selecting the output again with the same clause gives the same output |
| `Selection.SelectAnd` | Script.py:76 | selecting by `A AND B` equals selecting by `A` and then by `B` |
| `Selection.SelectAnalysis` | Script.py:76 | the row-by-row selection loop produces exactly `Select(rows, clause)` |
| `StatusFilter.KeepsOutstanding` | Script.py:76 | the where-clause is true iff the status is non-NULL and neither COMPLETED nor SUPERSEDED |
| `StatusFilter.FilterOutstanding` | Script.py:76 | de05v2 holds exactly the outstanding defects of de05, each as often as in de05, in order; filtering it again changes nothing |
| `DepotSplit.DepotsDistinct` | Script.py:271-281 | there are eleven selections, no two with the same output name or the same depot name |
| `DepotSplit.InSubsetIff` | Script.py:271-281 | a row is in a depot's subset iff it is in the input and its Responsible_Depot equals that depot's name |
| `DepotSplit.SelectEach` | Script.py:263-281 | one selection per listed depot, each written under its output name into the existing workspace, none overwriting another; every other feature class of the workspace keeps its rows |
| `DepotSplit.SplitByDepot` | Script.py:263-281 | DefectByDepot afterwards holds the feature classes it held before plus the eleven named ones; each of the eleven holds exactly the rows of that depot, in order; feature classes of other names are unchanged |
| `DepotSplit.SubsetsDisjoint` | Script.py:271-281 | no row is in two depot subsets |
| `DepotSplit.SubsetOfRow` | Script.py:271-281 | a row is in subset i iff its depot is depot i; a NULL or unlisted depot puts it in no subset |
| `XspCalc.Label` | Script.py:161-173 | every result is one of the six labels and none is empty |
| `XspCalc.LabelsAreExact` | Script.py:161-173 | different positions get different labels, and all six labels are used |
| `XspCalc.CalcXsp` | Script.py:160-173 | as written: Hard Shoulder iff 0 < d <= 3.3; Lane 1 iff -3.6 <= d <= 0; otherwise Lane 2 iff No_of_Lane is not "1L", else Lane 3; never Lane 4 or Off Carriageway |
| `XspCalc.NearCentrelineIgnoresLanes` | Script.py:162-165 | for -3.6 <= d <= 3.3 the result is Hard Shoulder or Lane 1 and does not depend on No_of_Lane |
| `XspCalc.AwayFromCentrelineIgnoresOffset` | Script.py:166-173 | outside [-3.6, 3.3] the result does not depend on the offset at all |
| `XspCalc.LanesPresent` | Script.py:166-170 | the number of lanes, between 1 and 4, that the lane guards admit; defined as 1 for "1L", 2 for "2L", 3 for "3L" and 4 for any other code |
| `XspCalc.CalcXspIntended` | Script.py:158-173 | intended rule: Hard Shoulder iff on the 3.3 shoulder; lane k iff the offset is in the k-th 3.6-wide strip and the road has at least k lanes; Off Carriageway iff neither |
| `XspCalc.IntendedBoundaries` | Script.py:162-173 | intended results at the band edges: 3.3 then 3.30001 on "4L", 0 and -3.6 on "1L", -3.60001 on "2L", -7.2 on "1L", -20 on "4L" |
| `XspCalc.AsWrittenVersusIntended` | Script.py:166-173 | the two rules differ exactly when d is outside [-3.6, 3.3] and not (-7.2 <= d < -3.6 with No_of_Lane other than "1L") |
| `XspCalc.AsWrittenLaneThreeOnSingleLane` | Script.py:166-169 | as written, offset -5.0 on a "1L" road gives Lane 3, a lane the road lacks; the intended rule gives Off Carriageway |
| `XspCalc.AsWrittenFarOffsetInLaneTwo` | Script.py:166-167 | as written, offset -20.0 on a "4L" road gives Lane 2; the intended rule gives Off Carriageway |
| `Audits.Test` | Script.py:300-333 | the test of one row; only the `filter(None, ·)` test raises, and it raises exactly when the value is NULL |
| `Audits.TestMeaning` | Script.py:300-333 | Chainage rows are reported iff NULL and never raise; text rows raise iff NULL and are reported iff empty |
| `Audits.Audit` | Script.py:295-338 | the cursor loop row by row, reading no row after TypeError; it reports at most one id per row |
| `Audits.Flagged` | Script.py:295-338 | the reference report (ids of failing rows, in row order) is no longer than the table |
| `Audits.FlaggedAppend` | Script.py:295-338 | the reference report of a concatenation is the concatenation of the reports, so ids come in row order |
| `Audits.FlaggedMember` | Script.py:295-338 | an id is reported iff some row with that id fails the test |
| `Audits.RaisedSticks` | Script.py:296-301 | after the loop has raised, later rows change nothing |
| `Audits.AuditRaisedIff` | Script.py:296-301 | the loop raises iff some row's test raises |
| `Audits.AuditWithoutRaise` | Script.py:295-338 | with no NULL to raise on, the loop reports exactly the reference report |
| `Audits.AuditStopsAtFirstRaise` | Script.py:309-312 | when row k is the first NULL, the loop reports the failing rows before k and stops |
| `Audits.RunAudit` | Script.py:295-338 | the cursor loop produces exactly the audit log of the rows |
| `Audits.AuditChainage` | Script.py:320-323 | reports, in row order, exactly the ids of rows whose Chainage is NULL; never raises |
| `Audits.AuditText` | Script.py:309-312 | raises iff some row is NULL; otherwise reports exactly the ids of empty rows in order; on a NULL, reports the empty rows before the first NULL. The loops at 295-301 and 331-334 are the same code |
| `Audits.CompletenessAudits` | Script.py:293-338 | the four audits run in script order; a TypeError in one stops all later ones, so they report nothing |
| `Audits.NothingToReport` | Script.py:295-338 | rows that all pass a test give an empty report and no exception |
| `Audits.FilledColumnPasses` | Script.py:295-338 | a text column that is set and non-empty in every row gives an empty report |
| `Audits.ResolvedTablePassesAudits` | Script.py:295-338 | on a fully resolved table every audit runs and reports nothing |
| `Audits.XspAuditAfterClassification` | Script.py:331-334 | once XSP holds the `CalcXSP` label of each row's offset and lane code, the XSP audit reports nothing and does not raise |
| `Audits.AsWrittenNullEndsAudit` | Script.py:297-312 | as written, a NULL Section in the first row ends the audit before the empty Section of the second is reported; the test the comment describes reports both |
| `Audits.IntendedTextAudit` | Script.py:297-300 | the audit the comment describes never raises and reports, in row order, exactly the ids of rows whose value is NULL or empty |

## Left out

- Depot catchments (Thiessen polygons over a fixed extent), the spatial join and the linear referencing along the network (Script.py:83-121). These are done inside the GIS engine, and its code is not part of this model.
- Attribute joins, adding, deleting and renaming fields, and the `ListFields` existence checks (Script.py:97-152, 176-188). These only change the schema of the GIS store.
- Applying `CalcXSP` to every row with the field calculator (Script.py:179). How the calculator passes a NULL Distance or No_of_Lane to the code block is not visible. So only the classifier itself is modelled, on a real offset and a string lane code.
- Import and export of spreadsheets, feature classes, layer files and PNG maps, data-driven pages, the dissolve, the relationship class and the display-name fields (Script.py:45-73, 192-252, 284-289). These are I/O.
- Deleting superseded data, timing, user greetings and progress messages (Script.py:241-243, 344-352). These are I/O and clock.
- The exact printed text of an audit line (`<id> ----> EMPTY VALUE FOUND!`). The model records the reported ids in order instead.
- Distance is a Python float and the model uses exact reals. The two agree when each double is read as its shortest decimal form: -3.6 read from the table equals the literal -3.6 at Script.py:164 and is Lane 1. NaN and the rounding of doubles are not represented.
- testing.py. It re-runs the field checks and the same audit loops against an existing database and prints every value. It adds no logic beyond the audits modelled here.

## Findings

| source | as written | input that shows it | evidently intended | confidence | as-written member | corrected member |
|---|---|---|---|---|---|---|
| Script.py:166-170 | The Lane 2/3/4 range tests (and the Lane 3/4 lane guards) are quoted string literals, which are always true. So beyond [-3.6, 3.3] the result is Lane 2, or Lane 3 on a "1L" road, and Lane 4 and Off Carriageway are unreachable | Distance -5.0 with No_of_Lane "1L" gives "Lane 3". Distance -20.0 with "4L" gives "Lane 2" | evaluate the range tests and lane guards, so that lane k needs the offset in the k-th 3.6-wide strip and at least k lanes; otherwise Off Carriageway | high; not executed | `XspCalc.AsWrittenLaneThreeOnSingleLane` | `XspCalc.CalcXspIntended` |
| Script.py:297-312 | The comment says `None` tests empty or missing fields, but `filter(None, None)` raises TypeError, so a NULL is never reported: the exception ends the script and the remaining rows and audits are skipped | Section NULL in row "1" and "" in row "2": the Section audit prints nothing and stops | report NULL and empty values alike and carry on | high; not executed | `Audits.AsWrittenNullEndsAudit` | `Audits.IntendedTextAudit` |
