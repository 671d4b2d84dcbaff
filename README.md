# Foreigner and fire analysis pipeline, in Dafny

Two scripts in this repository turn per-district census and fire tables into analysis outputs.

`AI/analysis_foreigner.py` works in four steps.
- It reads the recalculated foreigners table. A missing file raises FileNotFoundError.
- It strips the column labels and coerces the five count columns to numbers, with 0 for anything unparsable.
- It selects and sorts the summary, highest foreigner ratio (`외국인비율(%)`) first.
- When a fire table exists, it adds a fire branch:
  - it resolves the fire-count column by keyword, else by numeric look;
  - it resolves the district key (`자치구`), else the first label containing `구`;
  - it left-merges the summary with the fire counts, filling with 0;
  - it adds `화재율_per10k`, fires per 10,000 residents, with 0 for a district without residents.

`AI/extra_foreigner_analysis.py` normalises the same table in the same way.
- It adds `long_pct` and `short_pct`: each count over the total foreigner count, 0 when the total is 0.
- It builds a top-10 table, sorted by the foreigner ratio.
- It builds a counts table of all districts. Both tables use the same eight columns.

The model is one module per concern.

| module | contents |
|---|---|
| `Wrappers` | Option, Result and the script's exceptions as values |
| `Text` | `str.strip`, substring search |
| `Tables` | cells (number, text, NaN), tables, and the pandas operations the scripts use; `class Frame` is a DataFrame changed in place |
| `Normalize` | label stripping and numeric coercion, as a loop over a `Frame` |
| `Ordering` | `sort_values(ascending=False)` and `head` |
| `Resolver` | the two column resolvers, as loops with `break` |
| `Join` | the left merge |
| `Ratios` | the zero-denominator ratio rules |
| `AnalysisForeigner`, `ExtraForeignerAnalysis` | the two scripts, each as a function and as a method that runs the script's steps on frames in place, proved equal to the function |

Numbers are Dafny's exact `real`. "0 when the denominator is 0" holds in the scripts as in the model. "The shares add up to 1" is exact only in the model: pandas computes in float64.

Three things the scripts get from outside are parameters:
- `pd.to_numeric` on text becomes `parse: string -> Option<real>`; `None` stands for "not a number", which becomes 0.
- `str()` of a number becomes `render: real -> string`.
- A file that may be missing becomes an `Option<Table>`.

## Model

| member | source | states |
|---|---|---|
| Text.Strip | AI/analysis_foreigner.py:43 | the stripped label has no whitespace at either end and is no longer than the original |
| Text.StripIsInfix | AI/analysis_foreigner.py:43 | the stripped label is a contiguous piece of the original, and everything before and after it is whitespace |
| Text.StripIdempotent | AI/analysis_foreigner.py:43-44 | stripping twice is stripping once |
| Text.TrimStart | AI/analysis_foreigner.py:43 | dropping leading whitespace leaves a suffix; what was dropped is all whitespace, and the result starts with a non-space |
| Text.TrimEnd | AI/analysis_foreigner.py:43 | dropping trailing whitespace leaves a prefix; what was dropped is all whitespace, and the result ends with a non-space |
| Text.Contains | AI/analysis_foreigner.py:77 | `k in c` holds exactly when k occurs at some position of c |
| Text.ContainsAny | AI/analysis_foreigner.py:77 | `any(k in c for k in keys)` holds exactly when some key occurs in c |
| Text.ContainsChar | AI/analysis_foreigner.py:89 | the one-character test `'구' in c` holds exactly when the character is in c |
| Tables.IndexOf | AI/analysis_foreigner.py:48 | the position of the first column with the label, or None exactly when the label is absent |
| Tables.IndexOfUnique | AI/analysis_foreigner.py:93 | a label held at one position and not repeated is found at that position |
| Tables.RepeatedAfterFirst | AI/analysis_foreigner.py:49 | a label is repeated exactly when it occurs again after its first position |
| Tables.RepeatedAppend | AI/extra_foreigner_analysis.py:27-28 | appending a different label does not change whether a label is repeated |
| Tables.WithColumnRepeated | AI/extra_foreigner_analysis.py:27-28 | `df[name] = values`, overwriting or appending, does not change whether any label is repeated |
| Tables.Lookup | AI/analysis_foreigner.py:52 | the positions of all requested labels, or a KeyError naming an absent requested label |
| Tables.Project | AI/analysis_foreigner.py:52 | `df[[...]]`: the requested columns in the requested order with every row kept, or KeyError exactly when a label is absent |
| Tables.Column | AI/analysis_foreigner.py:49 | `df[c]` has one cell per row, the row's cell in that column |
| Tables.PickRow | AI/extra_foreigner_analysis.py:51-52 | the picked row holds, in order, the cells at the given positions |
| Tables.ProjectRows | AI/extra_foreigner_analysis.py:56 | every row is cut down to the given positions, rows kept in order |
| Tables.WithColumn | AI/analysis_foreigner.py:95 | `df[name] = values` overwrites the column with that label, or appends it; the column gets the values and every other cell is unchanged |
| Tables.WithColumnOther | AI/extra_foreigner_analysis.py:27-28 | assigning one column keeps every other label at its position with its cells |
| Tables.Renamed | AI/analysis_foreigner.py:84 | `rename(columns={a: b})` turns every label a into b and leaves the others unchanged |
| Tables.FillCell | AI/analysis_foreigner.py:93 | `fillna(0)` on a cell: NaN becomes 0, anything else is kept |
| Tables.FillNa | AI/analysis_foreigner.py:93 | `fillna(0)` on a table keeps its shape and fills cell by cell |
| Tables.Frame.SetColumns | AI/analysis_foreigner.py:44 | `df.columns = names` replaces the header and keeps the rows |
| Tables.Frame.Assign | AI/analysis_foreigner.py:49 | `df[name] = values` on the frame changes it to WithColumn of its old contents |
| Normalize.Coerce | AI/analysis_foreigner.py:49 | the coerced cell is a number: numbers are kept, NaN and unparsable text become exactly 0, parsable text becomes its value |
| Normalize.CoerceColumn | AI/analysis_foreigner.py:49 | the coerced column has the same length, and each cell is coerced |
| Normalize.TrimAll | AI/analysis_foreigner.py:43 | every label is stripped, the count is kept and the order is kept |
| Normalize.TrimAllOnlyEdges | AI/analysis_foreigner.py:43-44 | label stripping keeps the column count and order, and changes each label only by whitespace at its two ends |
| Normalize.TrimAllIdempotent | AI/analysis_foreigner.py:43-44 | normalising the labels a second time changes nothing |
| Normalize.Normalized | AI/extra_foreigner_analysis.py:21-24 | the loaded table has the stripped labels, the same row count, and is rectangular |
| Normalize.NormalizedCells | AI/analysis_foreigner.py:47-49 | after loading, each configured column that is present holds a number in every row. A number is kept, NaN or unparsable text becomes exactly 0, and unconfigured columns are untouched. |
| Normalize.CoercedNext | AI/analysis_foreigner.py:47-49 | one turn of the coercion loop extends the coerced labels by one and raises nothing |
| Normalize.CoerceLabelInPlace | AI/analysis_foreigner.py:48-49 | one loop body: an absent label is skipped, a repeated one raises TypeError, otherwise exactly that column is coerced in place |
| Normalize.NormalizeFrame | AI/analysis_foreigner.py:43-49 | stripping and the coercion loop on the frame succeed exactly when no configured label is repeated after stripping, and leave the frame equal to Normalized |
| Ratios.SafeDiv | AI/extra_foreigner_analysis.py:27-29 | n over d, and 0 when d is 0 |
| Ratios.FireRate | AI/analysis_foreigner.py:95-96 | fires per 10,000 residents: 0 when the population is 0, otherwise rate times population equals fires times 10,000 |
| Ratios.FireRateClosedForm | AI/analysis_foreigner.py:95 | with residents, the rate is fire * 10000 / pop |
| Ratios.FireRateNonNegative | AI/analysis_foreigner.py:95-96 | non-negative fires and population give a non-negative rate |
| Ratios.SharesSumToOne | AI/extra_foreigner_analysis.py:40 | when the total is long plus short and not 0, the two shares add up to exactly 1 |
| Ratios.ShareInUnitInterval | AI/extra_foreigner_analysis.py:27-28 | a part between 0 and its total gives a share between 0 and 1 |
| Ratios.RatioCell | AI/extra_foreigner_analysis.py:27-29 | one ratio cell. A NaN on either side or a zero denominator gives 0 whatever the other side holds, as pandas' NaN-masked retry does. Otherwise text on either side is TypeError, and two numbers give their quotient. |
| Ratios.RatioColumn | AI/extra_foreigner_analysis.py:27 | the ratio column succeeds exactly when every row does, and then holds each row's ratio cell |
| Ratios.RatioOf | AI/analysis_foreigner.py:95-96 | KeyError for an absent numerator, then for an absent denominator. Otherwise TypeError exactly when some row has text on a side with no NaN on either side and a denominator other than 0; else each row's ratio cell. |
| Ordering.InsertPos | AI/analysis_foreigner.py:53 | the insertion point has only larger keys before it and a key that is not larger right after it |
| Ordering.Insert | AI/analysis_foreigner.py:53 | inserting adds one row and keeps every row keyed by a number |
| Ordering.InsertDescending | AI/analysis_foreigner.py:53 | inserting into a descending order keeps it descending |
| Ordering.InsertPermutes | AI/analysis_foreigner.py:53 | inserting adds exactly the new row to the multiset of rows |
| Ordering.SortDescending | AI/analysis_foreigner.py:53 | the sorted rows are as many as the input rows and still keyed by numbers |
| Ordering.SortIsDescending | AI/analysis_foreigner.py:53 | the sorted rows never increase in the key |
| Ordering.SortPermutes | AI/analysis_foreigner.py:53 | the sorted rows are a permutation of the input rows |
| Ordering.SortKeepsWidth | AI/analysis_foreigner.py:53 | sorting keeps every row whole |
| Ordering.SortProject | AI/extra_foreigner_analysis.py:50-52 | sorting and then selecting columns equals selecting and then sorting on the kept key |
| Ordering.InsertProject | AI/extra_foreigner_analysis.py:50-52 | inserting and then selecting columns equals selecting and then inserting |
| Ordering.Head | AI/extra_foreigner_analysis.py:50 | `head(n)` has min(n, rows) rows and is a prefix |
| Ordering.HeadProject | AI/extra_foreigner_analysis.py:50-52 | taking the first rows and selecting columns commute |
| Ordering.HeadOfDescending | AI/extra_foreigner_analysis.py:50 | the head of a descending order is descending. No left-out row has a larger key than a kept row, and kept plus left-out rows are all the rows. |
| Ordering.TopOfSorted | AI/extra_foreigner_analysis.py:50 | `sort_values(..., ascending=False).head(n)` has min(n, rows) rows and is descending. No left-out row beats a kept row, and together they are the input rows. |
| Ordering.SortByColumn | AI/analysis_foreigner.py:53 | KeyError exactly when the label is absent; otherwise the same columns, a permutation of the rows, descending in that column |
| Resolver.CandidatesFrom | AI/analysis_foreigner.py:73 | the candidate list is never longer than the columns it scans |
| Resolver.CandidatesSound | AI/analysis_foreigner.py:73 | every candidate labels a numeric-looking column |
| Resolver.CandidatesNone | AI/analysis_foreigner.py:73 | there are no candidates exactly when no column looks numeric |
| Resolver.CandidatesFirst | AI/analysis_foreigner.py:73 | the first candidate is the first numeric-looking column in table order |
| Resolver.LooksNumeric | AI/analysis_foreigner.py:73 | a column of numbers looks numeric; a column mixing text with non-text does not |
| Resolver.NumericCandidates | AI/analysis_foreigner.py:73 | `numeric_candidates`: only numeric-looking labels, empty exactly when no column looks numeric, and headed by the first numeric-looking column |
| Resolver.FirstKeywordColumn | AI/analysis_foreigner.py:76-79 | the first label containing a key; no earlier label contains one, and None exactly when no label contains one |
| Resolver.FireColumn | AI/analysis_foreigner.py:75-81 | a resolved label is one of the table's, and when some label has a keyword the resolved one has a keyword too |
| Resolver.ResolveFireColumn | AI/analysis_foreigner.py:73-81 | the loop with `break` and the fallback settle on FireColumn: the first keyword label, else the first candidate, else none |
| Resolver.NoKeywordColumn | AI/analysis_foreigner.py:80-81 | with no keyword label the result is the first candidate, or none |
| Resolver.FireColumnFirstWins | AI/analysis_foreigner.py:76-79 | of several keyword labels the first in table order wins |
| Resolver.FireColumnFallback | AI/analysis_foreigner.py:80-81 | with no keyword label the first numeric-looking column is taken, and with none of those the column is unresolved |
| Resolver.FireColumnUnresolved | AI/analysis_foreigner.py:73-83 | unresolved exactly when no label has a keyword and no column looks numeric; a resolved column is one of the table's |
| Resolver.FirstMarked | AI/analysis_foreigner.py:88-89 | the first label containing `구`; no earlier one contains it, and None exactly when none does |
| Resolver.DistrictKeyed | AI/analysis_foreigner.py:86-91 | the header keeps its length and holds `자치구` exactly when it already did or some label contains `구` |
| Resolver.ResolveDistrictKey | AI/analysis_foreigner.py:86-91 | the rename loop with `break` yields DistrictKeyed of the header |
| Resolver.DistrictKeyKept | AI/analysis_foreigner.py:86 | an existing `자치구` label leaves the header unchanged |
| Resolver.DistrictKeyRenamesFirst | AI/analysis_foreigner.py:88-91 | otherwise the first label containing `구` becomes `자치구` and no other label changes (with distinct labels, no other position) |
| Resolver.DistrictKeyMissing | AI/analysis_foreigner.py:86-92 | with neither label the header is unchanged and lacks `자치구`, so the lookup on line 92 fails |
| Join.Matches | AI/analysis_foreigner.py:93 | the values of the right-hand rows with the key: none exactly when no row has it, and the value of every row that has it |
| Join.MatchesConcat | AI/analysis_foreigner.py:93 | the matches in two stacked right-hand parts are those of the first part followed by those of the second, so every matching row contributes once, in right-hand order |
| Join.MatchesOne | AI/analysis_foreigner.py:93 | a single right-hand row contributes its value exactly when its key matches |
| Join.MatchesUnique | AI/analysis_foreigner.py:93 | with unique right-hand keys a present key matches exactly its own row's value |
| Join.JoinRow | AI/analysis_foreigner.py:93 | one output row per match, the left row followed by that match, or the left row followed by NaN when nothing matches |
| Join.JoinRowUnique | AI/analysis_foreigner.py:93 | with unique right-hand keys a left-hand row gives exactly one output row: the row followed by its matched value |
| Join.LeftJoinRows | AI/analysis_foreigner.py:93 | the merge has at least as many rows as the left-hand table, each one column wider |
| Join.MatchedValue | AI/analysis_foreigner.py:93 | NaN for a key with no right-hand row, otherwise the value in the key's row |
| Join.LeftJoinUnique | AI/analysis_foreigner.py:93 | with unique right-hand keys the merge has one row per left-hand row, in order: the row followed by its matched value |
| Join.LeftJoinInOrder | AI/analysis_foreigner.py:93 | whatever the keys, the rows for a prefix of the left-hand table come first, and those for the rest after them |
| Join.LeftJoinKeepsRows | AI/analysis_foreigner.py:93 | whatever the keys, every left-hand row begins some output row |
| Join.LeftJoinSound | AI/analysis_foreigner.py:93 | whatever the keys, every output row is a left-hand row plus one cell that is either the value of a right-hand row with that row's key, or NaN when no right-hand row has the key |
| Join.JoinFilledUnmatched | AI/analysis_foreigner.py:93 | whatever the keys, after `fillna(0)` every output row whose key no right-hand row has holds 0 in the value column |
| Join.MergeLeft | AI/analysis_foreigner.py:93 | a KeyError exactly when the key column is absent on the left; otherwise the left columns plus the value column |
| Join.JoinFilled | AI/analysis_foreigner.py:93 | with unique right-hand keys, after `fillna(0)`, each left row gets its filled matched value, and 0 when it has no match |
| AnalysisForeigner.SummaryKeyed | AI/analysis_foreigner.py:52-53 | the selected summary holds a number in the ratio column of every row, so it can be sorted by it |
| AnalysisForeigner.SummaryOf | AI/analysis_foreigner.py:41-53 | the summary fails exactly when a configured label repeats (TypeError) or a summary label is absent (KeyError). Otherwise it has the six columns, is descending in the ratio, and is a permutation of the selected normalised rows. |
| AnalysisForeigner.LoadSummary | AI/analysis_foreigner.py:38-53 | a missing input raises FileNotFoundError; otherwise the in-place steps give SummaryOf |
| AnalysisForeigner.AsTextCell | AI/analysis_foreigner.py:92 | `astype(str)`: text is kept, NaN becomes "nan", a number becomes its rendering |
| AnalysisForeigner.AsText | AI/analysis_foreigner.py:92 | the column as text, cell by cell |
| AnalysisForeigner.FireHeader | AI/analysis_foreigner.py:84-91 | the resolved fire header keeps its length, and the position of the chosen count column holds `화재건수` |
| AnalysisForeigner.FireKeys | AI/analysis_foreigner.py:84-93 | fails exactly when the resolved header lacks `자치구` (KeyError) or repeats `자치구` or `화재건수` (ValueError); otherwise two columns, one row per fire row, text keys |
| AnalysisForeigner.FireKeysRows | AI/analysis_foreigner.py:84-93 | each key row is the fire row's district cell as text followed by its cell in the chosen count column |
| AnalysisForeigner.DistrictKeyKeepsFireCount | AI/analysis_foreigner.py:84-91 | resolving the district key leaves the renamed count label at its position |
| AnalysisForeigner.FilledMerge | AI/analysis_foreigner.py:93 | the filled merge has the summary columns plus the count, no NaN, and at least the summary's rows |
| AnalysisForeigner.WithRate | AI/analysis_foreigner.py:95-96 | adding the rate gives one more column, the same rows, and only TypeError as a failure |
| AnalysisForeigner.WithRateFails | AI/analysis_foreigner.py:95 | on the filled merge, which holds no NaN, the rate assignment fails exactly when in some row the population is text, or the fire count is text and the population is a number other than 0 |
| AnalysisForeigner.RateCell | AI/analysis_foreigner.py:95-96 | without NaN, a rate cell is 0 without residents, whatever the count holds, and otherwise the count is a number and the cell is its FireRate |
| AnalysisForeigner.RateRow | AI/analysis_foreigner.py:95-96 | one rate row is the merged row followed by 0 without residents, and otherwise by the FireRate of its numeric count |
| AnalysisForeigner.FireJoin | AI/analysis_foreigner.py:93-96 | the merged table with the rate has the summary columns, the count and the rate, and at least the summary's rows; its only failure is TypeError |
| AnalysisForeigner.WithRateRows | AI/analysis_foreigner.py:95-96 | without NaN, every result row is the merged row followed by its fire count per 10,000 residents, 0 without residents |
| AnalysisForeigner.FilledMergeRows | AI/analysis_foreigner.py:93 | with unique fire keys the merge keeps one row per summary row, in order, with the filled summary cells and the district's fire count, 0 for no fire row |
| AnalysisForeigner.UnmatchedDistrict | AI/analysis_foreigner.py:92-96 | for text fire keys (line 92 makes them text), repeated or not, every merged row whose district no fire key equals gets a fire count of 0 and a fire rate of 0 |
| AnalysisForeigner.FilledUnmatched | AI/analysis_foreigner.py:92-93 | a filled merged row whose district no text fire key equals has a fire count of 0 |
| AnalysisForeigner.ZeroCountRate | AI/analysis_foreigner.py:95-96 | a merged row with fire count 0 gets rate 0 |
| AnalysisForeigner.FireBranch | AI/analysis_foreigner.py:70-96 | no fire file skips the branch. The branch fails only with the KeyError for `자치구`, ValueError or TypeError. A district label repeated in the loaded table never gives a merged table, and once the fire keys are built it is the merge's ValueError (line 93). A merged table is rectangular. |
| AnalysisForeigner.FireBranchOutcome | AI/analysis_foreigner.py:70-124 | the fire branch is skipped exactly when there is no fire file, or no column qualifies as the count. A merged table has the summary columns plus count and rate, and at least the summary's rows. |
| AnalysisForeigner.FireAnalysis | AI/analysis_foreigner.py:70-96 | the in-place steps of the fire branch give FireBranch |
| AnalysisForeigner.Analysis | AI/analysis_foreigner.py:38-96 | a missing input is FileNotFoundError and a summary error is passed on. An output's summary is SummaryOf, in the six columns and descending in the ratio. Its fire outcome is FireBranch of that summary, and never a merged table when `자치구` repeats after stripping. |
| AnalysisForeigner.RunAnalysis | AI/analysis_foreigner.py:38-124 | the script as run equals Analysis; a missing input is FileNotFoundError, and a summary produced is descending in the ratio |
| ExtraForeignerAnalysis.WithShares | AI/extra_foreigner_analysis.py:27-29 | KeyErrors in the order the script looks the columns up, TypeError for text; on success both share columns exist and the rows are kept |
| ExtraForeignerAnalysis.SharesKeepOthers | AI/extra_foreigner_analysis.py:27-29 | adding the shares keeps every other label at its position with its cells |
| ExtraForeignerAnalysis.SharesRepeated | AI/extra_foreigner_analysis.py:27-32 | adding the shares neither makes a label repeated nor stops it being repeated, the share labels included |
| ExtraForeignerAnalysis.SharesRow | AI/extra_foreigner_analysis.py:27-28 | each share cell is the ratio of that row's count to its total |
| ExtraForeignerAnalysis.SharesKeyed | AI/extra_foreigner_analysis.py:22-24 | the ratio column, where present, holds a number in every row, so the sort on line 50 applies |
| ExtraForeignerAnalysis.HeadTable | AI/extra_foreigner_analysis.py:50 | `head(n)` on a table keeps the columns and the first rows |
| ExtraForeignerAnalysis.Selected | AI/extra_foreigner_analysis.py:50-56 | the selection succeeds exactly when all eight output labels are present, and then both tables have those columns |
| ExtraForeignerAnalysis.SelectedTop | AI/extra_foreigner_analysis.py:50-52 | the top table equals the first ten of the counts rows sorted by the ratio |
| ExtraForeignerAnalysis.SelectedCounts | AI/extra_foreigner_analysis.py:56 | the counts table is the output columns of the table with the shares |
| ExtraForeignerAnalysis.SelectedBest | AI/extra_foreigner_analysis.py:50-52 | the top table has min(10, n) rows and is descending; no left-out row has a higher ratio than a kept one |
| ExtraForeignerAnalysis.Extra | AI/extra_foreigner_analysis.py:19-56 | a repeated configured label raises TypeError; once the shares are added, an absent `자치구` is KeyError and a repeated one AttributeError (line 32), and a repeated `long_pct` or `short_pct` is AttributeError (lines 33-34); both outputs have the eight columns |
| ExtraForeignerAnalysis.ExtraSteps | AI/extra_foreigner_analysis.py:19-56 | a successful run passed every step: coercion, shares, a single district column, single share columns, the selection |
| ExtraForeignerAnalysis.TopTen | AI/extra_foreigner_analysis.py:50-52 | the top table has min(10, n) rows and is the prefix of the counts rows sorted by ratio. It is descending, no left-out row has a higher ratio than a kept one, and kept plus left-out rows are all the rows. |
| ExtraForeignerAnalysis.CountsInOrder | AI/extra_foreigner_analysis.py:51-56 | the counts table keeps every input row in input order; its first six cells are the row's normalised district, counts and ratio |
| ExtraForeignerAnalysis.CountsFromInput | AI/extra_foreigner_analysis.py:51-56 | the first six output columns of the table with the shares are input columns, cell for cell |
| ExtraForeignerAnalysis.CountsAreNumbers | AI/extra_foreigner_analysis.py:22-24 | after loading, the three counts are numbers wherever present |
| ExtraForeignerAnalysis.SharesAtRow | AI/extra_foreigner_analysis.py:27-29 | read through the labels, each share cell of a row is the unit ratio of its count to the total |
| ExtraForeignerAnalysis.SelectedSharesRow | AI/extra_foreigner_analysis.py:51-56 | in the selected row the share cells are the quotients of its count cells |
| ExtraForeignerAnalysis.CountsShares | AI/extra_foreigner_analysis.py:27-29 | in every counts row `long_pct` is long over total and `short_pct` is short over total, each 0 when the total is 0 |
| ExtraForeignerAnalysis.ShareRulesRow | AI/extra_foreigner_analysis.py:27-29 | the share rules for one row of numbers |
| ExtraForeignerAnalysis.ShareRules | AI/extra_foreigner_analysis.py:27-40 | for each row: a zero total gives two zero shares; a total of long plus short gives shares summing to 1; counts within the total give shares in [0, 1] |
| ExtraForeignerAnalysis.WithSharesOk | AI/extra_foreigner_analysis.py:27-29 | the shares cannot fail once the three counts are present and numeric |
| ExtraForeignerAnalysis.SelectedOk | AI/extra_foreigner_analysis.py:50-56 | with the six input columns present the selection succeeds |
| ExtraForeignerAnalysis.ExtraSucceedsWhen | AI/extra_foreigner_analysis.py:19-56 | with no repeated configured label, no repeated `자치구`, `long_pct` or `short_pct` and the six input columns present, the script runs to the end |
| ExtraForeignerAnalysis.ExtraSucceeds | AI/extra_foreigner_analysis.py:19-56 | the script runs to the end exactly when no configured label, no `자치구` and no share label repeats after stripping and the six input labels are all present |
| ExtraForeignerAnalysis.AddShares | AI/extra_foreigner_analysis.py:27-29 | the two in-place assignments fail exactly when WithShares does, with its error, and otherwise leave the frame equal to WithShares |
| ExtraForeignerAnalysis.RunExtra | AI/extra_foreigner_analysis.py:16-56 | a missing input is FileNotFoundError; otherwise the in-place steps give Extra |

## Left out

- Plotting with matplotlib and seaborn (AI/analysis_foreigner.py:57-67 and 98-108, AI/extra_foreigner_analysis.py:33-47) is left out; it only renders output.
- CSV reading and writing, `os.path`, `makedirs` and the prints are left out. The input files are `Option<Table>` parameters. The model requires only that a table from `read_csv` be rectangular.
- The Pearson correlation and its NaN fallback (AI/analysis_foreigner.py:110-120) are left out: floating-point statistics in a library.
- building_fire_correlation.py is not part of this model.
- `pd.to_numeric` is the `parse` parameter and `str()` of a number is the `render` parameter; the model does not fix pandas' parsing or printing of numbers.
- Resolver.LooksNumeric: it approximates the dtype test on line 73. A column counts as numeric when it holds no text, or when all its cells are text made of ASCII digits. Python's `str.isnumeric` also accepts other Unicode digits, and a mixed column of numbers and digit strings is not told apart.
- Ordering.SortDescending: it is a stable insertion sort, but pandas' default sort is not stable. For that reason only the order of the keys and the permutation are promised, not where tied rows end up.
- Join.MergeLeft: duplicate right-hand keys give one output row per match, in right-hand order, as pandas does. A first-match join would instead give one row per summary row; the model follows the code.
- Join.MergeLeft: keys match by cell equality. The code converts only the fire table's key to text. When the summary's key column is numeric, pandas refuses to merge it with a text key and raises ValueError. The model is not told column types: it compares the cells and finds no match.
- Join.MergeLeft: a NaN key matches a NaN key in the model, as in pandas, because cells are compared by equality. In this script the fire keys are text after line 92, so a NaN summary key matches nothing in either; AnalysisForeigner.UnmatchedDistrict therefore assumes text fire keys.
- AnalysisForeigner.FireKeys: a key or count label that names several columns after renaming is ValueError. pandas would raise at the merge or at the division; which exception and where is not modelled.
- AnalysisForeigner.SummaryOf: a summary label that appears twice after stripping makes pandas select both columns. The model takes the first occurrence there, and a repeat among the coerced labels is TypeError. For a repeated `자치구` the later merge fails with ValueError, and AnalysisForeigner.FireBranch models that failure through its `keyRepeated` argument.
- Tables.Lookup: pandas' KeyError lists every absent label; the model names one absent label.
- Tables.WithColumn: a label that names several columns gets the values in its first column only. pandas writes them into every column with that label.
- ExtraForeignerAnalysis.WithShares: a `long_pct` or `short_pct` label already in the input is overwritten, as in pandas. If such a label appears twice, only its first column is overwritten, where pandas overwrites both; the run then fails anyway, as the next line says.
- ExtraForeignerAnalysis.Extra: a share label that names several columns is AttributeError, the error of `tolist` on lines 33-34. Whether pandas already raises ValueError at line 29, where three columns meet a two-label key, is not modelled.
- Ratios.RatioCell: with a unit other than 1 (the fire rate), pandas divides the population by 10,000 on its own first, so a text population raises TypeError even beside a NaN count, where the model gives 0. That pair never arises in the script: the population is coerced and the merge is filled.
- AnalysisForeigner.Analysis: when the fire branch raises, the model returns only the error. The script has already written the summary CSV at line 54 by then.
- Float64 rounding is not modelled. Cells hold exact reals, so sums and quotients are exact where pandas rounds each one to float64; the shares add up to exactly 1 only in the model.
- The methods that change a frame in place state their new state with `old`. Their contracts connect them to the functions above, and the properties are proved about those functions.
