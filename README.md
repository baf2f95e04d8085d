# Budget report tables, modelled in Dafny

This project models the report-building core of a set of Israeli national
budget report scripts. It covers three pieces.

The report table of `table.py`:
- A `Table` object collects headers, rows and outline groups.
  - Headers are keyed by title and scored by the order hint of the first write.
  - Rows are `(key, cells)` pairs.
  - Groups map a level to a value to a set of sheet row numbers.
- `save` sorts headers by score and rows by key, both stably.
- It then makes one pass over the sorted rows. The pass resolves `parity` flags to `i % 2` and records the group fields at levels `1..` under sheet row `i + 2`. It also blanks a cleanup label that repeats the running label of its level, resetting the finer levels when a coarser label changes.
- It asserts that every group is a run of consecutive rows, lays out the outline of each group of more than one row, and renders every value with `process_value`.
- The style choices of `append_cells` are modelled as a pure decision. So are `color_scheme_red_green` and the column width rule.

The proposal comparison of `proposal-compare.py`:
- `nice_code` and `check_for_active`.
- The single proposal year, the current title of each budget code and its rename comment, and the list of history years an item is compared over.
- The per-year sums, which stay None until a present amount arrives, and the `used_keys` rule that counts each `(year, code)` in at most one row.
- Every `set` call of an item's row and the header scores that fix the column order.

The budget-changes report of `budget-changes.py`:
- `first_item`, and decoding of archive file names through the `CHARS` table.
- Request ids from the digit runs of the names: runs are stripped, split, expanded as ranges and deduplicated in first-seen order.
- The nonzero filters of the per-year lookups.
- The `construct_table` row loop: the skip rule, the `color_index` that moves on when the committee request changes, the row key, the options of each of the 22 fields, the code slices and the history years.

## Layout

- `values.dfy` holds module `Values`: Python values with their truthiness, `Option`, `Result`, the exceptions, and set minimum and maximum.
- `keys.dfy` holds module `Keys`: Python's `<` on tuples of ints and strings, for row keys and header scores.
- `sorting.dfy` holds module `Sorting`: `sorted(..., key=...)` as a stable insertion sort, shown to be sorted, a permutation and stable.
- `decimal.dfy` holds module `Decimal`: `str(int)`, `int(str)` and thousands separators.
- `strings.dfy` holds module `Strings`: `join`, `split` and `strip` of one character.
- `table_model.dfy` holds module `TableModel`: the abstract state of a table and what `new_row`, `set`, `get` and `group` do to it.
- `save_passes.dfy` holds module `SavePasses`: the passes of `save` as functions.
- `save_props.dfy` holds module `SaveProperties`: what those passes do to parity, groups and cleanup labels.
- `rendering.dfy` holds module `Rendering`: `process_value`, `color_scheme_red_green`, the style decision of `append_cells` and the width rule.
- `table.dfy` holds module `ReportTable`: the `Table` class, with methods whose loops are proved against those functions.
- `sheet_props.dfy` holds module `SheetProperties`: what the saved sheet says about the table.
- `proposal_compare.dfy` holds module `ProposalCompare`.
- `budget_changes.dfy` holds module `BudgetChanges`.

## Model

| member | source | states |
|---|---|---|
| ReportTable.Table.constructor | table.py:10-17 | a new table has no headers, rows, active cells or groups, and keeps its title and field lists |
| ReportTable.Table.NewRow | table.py:19-21 | the table state becomes the one `new_row` describes, and the invariant holds |
| ReportTable.Table.Set | table.py:23-37 | the table state becomes the one `set` describes, and the invariant holds |
| ReportTable.Table.Get | table.py:39-40 | reading a title gives the active row's value for it, or None when the row lacks it |
| ReportTable.Table.Group | table.py:42-43 | the groups become those with the row added at `(level, value)` |
| ReportTable.Table.GroupRow | table.py:97-100 | each truthy group field `l` of a row records sheet row `i + 2` at level `l + 1` |
| ReportTable.Table.Prepass | table.py:91-109 | the first loop of `save` leaves the rows and groups the pass functions describe |
| ReportTable.Table.PrepassRow | table.py:93-109 | one row of that loop: parity, then grouping, then cleanup, as one pass step |
| ReportTable.Table.Save | table.py:85-143 | `save` leaves the groups and gives the sheet, or the assertion failure, that `SaveOutcome` defines |
| ReportTable.Bodies | table.py:90 | the row dictionaries of the sorted rows, in order |
| ReportTable.RenderedBody | table.py:116-123 | one list of rendered records per row |
| ReportTable.ResolveRowParity | table.py:94-96 | every cell with a truthy `parity` gets `i % 2`, and the other cells stay |
| ReportTable.CleanupRow | table.py:101-109 | the in-place cleanup of a row and of `running_header` equals the cleanup function |
| ReportTable.ProcessRow | table.py:117-122 | the records of a row in header order, each value processed, None where the row lacks the title |
| ReportTable.RenderRows | table.py:116-123 | the render loop gives every row's records in header order |
| ReportTable.CheckGroups | table.py:136-143 | the loop succeeds exactly when every group is a run, and then gives the outlines of all groups; otherwise it gives an AssertionError |
| ReportTable.CheckGroup | table.py:139-143 | one group passes exactly when its size is `max - min + 1`, and it has an outline only when it has more than one row |
| ReportTable.NotAllRuns | table.py:141 | one group that is not a run makes the whole check fail |
| ReportTable.AllChecked | table.py:136-143 | once every group is found to be a run, the collected outlines are those of the whole table |
| ReportTable.Emit | table.py:23-37 | making a list of `set` calls on the table gives the state of those calls made in order |
| TableModel.EmptyState | table.py:10-17 | the state of a new table satisfies the table invariant |
| TableModel.HeaderOptions | table.py:29-32 | a new header keeps the given options and forces bold, a bottom border and the header fill `95b3d7` |
| TableModel.NewRowAppendsOneRow | table.py:19-21 | `new_row(k)` appends exactly one `(k, {})` row; headers and groups stay, and `get` of any title is None afterwards |
| TableModel.GetAfterSet | table.py:23-40 | after `set(t, v, ...)`, `get(t)` returns `v`, and every other title keeps its value |
| TableModel.SetKeepsHeaderIndex | table.py:28-37 | after `set`, each header is listed once and the header titles are the old ones plus the title set |
| TableModel.SetKeepsRowsCovered | table.py:23-27 | after `set`, the active row is still the last row, and every title of every row has a header |
| TableModel.SetKeepsWellFormed | table.py:23-37 | `set` keeps the table invariant |
| TableModel.SetRegistersHeaderOnce | table.py:28-37 | the first `set` of a title registers its header last, with the given order and the forced header style; a later `set` of that title changes no header; groups stay |
| TableModel.SetChangesOnlyActiveRow | table.py:20-27 | `set` changes only the active row, which is the last row when attached; every earlier row stays |
| TableModel.GroupAddsOneMember | table.py:42-43 | `group(r, l, v)` puts `r` in the set at `(l, v)`, and no other membership changes |
| TableModel.GroupIdempotent | table.py:42-43 | recording the same membership twice equals recording it once |
| TableModel.GroupKeepsNonEmpty | table.py:42-43 | `group` never leaves an empty group |
| TableModel.ColumnsFollowScore | table.py:86 | the sorted headers are a permutation of the headers, in ascending score; equal scores keep first-registration order |
| TableModel.RowsFollowKey | table.py:87 | the sorted rows are a permutation of the rows, in ascending key; equal keys keep insertion order |
| TableModel.ApplyWrites | table.py:23-37 | a run of `set` calls keeps the number of rows and whether the active row is attached |
| TableModel.ApplyWritesWellFormed | table.py:23-37 | a run of `set` calls keeps the table invariant |
| TableModel.ApplyWritesAppend | table.py:23-37 | making calls `a` and then calls `b` equals making `a + b` |
| TableModel.ApplyWritesKeepsRows | table.py:23-27 | a run of `set` calls changes only the last row, to the active row under its own key; groups stay |
| TableModel.ApplyWritesCells | table.py:23-40 | after a run of calls, the active row holds exactly the old titles and the written ones; `get` of each gives its last written value |
| TableModel.ApplyWritesActive | table.py:23-27 | the active row after the calls is each call's cell written over the one before, in order |
| TableModel.CellsAfterDistinct | table.py:23-27 | writes of distinct titles leave each title with the cell of its one write and add no other title |
| TableModel.RowWritten | table.py:19-27 | `new_row(k)` followed by calls appends one row keyed `k` holding the written cells; earlier rows and groups stay |
| Sorting.SortByIsSorted | table.py:86-87 | `sorted` output is in ascending key order |
| Sorting.SortByIsPermutation | table.py:86-87 | `sorted` output is a permutation of its input |
| Sorting.SortByIsStable | table.py:86-87 | the elements sharing a key come out in their input order |
| Sorting.SortedPairwise | table.py:86-87 | in sorted output, every earlier key is at most every later one |
| Sorting.SortByLength | table.py:86-87 | sorting keeps the length |
| Keys.KeyLessIrreflexive | table.py:87 | no key is less than itself |
| Keys.KeyLessTransitive | table.py:87 | tuple `<` is transitive |
| Keys.KeyLessTotal | table.py:87 | of two different keys, one is less than the other |
| Keys.KeyLessAsymmetric | table.py:87 | tuple `<` is asymmetric |
| Keys.SingleNumKeyOrder | table.py:86 | a one-number score orders as the number does |
| Values.SetMin | table.py:141 | `min(group)` is a member of the group and at most every member |
| Values.SetMax | table.py:141 | `max(group)` is a member of the group and at least every member |
| SavePasses.Reset | table.py:106-107 | `running_header[k] = None` for every `k` from `j + 1` on, and the other entries stay |
| SavePasses.CleanupLevels | table.py:101-109 | the cleanup of the first `n` fields keeps one running label per cleanup field |
| SavePasses.PassRow | table.py:93-109 | one pass step adds exactly one row and keeps one running label per cleanup field |
| SavePasses.PassRows | table.py:91-109 | the pass over the first `n` rows gives `n` rows, and the running labels start as None |
| SavePasses.Pairs | table.py:136-139 | the `(level, value)` pairs visited are exactly those under which a group is recorded |
| SavePasses.OutlinesOfAdd | table.py:142-143 | one more visited group adds its outline only when it has more than one row |
| SavePasses.RunIsGapless | table.py:141 | the size test `len == max - min + 1` holds exactly when the group has no gap |
| SaveProperties.PassRowsPrefix | table.py:93-109 | a row, once passed, is not changed by later rows |
| SaveProperties.PassRowAt | table.py:93-109 | sorted row `i` comes out with its parity resolved, then cleaned against the labels of the rows before it |
| SaveProperties.CleanupKeepsOptions | table.py:101-109 | cleanup only replaces a value by `''`; titles and options stay, and every cell outside the cleanup fields keeps its value |
| SaveProperties.SaveResolvesParity | table.py:93-96 | every cell with a truthy `parity` ends with `parity == i % 2` for its sorted index `i`; other cells keep their options |
| SaveProperties.GroupLevelsMembers | table.py:97-100 | after one row's group fields, a membership exists exactly when it existed before or the row's field `l - 1` holds that truthy value |
| SaveProperties.SaveRecordsGroups | table.py:97-109 | sheet row `x` is in group `(l, v)` exactly when it was already, or row `x - 2` holds the truthy `v` in group field `l - 1`, read before that row's cleanup |
| SaveProperties.GroupLevelsNonEmpty | table.py:97-100 | grouping one row never leaves an empty group |
| SaveProperties.PassGroupsNonEmpty | table.py:97-100 | the pass never records an empty group, so `min` and `max` are defined |
| SaveProperties.Label | table.py:103 | a field has a label exactly when it is present and its value is truthy |
| SaveProperties.FirstChange | table.py:102-107 | the first level at which a row's label is present and differs from the running label |
| SaveProperties.RunningAfter | table.py:104-107 | the running labels after a row keep one entry per cleanup field |
| SaveProperties.CleanupPrefix | table.py:101-109 | after each prefix of the fields, the row and the running labels are as the first change decides |
| SaveProperties.CleanupShowStep | table.py:104-107 | a label that differs from the running one is shown and resets the finer levels |
| SaveProperties.CleanupBlankStep | table.py:108-109 | a label equal to the running one is blanked to `''` |
| SaveProperties.CleanupSkipStep | table.py:103 | a falsy or missing label is neither blanked nor recorded |
| SaveProperties.CleanupRowEffect | table.py:101-109 | before the first change, labels are blanked and the running labels stay; from it on, labels are shown and become running, absent ones resetting to None; other fields stay |
| SaveProperties.FullRowSetsRunning | table.py:104-107 | after a row with every label present, the running labels are that row's labels |
| SaveProperties.SecondRowBlanksRepeats | table.py:101-109 | of two full rows, a label of the second is blanked exactly when it and every coarser label repeat the first |
| SaveProperties.FirstRowShowsAll | table.py:92-109 | the first row shows every present label |
| SaveProperties.ParityKeepsLabels | table.py:94-96 | parity resolution changes no label |
| SaveProperties.ParityKeepsFullLabels | table.py:94-96 | parity resolution keeps a row's labels all present |
| SaveProperties.SaveBlanksRepeatedLabels | table.py:93-109 | in the saved rows, label `j` of a full row is `''` exactly when the row repeats the previous full row at levels `0..j` |
| SaveProperties.CleanupExample | table.py:101-109 | rows (s, a), (s, a), (s, b) come out as (s, a), ('', ''), ('', b) |
| SaveProperties.CleanupExampleFirst | table.py:101-109 | the first row of that example shows both labels |
| SaveProperties.CleanupExampleLater | table.py:101-109 | the later rows of that example blank the labels they repeat |
| SaveProperties.GapFailsAssertion | table.py:141 | a group `{2, 4}` fails the contiguity assertion |
| SheetProperties.SaveFailsOnGap | table.py:136-143 | `save` fails with an AssertionError exactly when some group skips a row between its min and max; otherwise the sheet carries every group's outline |
| SheetProperties.OutlineCoversGroup | table.py:142-143 | a group's outline runs from `min + 1` to `max`, every row in it is a member, and it is hidden exactly at level 3 |
| SheetProperties.HeaderTitlesDistinct | table.py:86 | the header row names each title once |
| SheetProperties.TitleHasColumn | table.py:86 | every registered title has a column |
| SheetProperties.SheetShowsEveryCell | table.py:101-123 | each title set in sorted row `i` has exactly one column; outside the cleanup fields it shows the processed value, and with distinct cleanup fields it shows `''` exactly when cleanup blanked the label (`Blanked`), the processed value otherwise |
| SheetProperties.ColumnShowsCell | table.py:101-123 | the column of title `t` in row `i` shows that row's cell of `t`: the processed value outside the cleanup fields, and otherwise `''` exactly when `Blanked` holds, the processed value when it does not |
| Rendering.ProcessValue | table.py:75-82 | None gives `''`; an int gives decimal text that reads back as the same int; a bool gives `True` or `False`; other values stay |
| Rendering.ProcessedIntSign | table.py:80-81 | an int's text begins with `-` exactly when it is negative |
| Rendering.ProcessedRow | table.py:117-122 | one record per header |
| Rendering.DotAt | table.py:152 | the position of the first `.` in the text, or its length when there is none |
| Rendering.Classify | table.py:163-167 | red exactly above 0.05, green exactly below -0.05, and white between |
| Rendering.ColorSchemeRedGreen | table.py:149-167 | white for a falsy value; otherwise the colour of `float(value)`, or the error `float` raises |
| Rendering.ClassifyMonotone | table.py:163-167 | a larger value is never coloured on the greener side of a smaller one |
| Rendering.ClassifySymmetric | table.py:163-167 | negating the value swaps red and green and keeps white |
| Rendering.ParseDecimalOfInt | table.py:152 | `float` of an int's text is that int |
| Rendering.RedGreenOfProcessedInt | table.py:64-69 | colouring the rendered text of an int gives the int's own colour |
| Rendering.RedGreenOfColourCode | table.py:152 | `color_scheme_red_green('FBFFF3')` raises ValueError |
| Rendering.RedGreenExamples | table.py:149-167 | 0.10 is red, -0.10 green, 0.02 white and 0 white |
| Rendering.MissingRecordStyle | table.py:50-57 | a missing record is a grey cell in the default number format |
| Rendering.ParityBanding | table.py:64-71 | a cell without a fill whose parity became `i % 2` gets the plain fill exactly on even rows and no fill on odd rows |
| Rendering.RedGreenFill | table.py:64-69 | a cell coloured by the red/green function is filled by its value's colour |
| Rendering.MaxOf | table.py:129-131 | the largest length in the column |
| Rendering.ColumnWidth | table.py:129-134 | the width is `min(max_length + 2, 175/7)`: never above 25, at least every entry's length plus 2 unless capped, exactly 25 when some entry reaches it, and otherwise equal to some entry's length plus 2 |
| Decimal.NatToString | table.py:81 | digits only, no leading zero, and one digit exactly below 10 |
| Decimal.IntToString | table.py:81 | a minus sign exactly for a negative number |
| Decimal.ParseNat | budget-changes.py:126 | `int` of a run of digits fails exactly on the empty string |
| Decimal.NatRoundTrip | table.py:81 | the digits of `str(n)` read back as `n` |
| Decimal.IntRoundTrip | table.py:81 | `int(str(i)) == i` |
| Decimal.GroupThousandsRoundTrip | proposal-compare.py:213 | digit grouping only inserts commas |
| Decimal.ThousandsRoundTrip | proposal-compare.py:213 | the text with thousands separators reads back, without its commas, as the same number |
| Strings.Split | budget-changes.py:125 | `split` gives at least one piece, and no piece holds the separator |
| Strings.SplitChars | budget-changes.py:125 | every character of a piece comes from the string |
| Strings.SplitJoin | budget-changes.py:125 | joining the pieces with the separator gives the string back |
| Strings.SplitNone | budget-changes.py:125 | a string without the separator is one piece |
| Strings.SplitFirst | budget-changes.py:125 | a string is cut at its first separator |
| Strings.Leading | budget-changes.py:124 | the number of leading copies of the character, none of them left after it |
| Strings.Trailing | budget-changes.py:124 | the number of trailing copies of the character, none of them left before it |
| Strings.Strip | budget-changes.py:124 | the strip is the middle of the string between leading and trailing copies, and it neither starts nor ends with the character |
| Strings.StripUntouched | budget-changes.py:124 | a string that neither starts nor ends with the character is its own strip |
| Strings.StripChars | budget-changes.py:124 | every character of the strip comes from the string |
| ProposalCompare.NiceCode | proposal-compare.py:11-12 | the code without its first two characters, empty for a shorter code |
| ProposalCompare.NiceCodeDropsPrefix | proposal-compare.py:11-12 | whatever two characters precede a code, `nice_code` gives the code back |
| ProposalCompare.RawMapOf | proposal-compare.py:53-56 | every budget row's `(year, code)` is a key, and each key holds a row with that key |
| ProposalCompare.LastWithKey | proposal-compare.py:53-56 | the position of the last row with a key, with no later row having it, or -1 |
| ProposalCompare.RawMapKeepsLast | proposal-compare.py:53-56 | a key is present exactly when some row has it, and it holds the last such row |
| ProposalCompare.FirstBadKey | proposal-compare.py:26-27 | the history keys before it parse as ints, and the one at it does not |
| ProposalCompare.CheckForActive | proposal-compare.py:22-31 | true exactly when the current amounts are nonzero, or a history year `>= MIN_YEAR` before the first unparsable key has nonzero amounts; a bad key reached first raises ValueError |
| ProposalCompare.MaxYear | proposal-compare.py:81 | a year of some item, and no item's year is later |
| ProposalCompare.ReportYears | proposal-compare.py:81-87 | no items fail `max`; the years are found exactly when one distinct proposal year exists, otherwise it raises; the year before is proposal year minus 1 |
| ProposalCompare.AddTitleYear | proposal-compare.py:96 | `setdefault(...).add(year)` files the row's title under its code |
| ProposalCompare.TitleYearsStep | proposal-compare.py:94-96 | one more key adds its year under its own code and title, only when its row is active |
| ProposalCompare.IndexStep | proposal-compare.py:94-96 | filing one more row keeps the index exact |
| ProposalCompare.IndexFiles | proposal-compare.py:96 | each title filed after an active row holds exactly its years |
| ProposalCompare.IndexCovers | proposal-compare.py:96 | every code and title with a year is in the index |
| ProposalCompare.IndexTitles | proposal-compare.py:93-96 | the index holds, for every code and title, exactly the years of the active budget rows with them |
| ProposalCompare.LatestYears | proposal-compare.py:98 | one `(max(years), title)` pair per title |
| ProposalCompare.SortedTitlesStrict | proposal-compare.py:98 | after sorting pairs with distinct titles, each pair is strictly below the next |
| ProposalCompare.TitleHistory | proposal-compare.py:98 | a code's titles, each with its last year, strictly ascending by year and then title |
| ProposalCompare.HistoriesExtend | proposal-compare.py:97-98 | sorting one more code keeps every sorted entry correct |
| ProposalCompare.SortTitleHistories | proposal-compare.py:97-98 | every code gets its titles sorted by their last year |
| ProposalCompare.TitlesFor | proposal-compare.py:99-102 | `titles_for_code` has an entry for every code |
| ProposalCompare.CommentsFor | proposal-compare.py:103-106 | a rename comment exists exactly for the codes with more than one title |
| ProposalCompare.ShownTitleIsLatest | proposal-compare.py:98-102 | the shown title is one of the code's titles, the greatest `(last year, title)` pair |
| ProposalCompare.RenameCommentIffRenamed | proposal-compare.py:103-106 | there is more than one entry exactly when the code had more than one title; the earlier entries are the other titles with their last years |
| ProposalCompare.BeforeColon | proposal-compare.py:137 | the text before the first `:`, or the whole text |
| ProposalCompare.RecordCodes | proposal-compare.py:137 | one code per `code_titles` entry |
| ProposalCompare.ParseHistory | proposal-compare.py:131 | succeeds exactly when every key parses, pairing each parsed year with its record; otherwise ValueError |
| ProposalCompare.NewestFirstYears | proposal-compare.py:132 | in the reverse-sorted history, an earlier entry's year is at least a later one's |
| ProposalCompare.KeptYearsStopAt | proposal-compare.py:133-135 | once the sorted history reaches a year before MIN_YEAR, nothing after it is kept, so the loop may break there |
| ProposalCompare.HistoryKeys | proposal-compare.py:128-138 | the loop that builds `keys` gives `ItemKeys`: `(year, [code])`, then the active history years `>= MIN_YEAR`, newest first; a bad key raises ValueError |
| ProposalCompare.ItemKeys | proposal-compare.py:128-138 | `keys` fails exactly when some history key does not parse, and otherwise starts with the item's own `(year, [code])` |
| ProposalCompare.KeptYearsMembers | proposal-compare.py:133-138 | an entry is kept exactly when some history record is active, from MIN_YEAR on, and has that year and those codes |
| ProposalCompare.KeptYearsNewestFirst | proposal-compare.py:132-138 | the kept years are in descending order |
| ProposalCompare.HistoryKeysMeaning | proposal-compare.py:128-138 | after the item's own entry, the keys are exactly the active history years from MIN_YEAR on, with their codes, newest first |
| ProposalCompare.ListedEntryKept | proposal-compare.py:133-138 | every listed entry comes from an active history year from MIN_YEAR on |
| ProposalCompare.KeptEntryListed | proposal-compare.py:133-138 | every active history year from MIN_YEAR on is listed |
| ProposalCompare.Contributing | proposal-compare.py:179-194 | every contributing code's `(year, code)` is in `raw_map` |
| ProposalCompare.ContributingMeaning | proposal-compare.py:179-194 | the contributing codes are listed once each, and are exactly the entry's codes whose `(year, code)` is in `raw_map` and not used yet |
| ProposalCompare.SummedOnce | proposal-compare.py:180-194 | once a year's codes are summed, none counts again in that year |
| ProposalCompare.SumPresentMeaning | proposal-compare.py:174-193 | a sum is None exactly when every amount is None, and otherwise the total of the present amounts |
| ProposalCompare.Amounts | proposal-compare.py:188-193 | one amount per contributing code |
| ProposalCompare.SumsOfAppend | proposal-compare.py:184-194 | one more code adds its title, its code and its amounts to the sums |
| ProposalCompare.SumYear | proposal-compare.py:173-194 | the inner loop gives the titles, codes and None-aware sums of the contributing codes, and marks exactly their keys used |
| ProposalCompare.SumsFor | proposal-compare.py:173-194 | the sums of the contributing codes, as the inner loop collects them |
| ProposalCompare.SumsOfUnique | proposal-compare.py:173-194 | the contributing codes determine the sums |
| ProposalCompare.HierarchyWrites | proposal-compare.py:147-172 | the eight blank cells, then two cells per level for up to four levels, with valid options |
| ProposalCompare.LevelWritesShape | proposal-compare.py:157-172 | two calls per present level, with scores between `10 * level` and 31 |
| ProposalCompare.HierarchyCells | proposal-compare.py:147-172 | level `l` shows the code as `="code"` with score `10l` and the title with its comment with score `10l + 1`, after the blank cells |
| ProposalCompare.LevelWritesAt | proposal-compare.py:157-172 | the code and name calls of level `l`, at their place in the list |
| ProposalCompare.HierarchyOrders | proposal-compare.py:147-172 | no hierarchy call has a score above 31 |
| ProposalCompare.AncestorTitles | proposal-compare.py:142 | succeeds exactly when every ancestor's shortened code has a shown title, each with no comment; otherwise KeyError |
| ProposalCompare.CodeTitles | proposal-compare.py:142 | the ancestors below the root, then the item with its rename comment or None |
| ProposalCompare.YearWrites | proposal-compare.py:198-224 | a year's calls never pass `value` or `score` as options |
| ProposalCompare.YearCells | proposal-compare.py:207-224 | the allocated column is written exactly when an allocation is present, in millions at score `y*100+1`; approved and executed columns only in the year before the proposal, when present; all scores are within `y*100+1..3` |
| ProposalCompare.YearWriteKinds | proposal-compare.py:207-224 | each year call is the allocated column at `y*100+1` with the sum in millions, or the approved or executed column of the year before the proposal, at `y*100+2` or `y*100+3`, when its sum is present |
| ProposalCompare.TitlesDiffer | proposal-compare.py:219-224 | the three column titles of a year differ |
| ProposalCompare.ChangeWrites | proposal-compare.py:226-246 | the change calls never pass `value` or `score` as options |
| ProposalCompare.ChangeColour | proposal-compare.py:229-237 | a change is red exactly when the proposal is more than 5% above the base, and green exactly when more than 5% below it |
| ProposalCompare.ChangeCells | proposal-compare.py:226-246 | each change column is written exactly when both cells hold numbers and the base is positive; scores are `(max_year+1)*100+{1,2}` |
| ProposalCompare.ChangeOrders | proposal-compare.py:226-246 | the change calls have scores `(max_year+1)*100+1` or `+2` |
| ProposalCompare.YearOrders | proposal-compare.py:207-224 | a year's calls have scores within `y*100+1..3` |
| ProposalCompare.ColumnLayout | proposal-compare.py:147-241 | hierarchy scores come before year scores, earlier years before later years, and year scores before change scores |
| ProposalCompare.KeysWrites | proposal-compare.py:173-224 | an item's year calls never pass `value` or `score` as options |
| ProposalCompare.KeysUseFreshPairs | proposal-compare.py:173-194 | the used keys only grow, by keys of `raw_map` not used before |
| ProposalCompare.RowWrites | proposal-compare.py:144-246 | a row's calls never pass `value` or `score` as options |
| ProposalCompare.RowAppended | proposal-compare.py:144-246 | an item adds one row keyed `(code, year)` after the unchanged rows before it; the row holds exactly the written titles, each with its last value |
| ProposalCompare.EmitYears | proposal-compare.py:173-224 | the loop over `keys` leaves the table and the used keys that the year calls describe |
| ProposalCompare.EmitYear | proposal-compare.py:173-224 | one entry of `keys`: its codes are summed and its year cells are written |
| ProposalCompare.ItemRow | proposal-compare.py:144-246 | writing an item's row leaves the table and used keys that `RowOutcome` defines |
| ProposalCompare.HistoriesNonEmpty | proposal-compare.py:99-102 | every code has at least one title, so `v[-1]` exists |
| ProposalCompare.ShownTitles | proposal-compare.py:93-107 | the loops give titles and comments that satisfy `ShownFor` for `raw_map`: each code's shown title is the last of its sorted `(last year, title)` history, and the comments are `CommentsFor`; `ShownForUnique` makes these the only such maps |
| ProposalCompare.AddItem | proposal-compare.py:115-246 | an item of another year or with a used key changes nothing; a bad history key raises ValueError and a missing ancestor title KeyError, both leaving the table as it was; otherwise the table, the used keys and the counted sets are those of `ItemOutcome` |
| ProposalCompare.YearItems | proposal-compare.py:115-246 | the pass over one year gives the table, used keys and counted sets of `YearFold`, or its error; the new rows sum pairwise disjoint sets of pairs, none used before, all from `raw_map` |
| ProposalCompare.ProcessData | proposal-compare.py:79-248 | for the titles and comments the first loops define (`ShownFor`), the outcome is `ProcessOutcome`: no items or no single proposal year raise; no `(year, code)` pair is counted in two rows, every counted pair is a budget row, and the saved sheet has one body row per counted set |
| ProposalCompare.Process | proposal-compare.py:79-248 | the titles loop, the year loop and `save` give `ProcessOutcome` for titles and comments that satisfy `ShownFor` |
| ProposalCompare.AllYears | proposal-compare.py:113-246 | the loop over the years from `max_year` down to MIN_YEAR leaves the table and used keys of `YearsFold`, or its error |
| ProposalCompare.AddItems | proposal-compare.py:115-246 | the loop over the items of one year leaves the table and used keys of `YearFold`, or its error |
| ProposalCompare.ItemOutcome | proposal-compare.py:115-246 | an item fails only with ValueError or KeyError |
| ProposalCompare.ItemOutcomeCases | proposal-compare.py:115-246 | a skipped item changes nothing; an item fails exactly when `keys` or `code_titles` fails, with ValueError for a bad key before KeyError for a missing title; otherwise it adds its `RowOutcome` and counts the newly used pairs |
| ProposalCompare.YearFold | proposal-compare.py:115-246 | a year's items fail only with ValueError or KeyError |
| ProposalCompare.YearsFold | proposal-compare.py:113-246 | the years fail only with ValueError or KeyError |
| ProposalCompare.RowExtends | proposal-compare.py:125-246 | a written row extends the progress: used keys grow by fresh pairs of `raw_map`, the rows before stay, and one row is added for one counted set |
| ProposalCompare.ItemExtends | proposal-compare.py:115-246 | an item that succeeds extends the progress |
| ProposalCompare.ExtendsTransitive | proposal-compare.py:113-246 | two extensions in a row are one extension |
| ProposalCompare.YearFoldExtends | proposal-compare.py:115-246 | a year that succeeds extends the progress |
| ProposalCompare.YearsFoldExtends | proposal-compare.py:113-246 | all the years, when they succeed, extend the progress from the empty table |
| ProposalCompare.SavedRowCount | table.py:85-123 | the saved sheet has one body row per table row |
| ProposalCompare.ProcessCounted | proposal-compare.py:113-248 | the counted sets are pairwise disjoint, come from `raw_map`, and number exactly the body rows of the saved sheet |
| ProposalCompare.ProcessErrors | proposal-compare.py:79-88 | no items raise, no single proposal year raises, a saved sheet has the report title, and only the listed errors occur |
| ProposalCompare.ProcessOutcomeSaved | proposal-compare.py:113-248 | after the year loop, the outcome is the save of the final table with the counted sets |
| ProposalCompare.YearFoldStep | proposal-compare.py:115-246 | the pass from item `i` is item `i`, then the pass from `i + 1`, or item `i`'s error |
| ProposalCompare.RowOutcomeWellFormed | proposal-compare.py:144-246 | writing a row keeps the table state well formed |
| ProposalCompare.ItemWellFormed | proposal-compare.py:115-246 | an item keeps the table state well formed |
| ProposalCompare.YearFoldWellFormed | proposal-compare.py:115-246 | a year's items keep the table state well formed |
| ProposalCompare.YearsFoldWellFormed | proposal-compare.py:113-246 | the years keep the table state well formed |
| ProposalCompare.IndexUnique | proposal-compare.py:94-96 | the title index of a set of budget rows is unique |
| ProposalCompare.IndexEntryUnique | proposal-compare.py:94-96 | two title indexes of the same rows agree on every code |
| ProposalCompare.HistoryUnique | proposal-compare.py:97-98 | the sorted `(last year, title)` list of a code is unique |
| ProposalCompare.HistoriesUnique | proposal-compare.py:97-98 | the sorted lists of all codes are unique |
| ProposalCompare.StrictlyAscendingUnique | proposal-compare.py:97-98 | two strictly ascending lists with the same members are equal |
| ProposalCompare.SameMembersEmpty | proposal-compare.py:97-98 | lists with the same members are empty together |
| ProposalCompare.SameMembersHead | proposal-compare.py:97-98 | strictly ascending lists with the same members start alike |
| ProposalCompare.SameMembersTail | proposal-compare.py:97-98 | and then have the same members after the first |
| ProposalCompare.ShownForUnique | proposal-compare.py:93-107 | at most one pair of title and comment maps satisfies `ShownFor` for a `raw_map` |
| ProposalCompare.TitleNotAfterShown | proposal-compare.py:97-102 | no title of a code has a `(last year, title)` pair above the shown one |
| BudgetChanges.FirstItem | budget-changes.py:260-266 | the first element of a non-empty list, None for an empty list, and anything else unchanged |
| BudgetChanges.FirstItemTruthy | budget-changes.py:406-408 | a truthy first item comes from a truthy committee id |
| BudgetChanges.CharsAreHebrewLetters | budget-changes.py:14 | `CHARS` is the 27 code points from U+05D0 on, in order |
| BudgetChanges.DecodeName | budget-changes.py:115-117 | the decode keeps the length and succeeds exactly when every code point is below `0x80 + 27`; ASCII stays and `x` becomes `CHARS[x - 0x80]`; otherwise IndexError |
| BudgetChanges.EncodeName | budget-changes.py:115-117 | one code point per character |
| BudgetChanges.DecodeNameRoundTrip | budget-changes.py:115-117 | encoding a decoded name gives the code points back |
| BudgetChanges.EncodeNameRoundTrip | budget-changes.py:115-117 | every ASCII and Hebrew-letter name decodes from its code points |
| BudgetChanges.RunLength | budget-changes.py:13 | the length of the maximal `[-\d]` run at the start |
| BudgetChanges.DigitRuns | budget-changes.py:122 | every run is non-empty and made of digits and dashes |
| BudgetChanges.DigitRunsCover | budget-changes.py:122 | the runs put together are exactly the dash and digit characters of the name |
| BudgetChanges.Range | budget-changes.py:128 | `range(a, b + 1)`: `a..b` ascending, empty when `a > b` |
| BudgetChanges.PartsAreDigits | budget-changes.py:124-125 | every part of a run is digits |
| BudgetChanges.PartsIds | budget-changes.py:126-128 | any failure is a ValueError |
| BudgetChanges.RunRaisesOnEmptyPart | budget-changes.py:124-128 | a run raises exactly when one of its parts is empty |
| BudgetChanges.PartsOfNumber | budget-changes.py:124-125 | a number's text is one part |
| BudgetChanges.PartsOfRange | budget-changes.py:124-125 | `a-b` has the parts `a` and `b` |
| BudgetChanges.NumberIds | budget-changes.py:126 | one part gives its number |
| BudgetChanges.RangeIds | budget-changes.py:126-128 | two parts give the inclusive range |
| BudgetChanges.TokenOfNumber | budget-changes.py:124-128 | a number's text gives exactly that id |
| BudgetChanges.TokenOfRange | budget-changes.py:124-128 | `a-b` gives every id from `a` to `b` ascending, and none when `a > b` |
| BudgetChanges.EmptyPartRaises | budget-changes.py:126 | `1--3` raises ValueError |
| BudgetChanges.PartsOfDoubleDash | budget-changes.py:124-125 | `1--3` has the parts `1`, empty and `3` |
| BudgetChanges.RunsIds | budget-changes.py:123-128 | any failure of a name's runs is a ValueError |
| BudgetChanges.DedupMeaning | budget-changes.py:129-131 | the ids have no duplicates, are exactly the extracted ones, and come in first-occurrence order |
| BudgetChanges.AppendNew | budget-changes.py:129-131 | appending the ids not yet listed keeps the list the deduplication of all ids so far |
| BudgetChanges.CollectRunIds | budget-changes.py:123-128 | the loop over a name's runs gives the ids `RunsIds` defines |
| BudgetChanges.ExtractRequestIds | budget-changes.py:114-131 | the loop over the file names gives `RequestIds`: every id, once, in first-occurrence order, or the first error |
| BudgetChanges.RunsIdsStep | budget-changes.py:123-131 | one more run either raises, and then so does the list, or appends its ids |
| BudgetChanges.RunsIdsStopAt | budget-changes.py:123-126 | the first run that raises decides the error |
| BudgetChanges.AllIdsStopAt | budget-changes.py:114-126 | the first name that raises decides the error |
| BudgetChanges.ChangeMapping | budget-changes.py:159-163 | a key is present exactly when some row has it with a nonzero change, and no kept value is zero |
| BudgetChanges.BudgetMapping | budget-changes.py:178-182 | a key is present exactly when some row has it with an allocation other than 0 or None, and no kept value is zero; `BudgetMappingLastWins` gives the value |
| BudgetChanges.NamesMapping | budget-changes.py:197-200 | a code is present exactly when some row has it; `NamesMappingLastWins` gives the value |
| BudgetChanges.ChangeMappingLastWins | budget-changes.py:159-163 | each key holds the change of its last nonzero row |
| BudgetChanges.BudgetMappingLastWins | budget-changes.py:178-182 | each kept key holds the allocation of its last row whose allocation is neither 0 nor None |
| BudgetChanges.BudgetMappingTakes | budget-changes.py:178-182 | a last row with an allocation sets its key |
| BudgetChanges.BudgetMappingKeeps | budget-changes.py:178-182 | a last row of another key, or without an allocation, keeps a key's value |
| BudgetChanges.LastAllocatedExtends | budget-changes.py:178-182 | the last kept row of a key stays the last when the row after it does not set the key |
| BudgetChanges.NamesMappingLastWins | budget-changes.py:197-200 | each code holds the title of its last row |
| BudgetChanges.LookupsOf | budget-changes.py:178-182 | no allocation in the lookups is zero, so the ratio never divides by zero |
| BudgetChanges.Slice | budget-changes.py:319 | a slice is never longer than the code |
| BudgetChanges.SliceMeaning | budget-changes.py:319-339 | `s[i:j]` is the characters between the bounds clamped to the length |
| BudgetChanges.CodeSlicesNest | budget-changes.py:319-339 | for a code of any length, `[2:4]` begins `[2:6]`, and `[:4]` begins `[:6]`, which begins `[:8]` |
| BudgetChanges.RangeDown | budget-changes.py:398 | `range(start, stop, -1)` counts down from `start` and stops before `stop` |
| BudgetChanges.HistoryYearsAre | budget-changes.py:398 | the history years are 2023, 2022, 2021 and 2020, strictly descending |
| BudgetChanges.RedGreenStyleRaises | budget-changes.py:298-301 | as written, building the ratio style raises ValueError |
| BudgetChanges.HistoryFields | budget-changes.py:382-400 | two fields per history year |
| BudgetChanges.FieldValue | budget-changes.py:314-379 | a field's value fails exactly on a parent code missing from the names, with KeyError |
| BudgetChanges.CellOptions | budget-changes.py:418-424 | a copy of the field's options, `align` defaulting to `center` unless truthy, and both colours resolved for the value |
| BudgetChanges.RatioCellColour | budget-changes.py:377-381 | the ratio cell never raises; its fill is red above +5%, green below -5%, white otherwise; its format is `0%` |
| BudgetChanges.RatioStyle | budget-changes.py:377-381 | the ratio field is `DiffRatio` with the red-green scheme and the `0%` format |
| BudgetChanges.FixedStyleFormat | budget-changes.py:418-426 | a field with fixed colours never raises and shows its truthy `number_format`, or else the default |
| BudgetChanges.HistoryFormat | budget-changes.py:385-396 | as written a history cell shows in the default whole-number format; with the format in its options it shows one decimal |
| BudgetChanges.FieldResults | budget-changes.py:415-426 | one outcome per field, in field order |
| BudgetChanges.Collect | budget-changes.py:415-426 | collected calls pass neither `value` nor `score` as options |
| BudgetChanges.CollectMeaning | budget-changes.py:415-426 | the calls succeed exactly when every outcome does, in order; otherwise the first error |
| BudgetChanges.CollectStep | budget-changes.py:415-426 | making the calls is making the first, then the rest |
| BudgetChanges.HistoryFieldsPlain | budget-changes.py:382-400 | history fields look nothing up by name and are coloured without their value |
| BudgetChanges.RowFieldsShape | budget-changes.py:311-401 | 22 fields: the 14 fixed ones, then 8 history fields |
| BudgetChanges.RowFieldsSettable | budget-changes.py:311-401 | no field's options name `value` or `score` |
| BudgetChanges.BlueFields | budget-changes.py:317-351 | fields 1 to 7 use the blue scheme |
| BudgetChanges.FixedFieldPaint | budget-changes.py:311-376 | the colours of the fixed fields other than the ratio resolve without raising |
| BudgetChanges.ParentNameFields | budget-changes.py:322-336 | only fields 2 and 4 look up parent names, by `[:4]` and `[:6]` |
| BudgetChanges.FieldWriteFails | budget-changes.py:415-426 | a field's call fails exactly when it is a parent name missing from the names, with KeyError |
| BudgetChanges.PaintedFieldWrite | budget-changes.py:415-426 | a field whose colours resolve fails exactly as its value does, with the same error |
| BudgetChanges.FieldResultsFail | budget-changes.py:415-426 | of a row's 22 outcomes only fields 2 and 4 can fail, each exactly when its parent code has no name, always with KeyError |
| BudgetChanges.RowWritesFail | budget-changes.py:415-426 | a row's calls fail exactly when a parent code of its budget code has no name |
| BudgetChanges.CollectTwoFailures | budget-changes.py:415-426 | outcomes of which only two can fail, with KeyError, collect to a KeyError exactly when one of the two fails |
| BudgetChanges.KeptRows | budget-changes.py:405-408 | the kept rows are those with a truthy first committee id |
| BudgetChanges.KeptIds | budget-changes.py:405-412 | the request id of each kept row, all of them truthy |
| BudgetChanges.ColorIndexCountsChanges | budget-changes.py:404-412 | `color_index` counts the request changes between consecutive kept rows, and `committee_id` is the last kept request |
| BudgetChanges.RowAdded | budget-changes.py:413-426 | adding a row keeps the table invariant |
| BudgetChanges.TableAfter | budget-changes.py:403-426 | the table after the loop keeps the table invariant |
| BudgetChanges.NextTable | budget-changes.py:405-426 | one pass keeps the table invariant |
| BudgetChanges.EmitFields | budget-changes.py:415-426 | the field loop succeeds exactly when every field's call does, and then leaves the state of those calls; otherwise it gives the first error |
| BudgetChanges.EmitField | budget-changes.py:416-426 | one field: its value, its options, then its `set` call, or its error |
| BudgetChanges.AddRow | budget-changes.py:413-426 | a kept row: `new_row(row_key)`, then its fields, as one pass step |
| BudgetChanges.ColorScanSnoc | budget-changes.py:405-412 | the colour index after one more row is one scan step |
| BudgetChanges.NextTableSkips | budget-changes.py:406-408 | a row with a falsy request id leaves the table unchanged |
| BudgetChanges.TableAfterSnoc | budget-changes.py:405-426 | the table after one more row is one pass step on the table before |
| BudgetChanges.TableAfterStaysFailed | budget-changes.py:405-426 | once a row raises, the loop ends with that error |
| BudgetChanges.AddRows | budget-changes.py:403-426 | the loop over the change rows gives the table, or the error, that `TableAfter` defines |
| BudgetChanges.NextRow | budget-changes.py:405-426 | one pass: the colour index moves on a change of request, then the row is skipped or added |
| BudgetChanges.NextTableMeaning | budget-changes.py:405-426 | one pass: an earlier error stays, a skipped row changes nothing, and a kept row raises or adds its row |
| BudgetChanges.ReportFails | budget-changes.py:322-336 | building the table fails exactly when a kept row's section or area has no name, with KeyError |
| BudgetChanges.ReportFailsStep | budget-changes.py:405-426 | one more row fails the table exactly when it is kept and misses a parent name |
| BudgetChanges.TableRows | budget-changes.py:403-426 | table row `j` is made from kept row `j`: keyed `(request, budget_code)`, holding its calls made with the colour index of the request changes so far |
| BudgetChanges.RowsOfSkipped | budget-changes.py:406-408 | a skipped row leaves the rows as they were |
| BudgetChanges.RowsOfKept | budget-changes.py:413-426 | adding a kept row extends the rows by it |
| BudgetChanges.RowsOfAppended | budget-changes.py:413-426 | a table that adds exactly the last kept row's row to the table of the rows before it is the table of all of them |
| BudgetChanges.KeptSnoc | budget-changes.py:405-412 | a kept last row extends the kept rows and requests by itself |
| BudgetChanges.RowMadeEarlier | budget-changes.py:413-426 | a row made before the last kept row stays as it was |
| BudgetChanges.RowMadeLast | budget-changes.py:413-426 | the row added last is made from the last kept row |
| BudgetChanges.ConstructTable | budget-changes.py:268-427 | with the ratio style corrected, `construct_table` gives the saved sheet of the table that the lookups and the change rows define, or the first error |
| BudgetChanges.ConstructTableRaises | budget-changes.py:298-301 | as written, `construct_table` raises ValueError for every input |

## Left out

- The openpyxl calls are left out: `ws.append`, fonts, fills, borders, comments, alignment, the outline API, freeze panes, the sheet title, right-to-left and `wb.save`. The model stops at the sheet value `ReportTable.Sheet` and the style decision `Rendering.CellStyle`.
- Rendering.ProcessValue: a float is returned unchanged rather than as `f'{value:,.2f}'`, because float formatting is not modelled.
- Rendering.ColumnWidth: takes the text lengths of a column as input; `str(cell.value)` and the `Decimal` `{:,.1f}` case are not modelled.
- Rendering.ParseDecimal: `float()` is modelled only for plain decimal text; exponents, `inf`, `nan`, surrounding whitespace and underscores are not.
- Decimal.ParseInt: `int()` is modelled only for ASCII digits with an optional minus; Python also accepts `+`, whitespace, underscores and non-ASCII digits.
- Amounts are exact integers. `/1000000` is exact real division. The `f'{x:,.0f}'` comment text is the integer with thousands separators.
- ProposalCompare.ChangeWrites: writes the unrounded ratio; `round(change, 2)` is not modelled.
- Keys.AtomLess: Python raises TypeError when an int key element meets a str. The model orders every number before every string instead.
- BudgetChanges.IdAtom: a committee id that is neither int nor str becomes an empty string in the row key.
- `BLUE_SCHEME` is held as two columns, `BLUE_TEXT` and `BLUE_BACKGROUND`, entry `k` being the pair at `k`.
- ReportTable.Table.Set: requires that the options name neither `value` nor `score`. The source raises TypeError for a `value` option, and for a `score` option when the title is new. No caller passes either.
- ProposalCompare.ProcessData: the titles and comments are fixed by `ShownFor` rather than passed on from `ShownTitles` by value, so the outcome is stated for the unique maps `ShownFor` admits (`ProposalCompare.ShownForUnique`).
- BudgetChanges.ConstructTable: models the program with the ratio style corrected, as the first row of Findings says; as written it raises ValueError for every input, which `BudgetChanges.ConstructTableRaises` states.
- In `process_data`, `options` is built inside the inner code loop. When every code of an entry is skipped, the options of an earlier entry are reused. The sums are then all None, so no cell is written with them. The model builds the options fresh for each entry.
- Loops over dictionaries (`raw_map.values()`, `titles_for_code_aux`, `row.values()`, `self.groups`) visit keys in an unspecified order. The results are proved independent of that order. The order of `history.items()` is kept as a sequence, because the first unparsable key decides whether `check_for_active` raises.
- The data loading is not modelled and arrives as parameters: `dataflows` loads, filters, `join_with_self`, `sort_rows` and checkpoints. Only the dictionary-building filters of the lookups are modelled.
- The OpenAI prompt and `chat.completions.create` call, the HTTP download, the `zipfile` handling and the `OPENAI_APIKEY` file read are not modelled. They are foreign calls and I/O.
- `construct_table` does not use `get_outstanding_requests`: it passes None as the request list. The id extraction is modelled on its own.
- upload_excel_files.py (the Google Drive and Sheets API) and upload-to-s3.py (boto3 upload and argument checks) are not part of this model; they are pure I/O.
- Console `print` output is not modelled.

## Findings

| source | as written | input that shows it | evidently intended | confidence | as-written member | corrected member |
|---|---|---|---|---|---|---|
| budget-changes.py:298-301 | `RED_GREEN_LG_BG` calls `color_scheme_red_green('FBFFF3')` when the style is built. `float('FBFFF3')` raises ValueError, so `construct_table` fails before it reads any row. | any run of `construct_table`: the style table is built first | pass the function itself, so that the ratio column is filled red or green by each cell's value, as `proposal-compare.py` does | not executed | BudgetChanges.RedGreenStyleRaises, BudgetChanges.ConstructTableRaises | BudgetChanges.RatioCellColour, BudgetChanges.ConstructTable |
| budget-changes.py:385-396 | the history fields put `'number_format': '#,##0.0'` beside `options`, but the row loop reads only `field['options']`. The format is never applied. | a history cell holding 12.3 million is shown in the default format `#,##0`, as `12`; `BudgetChanges.HistoryFormat` proves both formats | the one-decimal format, as on the other million-valued columns | not executed | BudgetChanges.HistoryPairAsWritten | BudgetChanges.HistoryPair |
