# Budget dashboard core, in Dafny

This project models the browser budget dashboard, which exists in three drafts:

- `app.js` holds a dashboard with a transactions tab, a categories tab and a CSV import tab.
- `src/app.js` and `src/js/app.js` hold an income statement with an editable category outline.

The DOM code is removed. What is left is small, deterministic logic, modelled and proved here:

- **Calendar** (`calendar.dfy`, `isodate.dfy`): the date helpers of `app.js`.
  - A `Date` at local midnight is a triple `(year, month0, day)` tied to a Gregorian day number.
  - `JsDate` models `new Date(y, m, d)` with its overflow rule and its two-digit-year rule.
  - It also models the ISO `YYYY-MM-DD` reader and writer.
- **Period resolution** (`daterange.dfy`): `resolveDateRange` and `monthsInRangeForMode`.
  - The stored `state.dateFilter` is the `DateFilter` class.
  - It is updated by the period dropdown and by the custom-range form.
- **Dashboard** (`dashboard.dfy`, `records.dfy`):
  - the range filter;
  - the income/expense classification;
  - the per-category buckets in insertion order;
  - the totals, saving rate, expense shares and average-mode scale factor.
- **In-memory store** (`store.dfy`, `txquery.dfy`, `sorting.dfy`, `categorytree.dfy`): the `state` object of `app.js` as the `State` class.
  - The row selection.
  - New transaction ids.
  - Fresh category ids.
  - Descendant collection and cascade delete.
  - The import of parsed rows.
  - The filtered and sorted transaction list.
  - The flattened category tree.
- **CSV** (`csvimport.dfy`, `csvline.dfy`):
  - the naive splitter, header sniffer and row mapper of `app.js`;
  - the quote-aware line reader and transaction mapper of `src/app.js`.
- **Category outline** (`outline.dfy`, `categorytext.dfy`):
  - the dash-indented text parser of both `src` drafts (the `stripIndent` flag tells them apart);
  - the income keyword heuristic;
  - the serialiser of `src/js/app.js`;
  - a generate-then-parse round trip.
- **Income statement and ledger** (`statement.dfy`, `ledger.dfy`):
  - per-type grouping and `sumValues`;
  - the drag-and-drop recategorisation;
  - id assignment on import in the `src` drafts.

`text.dfy`, `seqs.dfy` and `wrappers.dfy` hold the JavaScript string and array built-ins the code relies on, and an option type.

Conventions:

- A JavaScript `null` id is the empty string. Every draft tests ids with `!id`, so the two behave the same.
- `null`, `undefined`, `NaN` and `Invalid Date` results are `None`, except for the amount filter's bounds. There, `NaN` is kept apart from a blank bound (`TxQuery.Bound`), because every comparison with it is false.
- Amounts are Dafny `real`.
- Where `app.js` has paste corruption, the model follows the evident intent. The corruption is a stray code-fence language line (`pgsql`, `kotlin`, `php-template`, `javascript` or `matlab`) followed by `Copy code`. It appears at app.js:570-571, 612-613, 638-639, 737-738, 973-974, 1084-1085, 1288-1289, 1319-1320, 1391-1392, 1676-1677, 1859-1860, 1942-1943, 2002-2003 and 2036-2037.

## Model

| member | source | states |
|---|---|---|
| Calendar.MakeDay | app.js:195-205 | `setDate`/`setMonth` overflow: the result is a valid date whose day number is the start of month `m` (any integer, normalised into other years) plus `d - 1` |
| Calendar.JsDate | app.js:191-193 | `new Date(y, m, d)`: the same normalisation, after mapping a year in 0..99 to 1900 + year |
| Calendar.MakeDayOfValid | app.js:195-205 | a valid triple is its own normalisation |
| Calendar.JsDateOfValid | app.js:191-193 | outside years 0..99, `new Date(y, m, d)` of a valid triple is that date |
| Calendar.FromDayNumber | app.js:184-199 | every integer is the day number of exactly one valid date (with `DayNumberOnto`/`DayNumberInjective`) |
| Calendar.FromDayNumberOf | app.js:195-199 | reading a valid date back from its day number gives the same date |
| Calendar.DayNumberInjective | app.js:195-199 | two valid dates with the same day number are equal |
| Calendar.DayNumbersIdentify | app.js:195-199 | day numbers identify valid dates, stated for all pairs |
| Calendar.MonthStartDelta | app.js:201-205 | consecutive (normalised) month starts are 28 to 31 days apart, for any month index |
| Calendar.MonthStartYear | app.js:201-205 | twelve months on from any month is the same month of the next year |
| Calendar.StartOfDay | app.js:191-193 | `startOfDay` is the identity on dates outside years 0..99 |
| Calendar.AddDays | app.js:195-199 | `addDays` moves the day number by exactly `days` |
| Calendar.AddMonths | app.js:201-205 | `addMonths` lands on day `d - 1` after the start of month `month0 + months`, with overflow |
| Calendar.Weekday | app.js:207-212 | `getDay()` is in 0..6 |
| Calendar.StartOfWeekMonday | app.js:207-212 | the Monday offset is applied to `startOfDay(d)` |
| Calendar.EndOfWeekSunday | app.js:214-217 | exactly six days after `startOfWeekMonday(d)` |
| Calendar.WeekStartIsMonday | app.js:207-217 | the week start is a Monday, not after `d` and at most six days before it; the week end is a Sunday six days later |
| Calendar.GetQuarter | app.js:227-229 | the quarter index is 0..3 and contains the month |
| Calendar.DayZeroIsMonthEnd | app.js:223-225 | `new Date(y, m + 1, 0)` is the last day of month `m` |
| Calendar.MonthPeriod | app.js:219-225 | month start is day 1, month end is the month's last day, and `d` lies between them |
| Calendar.QuarterPeriod | app.js:231-241 | the quarter runs from day 1 of its first month to the last day of its third, and contains `d` |
| Calendar.YearPeriod | app.js:243-249 | the year runs from 1 January to 31 December and contains `d` |
| Calendar.DayBeforeFirst | app.js:318-345 | the day before the first of a month is the last day of the previous month, across a year boundary too |
| Calendar.DaysBetweenSame | app.js:251-254 | `daysBetweenInclusive(d, d) == 1` |
| IsoDate.ParseISODate | app.js:175-182 | a date that is read is valid; `NaN` parts give `None` |
| IsoDate.ParseFormat | app.js:175-189 | reading back a formatted date (year at least 100) gives the same date |
| IsoDate.FormatInjective | app.js:184-189 | distinct dates format to distinct strings |
| IsoDate.FormatFields | app.js:184-189 | the formatted string is year, two-digit month and two-digit day, split by `-` |
| IsoDate.StringOrderIsDateOrder | app.js:779-794 | for four-digit years, comparing ISO strings with `<` is comparing dates |
| DateRange.DaysBetween | app.js:251-254 | there is a day count exactly when both bounds are valid dates |
| DateRange.MonthsInRange | app.js:256-284 | 1, 3 or 12 for the month, quarter and year families; custom gives a count of at least 1; the week family gives the inclusive day count divided by 30.4375, and `null` exactly when a bound is not a date; an unknown mode gives `null` |
| DateRange.CustomMonthsCount | app.js:256-284 | the custom count is `Δyear·12 + Δmonth + 1` for ordered bounds |
| DateRange.DaysBetweenSameDay | app.js:251-254 | a one-day range counts one day |
| DateRange.Rolling | app.js:348-367 | a rolling period ends today |
| DateRange.MakeRange | app.js:390-396 | the range object carries the resolved bounds and title |
| DateRange.Resolve | app.js:289-397 | the mode is rewritten only when it is unknown, and then to `thisMonth` |
| DateRange.LastWeekBounds | app.js:318-323 | last week ends the day before this week's Monday and starts on the Monday six days earlier |
| DateRange.LastMonthBounds | app.js:325-330 | last month ends the day before this month starts; its start is the first of the month containing that day |
| DateRange.LastQuarterBounds | app.js:332-337 | the same for quarters |
| DateRange.LastYearBounds | app.js:339-345 | last year is 1 January to 31 December of the previous year, ending the day before this year starts |
| DateRange.RollingBounds | app.js:348-367 | a rolling period of `k` months starts `k` months back and not after today |
| DateRange.PeriodOrdered | app.js:296-367 | for every non-custom preset, `from <= to` |
| DateRange.NonCustomOrdered | app.js:289-397 | every non-custom mode, unknown ones included, resolves to valid bounds with `from <= to` |
| DateRange.RollingEndsToday | app.js:348-367 | the four rolling modes end today; `rollingWeek` spans seven inclusive days |
| DateRange.ResolvedMonths | app.js:256-284 | month, quarter and year modes carry 1, 3 and 12 months, whatever custom bounds are stored |
| DateRange.UnknownModeFallsBack | app.js:382-387 | an unknown mode resolves to this month's first-to-last day and is rewritten to `thisMonth` |
| DateRange.CustomWithoutBounds | app.js:370-381 | custom mode without both bounds falls back to this month's bounds |
| DateRange.CustomBoundsRoundTrip | app.js:370-381 | custom mode with stored ISO bounds resolves to exactly those dates |
| DateRange.DateFilter.constructor | app.js:17-21 | the filter starts in `thisMonth` with no bounds |
| DateRange.DateFilter.ResolveDateRange | app.js:289-397 | returns the resolved range and stores the rewritten mode |
| DateRange.DateFilter.SelectMode | app.js:733-750 | sets the mode; leaving custom clears the bounds; entering custom without both bounds seeds them from the current range |
| DateRange.DateFilter.ApplyCustomBounds | app.js:779-794 | stores both bounds only when both are present and `from <= to`. With a bound missing it stores nothing and clears the message. With `from > to` it stores nothing and reports `From must be ≤ To` |
| DateRange.AcceptedCustomRangeOrdered | app.js:779-794 | bounds that the form accepts resolve to an ordered custom range |
| Records.FindCategory | app.js:414-419 | `find` by id: `None` exactly when no category has the id, otherwise the first one that does |
| Records.GetCategoryById | app.js:414-419 | an empty id finds nothing |
| Records.CategoryNameById | app.js:421-424 | the found category's name, or `""` |
| Records.FindUnique | app.js:414-419 | with unique ids, a category is found by its own id |
| Dashboard.DashboardFilterKeeps | app.js:402-412 | a transaction is kept exactly when its day lies in the inclusive range, with its multiplicity |
| Dashboard.BoundsIncluded | app.js:402-412 | transactions on the first and last day are kept |
| Dashboard.InvalidBoundKeepsNothing | app.js:402-412 | an invalid bound keeps no transaction |
| Dashboard.CategoryTypeForTx | app.js:426-432 | the type is always `income` or `expense` |
| Dashboard.CategoryTypeCases | app.js:426-432 | the category's type when it is income or expense, otherwise income exactly when the amount is at least 0 |
| Dashboard.BucketKey | app.js:438-440 | the bucket is the category id, or `unmapped-income`/`unmapped-expense` by type when there is none |
| Dashboard.Keys | app.js:434-454 | bucket keys in first-seen order, without repeats |
| Dashboard.KeysMembers | app.js:434-454 | a key is listed exactly when some transaction falls in it |
| Dashboard.Aggregate | app.js:434-454 | one row per key, in key order |
| Dashboard.AggregateByCategory | app.js:434-454 | the `forEach` over a map yields the specified rows |
| Dashboard.AggregateRows | app.js:434-454 | each row's amount is the sum of its transactions; its type is that of the first transaction filed under its key |
| Dashboard.FirstKindIsFirst | app.js:445-449 | a bucket's kind is the type of the first transaction filed under it |
| Dashboard.AggregateConserves | app.js:434-454 | all rows together sum to the input total |
| Dashboard.Summarise | app.js:506-524 | zero rows are dropped; the income and expense totals are the sums of the kept rows, and the absolute expense total is the sum of their absolute amounts; `net == totalIncome + totalExpenses`; saving rate 0 with no income, else `net / totalIncome` |
| Dashboard.SavingRate | app.js:520 | zero when income is zero, otherwise the ratio of net to income |
| Dashboard.StatementConserves | app.js:402-524 | income plus expense totals equal the sum of the kept transactions |
| Dashboard.ExpenseShares | app.js:626-627 | each expense row's share times the total of absolute expenses is its absolute amount |
| Dashboard.ExpenseSharesTotal | app.js:522-524 | whenever the kept expense rows have a non-zero absolute total, the shares of the summarised statement sum to 1 |
| Dashboard.ScaleFactor | app.js:526-536 | positive; `1/days` per day, `1/months` per month, `12/months` per year, and 1 when the count is not positive, missing or the mode is `total` |
| Dashboard.FactorOfMonths | app.js:526-536 | with a positive month count, factor times months is 1 (per month) or 12 (per year) |
| Dashboard.MonthlyAverageOfMonth | app.js:526-536 | a monthly average over this month leaves the totals unchanged, whatever custom bounds are stored |
| Dashboard.MonthlyAverageOfQuarter | app.js:526-536 | a monthly average over last quarter divides by 3, whatever custom bounds are stored |
| Dashboard.YearlyAverageOfYear | app.js:526-536 | a yearly average over this year leaves the totals unchanged, whatever custom bounds are stored |
| Dashboard.YearlyAverageOfMonth | app.js:526-536 | a yearly average over last month multiplies by 12, whatever custom bounds are stored |
| TxQuery.ApplyFiltersKeeps | app.js:890-996 | a transaction survives the six filters exactly when it matches all of them, with its multiplicity |
| TxQuery.InactiveKeepsAll | app.js:890-996 | with every filter off the list is unchanged |
| TxQuery.NaNBoundHidesAll | app.js:966-993 | an amount bound that is `NaN` hides every transaction in each mode that compares against it |
| TxQuery.SortKey | app.js:998-1041 | text columns compare as strings, amount as a number, any other column as equal |
| TxQuery.Visible | app.js:890-1041 | the output is a permutation of the filtered list, sorted on the column in the chosen direction |
| TxQuery.DateSortAscending | app.js:998-1041 | an ascending date sort orders the date strings |
| TxQuery.AmountSortDescending | app.js:998-1041 | a descending amount sort puts larger amounts first |
| TxQuery.UnknownFieldKeepsOrder | app.js:998-1041 | an unknown sort column keeps the filtered order (the sort is stable) |
| Sorting.SortBy | app.js:1001-1040 | the stable sort returns a sorted permutation |
| Sorting.SortBySorted | app.js:1001-1040 | an already sorted list is unchanged |
| Sorting.SortByStable | app.js:1001-1040 | the sort is stable: the elements sharing any one key come out in their input order |
| Sorting.InsertClass | app.js:1001-1040 | an inserted element goes in front of every element with its key |
| CategoryTree.ParentKey | app.js:808 | a category without parent is filed under `root` |
| CategoryTree.ChildrenSpec | app.js:807-817 | the children of a key are exactly the categories filed under it, sorted by name |
| CategoryTree.Walk | app.js:821-833 | the walk of a node starts with that node's line at its depth |
| CategoryTree.WalkNested | app.js:821-833 | every line of a walk copies a category, and every deeper line sits below an earlier line of its parent |
| CategoryTree.FlatTree | app.js:805-841 | the flattened list is well nested from the roots at depth 0 |
| Store.MaxId | app.js:1519-1522 | the largest id, or 0: no id exceeds it and it is an id when positive |
| Store.Renumber | app.js:2004-2007 | rows keep their order and get consecutive ids from `first` |
| Store.RenumberKeepsIdsUnique | app.js:1996-2007 | unique ids stay unique after appending renumbered rows |
| Store.FirstFree | app.js:1551-1564 | the first free `cat-N` from `n` on, with every id before it taken |
| Store.VisitBound | app.js:1603-1616 | a visit list without repeats holds at most every category plus the start |
| Store.DeleteLeavesNoDangling | app.js:1618-1636 | after a cascade delete no kept category or transaction refers to a deleted category, and exactly the subtree is removed |
| Store.ClearRefs | app.js:1627-1632 | transactions filed in the deleted subtree lose their category; the others are unchanged |
| Store.ClearRefsKeepsIds | app.js:1627-1632 | clearing categories keeps transaction ids unique |
| Store.State.constructor | app.js:14-58 | the initial `state`: empty lists, no filters, date sort descending, `nextCategoryId` 1 |
| Store.State.IsTxSelected | app.js:1045-1047 | true exactly when the id is in the selection |
| Store.State.ToggleTxSelection | app.js:1049-1056 | after the call the id is selected exactly when asked; other ids are unaffected; a new id is appended; a removed id is spliced out |
| Store.State.ClearTxSelection | app.js:1058-1060 | the selection becomes empty |
| Store.State.AddNewTransaction | app.js:1518-1539 | appends a blank transaction dated today with id one past the largest, and starts editing it |
| Store.State.ApplyImport | app.js:1995-2013 | with no parsed rows nothing changes; otherwise the rows are appended under consecutive ids after the largest, and the parsed list is emptied |
| Store.State.GetVisibleTransactions | app.js:890-1041 | exactly the matching transactions, as a sorted permutation of the filtered list |
| Store.State.GetNextCategoryId | app.js:1551-1564 | returns the first free `cat-N` from the counter and moves the counter past it |
| Store.State.AddCategory | app.js:1566-1578 | appends a new category under a fresh id and starts editing it |
| Store.State.CollectCategoryDescendants | app.js:1603-1616 | the id first, then exactly its descendants, without repeats, each after its parent |
| Store.State.DeleteCategoryAndChildren | app.js:1618-1636 | removes exactly the subtree and clears its transactions' categories; it clears the editor only when the deleted root was being edited, and an editor on a deleted descendant is left as it is |
| CsvImport.FindHeaderKey | app.js:1823-1834 | the first header whose lower-cased name contains a candidate, and `None` exactly when none does |
| CsvImport.CellsFor | app.js:1815-1817 | one value per header, the trimmed cell or `""` |
| CsvImport.MakeRowKeys | app.js:1814-1818 | a row object's keys are exactly the headers, without repeats |
| CsvImport.MakeRowCell | app.js:1814-1818 | the last header of a given name gets its cell |
| CsvImport.BuildRow | app.js:1814-1818 | the `forEach` over headers builds the specified row |
| CsvImport.ParseCSV | app.js:1800-1821 | the loop yields one row per non-blank data line |
| CsvImport.ReadRows | app.js:1810-1820 | the loop over data lines yields the specified rows |
| CsvImport.BlankTextNoRows | app.js:1801-1802 | blank text gives no rows |
| CsvImport.DataRowsKeys | app.js:1810-1820 | every row has exactly the header keys |
| CsvImport.DataRowsCount | app.js:1810-1820 | a blank line adds no row; any other line adds one |
| CsvImport.RowDate | app.js:1851-1857 | the first ten characters of a date containing `-`, otherwise today |
| CsvImport.RowAmount | app.js:1861-1864 | the number after removing commas, or 0 when it does not parse |
| CsvImport.RowCategory | app.js:1866-1876 | a non-empty id belongs to a category named like the cell's last `>`/`:` segment; a blank cell gives `""` |
| CsvImport.RowCategoryFirst | app.js:1866-1876 | a non-blank cell links the first category, in list order, named like its last segment, and `""` when none has that name |
| CsvImport.FirstNamed | app.js:1871-1873 | the first category with the name |
| CsvImport.RowLabels | app.js:1878-1888 | every label is non-empty; an empty cell gives none |
| CsvImport.RowLabelsPieces | app.js:1878-1888 | the labels of a non-empty cell are exactly its non-empty trimmed pieces between `;` and `,` |
| CsvImport.LabelsRoundTrip | app.js:1878-1888 | trimmed labels without `;` or `,`, joined with commas, read back as the same labels in the same order |
| CsvImport.LabelsTrimmed | app.js:1878-1888 | every label is non-empty and trimmed |
| CsvImport.RowToTransactionFields | app.js:1843-1898 | the id is 0; the date comes from the date cell, else today; description, account and note are their cells when the column exists, else `""` |
| CsvImport.RowToTransactionAmount | app.js:1861-1864 | the amount is the amount cell without commas, read as a number; 0 when it does not parse or there is no amount column |
| CsvImport.RowToTransactionLinks | app.js:1866-1888 | the category is the one the category cell names, `""` without that column; the labels are the labels cell's, none without that column |
| CsvImport.MapCSVRowsToTransactions | app.js:1836-1903 | one transaction per row, each mapped with the columns sniffed from the first row |
| CsvImport.AmountOfPlainNumber | app.js:1861-1864 | a plain number string reads back as its value |
| CsvLine.Cells | src/app.js:705-738 | at least one cell |
| CsvLine.ParseCsvLine | src/app.js:705-738 | the character loop yields the cells of the state machine |
| CsvLine.CellCount | src/app.js:705-738 | one more cell than commas read outside quotes |
| CsvLine.PlainLine | src/app.js:705-738 | a line without `"` splits exactly like `split(",")` |
| CsvLine.EncodeLineRoundTrip | src/app.js:713-733 | inside quotes `""` gives one `"` and commas stay in the cell: quoting any fields and reading them back gives the fields |
| CsvLine.LoneQuotesVanish | src/app.js:713-733 | a lone `"` toggles quoting and never reaches a cell |
| CsvLine.TextLines | src/app.js:624-626 | only non-blank lines are kept |
| CsvLine.HeaderIndex | src/app.js:633-640 | the first header that is one of the names, or -1 exactly when none is |
| CsvLine.FindIndex | src/app.js:633-640 | the nested loop returns that index |
| CsvLine.CellLabels | src/app.js:673-677 | non-empty labels, none for a blank cell |
| CsvLine.MatchIndex | src/app.js:684-689 | the first category whose lower-cased name equals the cell's |
| CsvLine.CellCategory | src/app.js:679-689 | `""` for a blank cell or no case-insensitive match, otherwise the first match's id |
| CsvLine.RowTransactionFields | src/app.js:655-699 | rows with empty date and amount are skipped; the amount is the cell without commas and spaces read as a number, or 0 when that does not parse; the description defaults to `(no description)`; the category is the cell's match |
| CsvLine.ParseCsvTransactions | src/app.js:623-702 | the loop yields the specified transactions |
| CsvLine.ReadDataLines | src/app.js:655-699 | the loop over data lines yields one transaction per accepted line |
| CsvLine.ReadExactly | src/app.js:655-699 | a transaction is produced exactly when some data line maps to it |
| CsvLine.NoDataNoTransactions | src/app.js:623-627 | text without data lines gives no transactions |
| CsvLine.LabelsRoundTrip | src/app.js:673-677 | joining trimmed labels with commas and reading them back gives the labels |
| Outline.InferCategoryType | src/app.js:222-235 | the type is `Income` or `Expense` |
| Outline.InferIncomeIff | src/app.js:222-235 | `Income` exactly when the lower-cased `parent + " " + name` contains one of the five keywords |
| Outline.ParentWordMakesIncome | src/js/app.js:219-232 | a keyword in the parent's name makes the child income |
| Outline.NameWordMakesIncome | src/js/app.js:219-232 | a keyword in the name makes it income |
| Outline.InferIgnoresCase | src/app.js:222-235 | the heuristic ignores case |
| Outline.Content | src/app.js:169-172 | a kept line has no `\r` and is not blank |
| Outline.ReadHeading | src/app.js:178-184 | a heading that is read has a non-empty name |
| Outline.ParseCategoriesText | src/app.js:161-219 | the method returns the specified categories |
| Outline.KeepContentLines | src/app.js:167-172 | exactly the non-blank lines, without `\r` |
| Outline.BuildCategories | src/app.js:177-204 | the loop over `lastByLevel` yields the specified categories |
| Outline.BlankTextNoCategories | src/app.js:162-165 | blank text gives no categories, in both drafts |
| Outline.HeadingsExactly | src/js/app.js:177-185 | a heading is read exactly when some kept line reads as it |
| Outline.ParseShape | src/app.js:186-203 | one category per heading, in order. A level-0 line has parent `""`, id = name and the inferred type. A level-k line's parent is the last earlier line at level k−1, and its id is that parent's id + `" > "` + name |
| Outline.LastAt | src/app.js:187 | the last earlier heading at a level, if any |
| Outline.ParentIndex | src/app.js:187 | a parent always comes earlier |
| Outline.ReadDashedLine | src/js/app.js:177-185 | a line of `n` dashes and a plain name reads as that heading |
| CategoryText.BuildChildrenMap | src/js/app.js:139-144 | each key maps to the categories filed under it, in list order |
| CategoryText.Dfs | src/js/app.js:149-156 | a visit starts with the node at its level |
| CategoryText.GeneratedText | src/js/app.js:136-163 | no categories give `""` |
| CategoryText.VisitNode | src/js/app.js:149-156 | `dfs` appends the node's line and then its subtree's lines |
| CategoryText.VisitChildren | src/js/app.js:153-155 | the children's subtrees, in list order |
| CategoryText.GenerateCategoriesTextFromState | src/js/app.js:136-163 | returns the specified text |
| CategoryText.VisitsShape | src/js/app.js:146-160 | level-0 lines are roots, and every deeper line follows an earlier line of its parent one level up |
| CategoryText.TextLines | src/js/app.js:162 | for plain names, the lines the parser keeps are exactly the generated lines |
| CategoryText.ReadBack | src/js/app.js:166-203 | reading the generated text gives one heading per visit, with its level and name |
| CategoryText.RoundTrip | src/js/app.js:136-216 | parsing the generated text gives the names in pre-order. Roots come back with no parent. Every other entry's parent is the entry its original parent became |
| CategoryText.VisitedCats | src/js/app.js:149-160 | every visited entry is a category of the list |
| IncomeStatement.AddTo | src/app.js:388-397 | `lines[key] = (lines[key] \|\| 0) + amount`: that key's value grows by the amount, the others are unchanged, and the sum grows by the amount |
| IncomeStatement.AddToKeys | src/app.js:388-397 | a new key is appended at the end; an existing key keeps the key order; keys stay distinct |
| IncomeStatement.SumValues | src/app.js:505-511 | `sumValues` is the sum over the object's keys |
| IncomeStatement.GetCategoryName | src/app.js:485-490 | the category's name, or `Uncategorised` |
| IncomeStatement.TxType | src/app.js:388-393 | the category's type, or `Income` exactly when the amount is at least 0 when there is no category or no type |
| IncomeStatement.GroupLines | src/js/app.js:373-384 | each group's keys are distinct; a line's value is the sum of its transactions; a key exists exactly when some transaction belongs to it |
| IncomeStatement.GroupedConserves | src/app.js:385-401 | every filtered amount lands in exactly one line: the two groups together sum to the total |
| IncomeStatement.RenderIncomeStatement | src/app.js:378-401 | the groups, both totals and `net == incomeTotal + expenseTotal`, which equals the total of the filtered transactions |
| LedgerState.Recategorised | src/app.js:542-557 | length and ids are kept; with nothing dragged the list is unchanged; otherwise only the first transaction carrying the dragged id is refiled under the category |
| LedgerState.RecategorisedOnly | src/js/app.js:513-526 | with unique ids, only the dragged transaction changes, and only its category |
| LedgerState.Ledger.constructor | src/app.js:4-12 | the state starts with no transactions, and `draggedTransactionId` (declared at src/app.js:514 and src/js/app.js:488) starts `null` |
| LedgerState.Ledger.HandleCategoryDrop | src/app.js:542-557 | the list becomes the recategorised list |
| LedgerState.Ledger.ImportTransactions | src/app.js:589-606 | no rows change nothing. Otherwise the list is cleared if asked, and the rows are appended under ids from one past the largest id left. Ids stay unique |
| LedgerState.Ledger.AppendNumbered | src/app.js:603-606 | the loop appends the rows with consecutive ids |

## Left out

- DOM construction, rendering and event wiring are not modelled, because they are user interface. This covers the tabs, tables, dropdowns, the category tree view and the drag start/end/over/leave bookkeeping. Each handler is modelled from the point where it has its inputs.
- `FileReader`, `alert`, `confirm` and `console` calls are left out, because they are I/O. The text read from a file is a parameter.
- Clock reads (`new Date()`) become a parameter (`now`, `today`). Time of day, time zones and daylight saving are not modelled: a date is a calendar day at local midnight.
- Floating point is not modelled. Amounts, month counts and factors are exact `real`s. The week modes' month count is the day count divided by 30.4375 exactly, and IEEE rounding plays no part.
- `TxQuery.Filters`: the amount bounds are taken as what `Number(text)` gives (blank, a number or `NaN`). The conversion itself (white space, exponents, hexadecimal, `Infinity`) is not modelled.
- `Calendar`: a JavaScript `Date` is `Invalid Date` beyond 8.64e15 ms from 1970. The model's dates have no such limit, so a date past year 275760 stays valid here.
- `parseFloat` is modelled for plain decimals only: leading white space, an optional sign, digits and an optional fraction, with any trailing text ignored. Exponents and `Infinity` are not recognised, so `1e5` reads as 1 and `Infinity` as not a number.
- `toLowerCase` is modelled for ASCII letters only, and `localeCompare` is the code-unit order on strings. Name sorting treats this as a total order.
- `formatAmount`, `formatPercent` and locale formatting are left out, because they are presentation.
- `normaliseDateString` (src/app.js:740-748) relies on the engine's free-form date parser. It is a parameter of the `src/app.js` CSV mapper.
- `getFilteredTransactions` (src/app.js:458-483, src/js/app.js:441-466) compares UTC-parsed dates with local clock time. The income statement takes the already filtered list as a parameter.
- Object key order: JavaScript lists integer-like keys first. The model keeps plain insertion order for the `aggregateByCategory` map, the income statement groups and the CSV row objects. Keys such as `__proto__` are not treated specially.
- A transaction id that is `NaN` or not an integer is not modelled. Ids are integers.
- `CategoryText.Dfs`: the walk carries a fuel bound (the number of categories). A category list with a parent cycle, or with a top-level category whose id is `root`, therefore yields a finite text where JavaScript recurses without end.
- `CategoryTree.Walk`: the same fuel bound applies to the flattened dropdown tree.
- `CategoryText.RoundTrip`: it does not state that every category is reachable from a root, and it does not state that types survive. The parser re-infers types with the keyword heuristic instead of reading them back.
- `Outline.ParseCategoriesText`: the final copy loop that drops `path` and `level` is folded into the result type. `path` always equals `id`.
- `Records`: a `null` category id and an empty-string id are the same value. The code tests ids with `!id` or `||`, which treats both alike. The only difference is an exact `===` comparison with a category whose id is `""`, which no parser or editor produces.
- `LedgerState.RecategorisedOnly` needs unique transaction ids. With duplicates, only the first transaction with the dragged id changes, which `Recategorised` states.
- `Store.State.ApplyImport`: it is modelled with the stray `pgsql`/`Copy code` lines in the handler (app.js:2002-2003) removed, as evidently intended.
