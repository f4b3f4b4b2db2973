# Insurance policy workbook: chart filter and consolidated summary

A verified model of the table logic of `app.py`, a Streamlit page that shows an
insurance workbook with one sheet per policy. Each sheet row is one calendar year
(`西元年`), with the insured's age (`年齡`) and some money items (premium, cash
value, benefits, ...). The page computes two things from the sheets.

* **The chart data.** All sheets are stacked into one long table, and every row is
  tagged with its policy (`Policy`). The page keeps the rows whose year lies in the
  chosen window and whose policy is selected. It then removes every policy whose
  total of the chosen item over those rows is exactly zero.
* **The consolidated summary.** For the selected policies, the page builds one row
  per distinct year, in ascending order. It builds one column per item name, in the
  order the names are first met. Each cell is the sum over the policies of that
  year's value. A missing row or an empty cell adds nothing. Columns that are zero
  in every row are dropped.

Modules:

* `Seqs` (`seqs.dfy`): generic sequence facts. These are duplicate-freedom, strict
  order, and order-preserving subsequences. They include the first-seen scan
  `FirstSeen` behind `unique_items` and the column union of `pd.concat`.
* `Tables` (`tables.dfy`): the data model. A sheet is a `Table` of `Row`s, each a
  year plus a map from item name to integer value. A name absent from the map is an
  empty cell and reads as 0. The module also holds the metadata column names, the
  item candidates offered to the chart, and the long table of app.py:16-21.
* `Chart` (`chart.dfy`): the chart filter, as functions with lemmas.
* `Summary` (`summary.dfy`): the summary builder, as methods with loops proved
  against specification functions (`UniqueItems`, `YearsOf`, `Cell`,
  `NonZeroItems`, and `IsSummary`, which combines them). The summary is stored by
  column: `columns[j][k]` is the total of `items[j]` in year `years[k]`. The flag
  `yearShown` says whether the year column survives the all-zero drop of app.py:87.
  That drop also applies to the year column.
* `Scenario` (`scenario.dfy`): a two-policy workbook worked through both outputs.

Inputs that come from the page's widgets are plain parameters here: the year
window, the selected policies and the chosen item. The selected policies are
de-duplicated in selection order, like the dictionary comprehension at app.py:58.

The chart drops a policy when its in-window total of the item is zero. This
includes a policy whose values cancel out, such as +100 and -100. The comment at
app.py:43 speaks of "all zero values", but the code at app.py:44-46 tests the
group sum, and the model follows the code (`Scenario.ChartCancelExample`).

A row's value map may in principle name an item that is not a column of its sheet.
The loader never produces such a sheet. The predicate `Tables.WellFormed` states
what the loader produces: every cell sits in one of its sheet's columns. On such
sheets the summary and the chart read the same values
(`Summary.ContributionWellFormed`). Without it, the summary ignores a cell outside
the sheet's columns, while the chart's group sum counts it. The entry points do
not require well-formedness.

## Model

| member | source | states |
|---|---|---|
| Tables.ItemCandidates | app.py:38 | the offered items are exactly the columns outside the excluded list of app.py:24, in column order |
| Tables.CombinedCandidates | app.py:19-24 | an item is offered exactly when it is not a metadata column and some sheet has it |
| Tables.Combine | app.py:19-21 | the long table's columns are each listed once and are exactly the year copy, the policy tag and every sheet's columns; its rows are exactly the sheets' rows tagged with their sheet's name |
| Tables.LongRowsOfPolicy | app.py:16-19 | the long-table rows of a policy are exactly that sheet's rows, in order, tagged with its name; an unknown policy has none |
| Chart.SelectRows | app.py:41 | the kept rows are rows inside the year window with a selected policy, every such row is kept, and table order is preserved; the result is empty exactly when no row qualifies |
| Chart.SelectRowsCount | app.py:41 | a row that passes the mask is kept as often as it occurs; any other row not at all |
| Chart.PolicyTotal | app.py:44 | a policy with no row has total 0 |
| Chart.PolicyTotalOfPolicy | app.py:44 | a policy's total depends only on that policy's own rows |
| Chart.PolicyTotalAppend | app.py:44 | group totals add up over any split of the rows |
| Chart.MaskedTotal | app.py:44 | a policy's group-by sum over the masked rows is its total over its in-window rows when it is selected, else 0 |
| Chart.KeepContributing | app.py:45-46 | a row is kept exactly when its policy has a non-zero total, and order is preserved |
| Chart.KeepContributingCount | app.py:45-46 | a row of a contributing policy is kept as often as it occurs; any other row not at all |
| Chart.KeepContributingOfPolicy | app.py:45-46 | a policy's rows are kept all together or not at all, depending on its total |
| Chart.ChartRows | app.py:41-46 | the chart fails exactly when the item is not an offered column, and then with UnknownItem |
| Chart.ChartRowsSelected | app.py:41-46 | every chart row is a long-table row inside the window with a selected policy, and the chart is an order-preserving subsequence of the long table |
| Chart.ChartZeroSuppression | app.py:44-46 | a policy's chart rows are all of its selected rows when it is selected with a non-zero in-window total, and none otherwise |
| Chart.ChartRowsContribute | app.py:44-46 | no chart row belongs to a policy whose in-window total is zero |
| Chart.ChartRowsCount | app.py:41-46 | the chart holds every occurrence of an in-window row of a selected policy with a non-zero in-window total, and no other row |
| Chart.ChartEmpty | app.py:41-46 | with a valid item, an empty selection, an empty window or a window with no matching row gives an empty chart, not an error |
| Seqs.FirstSeen | app.py:60-64 | the scan collects every element not skipped, each once, and nothing else |
| Seqs.FirstSeenOrder | app.py:60-64 | the scan lists its elements in the order of their first occurrence |
| Summary.SelectSheets | app.py:58 | every selected policy's sheet is included, and only sheets of selected policies |
| Summary.SelectSheetsSpec | app.py:58 | the selection holds one sheet per distinct selected name, in the order in which the names were first selected |
| Summary.AddNewColumns | app.py:62-64 | scanning one more sheet's columns extends the collected names as the first-seen scan of all columns met so far |
| Summary.CollectItems | app.py:60-64 | the nested loop yields exactly the first-seen scan of the selected sheets' columns, skipping the metadata names |
| Summary.UniqueItemsSpec | app.py:60-64 | the item names have no duplicate and no metadata name, include every other column of every selected sheet, and follow first occurrence |
| Summary.CollectYears | app.py:67 | the distinct-year list has no duplicate and holds exactly the years of the selected sheets |
| Summary.SortYears | app.py:68 | the sorted years are strictly ascending with the same members |
| Summary.SummaryYears | app.py:67-69 | the year column is strictly ascending, holds exactly the years occurring in some selected sheet, and has one row per distinct year |
| Summary.SumColumn | app.py:76-81 | after the policy loop, each cell of the item's column equals the specified cell total for its year |
| Summary.SumColumns | app.py:72-81 | zero-filling and then accumulating every item gives each item's column of cell totals over the sorted years |
| Summary.CellAppend | app.py:76-80 | cell totals add up over any split of the selected sheets |
| Summary.ContributionSpec | app.py:78-80 | a sheet adds its row's value for that year (an empty cell as 0), and nothing when it lacks the column or the year |
| Summary.ContributionWellFormed | app.py:78-80 | on a sheet whose cells all lie in its columns, a sheet adds exactly its row's value for the year, the same value the chart's group sum reads |
| Summary.NonZeroItems | app.py:87 | the kept items are exactly the given items that are non-zero in some year, in their order |
| Summary.ZeroColumnTest | app.py:87 | a computed column has a non-zero cell exactly when its item is not zero in every year |
| Summary.DropZeroColumns | app.py:87 | the loop keeps exactly the items that are not all-zero, each with its own column of totals |
| Summary.SummaryZeroSuppression | app.py:87 | every kept column has a non-zero cell, every dropped item is zero in every year, and the kept items keep their order |
| Summary.SummaryNoRows | app.py:67-87 | without any year row nothing is left, not even the year column |
| Summary.BuildSummary | app.py:58-87 | an empty selection fails with NoPolicies; otherwise the result is the specified consolidated table of the selected sheets |
| Summary.SummaryUnique | app.py:58-87 | the specification fixes the consolidated table: two tables meeting it are equal |
| Scenario.ChartExample | app.py:41-46 | charting Premium for both example policies over 2024-2025 keeps all three rows |
| Scenario.ChartCancelExample | app.py:44-46 | a policy whose in-window values are +100 and -100 is dropped from the chart |
| Scenario.SummaryExample | app.py:58-87 | the example's consolidated table has years 2024 and 2025, Premium 100 and 300, and CashValue 0 and 50 |

## Left out

- The page itself is not modelled: title, sidebar and widgets (app.py:27-38), and the table and chart display (app.py:54, 90-91). The selections are parameters.
- The default year window from today's date (app.py:6, 36) and the slider bounds from the smallest and largest year (app.py:33-34) are widget settings only. The window is a parameter.
- Reading the workbook and keeping columns from the fifth on (app.py:10-13) is not modelled. The loader's output, a map from sheet name to `Table`, is the input.
- The plotting call (app.py:49-51) is a foreign library with no logic of its own.
- Values are integers. Floating point is out of scope, and NaN is an absent map entry, which it stands for in `fillna(0)` and in the group-by sum.
- The merge and column-suffix mechanics of app.py:79-81 become a lookup of the sheet's row for the year, or 0.
- Summary.BuildSummary: requires that no sheet has two rows with the same year. With such rows, the left merge at app.py:79 would multiply rows.
- Summary.BuildSummary: requires every selected policy to be a sheet. The page offers only sheet names.
- Summary.BuildSummary: an empty selection returns `Err(NoPolicies)`, because `pd.concat` of no year column raises at app.py:67. It is not an empty table.
- Chart.ChartRows: refuses any item that is not an offered candidate with `Err(UnknownItem)`. At app.py:44 only a missing column raises; the excluded metadata columns cannot be chosen on the page.
- The rename of the year column to `Year` (app.py:84) is not modelled. The summary keeps its years in `years`.
