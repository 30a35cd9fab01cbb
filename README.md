# Pure-Python statistics engine, modelled in Dafny

This project models the hand-written statistics engine of `pure_python_stats.py`.
The engine works on a list of CSV records (dictionaries from column name to raw
cell) and has four parts:

- **Numeric summariser** (`get_numeric_stats`). It collects the cells of a
  column that are not missing (absent, `""` or `"NA"`) and that parse as
  numbers, skipping those that do not parse. It reports count, mean, minimum,
  maximum and the population standard deviation, or a sentinel when nothing
  was collected.
- **Categorical summariser** (`get_categorical_stats`). It counts the present
  cells with a `Counter` and reports the number of distinct values and the
  most frequent value with its count. Ties go to the value seen first. With no
  values it reports the sentinel `(0, ('N/A', 0))`.
- **Column classifier** (`analyze_dataframe`). For every header of the first
  record, the first cell that is not missing decides the column's type:
  numeric if it parses, categorical otherwise. A column without such a cell is
  categorical. The matching summariser then runs on the column.
- **Grouping engine** (`analyze_grouped`). It checks that the grouping columns
  are headers of the first record. It drops rows whose grouping cells are not
  all truthy, sorts the rest stably by their key tuple, cuts the sorted rows
  into runs of equal keys (`itertools.groupby`) and analyses each run as a
  dataset of its own.

Modules, one file each:

- `Records` (`records.dfy`): records as ordered field lists, `row.get`, the
  missing-value rule and Python truthiness.
- `NumericSummary` (`numeric.dfy`): the numeric summariser.
- `CategoricalSummary` (`categorical.dfy`): the categorical summariser and a
  model of `Counter` as an insertion-ordered entry list.
- `Classifier` (`classifier.dfy`): the classifier and the per-column report of
  `analyze_dataframe`.
- `KeyOrder` (`keyorder.dfy`): Python's ordering of strings and of tuples of
  strings, proved a strict total order.
- `Grouping` (`grouping.dfy`): the filter, the stable sort, the run partition
  and the `groupby` loop.
- `Scenarios` (`scenarios.dfy`): small worked datasets.

Modelling choices:

- A record is a sequence of `Field(name, value)` items in dictionary insertion
  order, so the headers of a dataset are the field names of its first record.
  An absent cell (a short CSV line) is `None`.
- Python's `float()` is a parameter `parse: string -> Option<real>`. Every
  property holds for every parser. The scenarios state only what they need of
  it, for example `parse("10") == Some(10.0)`.
- Arithmetic is over `real`. The model states the variance; the reported
  standard deviation is its square root.
- Printed output is modelled as values: a `ColumnReport` per column, an
  `Option` of the report list for `analyze_dataframe` (`None` for the
  "No data or headers" message), and a `Grouped` result for `analyze_grouped`.
- The loops of the source are methods with `while` loops, each proved equal to
  a recursive specification function:
  - the value-collecting loop of `get_numeric_stats` is `CollectNumeric`;
  - the early-exit loop of the classifier is `ClassifyColumn`;
  - the header loop of `analyze_dataframe` is `AnalyzeDataframe`;
  - the `groupby` loop is `GroupbyLoop`, with `RunEnd` for the scan to the end
    of a run.
- `sorted` is modelled as a stable insertion sort, `SortByKey`. A stable sort
  by a total order has only one possible output, so this gives the same list
  as Python's sort. A one-column key is a plain string in Python and a
  one-element tuple here; both order the same way.

## Model

| member | source | states |
|---|---|---|
| Records.GetFindsFirstField | pure_python_stats.py:23 | `row.get(column)` is `None` for a column that is not a header. For a header it is the value of the first field with that name. |
| NumericSummary.CollectNumeric | pure_python_stats.py:21-28 | The collecting loop yields exactly the specification sequence `NumericValues`: parsed values of present cells, in row order, with unparsable cells skipped. |
| NumericSummary.NumericValuesAreParsedCells | pure_python_stats.py:22-28 | A number is collected iff some row has a cell that is not missing and parses to it. It is collected once per such row; missing cells never contribute. |
| NumericSummary.NumericValuesCount | pure_python_stats.py:22-28 | Each number occurs among the collected values exactly as often as there are rows whose present cell parses to it. |
| NumericSummary.NumericCountIsParsedRows | pure_python_stats.py:22-33 | The count equals the number of rows whose cell is present and parses; cells that fail to parse are not counted. |
| NumericSummary.MinMaxAreExtrema | pure_python_stats.py:35-36 | `min` and `max` are collected values and bound every collected value. |
| NumericSummary.MeanBetweenMinAndMax | pure_python_stats.py:33-36 | The mean lies between the minimum and the maximum. |
| NumericSummary.VarianceFacts | pure_python_stats.py:37 | The population variance is non-negative, and zero exactly when all values are equal. |
| NumericSummary.Summarize | pure_python_stats.py:30-38 | The sentinel is returned exactly when nothing was collected. Otherwise count is the number of values, min <= mean <= max, and the variance is non-negative. |
| NumericSummary.SummarizeBounds | pure_python_stats.py:35-36 | The reported min and max are collected values, and every collected value lies between them. |
| NumericSummary.GetNumericStats | pure_python_stats.py:20-40 | The summariser returns the summary of the collected values; the sentinel exactly when no row's cell is present and parses; otherwise the count is the number of such rows. |
| CategoricalSummary.CategoricalValuesAreCells | pure_python_stats.py:44 | A value is collected iff some row holds it as a cell that is not missing, and then once per such row; `""` and `"NA"` are never collected. |
| CategoricalSummary.CategoricalValuesCount | pure_python_stats.py:44 | A value that is not missing occurs among the collected values exactly as often as rows hold it; a missing value never occurs. |
| CategoricalSummary.CounterCounts | pure_python_stats.py:48 | `Counter` holds one entry per distinct value with its number of occurrences, in order of first occurrence. |
| CategoricalSummary.CounterSize | pure_python_stats.py:48-49 | The number of counter entries is the number of distinct collected values. |
| CategoricalSummary.MostCommonIndex | pure_python_stats.py:50 | `most_common(1)` picks an entry whose count is at least every other entry's, and every entry before it has a strictly smaller count. |
| CategoricalSummary.FirstSeenWinsTies | pure_python_stats.py:50 | Every value first seen before the chosen one occurs strictly less often than it. |
| CategoricalSummary.GetCategoricalStats | pure_python_stats.py:42-52 | The sentinel is returned exactly for a column without present cells. Otherwise the most frequent value is a collected value, reported with its exact number of occurrences. |
| CategoricalSummary.CategoricalStatsFacts | pure_python_stats.py:48-50 | For a column with present cells, the unique count is the number of distinct present values. The reported count is at least every other value's, and every value seen before the reported one occurs strictly less often. |
| Classifier.FirstPresentAt | pure_python_stats.py:63-65 | The first row whose cell is not missing supplies the cell the classifier looks at. |
| Classifier.FirstPresentNone | pure_python_stats.py:63-65 | The classifier finds no cell iff every cell of the column is missing. |
| Classifier.FirstPresentFound | pure_python_stats.py:63-65 | A found cell comes from a row before which every cell of the column is missing. |
| Classifier.KindOfNumeric | pure_python_stats.py:62-72 | A column is numeric iff its first cell that is not missing parses. |
| Classifier.NoValueIsCategorical | pure_python_stats.py:62-72 | A column whose cells are all missing is categorical. |
| Classifier.LaterRowsIrrelevant | pure_python_stats.py:66-72 | Once a present cell is found, rows after it never change the type, whatever they hold. |
| Classifier.NumericColumnHasData | pure_python_stats.py:75-76 | A numeric column has at least one collected number, so its summary is never the sentinel. |
| Classifier.ClassifyColumn | pure_python_stats.py:62-72 | The flag-and-break loop computes the specification `KindOf`. |
| Classifier.AnalyzeColumn | pure_python_stats.py:74-80 | One column's block is the numeric summary for a numeric column and the categorical summary otherwise. |
| Classifier.DataframeReportShape | pure_python_stats.py:54-61 | There is no report exactly for no rows or an empty first record. Otherwise there is one block per header, in header order. A block is numeric iff its column is, and numeric blocks have count >= 1. |
| Classifier.AnalyzeDataframe | pure_python_stats.py:54-80 | The guard and the header loop compute the specification `DataframeReport`. |
| KeyOrder.StrLessIrreflexive | pure_python_stats.py:93 | No string sorts before itself. |
| KeyOrder.StrLessTransitive | pure_python_stats.py:93 | String order is transitive. |
| KeyOrder.StrLessTotal | pure_python_stats.py:93 | Of two different strings one sorts before the other. |
| KeyOrder.TupleLessIrreflexive | pure_python_stats.py:93 | No key tuple sorts before itself. |
| KeyOrder.TupleLessTransitive | pure_python_stats.py:93 | Key tuple order is transitive. |
| KeyOrder.TupleLessTotal | pure_python_stats.py:93 | Of two different key tuples one sorts before the other. |
| Grouping.KeyOfKeptRow | pure_python_stats.py:93 | The key of a kept row holds its grouping cells, none of them empty. |
| Grouping.KeptRows | pure_python_stats.py:93 | A row is kept iff it is a row of the data whose grouping cells are all present and non-empty. A kept row occurs as often as in the data, any other row not at all, so the kept rows are a sub-multiset of the data. |
| Grouping.InsertPermutes | pure_python_stats.py:93 | Inserting a row adds exactly that row. |
| Grouping.InsertSorted | pure_python_stats.py:93 | Inserting into sorted rows keeps them sorted. |
| Grouping.WithKeyInsert | pure_python_stats.py:93 | Insertion puts the row ahead of the rows with its key and moves no other row of any key. |
| Grouping.SortByKey | pure_python_stats.py:93 | The sort returns a permutation of its input. |
| Grouping.SortByKeySorts | pure_python_stats.py:93 | The sort returns its rows ordered by key. |
| Grouping.SortByKeyStable | pure_python_stats.py:93 | The sort is stable: for every key, the rows with that key keep their relative order. |
| Grouping.RunLengthMaximal | pure_python_stats.py:95 | A run is the longest prefix of rows sharing the first row's key. |
| Grouping.RunLengthExact | pure_python_stats.py:95 | Any prefix of rows with the key followed by a different key is the run. |
| Grouping.Runs | pure_python_stats.py:95 | Concatenating the runs gives back the sorted rows. |
| Grouping.RunsUniform | pure_python_stats.py:95 | Every run is non-empty and all of its rows share its key. |
| Grouping.RunKeysAscend | pure_python_stats.py:93-95 | On sorted rows, the runs' keys strictly increase. |
| Grouping.RunsAreKeyClasses | pure_python_stats.py:93-95 | On sorted rows, each run holds every row with its key, in order. |
| Grouping.GroupsPartitionKeptRows | pure_python_stats.py:93-96 | Group keys strictly increase. Each group is non-empty and is exactly the kept rows with its key, in their original order. The groups together are a permutation of the kept rows and a sub-multiset of the data. |
| Grouping.KeptRowInOneGroup | pure_python_stats.py:93-96 | Every kept row lies in a group of its own key, and any group holding it has its key. |
| Grouping.RowInAtMostOneGroup | pure_python_stats.py:93-96 | No row lies in two different groups. |
| Grouping.GroupRowsShareKey | pure_python_stats.py:93-96 | Every row of a group has the group's key, and neighbouring groups have different keys. |
| Grouping.GroupReportsAt | pure_python_stats.py:95-98 | There is one group report per run, in run order, each the analysis of that run. |
| Grouping.GroupedAnalysisOutcome | pure_python_stats.py:82-98 | An empty dataset returns at once. The analysis is skipped exactly when a grouping column is not a header of the first record. Otherwise every run is reported in order with its key, its rows and their `analyze_dataframe` report. |
| Grouping.RunEnd | pure_python_stats.py:95 | The inner scan stops exactly at the end of the current run. |
| Grouping.AnalyzeRun | pure_python_stats.py:96-98 | A run is reported with its first row's key, its rows and the analysis of those rows. |
| Grouping.GroupbyLoop | pure_python_stats.py:95-98 | The `groupby` loop yields one report per run of the sorted rows, in order. |
| Grouping.AnalyzeGrouped | pure_python_stats.py:82-98 | The early returns, the filter, the sort and the `groupby` loop compute the specification `GroupedAnalysis`. |
| Scenarios.SpendSummary | pure_python_stats.py:24-37 | `10, NA, 20` is numeric with count 2, mean 15, min 10, max 20, variance 25. |
| Scenarios.FirstCellDecides | pure_python_stats.py:62-72 | A column whose first present cell is `"abc"` is categorical, whatever follows. |
| Scenarios.UnparsableCellsSkipped | pure_python_stats.py:25-28 | `7, abc` is numeric and summarised over the value 7 only. |
| Scenarios.TieGoesToFirstSeen | pure_python_stats.py:48-50 | `a, b, a, b` gives 2 unique values with most frequent `a`, seen 2 times. |
| Scenarios.MissingCellsIgnored | pure_python_stats.py:44-46 | A column of `NA`, `""` and an absent cell gives the categorical sentinel. |
| Scenarios.GroupingFilter | pure_python_stats.py:93 | A row with an empty grouping cell is dropped, while `"NA"` is kept as a key although the summarisers treat it as missing. |
| Scenarios.GroupByPage | pure_python_stats.py:93-95 | Grouping three rows by `page_id` gives the group `1` (two rows, in their original order) before the group `2`. |
| Scenarios.PageOneStats | pure_python_stats.py:33-37 | Group `1`'s column `x` (5 and 9) has mean 7 and variance 4. |
| Scenarios.PageTwoStats | pure_python_stats.py:33-37 | Group `2`'s column `x` (7 alone) has mean 7 and variance 0. |
| Scenarios.PageGroupsReport | pure_python_stats.py:82-98 | For page ids `p1 < p2` and `x` cells parsing to 5, 7 and 9, the grouped analysis gives group `p1` (first and third rows, `x` with mean 7 and variance 4) before group `p2` (second row, `x` with mean 7 and variance 0). |
| Scenarios.EmptyHeaderRow | pure_python_stats.py:56-58 | A dataset whose first record is empty has no report, whatever rows follow. |
| Scenarios.MissingGroupingColumn | pure_python_stats.py:86-89 | A grouping column missing from the first record's headers skips the grouped analysis. |

## Left out

- `load_csv_from_local` and the `__main__` driver: file I/O, exception handling and fixed file paths.
- All printed output, and the `:.2f` rounding of the mean and standard deviation: the report values are modelled, not their text.
- `math.sqrt`: the model states the variance; the printed standard deviation is its square root.
- IEEE floating point: the model computes over exact reals, so rounding, overflow, `inf` and `nan` are not modelled.
- Python's `float()` grammar (whitespace, exponents, `"inf"`, `"nan"`): the parser is a parameter, and every property holds for any parser.
- The `TypeError` branches: a cell is modelled as a string or absent. DictReader's list of surplus cells under the `None` key therefore does not arise.
- Duplicate column names: a record may repeat a name in this model, and `Get` returns the first field's value. Python dictionaries cannot repeat a key.
- Grouping with an empty list of columns: in Python, `itemgetter()` with no arguments raises `TypeError` once the headers check has passed. `Grouping.AnalyzeGrouped` therefore requires at least one grouping column for a non-empty dataset.
- Grouping.GroupedAnalysis: for an empty list of grouping columns, this total specification function returns one group of all rows, where the program raises an exception.
- pandas_stats.py, polars_stats.py and bonus_visulaization.py: wrappers over library calls and plotting, with no logic of their own.
