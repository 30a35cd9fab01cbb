/**
 * Small worked datasets, stated for every number parser that reads the digit
 * strings they use the way Python's `float` does.
 */
module Scenarios {
  import opened Records
  import opened NumericSummary
  import opened CategoricalSummary
  import opened Classifier
  import opened KeyOrder
  import opened Grouping

  function Spend(cell: string): Record {
    [Field("spend", Some(cell))]
  }

  /** "NA" is skipped, so the mean of 10 and 20 is 15 and the population
      variance is 25 (standard deviation 5). */
  lemma SpendSummary(parse: Parser)
    requires parse("10") == Some(10.0) && parse("20") == Some(20.0)
    ensures Summarize(NumericValues([Spend("10"), Spend("NA"), Spend("20")], "spend", parse))
      == Summary(2, 15.0, 10.0, 20.0, 25.0)
    ensures KindOf([Spend("10"), Spend("NA"), Spend("20")], "spend", parse) == Numeric
  {
    var data := [Spend("10"), Spend("NA"), Spend("20")];
    assert data[..2][..1] == [Spend("10")] && data[..2] == [Spend("10"), Spend("NA")];
    assert ParsedCell(Spend("10"), "spend", parse) == Some(10.0);
    assert ParsedCell(Spend("NA"), "spend", parse) == None;
    assert ParsedCell(Spend("20"), "spend", parse) == Some(20.0);
    assert NumericValues([Spend("10")], "spend", parse) == [10.0];
    assert NumericValues(data[..2], "spend", parse) == [10.0];
    assert NumericValues(data, "spend", parse) == [10.0, 20.0];
    assert Mean([10.0, 20.0]) == 15.0;
    assert Product(-5.0, -5.0) == 25.0 && Product(5.0, 5.0) == 25.0;
    assert SumSquaredDeviations([20.0], 15.0) == 25.0;
  }

  /** A column whose first present cell does not parse is categorical, however
      many numbers follow it. */
  lemma FirstCellDecides(parse: Parser, more: seq<Record>)
    requires parse("abc") == None
    ensures KindOf([Spend("abc")] + more, "spend", parse) == Categorical
  {
    LaterRowsIrrelevant([Spend("abc")], more, "spend", parse);
  }

  /** A numeric column keeps only the cells that parse: "abc" after "7" is
      skipped by the summary. */
  lemma UnparsableCellsSkipped(parse: Parser)
    requires parse("7") == Some(7.0) && parse("abc") == None
    ensures KindOf([Spend("7"), Spend("abc")], "spend", parse) == Numeric
    ensures Summarize(NumericValues([Spend("7"), Spend("abc")], "spend", parse)) == Summary(1, 7.0, 7.0, 7.0, 0.0)
  {
    var data := [Spend("7"), Spend("abc")];
    assert data[..1] == [Spend("7")];
    assert ParsedCell(Spend("7"), "spend", parse) == Some(7.0);
    assert ParsedCell(Spend("abc"), "spend", parse) == None;
    assert NumericValues([Spend("7")], "spend", parse) == [7.0];
    assert NumericValues(data, "spend", parse) == [7.0];
    VarianceFacts([7.0]);
  }

  function Party(cell: string): Record {
    [Field("party", Some(cell))]
  }

  lemma TieValues()
    ensures CategoricalValues([Party("a"), Party("b"), Party("a"), Party("b")], "party") == ["a", "b", "a", "b"]
  {
    var data := [Party("a"), Party("b"), Party("a"), Party("b")];
    var vs := CategoricalValues(data, "party");
    assert data[..3][..2][..1] == [Party("a")];
    assert data[..3][..2] == [Party("a"), Party("b")];
    assert data[..3] == [Party("a"), Party("b"), Party("a")];
    assert CategoricalValues([Party("a")], "party") == ["a"];
    assert CategoricalValues(data[..3][..2], "party") == ["a", "b"];
    assert CategoricalValues(data[..3], "party") == ["a", "b", "a"];
  }

  /** What the categorical contract leaves possible for `a, b, a, b`. */
  lemma TieOutcome(vs: seq<string>, r: CategoricalStats)
    requires vs == ["a", "b", "a", "b"]
    requires r.uniqueValues == |set x | x in vs| && r.mostFrequent in vs
    requires r.occurrences == multiset(vs)[r.mostFrequent]
    requires forall x :: x in vs[..IndexOf(vs, r.mostFrequent)] ==> multiset(vs)[x] < r.occurrences
    ensures r == CategoricalStats(2, "a", 2)
  {
    assert multiset(vs) == multiset{"a", "a", "b", "b"};
    assert (set x | x in vs) == {"a", "b"};
  }

  /** A tie goes to the value seen first. */
  lemma TieGoesToFirstSeen()
    ensures GetCategoricalStats([Party("a"), Party("b"), Party("a"), Party("b")], "party")
      == CategoricalStats(2, "a", 2)
  {
    var data := [Party("a"), Party("b"), Party("a"), Party("b")];
    TieValues();
    CategoricalStatsFacts(data, "party");
    TieOutcome(CategoricalValues(data, "party"), GetCategoricalStats(data, "party"));
  }

  /** Missing cells are neither counted nor ranked. */
  lemma MissingCellsIgnored()
    ensures GetCategoricalStats([Party("NA"), Party(""), [Field("party", None)]], "party") == NoCategoricalData
  {
    var data := [Party("NA"), Party(""), [Field("party", None)]];
    assert data[..2][..1] == [Party("NA")] && data[..2] == [Party("NA"), Party("")];
    assert CategoricalValues([Party("NA")], "party") == [];
    assert CategoricalValues(data[..2], "party") == [];
    assert CategoricalValues(data, "party") == [];
  }

  function Ad(page: string, x: string): Record {
    [Field("page_id", Some(page)), Field("x", Some(x))]
  }

  /** Rows with an empty grouping cell are dropped before grouping, while the
      string "NA" is a key like any other: grouping only tests truthiness. */
  lemma GroupingFilter()
    ensures !KeepRow(Ad("", "5"), ["page_id"])
    ensures KeepRow(Ad("NA", "5"), ["page_id"])
    ensures IsMissing(Get(Ad("NA", "5"), "page_id"))
  {
    assert !Truthy(Get(Ad("", "5"), ["page_id"][0]));
  }

  /** Grouping by `page_id`: the groups come out in key order and each holds
      its rows in their original order. */
  lemma GroupByPage()
    ensures GroupRuns([Ad("1", "5"), Ad("2", "7"), Ad("1", "9")], ["page_id"])
      == [[Ad("1", "5"), Ad("1", "9")], [Ad("2", "7")]]
  {
    PageKept();
    PageSorted();
    PageRuns();
  }

  /** Every row of the example has a page, so the filter keeps them all. */
  lemma PageKept()
    ensures Kept([Ad("1", "5"), Ad("2", "7"), Ad("1", "9")], ["page_id"])
      == [Ad("1", "5"), Ad("2", "7"), Ad("1", "9")]
  {
    var keys := ["page_id"];
    assert KeepRow(Ad("1", "5"), keys) && KeepRow(Ad("2", "7"), keys) && KeepRow(Ad("1", "9"), keys);
    KeepThree(Ad("1", "5"), Ad("2", "7"), Ad("1", "9"), keys);
  }

  /** Three rows with truthy grouping cells all pass the filter. */
  lemma KeepThree(a: Record, b: Record, c: Record, keys: seq<string>)
    requires KeepRow(a, keys) && KeepRow(b, keys) && KeepRow(c, keys)
    ensures Kept([a, b, c], keys) == [a, b, c]
  {
    assert [a, b, c][1..] == [b, c] && [b, c][1..] == [c];
    assert Kept([c], keys) == [c];
    assert Kept([b, c], keys) == [b, c];
  }

  /** The stable sort puts page "1" first and keeps its two rows in order. */
  lemma PageSorted()
    ensures SortByKey([Ad("1", "5"), Ad("2", "7"), Ad("1", "9")], ["page_id"])
      == [Ad("1", "5"), Ad("1", "9"), Ad("2", "7")]
  {
    SortThree(Ad("1", "5"), Ad("2", "7"), Ad("1", "9"), ["page_id"]);
  }

  /** Sorting three rows whose keys are `k`, `k'` and `k` with `k < k'`. */
  lemma SortThree(a: Record, b: Record, c: Record, keys: seq<string>)
    requires KeyOf(a, keys) == KeyOf(c, keys)
    requires TupleLess(KeyOf(c, keys), KeyOf(b, keys))
    ensures SortByKey([a, b, c], keys) == [a, c, b]
  {
    TupleLessIrreflexive(KeyOf(a, keys));
    assert [a, b, c][1..] == [b, c] && [b, c][1..] == [c];
    assert SortByKey([c], keys) == [c];
    assert Insert(b, [c], keys) == [c, b];
    assert Insert(a, [c, b], keys) == [a, c, b];
  }

  lemma PageRuns()
    ensures Runs([Ad("1", "5"), Ad("1", "9"), Ad("2", "7")], ["page_id"])
      == [[Ad("1", "5"), Ad("1", "9")], [Ad("2", "7")]]
  {
    var keys := ["page_id"];
    var sorted := [Ad("1", "5"), Ad("1", "9"), Ad("2", "7")];
    assert KeyOf(Ad("1", "5"), keys) == ["1"];
    assert KeyOf(Ad("1", "9"), keys) == ["1"];
    assert KeyOf(Ad("2", "7"), keys) == ["2"];
    assert sorted[1..][1..] == [Ad("2", "7")];
    assert RunLength([Ad("2", "7")], keys, ["1"]) == 0;
    assert RunLength(sorted, keys, ["1"]) == 2;
    assert sorted[..2] == [Ad("1", "5"), Ad("1", "9")] && sorted[2..] == [Ad("2", "7")];
    assert RunLength([Ad("2", "7")], keys, ["2"]) == 1;
    assert [Ad("2", "7")][..1] == [Ad("2", "7")] && [Ad("2", "7")][1..] == [];
    assert Runs([Ad("2", "7")], keys) == [[Ad("2", "7")]];
  }

  /** Group "1" of the example: `x` is 5 and 9, mean 7, variance 4. */
  lemma PageOneStats()
    ensures Summarize([5.0, 9.0]) == Summary(2, 7.0, 5.0, 9.0, 4.0)
  {
    assert Mean([5.0, 9.0]) == 7.0;
    assert Product(-2.0, -2.0) == 4.0 && Product(2.0, 2.0) == 4.0;
    assert SumSquaredDeviations([9.0], 7.0) == 4.0;
  }

  /** Group "2" of the example: `x` is 7 alone, mean 7, variance 0. */
  lemma PageTwoStats()
    ensures Summarize([7.0]) == Summary(1, 7.0, 7.0, 7.0, 0.0)
  {
    VarianceFacts([7.0]);
  }

  /** The cells and headers of a row of the example. */
  lemma AdCells(page: string, x: string)
    ensures Get(Ad(page, x), "page_id") == Some(page)
    ensures Get(Ad(page, x), "x") == Some(x)
    ensures Headers(Ad(page, x)) == ["page_id", "x"]
  {
    assert Ad(page, x)[1..] == [Field("x", Some(x))];
  }

  /** The `x` block of a group whose first `x` cell is `first` and parses. */
  lemma NumericXBlock(group: seq<Record>, first: string, parse: Parser, stats: NumericStats)
    requires group != [] && Get(group[0], "x") == Some(first) && !IsMissing(Some(first))
    requires parse(first).Some?
    requires Summarize(NumericValues(group, "x", parse)) == stats
    ensures ColumnReportOf(group, "x", parse) == NumericColumn("x", stats)
  {
    assert FirstPresent(group, "x") == Some(first);
  }

  /** The blocks of a group of the example, page then `x`. */
  lemma AdReport(group: seq<Record>, page: string, x: string, parse: Parser, stats: NumericStats)
    requires group != [] && group[0] == Ad(page, x) && !IsMissing(Some(x)) && parse(x).Some?
    requires Summarize(NumericValues(group, "x", parse)) == stats
    ensures var report := DataframeReport(group, parse);
      report.Some? && |report.value| == 2 && report.value[1] == NumericColumn("x", stats)
  {
    assert Headers(group[0]) == ["page_id", "x"];
    NumericXBlock(group, x, parse, stats);
  }

  /** Three rows keyed `k`, `k'`, `k` with `k != k'`, sorted as `a, c, b`,
      form two runs. */
  lemma TwoRuns(a: Record, c: Record, b: Record, keys: seq<string>)
    requires KeyOf(a, keys) == KeyOf(c, keys) && KeyOf(b, keys) != KeyOf(a, keys)
    ensures Runs([a, c, b], keys) == [[a, c], [b]]
  {
    var s := [a, c, b];
    RunLengthExact(s, keys, KeyOf(a, keys), 2);
    assert s[..2] == [a, c] && s[2..] == [b];
    OneRun(b, keys);
    assert Runs(s, keys) == [[a, c]] + Runs([b], keys);
  }

  /** A single row is a single run. */
  lemma OneRun(b: Record, keys: seq<string>)
    ensures Runs([b], keys) == [[b]]
  {
    RunLengthExact([b], keys, KeyOf(b, keys), 1);
    assert [b][..1] == [b] && [b][1..] == [];
    assert Runs([b], keys) == [[b]] + Runs([], keys);
  }

  /** A dataset whose rows fall into two runs is reported as two groups. */
  lemma TwoGroups(data: seq<Record>, keys: seq<string>, parse: Parser, g0: seq<Record>, g1: seq<Record>)
    requires data != [] && HasColumns(data, keys) && GroupRuns(data, keys) == [g0, g1]
    ensures var r := GroupedAnalysis(data, keys, parse);
      && r.Groups? && |r.groups| == 2
      && g0 != [] && r.groups[0] == GroupReport(KeyOf(g0[0], keys), g0, DataframeReport(g0, parse))
      && g1 != [] && r.groups[1] == GroupReport(KeyOf(g1[0], keys), g1, DataframeReport(g1, parse))
  {
    GroupedAnalysisOutcome(data, keys, parse);
    assert !(exists i :: 0 <= i < |keys| && keys[i] !in Headers(data[0]));
  }

  /** The runs of the example: the rows of page `p1`, then the row of `p2`. */
  lemma ExampleRuns(a: Record, b: Record, c: Record, keys: seq<string>)
    requires KeepRow(a, keys) && KeepRow(b, keys) && KeepRow(c, keys)
    requires KeyOf(a, keys) == KeyOf(c, keys) && TupleLess(KeyOf(c, keys), KeyOf(b, keys))
    ensures GroupRuns([a, b, c], keys) == [[a, c], [b]]
  {
    TupleLessIrreflexive(KeyOf(a, keys));
    KeepThree(a, b, c, keys);
    SortThree(a, b, c, keys);
    TwoRuns(a, c, b, keys);
  }

  /** The `x` values of the two groups of the example. */
  lemma ExampleValues(a: Record, b: Record, c: Record, parse: Parser)
    requires ParsedCell(a, "x", parse) == Some(5.0)
    requires ParsedCell(b, "x", parse) == Some(7.0)
    requires ParsedCell(c, "x", parse) == Some(9.0)
    ensures NumericValues([a, c], "x", parse) == [5.0, 9.0]
    ensures NumericValues([b], "x", parse) == [7.0]
  {
    assert [a, c][..1] == [a];
    assert NumericValues([a], "x", parse) == [5.0];
  }

  /** Data whose first record has the example's headers can be grouped by page. */
  lemma PageIsHeader(data: seq<Record>)
    requires data != [] && Headers(data[0]) == ["page_id", "x"]
    ensures HasColumns(data, ["page_id"])
  {
    assert ["page_id"][0] == Headers(data[0])[0];
  }

  /** The example can be grouped by page, and its runs are the rows of page
      `p1`, then the row of `p2`. */
  lemma ExampleGroupRuns(p1: string, p2: string, x1: string, x2: string, x3: string)
    requires p1 != "" && p2 != "" && StrLess(p1, p2)
    ensures HasColumns([Ad(p1, x1), Ad(p2, x2), Ad(p1, x3)], ["page_id"])
    ensures GroupRuns([Ad(p1, x1), Ad(p2, x2), Ad(p1, x3)], ["page_id"])
      == [[Ad(p1, x1), Ad(p1, x3)], [Ad(p2, x2)]]
  {
    AdKey(p1, x1);
    AdKey(p2, x2);
    AdKey(p1, x3);
    assert TupleLess([p1], [p2]);
    ExampleRuns(Ad(p1, x1), Ad(p2, x2), Ad(p1, x3), ["page_id"]);
    PageIsHeader([Ad(p1, x1), Ad(p2, x2), Ad(p1, x3)]);
  }

  /** The grouping key of a row of the example is its page, and the row is
      kept when the page is not empty. */
  lemma AdKey(page: string, x: string)
    ensures KeyOf(Ad(page, x), ["page_id"]) == [page]
    ensures page != "" ==> KeepRow(Ad(page, x), ["page_id"])
    ensures Headers(Ad(page, x)) == ["page_id", "x"]
  {
    AdCells(page, x);
  }

  /** The reports of the two groups of the example. */
  lemma ExampleReports(p1: string, p2: string, x1: string, x2: string, x3: string, parse: Parser)
    requires !IsMissing(Some(x1)) && !IsMissing(Some(x2)) && !IsMissing(Some(x3))
    requires parse(x1) == Some(5.0) && parse(x2) == Some(7.0) && parse(x3) == Some(9.0)
    ensures var report := DataframeReport([Ad(p1, x1), Ad(p1, x3)], parse);
      report.Some? && |report.value| == 2 && report.value[1] == NumericColumn("x", Summary(2, 7.0, 5.0, 9.0, 4.0))
    ensures var report := DataframeReport([Ad(p2, x2)], parse);
      report.Some? && |report.value| == 2 && report.value[1] == NumericColumn("x", Summary(1, 7.0, 7.0, 7.0, 0.0))
  {
    var a, b, c := Ad(p1, x1), Ad(p2, x2), Ad(p1, x3);
    AdCells(p1, x1);
    AdCells(p2, x2);
    AdCells(p1, x3);
    assert ParsedCell(a, "x", parse) == Some(5.0);
    assert ParsedCell(b, "x", parse) == Some(7.0);
    assert ParsedCell(c, "x", parse) == Some(9.0);
    ExampleValues(a, b, c, parse);
    PageOneStats();
    PageTwoStats();
    AdReport([a, c], p1, x1, parse, Summary(2, 7.0, 5.0, 9.0, 4.0));
    AdReport([b], p2, x2, parse, Summary(1, 7.0, 7.0, 7.0, 0.0));
  }

  /** The grouped analysis of the example, for any two page ids `p1 < p2`
      and any `x` cells that parse to 5, 7 and 9 (such as the rows
      `1,5`, `2,7`, `1,9`): group `p1` holds the first and third rows and
      reports `x` with mean 7 and variance 4; group `p2` holds the second row
      and reports `x` with mean 7 and variance 0. */
  lemma PageGroupsReport(p1: string, p2: string, x1: string, x2: string, x3: string, parse: Parser)
    requires p1 != "" && p2 != "" && StrLess(p1, p2)
    requires !IsMissing(Some(x1)) && !IsMissing(Some(x2)) && !IsMissing(Some(x3))
    requires parse(x1) == Some(5.0) && parse(x2) == Some(7.0) && parse(x3) == Some(9.0)
    ensures var r := GroupedAnalysis([Ad(p1, x1), Ad(p2, x2), Ad(p1, x3)], ["page_id"], parse);
      && r.Groups? && |r.groups| == 2
      && r.groups[0].key == [p1] && r.groups[0].rows == [Ad(p1, x1), Ad(p1, x3)]
      && r.groups[1].key == [p2] && r.groups[1].rows == [Ad(p2, x2)]
      && r.groups[0].report.Some? && |r.groups[0].report.value| == 2
      && r.groups[0].report.value[1] == NumericColumn("x", Summary(2, 7.0, 5.0, 9.0, 4.0))
      && r.groups[1].report.Some? && |r.groups[1].report.value| == 2
      && r.groups[1].report.value[1] == NumericColumn("x", Summary(1, 7.0, 7.0, 7.0, 0.0))
  {
    ExampleGroupRuns(p1, p2, x1, x2, x3);
    ExampleReports(p1, p2, x1, x2, x3, parse);
    AdKey(p1, x1);
    AdKey(p2, x2);
    TwoGroups([Ad(p1, x1), Ad(p2, x2), Ad(p1, x3)], ["page_id"], parse, [Ad(p1, x1), Ad(p1, x3)], [Ad(p2, x2)]);
  }

  /** A grouping column missing from the header row skips the grouped analysis. */
  lemma MissingGroupingColumn(parse: Parser)
    ensures GroupedAnalysis([Spend("1"), Ad("p1", "2")], ["page_id"], parse) == ColumnsNotFound
  {
    assert Headers(Spend("1")) == ["spend"];
    assert ["page_id"][0] !in Headers(Spend("1"));
    assert !HasColumns([Spend("1"), Ad("p1", "2")], ["page_id"]);
  }

  /** An empty first record means there is nothing to analyse, whatever follows. */
  lemma EmptyHeaderRow(parse: Parser)
    ensures DataframeReport([[], Spend("1")], parse) == None
  {
  }
}
