/**
 * The per-column pass of `analyze_dataframe`: every header of the first record
 * is classified by its first cell that is not missing (numeric when that cell
 * parses as a number, categorical otherwise, and categorical when the column
 * has no such cell), and then summarised by the matching summariser.  The
 * printed block of each column is modelled as a `ColumnReport` value.
 */
module Classifier {
  import opened Records
  import opened NumericSummary
  import opened CategoricalSummary

  datatype ColumnKind = Numeric | Categorical

  /** The first cell of the column that is not missing, scanning rows in order. */
  function FirstPresent(data: seq<Record>, column: string): Option<string> {
    if data == [] then None
    else if !IsMissing(Get(data[0], column)) then Get(data[0], column)
    else FirstPresent(data[1..], column)
  }

  /** The first row whose cell is not missing decides what `FirstPresent` finds. */
  lemma {:induction false} FirstPresentAt(data: seq<Record>, column: string, i: nat)
    requires i < |data| && !IsMissing(Get(data[i], column))
    requires forall j :: 0 <= j < i ==> IsMissing(Get(data[j], column))
    ensures FirstPresent(data, column) == Get(data[i], column)
  {
    if i > 0 {
      assert IsMissing(Get(data[0], column));
      var rest := data[1..];
      assert forall j :: 0 <= j < i - 1 ==> rest[j] == data[j + 1];
      FirstPresentAt(rest, column, i - 1);
    }
  }

  /** `FirstPresent` finds nothing exactly when every cell of the column is missing. */
  lemma {:induction false} FirstPresentNone(data: seq<Record>, column: string)
    ensures FirstPresent(data, column) == None <==> forall i :: 0 <= i < |data| ==> IsMissing(Get(data[i], column))
  {
    if data != [] {
      var rest := data[1..];
      FirstPresentNone(rest, column);
      assert forall i :: 1 <= i < |data| ==> data[i] == rest[i - 1];
    }
  }

  /** The first present cell, when there is one, comes from a row before which
      every cell of the column is missing. */
  lemma {:induction false} FirstPresentFound(data: seq<Record>, column: string)
    requires FirstPresent(data, column).Some?
    ensures exists i ::
      && 0 <= i < |data|
      && Get(data[i], column) == FirstPresent(data, column)
      && !IsMissing(Get(data[i], column))
      && forall j :: 0 <= j < i ==> IsMissing(Get(data[j], column))
  {
    if IsMissing(Get(data[0], column)) {
      var rest := data[1..];
      FirstPresentFound(rest, column);
      var i :| 0 <= i < |rest| && Get(rest[i], column) == FirstPresent(rest, column)
        && !IsMissing(Get(rest[i], column))
        && forall j :: 0 <= j < i ==> IsMissing(Get(rest[j], column));
      assert data[i + 1] == rest[i];
      MissingBefore(data, column, i + 1);
    } else {
      assert Get(data[0], column) == FirstPresent(data, column);
    }
  }

  /** Missing cells before row `i` of the rows after the first, and a missing
      first cell, make every cell before row `i` of the whole column missing. */
  lemma MissingBefore(data: seq<Record>, column: string, i: nat)
    requires 0 < i <= |data| && IsMissing(Get(data[0], column))
    requires forall j :: 0 <= j < i - 1 ==> IsMissing(Get(data[1..][j], column))
    ensures forall j :: 0 <= j < i ==> IsMissing(Get(data[j], column))
  {
    forall j | 0 < j < i ensures IsMissing(Get(data[j], column)) {
      assert data[j] == data[1..][j - 1];
    }
  }

  /** The kind the classifier assigns to a column. */
  function KindOf(data: seq<Record>, column: string, parse: Parser): ColumnKind {
    match FirstPresent(data, column)
    case None => Categorical
    case Some(v) => if parse(v).Some? then Numeric else Categorical
  }

  /** A column is numeric exactly when there is a row whose cell is the first
      one not missing and that cell parses. */
  lemma KindOfNumeric(data: seq<Record>, column: string, parse: Parser)
    ensures KindOf(data, column, parse) == Numeric <==>
      exists i :: 0 <= i < |data| && !IsMissing(Get(data[i], column))
        && (forall j :: 0 <= j < i ==> IsMissing(Get(data[j], column)))
        && parse(Get(data[i], column).value).Some?
  {
    if KindOf(data, column, parse) == Numeric {
      FirstPresentFound(data, column);
    }
    forall i | 0 <= i < |data| && !IsMissing(Get(data[i], column))
        && (forall j :: 0 <= j < i ==> IsMissing(Get(data[j], column)))
        && parse(Get(data[i], column).value).Some?
      ensures KindOf(data, column, parse) == Numeric
    {
      FirstPresentAt(data, column, i);
    }
  }

  /** A column without a single present cell is categorical. */
  lemma NoValueIsCategorical(data: seq<Record>, column: string, parse: Parser)
    requires forall i :: 0 <= i < |data| ==> IsMissing(Get(data[i], column))
    ensures KindOf(data, column, parse) == Categorical
  {
    FirstPresentNone(data, column);
  }

  /** Only the first present cell is looked at: rows appended after it never
      change the kind, even when their cells do not parse. */
  lemma LaterRowsIrrelevant(data: seq<Record>, more: seq<Record>, column: string, parse: Parser)
    requires FirstPresent(data, column).Some?
    ensures KindOf(data + more, column, parse) == KindOf(data, column, parse)
  {
    FirstPresentFound(data, column);
    var i :| 0 <= i < |data| && Get(data[i], column) == FirstPresent(data, column)
      && !IsMissing(Get(data[i], column))
      && forall j :: 0 <= j < i ==> IsMissing(Get(data[j], column));
    var all := data + more;
    assert forall j :: 0 <= j <= i ==> all[j] == data[j];
    FirstPresentAt(all, column, i);
  }

  /** A column classified numeric has at least one collected number, so its
      numeric summary is never the "N/A" sentinel. */
  lemma NumericColumnHasData(data: seq<Record>, column: string, parse: Parser)
    requires KindOf(data, column, parse) == Numeric
    ensures ParsedRows(data, column, parse) != {}
    ensures Summarize(NumericValues(data, column, parse)).Summary?
  {
    KindOfNumeric(data, column, parse);
    var i :| 0 <= i < |data| && !IsMissing(Get(data[i], column))
      && (forall j :: 0 <= j < i ==> IsMissing(Get(data[j], column)))
      && parse(Get(data[i], column).value).Some?;
    assert i in ParsedRows(data, column, parse);
    NumericCountIsParsedRows(data, column, parse);
  }

  /** The inner loop of `analyze_dataframe`: scan the rows until the first
      present cell, try to parse it, and stop. */
  method ClassifyColumn(data: seq<Record>, column: string, parse: Parser) returns (kind: ColumnKind)
    ensures kind == KindOf(data, column, parse)
  {
    kind := Categorical;
    var i := 0;
    while i < |data|
      invariant 0 <= i <= |data|
      invariant kind == Categorical
      invariant FirstPresent(data[i..], column) == FirstPresent(data, column)
    {
      var v := Get(data[i], column);
      if !IsMissing(v) {
        if parse(v.value).Some? {
          kind := Numeric;
        } else {
          kind := Categorical;
        }
        break;
      }
      assert data[i..][1..] == data[i + 1..];
      i := i + 1;
    }
  }

  /** The block printed for one column. */
  datatype ColumnReport =
    | NumericColumn(name: string, numeric: NumericStats)
    | CategoricalColumn(name: string, categorical: CategoricalStats)

  function ColumnReportOf(data: seq<Record>, column: string, parse: Parser): ColumnReport {
    match KindOf(data, column, parse)
    case Numeric => NumericColumn(column, Summarize(NumericValues(data, column, parse)))
    case Categorical => CategoricalColumn(column, GetCategoricalStats(data, column))
  }

  /** The blocks for a list of columns, in that order. */
  function ColumnReports(data: seq<Record>, columns: seq<string>, parse: Parser): seq<ColumnReport> {
    seq(|columns|, i requires 0 <= i < |columns| => ColumnReportOf(data, columns[i], parse))
  }

  /** One more column adds its block at the end. */
  lemma ColumnReportsSnoc(data: seq<Record>, columns: seq<string>, column: string, parse: Parser, block: ColumnReport)
    requires block == ColumnReportOf(data, column, parse)
    ensures ColumnReports(data, columns + [column], parse) == ColumnReports(data, columns, parse) + [block]
  {
  }

  /** What `analyze_dataframe` prints: nothing (`None`) for an empty dataset or
      an empty first record, otherwise one block per header of the first record. */
  function DataframeReport(data: seq<Record>, parse: Parser): Option<seq<ColumnReport>> {
    if data == [] || data[0] == [] then None
    else Some(ColumnReports(data, Headers(data[0]), parse))
  }

  /** The report exists exactly when there are rows and headers; it has one block
      per header, in header order, whose kind is the column's kind and whose
      numeric blocks are never the sentinel. */
  lemma DataframeReportShape(data: seq<Record>, parse: Parser)
    ensures DataframeReport(data, parse).None? <==> data == [] || Headers(data[0]) == []
    ensures DataframeReport(data, parse).Some? ==>
      var blocks := DataframeReport(data, parse).value;
      && |blocks| == |Headers(data[0])|
      && forall i :: 0 <= i < |blocks| ==>
           && blocks[i].name == Headers(data[0])[i]
           && (blocks[i].NumericColumn? <==> KindOf(data, blocks[i].name, parse) == Numeric)
           && (blocks[i].NumericColumn? ==> blocks[i].numeric.Summary? && blocks[i].numeric.count >= 1)
  {
    if DataframeReport(data, parse).Some? {
      var blocks := DataframeReport(data, parse).value;
      forall i | 0 <= i < |blocks| && blocks[i].NumericColumn?
        ensures blocks[i].numeric.Summary? && blocks[i].numeric.count >= 1
      {
        NumericColumnHasData(data, blocks[i].name, parse);
      }
    }
  }

  /** One iteration of the header loop of `analyze_dataframe`: classify the
      column, then summarise it with the matching summariser. */
  method AnalyzeColumn(data: seq<Record>, column: string, parse: Parser) returns (block: ColumnReport)
    ensures block == ColumnReportOf(data, column, parse)
  {
    var kind := ClassifyColumn(data, column, parse);
    if kind == Numeric {
      var stats := GetNumericStats(data, column, parse);
      block := NumericColumn(column, stats);
    } else {
      block := CategoricalColumn(column, GetCategoricalStats(data, column));
    }
  }

  /** `analyze_dataframe`: the guard, then one block per header. */
  method AnalyzeDataframe(data: seq<Record>, parse: Parser) returns (report: Option<seq<ColumnReport>>)
    ensures report == DataframeReport(data, parse)
  {
    if data == [] || data[0] == [] {
      return None;
    }
    var headers := Headers(data[0]);
    var blocks: seq<ColumnReport> := [];
    var c := 0;
    while c < |headers|
      invariant 0 <= c <= |headers|
      invariant blocks == ColumnReports(data, headers[..c], parse)
    {
      var block := AnalyzeColumn(data, headers[c], parse);
      ColumnReportsSnoc(data, headers[..c], headers[c], parse, block);
      assert headers[..c] + [headers[c]] == headers[..c + 1];
      blocks := blocks + [block];
      c := c + 1;
    }
    assert headers[..c] == headers;
    report := Some(blocks);
  }
}
