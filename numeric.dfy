/**
 * The numeric summariser (`get_numeric_stats`): it collects the cells of a
 * column that are not missing and that parse as numbers, silently skipping the
 * ones that do not parse, and reports count, mean, minimum, maximum and the
 * population variance (whose square root is the reported standard deviation).
 */
module NumericSummary {
  import opened Records

  /** The number parser (Python's `float`), supplied by the caller. */
  type Parser = string -> Option<real>

  datatype NumericStats =
    | NoNumericData
    | Summary(count: nat, mean: real, min: real, max: real, variance: real)

  /** The number a row contributes to the column, if any. */
  function ParsedCell(row: Record, column: string, parse: Parser): Option<real> {
    var v := Get(row, column);
    if IsMissing(v) then None else parse(v.value)
  }

  /** The numbers collected from a column, in row order. */
  function NumericValues(data: seq<Record>, column: string, parse: Parser): seq<real>
  {
    if data == [] then []
    else
      var prev := NumericValues(data[..|data| - 1], column, parse);
      match ParsedCell(data[|data| - 1], column, parse)
      case Some(x) => prev + [x]
      case None => prev
  }

  /** The rows whose cell is collected. */
  function ParsedRows(data: seq<Record>, column: string, parse: Parser): set<nat> {
    set i: nat | i < |data| && ParsedCell(data[i], column, parse).Some?
  }

  /** Appending a row adds its index to the collected rows exactly when its
      cell is collected. */
  lemma ParsedRowsSnoc(data: seq<Record>, column: string, parse: Parser)
    requires data != []
    ensures var n := |data| - 1;
      ParsedRows(data, column, parse) ==
        ParsedRows(data[..n], column, parse) + (if ParsedCell(data[n], column, parse).Some? then {n} else {})
  {
    var n := |data| - 1;
    var init := data[..n];
    var last := if ParsedCell(data[n], column, parse).Some? then {n} else {};
    forall i: nat ensures i in ParsedRows(data, column, parse) <==> i in ParsedRows(init, column, parse) + last {
      if i < n {
        assert init[i] == data[i];
      }
    }
  }

  /** The count is the number of rows whose cell is not missing and parses. */
  lemma {:induction false} NumericCountIsParsedRows(data: seq<Record>, column: string, parse: Parser)
    ensures |NumericValues(data, column, parse)| == |ParsedRows(data, column, parse)|
  {
    if data != [] {
      var n := |data| - 1;
      NumericCountIsParsedRows(data[..n], column, parse);
      ParsedRowsSnoc(data, column, parse);
      assert n !in ParsedRows(data[..n], column, parse);
    }
  }

  /** The rows whose cell is collected as the number `x`. */
  function RowsParsingTo(data: seq<Record>, column: string, parse: Parser, x: real): set<nat> {
    set i: nat | i < |data| && ParsedCell(data[i], column, parse) == Some(x)
  }

  /** Appending a row adds its index to the rows parsing to `x` exactly when
      its cell parses to `x`. */
  lemma RowsParsingToSnoc(data: seq<Record>, column: string, parse: Parser, x: real)
    requires data != []
    ensures var n := |data| - 1;
      RowsParsingTo(data, column, parse, x) ==
        RowsParsingTo(data[..n], column, parse, x) + (if ParsedCell(data[n], column, parse) == Some(x) then {n} else {})
  {
    var n := |data| - 1;
    var init := data[..n];
    var last := if ParsedCell(data[n], column, parse) == Some(x) then {n} else {};
    forall i: nat ensures i in RowsParsingTo(data, column, parse, x) <==> i in RowsParsingTo(init, column, parse, x) + last {
      if i < n {
        assert init[i] == data[i];
      }
    }
  }

  /** A number is collected once for every row whose cell parses to it. */
  lemma {:induction false} NumericValuesCount(data: seq<Record>, column: string, parse: Parser, x: real)
    ensures multiset(NumericValues(data, column, parse))[x] == |RowsParsingTo(data, column, parse, x)|
  {
    if data != [] {
      var n := |data| - 1;
      NumericValuesCount(data[..n], column, parse, x);
      RowsParsingToSnoc(data, column, parse, x);
      assert n !in RowsParsingTo(data[..n], column, parse, x);
    }
  }

  lemma {:induction false} NumericValuesMembers(data: seq<Record>, column: string, parse: Parser)
    ensures forall x :: x in NumericValues(data, column, parse) <==>
      exists i :: 0 <= i < |data| && !IsMissing(Get(data[i], column)) && parse(Get(data[i], column).value) == Some(x)
  {
    if data != [] {
      var n := |data| - 1;
      var init := data[..n];
      NumericValuesMembers(init, column, parse);
      assert forall i :: 0 <= i < n ==> init[i] == data[i];
    }
  }

  /** Exactly the numbers parsed from cells that are not missing are collected,
      each as many times as there are rows whose cell parses to it; a missing
      cell never contributes. */
  lemma NumericValuesAreParsedCells(data: seq<Record>, column: string, parse: Parser)
    ensures forall x :: x in NumericValues(data, column, parse) <==>
      exists i :: 0 <= i < |data| && !IsMissing(Get(data[i], column)) && parse(Get(data[i], column).value) == Some(x)
    ensures forall x :: multiset(NumericValues(data, column, parse))[x] == |RowsParsingTo(data, column, parse, x)|
  {
    NumericValuesMembers(data, column, parse);
    forall x {
      NumericValuesCount(data, column, parse, x);
    }
  }

  /** The accumulation loop of the summariser: append every parsed value, skip
      cells that are missing or that do not parse. */
  method CollectNumeric(data: seq<Record>, column: string, parse: Parser) returns (values: seq<real>)
    ensures values == NumericValues(data, column, parse)
  {
    values := [];
    var i := 0;
    while i < |data|
      invariant 0 <= i <= |data|
      invariant values == NumericValues(data[..i], column, parse)
    {
      assert data[..i + 1][..i] == data[..i];
      var v := Get(data[i], column);
      if !IsMissing(v) {
        var parsed := parse(v.value);
        if parsed.Some? {
          values := values + [parsed.value];
        }
      }
      i := i + 1;
    }
    assert data[..|data|] == data;
  }

  function Sum(s: seq<real>): real {
    if s == [] then 0.0 else s[0] + Sum(s[1..])
  }

  /** Python's `min`: the first smallest element. */
  function Min(s: seq<real>): real
    requires s != []
  {
    if |s| == 1 then s[0]
    else
      var rest := Min(s[1..]);
      if s[0] <= rest then s[0] else rest
  }

  /** Python's `max`: the first largest element. */
  function Max(s: seq<real>): real
    requires s != []
  {
    if |s| == 1 then s[0]
    else
      var rest := Max(s[1..]);
      if rest <= s[0] then s[0] else rest
  }

  /** `Min` and `Max` are elements of the sequence and bound all of it. */
  lemma {:induction false} MinMaxAreExtrema(s: seq<real>)
    requires s != []
    ensures Min(s) in s && Max(s) in s
    ensures forall i :: 0 <= i < |s| ==> Min(s) <= s[i] <= Max(s)
  {
    if |s| > 1 {
      MinMaxAreExtrema(s[1..]);
      assert forall i :: 1 <= i < |s| ==> s[i] == s[1..][i - 1];
    }
  }

  /** Multiplication, kept behind a function so that the solver handles a
      squared deviation as a single term. */
  function Product(a: real, b: real): real {
    a * b
  }

  /** The sum of squared deviations from `m`, `sum((x - m) ** 2 for x in s)`. */
  function SumSquaredDeviations(s: seq<real>, m: real): real {
    if s == [] then 0.0 else Product(s[0] - m, s[0] - m) + SumSquaredDeviations(s[1..], m)
  }

  function Mean(s: seq<real>): real
    requires s != []
  {
    Sum(s) / (|s| as real)
  }

  /** Population variance: squared deviations divided by the count, not count - 1. */
  function Variance(s: seq<real>): real
    requires s != []
  {
    SumSquaredDeviations(s, Mean(s)) / (|s| as real)
  }

  predicate AllEqual(s: seq<real>) {
    forall i, j :: 0 <= i < |s| && 0 <= j < |s| ==> s[i] == s[j]
  }

  lemma MulMonotone(n: real, a: real, b: real)
    requires n >= 0.0 && a <= b
    ensures n * a <= n * b
  {
    var d := b - a;
    assert n * d >= 0.0;
    assert n * b == n * a + n * d;
  }

  /** A positive factor keeps the sign of the product. */
  lemma PositiveFactor(n: real, x: real)
    requires n > 0.0 && n * x >= 0.0
    ensures x >= 0.0
  {
  }

  /** One induction step of SumBounds, as plain arithmetic. */
  lemma ScaledStep(n: real, lo: real, hi: real, x: real, tlo: real, thi: real, total: real)
    requires n >= 0.0 && lo <= x <= hi && lo <= tlo && thi <= hi
    requires n * tlo <= total <= n * thi
    ensures (n + 1.0) * lo <= x + total <= (n + 1.0) * hi
  {
    MulMonotone(n, lo, tlo);
    MulMonotone(n, thi, hi);
  }

  /** The sum lies between count times the minimum and count times the maximum. */
  lemma {:induction false} SumBounds(s: seq<real>)
    requires s != []
    ensures (|s| as real) * Min(s) <= Sum(s) <= (|s| as real) * Max(s)
  {
    if |s| == 1 {
      assert Sum(s) == s[0];
    } else {
      var t := s[1..];
      SumBounds(t);
      assert |s| as real == (|t| as real) + 1.0;
      assert Sum(s) == s[0] + Sum(t);
      ScaledStep(|t| as real, Min(s), Max(s), s[0], Min(t), Max(t), Sum(t));
    }
  }

  lemma MeanBetweenMinAndMax(s: seq<real>)
    requires s != []
    ensures Min(s) <= Mean(s) <= Max(s)
  {
    SumBounds(s);
    var n := |s| as real;
    var lo, hi, total := Min(s), Max(s), Sum(s);
    assert Mean(s) == total / n;
    DivBounds(n, lo, total, hi);
  }

  lemma DivBounds(n: real, lo: real, total: real, hi: real)
    requires n > 0.0 && n * lo <= total <= n * hi
    ensures lo <= total / n <= hi
  {
    var q := total / n;
    assert n * q == total;
    assert n * (q - lo) == total - n * lo;
    assert n * (hi - q) == n * hi - total;
    PositiveFactor(n, q - lo);
    PositiveFactor(n, hi - q);
  }

  /** Sign rules for a product, stated on two independent factors. */
  lemma ProductPositive(a: real, b: real)
    requires (a > 0.0 && b > 0.0) || (a < 0.0 && b < 0.0)
    ensures Product(a, b) > 0.0
  {
  }

  lemma ProductNonNegative(a: real, b: real)
    requires (a >= 0.0 && b >= 0.0) || (a <= 0.0 && b <= 0.0)
    ensures Product(a, b) >= 0.0
  {
  }

  /** A sum of squared deviations is zero exactly when no term deviates, and
      positive otherwise. */
  lemma {:induction false} SumSquaredDeviationsSign(s: seq<real>, m: real)
    ensures SumSquaredDeviations(s, m) >= 0.0
    ensures SumSquaredDeviations(s, m) == 0.0 <==> forall i :: 0 <= i < |s| ==> s[i] == m
  {
    if s != [] {
      var t := s[1..];
      SumSquaredDeviationsSign(t, m);
      var d := s[0] - m;
      ProductNonNegative(d, d);
      if forall i :: 0 <= i < |s| ==> s[i] == m {
        assert s[0] == m;
        assert forall i :: 0 <= i < |t| ==> t[i] == s[i + 1];
      } else {
        var i :| 0 <= i < |s| && s[i] != m;
        if i > 0 {
          assert t[i - 1] != m;
        } else {
          ProductPositive(d, d);
        }
      }
    }
  }

  /** The mean of a constant sequence is that constant. */
  lemma {:induction false} SumOfConstant(s: seq<real>, c: real)
    requires forall i :: 0 <= i < |s| ==> s[i] == c
    ensures Sum(s) == (|s| as real) * c
  {
    if s != [] {
      SumOfConstant(s[1..], c);
    }
  }

  lemma VarianceFacts(s: seq<real>)
    requires s != []
    ensures Variance(s) >= 0.0
    ensures Variance(s) == 0.0 <==> AllEqual(s)
  {
    var n := |s| as real;
    var m := Mean(s);
    SumSquaredDeviationsSign(s, m);
    if AllEqual(s) {
      SumOfConstant(s, s[0]);
      assert m == s[0];
    }
  }

  /** The statistics of the collected numbers; the sentinel when there are none.
      A summary counts the values, has its mean between its minimum and its
      maximum and a variance that is never negative. */
  function Summarize(values: seq<real>): (r: NumericStats)
    ensures values == [] <==> r == NoNumericData
    ensures r.Summary? ==> r.count == |values| && r.min <= r.mean <= r.max && r.variance >= 0.0
  {
    if values == [] then NoNumericData
    else
      MeanBetweenMinAndMax(values);
      VarianceFacts(values);
      Summary(|values|, Mean(values), Min(values), Max(values), Variance(values))
  }

  /** The minimum and the maximum of a summary are collected values, and every
      collected value lies between them. */
  lemma SummarizeBounds(values: seq<real>)
    ensures var r := Summarize(values);
      r.Summary? ==>
        && r.min in values && r.max in values
        && (forall i :: 0 <= i < |values| ==> r.min <= values[i] <= r.max)
  {
    if values != [] {
      MinMaxAreExtrema(values);
    }
  }

  /** `get_numeric_stats`: collect, then summarise. */
  method GetNumericStats(data: seq<Record>, column: string, parse: Parser) returns (stats: NumericStats)
    ensures stats == Summarize(NumericValues(data, column, parse))
    ensures stats == NoNumericData <==> ParsedRows(data, column, parse) == {}
    ensures stats.Summary? ==> stats.count == |ParsedRows(data, column, parse)|
  {
    var values := CollectNumeric(data, column, parse);
    NumericCountIsParsedRows(data, column, parse);
    if |values| == 0 {
      return NoNumericData;
    }
    var count := |values|;
    var mean := Sum(values) / (count as real);
    var minVal := Min(values);
    var maxVal := Max(values);
    var variance := SumSquaredDeviations(values, mean) / (count as real);
    stats := Summary(count, mean, minVal, maxVal, variance);
  }
}
