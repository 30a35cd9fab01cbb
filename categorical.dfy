/**
 * The categorical summariser (`get_categorical_stats`): it collects the cells
 * of a column that are not missing, counts them with a `Counter` (a dictionary
 * whose keys keep the order in which values were first seen) and reports the
 * number of distinct values and the most frequent value with its count.  Ties
 * go to the value seen first, because `most_common(1)` keeps the first maximum.
 */
module CategoricalSummary {
  import opened Records

  datatype CategoricalStats = CategoricalStats(uniqueValues: nat, mostFrequent: string, occurrences: nat)

  /** The sentinel for a column with no value: `(0, ('N/A', 0))`. */
  const NoCategoricalData := CategoricalStats(0, "N/A", 0)

  /** The cells of a column that are not missing, in row order. */
  function CategoricalValues(data: seq<Record>, column: string): seq<string> {
    if data == [] then []
    else
      var prev := CategoricalValues(data[..|data| - 1], column);
      var v := Get(data[|data| - 1], column);
      if IsMissing(v) then prev else prev + [v.value]
  }

  /** The rows whose cell of the column is `x`. */
  function RowsHolding(data: seq<Record>, column: string, x: string): set<nat> {
    set i: nat | i < |data| && Get(data[i], column) == Some(x)
  }

  /** Appending a row adds its index to the rows holding `x` exactly when its
      cell is `x`. */
  lemma RowsHoldingSnoc(data: seq<Record>, column: string, x: string)
    requires data != []
    ensures var n := |data| - 1;
      RowsHolding(data, column, x) ==
        RowsHolding(data[..n], column, x) + (if Get(data[n], column) == Some(x) then {n} else {})
  {
    var n := |data| - 1;
    var init := data[..n];
    var last := if Get(data[n], column) == Some(x) then {n} else {};
    forall i: nat ensures i in RowsHolding(data, column, x) <==> i in RowsHolding(init, column, x) + last {
      if i < n {
        assert init[i] == data[i];
      }
    }
  }

  /** A value that is not missing is collected once for every row holding it;
      a missing value is never collected. */
  lemma {:induction false} CategoricalValuesCount(data: seq<Record>, column: string, x: string)
    ensures multiset(CategoricalValues(data, column))[x] ==
      if IsMissing(Some(x)) then 0 else |RowsHolding(data, column, x)|
  {
    if data != [] {
      var n := |data| - 1;
      CategoricalValuesCount(data[..n], column, x);
      RowsHoldingSnoc(data, column, x);
      assert n !in RowsHolding(data[..n], column, x);
    }
  }

  lemma {:induction false} CategoricalValuesMembers(data: seq<Record>, column: string)
    ensures forall x :: x in CategoricalValues(data, column) <==>
      exists i :: 0 <= i < |data| && Get(data[i], column) == Some(x) && !IsMissing(Some(x))
  {
    if data != [] {
      var n := |data| - 1;
      var init := data[..n];
      CategoricalValuesMembers(init, column);
      assert forall i :: 0 <= i < n ==> init[i] == data[i];
    }
  }

  /** A value is collected exactly when some row holds it and it is not
      missing, and then once for every row holding it; in particular "" and
      "NA" are never collected. */
  lemma CategoricalValuesAreCells(data: seq<Record>, column: string)
    ensures forall x :: x in CategoricalValues(data, column) <==>
      exists i :: 0 <= i < |data| && Get(data[i], column) == Some(x) && !IsMissing(Some(x))
    ensures "" !in CategoricalValues(data, column) && "NA" !in CategoricalValues(data, column)
    ensures forall x ::
      multiset(CategoricalValues(data, column))[x] == (if IsMissing(Some(x)) then 0 else |RowsHolding(data, column, x)|)
  {
    CategoricalValuesMembers(data, column);
    forall x {
      CategoricalValuesCount(data, column, x);
    }
  }

  /** The first position of `x` in `vs`. */
  function IndexOf(vs: seq<string>, x: string): (i: nat)
    requires x in vs
    ensures i < |vs| && vs[i] == x && x !in vs[..i]
  {
    if vs[0] == x then 0 else 1 + IndexOf(vs[1..], x)
  }

  /** A value occurring before position `p` is first seen before `p`. */
  lemma IndexOfBefore(vs: seq<string>, x: string, p: nat)
    requires p <= |vs| && x in vs[..p]
    ensures IndexOf(vs, x) < p
  {
    var i :| 0 <= i < p && vs[..p][i] == x;
    assert vs[i] == x;
  }

  /** Appending a value does not move the first occurrence of an older one. */
  lemma IndexOfSnoc(vs: seq<string>, x: string, y: string)
    requires y in vs
    ensures y in vs + [x] && IndexOf(vs + [x], y) == IndexOf(vs, y)
  {
    var ext := vs + [x];
    var j, k := IndexOf(ext, y), IndexOf(vs, y);
    assert ext[k] == y;
  }

  /** One `Counter` entry: a value and how often it was seen. */
  datatype Entry = Entry(value: string, count: nat)

  /** `counter[x] = counter.get(x, 0) + 1`: bump an existing entry in place, or
      add a new entry at the end. */
  function Bump(items: seq<Entry>, x: string): seq<Entry> {
    if items == [] then [Entry(x, 1)]
    else if items[0].value == x then [Entry(x, items[0].count + 1)] + items[1..]
    else [items[0]] + Bump(items[1..], x)
  }

  /** `Counter(vs)`: the entries in order of first occurrence. */
  function Counter(vs: seq<string>): seq<Entry> {
    if vs == [] then [] else Bump(Counter(vs[..|vs| - 1]), vs[|vs| - 1])
  }

  function Keys(items: seq<Entry>): (keys: seq<string>)
    ensures |keys| == |items| && forall i :: 0 <= i < |items| ==> keys[i] == items[i].value
  {
    seq(|items|, i requires 0 <= i < |items| => items[i].value)
  }

  predicate DistinctKeys(items: seq<Entry>) {
    forall i, j :: 0 <= i < j < |items| ==> items[i].value != items[j].value
  }

  lemma {:induction false} BumpExisting(items: seq<Entry>, x: string, k: nat)
    requires DistinctKeys(items) && k < |items| && items[k].value == x
    ensures Bump(items, x) == items[k := Entry(x, items[k].count + 1)]
  {
    if k > 0 {
      var rest := items[1..];
      assert rest[k - 1].value == x;
      BumpExisting(rest, x, k - 1);
    }
  }

  lemma {:induction false} BumpNew(items: seq<Entry>, x: string)
    requires x !in Keys(items)
    ensures Bump(items, x) == items + [Entry(x, 1)]
  {
    if items != [] {
      assert Keys(items[1..]) == Keys(items)[1..];
      BumpNew(items[1..], x);
    }
  }

  /** Every entry is a value of `vs` with its number of occurrences. */
  predicate CountsMatch(items: seq<Entry>, vs: seq<string>) {
    forall i :: 0 <= i < |items| ==> items[i].value in vs && items[i].count == multiset(vs)[items[i].value]
  }

  /** Every value of `vs` has an entry. */
  predicate CoversValues(items: seq<Entry>, vs: seq<string>) {
    forall x :: x in vs ==> x in Keys(items)
  }

  /** The entries are in order of first occurrence in `vs`. */
  predicate FirstSeenOrder(items: seq<Entry>, vs: seq<string>) {
    forall i, j :: 0 <= i < j < |items| ==>
      items[i].value in vs && items[j].value in vs && IndexOf(vs, items[i].value) < IndexOf(vs, items[j].value)
  }

  /** What `Counter(vs)` holds: one entry per distinct value, each with the
      number of occurrences of its value, in order of first occurrence. */
  predicate CountsOf(items: seq<Entry>, vs: seq<string>) {
    DistinctKeys(items) && CountsMatch(items, vs) && CoversValues(items, vs) && FirstSeenOrder(items, vs)
  }

  lemma AgainCounts(items: seq<Entry>, init: seq<string>, x: string, k: nat)
    requires CountsMatch(items, init) && DistinctKeys(items) && k < |items| && items[k].value == x
    ensures CountsMatch(items[k := Entry(x, items[k].count + 1)], init + [x])
  {
    var vs := init + [x];
    var bumped := items[k := Entry(x, items[k].count + 1)];
    assert multiset(vs) == multiset(init) + multiset{x};
    forall i | 0 <= i < |bumped|
      ensures bumped[i].value in vs && bumped[i].count == multiset(vs)[bumped[i].value]
    {
      if i != k {
        assert bumped[i] == items[i] && items[i].value != x;
      }
    }
  }

  lemma AgainOrder(items: seq<Entry>, init: seq<string>, x: string, k: nat)
    requires FirstSeenOrder(items, init) && k < |items| && items[k].value == x
    ensures FirstSeenOrder(items[k := Entry(x, items[k].count + 1)], init + [x])
  {
    var vs := init + [x];
    var bumped := items[k := Entry(x, items[k].count + 1)];
    forall i, j | 0 <= i < j < |bumped|
      ensures bumped[i].value in vs && bumped[j].value in vs
      ensures IndexOf(vs, bumped[i].value) < IndexOf(vs, bumped[j].value)
    {
      assert bumped[i].value == items[i].value && bumped[j].value == items[j].value;
      IndexOfSnoc(init, x, items[i].value);
      IndexOfSnoc(init, x, items[j].value);
    }
  }

  /** Seeing a value again bumps its entry and keeps the order. */
  lemma CountsOfSeenAgain(items: seq<Entry>, init: seq<string>, x: string)
    requires CountsOf(items, init) && x in init
    ensures CountsOf(Bump(items, x), init + [x])
  {
    var k :| 0 <= k < |items| && Keys(items)[k] == x;
    BumpExisting(items, x, k);
    var bumped := items[k := Entry(x, items[k].count + 1)];
    AgainCounts(items, init, x, k);
    AgainOrder(items, init, x, k);
    forall i | 0 <= i < |items| ensures Keys(bumped)[i] == Keys(items)[i] {
    }
    assert Keys(bumped) == Keys(items);
  }

  lemma FirstCounts(items: seq<Entry>, init: seq<string>, x: string)
    requires CountsMatch(items, init) && x !in init
    ensures CountsMatch(items + [Entry(x, 1)], init + [x])
  {
    var vs := init + [x];
    var bumped := items + [Entry(x, 1)];
    assert multiset(vs) == multiset(init) + multiset{x};
    forall i | 0 <= i < |bumped|
      ensures bumped[i].value in vs && bumped[i].count == multiset(vs)[bumped[i].value]
    {
      if i < |items| {
        assert bumped[i] == items[i];
      }
    }
  }

  lemma FirstOrder(items: seq<Entry>, init: seq<string>, x: string)
    requires FirstSeenOrder(items, init) && CountsMatch(items, init) && x !in init
    ensures FirstSeenOrder(items + [Entry(x, 1)], init + [x])
  {
    var vs := init + [x];
    var n := |items|;
    var bumped := items + [Entry(x, 1)];
    assert IndexOf(vs, x) == |init| by {
      assert vs[|init|] == x && vs[..|init|] == init;
    }
    forall i, j | 0 <= i < j < |bumped|
      ensures bumped[i].value in vs && bumped[j].value in vs
      ensures IndexOf(vs, bumped[i].value) < IndexOf(vs, bumped[j].value)
    {
      assert bumped[i] == items[i];
      IndexOfSnoc(init, x, items[i].value);
      if j < n {
        assert bumped[j] == items[j];
        IndexOfSnoc(init, x, items[j].value);
      }
    }
  }

  /** Seeing a new value appends an entry with count one. */
  lemma CountsOfSeenFirst(items: seq<Entry>, init: seq<string>, x: string)
    requires CountsOf(items, init) && x !in init
    ensures CountsOf(Bump(items, x), init + [x])
  {
    BumpNew(items, x);
    FirstCounts(items, init, x);
    FirstOrder(items, init, x);
    var bumped := items + [Entry(x, 1)];
    assert Keys(bumped) == Keys(items) + [x];
    forall i, j | 0 <= i < j < |bumped| ensures bumped[i].value != bumped[j].value {
      assert bumped[i] == items[i];
      if j == |items| {
        assert items[i].value in init;
      } else {
        assert bumped[j] == items[j];
      }
    }
  }

  lemma {:induction false} CounterCounts(vs: seq<string>)
    ensures CountsOf(Counter(vs), vs)
  {
    if vs != [] {
      var n := |vs| - 1;
      var init, x := vs[..n], vs[n];
      assert vs == init + [x];
      CounterCounts(init);
      if x in init {
        CountsOfSeenAgain(Counter(init), init, x);
      } else {
        CountsOfSeenFirst(Counter(init), init, x);
      }
    }
  }

  /** The keys of the counter are distinct and are exactly the values seen. */
  lemma CounterKey(vs: seq<string>, x: string)
    ensures DistinctKeys(Counter(vs))
    ensures x in Keys(Counter(vs)) <==> x in vs
  {
    CounterCounts(vs);
    var items := Counter(vs);
    if x in Keys(items) {
      var i :| 0 <= i < |items| && Keys(items)[i] == x;
    }
  }

  lemma ValueSetSnoc(init: seq<string>, x: string)
    ensures (set y | y in init + [x]) == (set y | y in init) + {x}
  {
  }

  /** The counter has one entry per distinct value. */
  lemma {:induction false} CounterSize(vs: seq<string>)
    ensures |Counter(vs)| == |set x | x in vs|
  {
    if vs != [] {
      var n := |vs| - 1;
      var init, x := vs[..n], vs[n];
      assert vs == init + [x];
      var items := Counter(init);
      assert Counter(vs) == Bump(items, x);
      CounterSize(init);
      ValueSetSnoc(init, x);
      var seen := set y | y in init;
      CounterKey(init, x);
      if x in init {
        assert x in seen && seen + {x} == seen;
        var k :| 0 <= k < |items| && Keys(items)[k] == x;
        BumpExisting(items, x, k);
      } else {
        assert x !in seen && x !in Keys(items);
        BumpNew(items, x);
      }
    }
  }

  /** `max(entries, key=count)`: the position of the first entry with the
      largest count. */
  function MostCommonIndex(items: seq<Entry>): (k: nat)
    requires items != []
    ensures k < |items|
    ensures forall i :: 0 <= i < |items| ==> items[i].count <= items[k].count
    ensures forall i :: 0 <= i < k ==> items[i].count < items[k].count
  {
    if |items| == 1 then 0
    else
      var n := |items| - 1;
      var k := MostCommonIndex(items[..n]);
      assert forall i :: 0 <= i < n ==> items[..n][i] == items[i];
      if items[n].count > items[k].count then n else k
  }

  /** A value first seen before the chosen one occurs strictly less often. */
  lemma FirstSeenWinsTies(items: seq<Entry>, vs: seq<string>, k: nat)
    requires CountsOf(items, vs) && k < |items|
    requires forall i :: 0 <= i < k ==> items[i].count < items[k].count
    ensures items[k].value in vs
    ensures forall x :: x in vs[..IndexOf(vs, items[k].value)] ==> multiset(vs)[x] < items[k].count
  {
    var p := IndexOf(vs, items[k].value);
    forall x | x in vs[..p] ensures multiset(vs)[x] < items[k].count {
      assert x in vs;
      var j :| 0 <= j < |items| && Keys(items)[j] == x;
      IndexOfBefore(vs, x, p);
      assert j < k;
    }
  }

  /** `get_categorical_stats`: `Counter` over the present cells, then the most
      common value.  The sentinel stands exactly for a column without present
      cells; otherwise the reported value is a present cell reported with its
      exact number of occurrences. */
  function GetCategoricalStats(data: seq<Record>, column: string): (r: CategoricalStats)
    ensures CategoricalValues(data, column) == [] <==> r == NoCategoricalData
    ensures r != NoCategoricalData ==>
      && r.mostFrequent in CategoricalValues(data, column)
      && r.occurrences == multiset(CategoricalValues(data, column))[r.mostFrequent]
  {
    var vs := CategoricalValues(data, column);
    if vs == [] then NoCategoricalData
    else
      var counts := Counter(vs);
      CounterKey(vs, vs[0]);
      CounterCounts(vs);
      var k := MostCommonIndex(counts);
      CategoricalStats(|counts|, counts[k].value, counts[k].count)
  }

  /** The summary of a column with present cells counts its distinct values and
      names a most frequent one; on a tie the value seen first wins. */
  lemma CategoricalStatsFacts(data: seq<Record>, column: string)
    ensures var vs := CategoricalValues(data, column);
      var r := GetCategoricalStats(data, column);
      vs != [] ==>
        && r.uniqueValues == |set x | x in vs|
        && (forall x :: x in vs ==> multiset(vs)[x] <= r.occurrences)
        && (forall x :: x in vs[..IndexOf(vs, r.mostFrequent)] ==> multiset(vs)[x] < r.occurrences)
  {
    var vs := CategoricalValues(data, column);
    if vs != [] {
      var counts := Counter(vs);
      CounterCounts(vs);
      CounterSize(vs);
      assert vs[0] in Keys(counts);
      var k := MostCommonIndex(counts);
      FirstSeenWinsTies(counts, vs, k);
    }
  }
}
