/**
 * `analyze_grouped`: keep the rows whose grouping cells are all truthy, sort
 * them stably by their key tuple, cut the sorted rows into runs of equal keys
 * (`itertools.groupby`) and analyse every run as a dataset of its own.
 */
module Grouping {
  import opened Records
  import opened KeyOrder
  import opened NumericSummary
  import opened Classifier

  /** `all(row.get(k) for k in group_by_keys)`. */
  predicate KeepRow(row: Record, keys: seq<string>) {
    forall i :: 0 <= i < |keys| ==> Truthy(Get(row, keys[i]))
  }

  /** The list comprehension that drops rows with a falsy grouping cell. */
  function Kept(data: seq<Record>, keys: seq<string>): seq<Record> {
    if data == [] then []
    else (if KeepRow(data[0], keys) then [data[0]] else []) + Kept(data[1..], keys)
  }

  /** `itemgetter(*group_by_keys)(row)`; the cells of a kept row are all present. */
  function KeyOf(row: Record, keys: seq<string>): (k: seq<string>)
    ensures |k| == |keys|
  {
    seq(|keys|, i requires 0 <= i < |keys| => Get(row, keys[i]).GetOr(""))
  }

  /** The key of a kept row holds its grouping cells, none of them empty. */
  lemma KeyOfKeptRow(row: Record, keys: seq<string>)
    requires KeepRow(row, keys)
    ensures forall i :: 0 <= i < |keys| ==> Some(KeyOf(row, keys)[i]) == Get(row, keys[i]) && KeyOf(row, keys)[i] != ""
  {
  }

  /** The rows of `s` whose key is `k`, in their order in `s`. */
  function WithKey(s: seq<Record>, keys: seq<string>, k: seq<string>): seq<Record> {
    if s == [] then []
    else (if KeyOf(s[0], keys) == k then [s[0]] else []) + WithKey(s[1..], keys, k)
  }

  lemma {:induction false} WithKeyAppend(s: seq<Record>, t: seq<Record>, keys: seq<string>, k: seq<string>)
    ensures WithKey(s + t, keys, k) == WithKey(s, keys, k) + WithKey(t, keys, k)
  {
    if s != [] {
      assert (s + t)[0] == s[0];
      assert (s + t)[1..] == s[1..] + t;
      WithKeyAppend(s[1..], t, keys, k);
    } else {
      assert s + t == t;
    }
  }

  lemma {:induction false} WithKeyNone(s: seq<Record>, keys: seq<string>, k: seq<string>)
    requires forall i :: 0 <= i < |s| ==> KeyOf(s[i], keys) != k
    ensures WithKey(s, keys, k) == []
  {
    if s != [] {
      WithKeyNone(s[1..], keys, k);
    }
  }

  lemma {:induction false} WithKeyAll(s: seq<Record>, keys: seq<string>, k: seq<string>)
    requires forall i :: 0 <= i < |s| ==> KeyOf(s[i], keys) == k
    ensures WithKey(s, keys, k) == s
  {
    if s != [] {
      WithKeyAll(s[1..], keys, k);
    }
  }

  /** Stable insertion: `x` goes in front of the first row whose key is not
      smaller than its own, so it stays ahead of rows with an equal key. */
  function Insert(x: Record, t: seq<Record>, keys: seq<string>): seq<Record> {
    if t == [] then [x]
    else if TupleLess(KeyOf(t[0], keys), KeyOf(x, keys)) then [t[0]] + Insert(x, t[1..], keys)
    else [x] + t
  }

  /** `sorted(rows, key=itemgetter(*group_by_keys))`.  Python's sort is stable,
      and a stable sort has exactly one possible output, so this insertion sort
      returns what the library sort returns. */
  function SortByKey(s: seq<Record>, keys: seq<string>): (r: seq<Record>)
    ensures multiset(r) == multiset(s)
  {
    if s == [] then []
    else
      InsertPermutes(s[0], SortByKey(s[1..], keys), keys);
      assert s == [s[0]] + s[1..];
      Insert(s[0], SortByKey(s[1..], keys), keys)
  }

  predicate Sorted(s: seq<Record>, keys: seq<string>) {
    forall i, j :: 0 <= i < j < |s| ==> !TupleLess(KeyOf(s[j], keys), KeyOf(s[i], keys))
  }

  lemma {:induction false} InsertPermutes(x: Record, t: seq<Record>, keys: seq<string>)
    ensures multiset(Insert(x, t, keys)) == multiset(t) + multiset{x}
  {
    if t != [] && TupleLess(KeyOf(t[0], keys), KeyOf(x, keys)) {
      InsertPermutes(x, t[1..], keys);
      assert t == [t[0]] + t[1..];
    }
  }

  /** A row no greater than any row of a sorted sequence can go in front. */
  lemma SortedCons(y: Record, t: seq<Record>, keys: seq<string>)
    requires Sorted(t, keys)
    requires forall z :: z in t ==> !TupleLess(KeyOf(z, keys), KeyOf(y, keys))
    ensures Sorted([y] + t, keys)
  {
    var r := [y] + t;
    forall i, j | 0 <= i < j < |r| ensures !TupleLess(KeyOf(r[j], keys), KeyOf(r[i], keys)) {
      assert r[j] == t[j - 1];
      if i > 0 {
        assert r[i] == t[i - 1];
      }
    }
  }

  /** Inserting a row that is not below `k` among rows that are not below `k`
      leaves no row below `k`. */
  lemma InsertKeepsLowerBound(x: Record, t: seq<Record>, keys: seq<string>, k: seq<string>)
    requires !TupleLess(KeyOf(x, keys), k)
    requires forall z :: z in t ==> !TupleLess(KeyOf(z, keys), k)
    ensures forall z :: z in Insert(x, t, keys) ==> !TupleLess(KeyOf(z, keys), k)
  {
    InsertPermutes(x, t, keys);
    forall z | z in Insert(x, t, keys) ensures !TupleLess(KeyOf(z, keys), k) {
      assert z in multiset(Insert(x, t, keys));
    }
  }

  lemma {:induction false} InsertSorted(x: Record, t: seq<Record>, keys: seq<string>)
    requires Sorted(t, keys)
    ensures Sorted(Insert(x, t, keys), keys)
  {
    if t == [] {
    } else {
      var kx, k0 := KeyOf(x, keys), KeyOf(t[0], keys);
      var rest := t[1..];
      if TupleLess(k0, kx) {
        SortedSuffix(t, keys, 1);
        InsertSorted(x, rest, keys);
        TupleLessAsymmetric(k0, kx);
        forall z | z in rest ensures !TupleLess(KeyOf(z, keys), k0) {
          var m :| 0 <= m < |rest| && rest[m] == z;
          assert t[m + 1] == z;
        }
        InsertKeepsLowerBound(x, rest, keys, k0);
        SortedCons(t[0], Insert(x, rest, keys), keys);
      } else {
        forall z | z in t ensures !TupleLess(KeyOf(z, keys), kx) {
          var m :| 0 <= m < |t| && t[m] == z;
          if m > 0 {
            TupleLessEqTransitive(kx, k0, KeyOf(z, keys));
          }
        }
        SortedCons(x, t, keys);
      }
    }
  }

  lemma WithKeyCons(y: Record, t: seq<Record>, keys: seq<string>, k: seq<string>)
    ensures WithKey([y] + t, keys, k) == (if KeyOf(y, keys) == k then [y] else []) + WithKey(t, keys, k)
  {
    assert ([y] + t)[0] == y && ([y] + t)[1..] == t;
  }

  /** A row passed in front of both sides of an equation between key classes
      leaves it intact, provided it cannot clash with the extra part. */
  lemma WithKeyConsBoth(y: Record, ins: seq<Record>, rest: seq<Record>, mine: seq<Record>, keys: seq<string>, k: seq<string>)
    requires WithKey(ins, keys, k) == mine + WithKey(rest, keys, k)
    requires KeyOf(y, keys) == k ==> mine == []
    ensures WithKey([y] + ins, keys, k) == mine + WithKey([y] + rest, keys, k)
  {
    WithKeyCons(y, ins, keys, k);
    WithKeyCons(y, rest, keys, k);
  }

  /** Inserting `x` in front of rows of its key keeps it ahead of them. */
  lemma {:induction false} WithKeyInsert(x: Record, t: seq<Record>, keys: seq<string>, k: seq<string>)
    ensures WithKey(Insert(x, t, keys), keys, k) == (if KeyOf(x, keys) == k then [x] else []) + WithKey(t, keys, k)
  {
    if t == [] {
      WithKeyCons(x, [], keys, k);
    } else if TupleLess(KeyOf(t[0], keys), KeyOf(x, keys)) {
      var mine := if KeyOf(x, keys) == k then [x] else [];
      WithKeyInsert(x, t[1..], keys, k);
      if KeyOf(t[0], keys) == k {
        TupleLessIrreflexive(k);
      }
      WithKeyConsBoth(t[0], Insert(x, t[1..], keys), t[1..], mine, keys, k);
      assert t == [t[0]] + t[1..];
    } else {
      WithKeyCons(x, t, keys, k);
    }
  }

  /** The sort orders its rows by key. */
  lemma {:induction false} SortByKeySorts(s: seq<Record>, keys: seq<string>)
    ensures Sorted(SortByKey(s, keys), keys)
  {
    if s != [] {
      SortByKeySorts(s[1..], keys);
      InsertSorted(s[0], SortByKey(s[1..], keys), keys);
    }
  }

  /** Stability: rows with equal keys keep their relative order. */
  lemma {:induction false} SortByKeyStable(s: seq<Record>, keys: seq<string>, k: seq<string>)
    ensures WithKey(SortByKey(s, keys), keys, k) == WithKey(s, keys, k)
  {
    if s != [] {
      SortByKeyStable(s[1..], keys, k);
      WithKeyInsert(s[0], SortByKey(s[1..], keys), keys, k);
    }
  }

  /** How many leading rows of `s` have key `k`. */
  function RunLength(s: seq<Record>, keys: seq<string>, k: seq<string>): (n: nat)
    ensures n <= |s|
    ensures s != [] && KeyOf(s[0], keys) == k ==> n >= 1
  {
    if s == [] || KeyOf(s[0], keys) != k then 0
    else 1 + RunLength(s[1..], keys, k)
  }

  /** The run is the longest prefix of rows with key `k`. */
  lemma {:induction false} RunLengthMaximal(s: seq<Record>, keys: seq<string>, k: seq<string>)
    ensures var n := RunLength(s, keys, k);
      && (forall i :: 0 <= i < n ==> KeyOf(s[i], keys) == k)
      && (n < |s| ==> KeyOf(s[n], keys) != k)
  {
    if s != [] && KeyOf(s[0], keys) == k {
      RunLengthMaximal(s[1..], keys, k);
      var n := RunLength(s, keys, k);
      assert forall i :: 1 <= i <= n && i < |s| ==> s[i] == s[1..][i - 1];
    }
  }

  /** A prefix of rows with key `k` followed by a row with another key (or by
      nothing) is exactly the run. */
  lemma {:induction false} RunLengthExact(s: seq<Record>, keys: seq<string>, k: seq<string>, n: nat)
    requires n <= |s|
    requires forall i :: 0 <= i < n ==> KeyOf(s[i], keys) == k
    requires n < |s| ==> KeyOf(s[n], keys) != k
    ensures RunLength(s, keys, k) == n
  {
    if n > 0 {
      var rest := s[1..];
      assert forall i :: 0 <= i < n - 1 ==> rest[i] == s[i + 1];
      RunLengthExact(rest, keys, k, n - 1);
    }
  }

  /** `itertools.groupby`: the maximal runs of consecutive rows with equal keys.
      Concatenating the runs gives back the rows. */
  function Runs(s: seq<Record>, keys: seq<string>): (r: seq<seq<Record>>)
    ensures Flatten(r) == s
    decreases |s|
  {
    if s == [] then []
    else
      var n := RunLength(s, keys, KeyOf(s[0], keys));
      assert s[..n] + s[n..] == s;
      [s[..n]] + Runs(s[n..], keys)
  }

  function Flatten(groups: seq<seq<Record>>): seq<Record> {
    if groups == [] then [] else groups[0] + Flatten(groups[1..])
  }

  /** Every run is non-empty and all of its rows share the run's key. */
  lemma {:induction false} RunsUniform(s: seq<Record>, keys: seq<string>)
    ensures forall g :: g in Runs(s, keys) ==>
      g != [] && forall i :: 0 <= i < |g| ==> KeyOf(g[i], keys) == KeyOf(g[0], keys)
    decreases |s|
  {
    if s != [] {
      var k := KeyOf(s[0], keys);
      var n := RunLength(s, keys, k);
      RunsUniform(s[n..], keys);
      var head := s[..n];
      RunLengthMaximal(s, keys, k);
      forall i | 0 <= i < |head| ensures KeyOf(head[i], keys) == k {
        assert head[i] == s[i];
      }
    }
  }

  /** The first row of every run of `s` is a row of `s`. */
  lemma {:induction false} RunHeadsIn(s: seq<Record>, keys: seq<string>)
    ensures forall g :: g in Runs(s, keys) ==> g != [] && g[0] in s
    decreases |s|
  {
    if s != [] {
      var n := RunLength(s, keys, KeyOf(s[0], keys));
      RunHeadsIn(s[n..], keys);
      forall x | x in s[n..] ensures x in s {
        var m :| 0 <= m < |s[n..]| && s[n..][m] == x;
        assert s[n + m] == x;
      }
    }
  }

  lemma SortedSuffix(s: seq<Record>, keys: seq<string>, n: nat)
    requires Sorted(s, keys) && n <= |s|
    ensures Sorted(s[n..], keys)
  {
    var t := s[n..];
    forall i, j | 0 <= i < j < |t| ensures !TupleLess(KeyOf(t[j], keys), KeyOf(t[i], keys)) {
      assert t[i] == s[n + i] && t[j] == s[n + j];
    }
  }

  /** In a sorted sequence, a row after the end of the first run has a key
      strictly greater than the first run's key. */
  lemma AfterFirstRun(s: seq<Record>, keys: seq<string>, x: Record)
    requires Sorted(s, keys) && s != []
    requires x in s[RunLength(s, keys, KeyOf(s[0], keys))..]
    ensures TupleLess(KeyOf(s[0], keys), KeyOf(x, keys))
  {
    var k := KeyOf(s[0], keys);
    var n := RunLength(s, keys, k);
    var m :| 0 <= m < |s[n..]| && s[n..][m] == x;
    assert s[n + m] == x;
    RunLengthMaximal(s, keys, k);
    assert !TupleLess(KeyOf(s[n], keys), k);
    TupleLessTotal(k, KeyOf(s[n], keys));
    if m > 0 {
      assert !TupleLess(KeyOf(x, keys), KeyOf(s[n], keys));
      TupleLessThenLessEq(k, KeyOf(s[n], keys), KeyOf(x, keys));
    }
  }

  /** Run `a` starts with a key below the first key of run `b`. */
  predicate HeadBelow(a: seq<Record>, b: seq<Record>, keys: seq<string>) {
    a != [] && b != [] && TupleLess(KeyOf(a[0], keys), KeyOf(b[0], keys))
  }

  /** The first rows of the runs have strictly increasing keys. */
  predicate HeadsAscend(runs: seq<seq<Record>>, keys: seq<string>) {
    forall i, j :: 0 <= i < j < |runs| ==> HeadBelow(runs[i], runs[j], keys)
  }

  lemma HeadsAscendCons(head: seq<Record>, runs: seq<seq<Record>>, keys: seq<string>)
    requires HeadsAscend(runs, keys)
    requires forall g :: g in runs ==> HeadBelow(head, g, keys)
    ensures HeadsAscend([head] + runs, keys)
  {
    var all := [head] + runs;
    forall i, j | 0 <= i < j < |all| ensures HeadBelow(all[i], all[j], keys) {
      assert all[j] == runs[j - 1];
      if i > 0 {
        assert all[i] == runs[i - 1];
      } else {
        assert runs[j - 1] in runs;
      }
    }
  }

  /** One step of `Runs`. */
  lemma RunsUnfold(s: seq<Record>, keys: seq<string>)
    requires s != []
    ensures var n := RunLength(s, keys, KeyOf(s[0], keys));
      1 <= n && Runs(s, keys) == [s[..n]] + Runs(s[n..], keys)
  {
  }

  /** On sorted rows, every later run starts with a key above the first run's. */
  lemma LaterRunsAbove(s: seq<Record>, keys: seq<string>)
    requires Sorted(s, keys) && s != []
    ensures var n := RunLength(s, keys, KeyOf(s[0], keys));
      forall g :: g in Runs(s[n..], keys) ==> g != [] && TupleLess(KeyOf(s[0], keys), KeyOf(g[0], keys))
  {
    var n := RunLength(s, keys, KeyOf(s[0], keys));
    RunHeadsIn(s[n..], keys);
    forall g | g in Runs(s[n..], keys) ensures g != [] && TupleLess(KeyOf(s[0], keys), KeyOf(g[0], keys)) {
      AfterFirstRun(s, keys, g[0]);
    }
  }

  /** On sorted rows the run keys strictly increase, so no key heads two runs. */
  lemma {:induction false} RunKeysAscend(s: seq<Record>, keys: seq<string>)
    requires Sorted(s, keys)
    ensures HeadsAscend(Runs(s, keys), keys)
    decreases |s|
  {
    if s != [] {
      var n := RunLength(s, keys, KeyOf(s[0], keys));
      RunsUnfold(s, keys);
      SortedSuffix(s, keys, n);
      RunKeysAscend(s[n..], keys);
      LaterRunsAbove(s, keys);
      HeadsAscendCons(s[..n], Runs(s[n..], keys), keys);
    }
  }

  /** A prefix of rows with key `k` followed only by rows of other keys is
      the class of `k`. */
  lemma PrefixIsClass(s: seq<Record>, keys: seq<string>, k: seq<string>, n: nat)
    requires n <= |s|
    requires forall i :: 0 <= i < n ==> KeyOf(s[i], keys) == k
    requires forall i :: n <= i < |s| ==> KeyOf(s[i], keys) != k
    ensures s[..n] == WithKey(s, keys, k)
  {
    var head, rest := s[..n], s[n..];
    assert s == head + rest;
    WithKeyAppend(head, rest, keys, k);
    assert forall i :: 0 <= i < |head| ==> head[i] == s[i];
    WithKeyAll(head, keys, k);
    assert forall i :: 0 <= i < |rest| ==> rest[i] == s[n + i];
    WithKeyNone(rest, keys, k);
  }

  /** A prefix without rows of key `k` contributes nothing to its class. */
  lemma SkipPrefix(s: seq<Record>, keys: seq<string>, k: seq<string>, n: nat)
    requires n <= |s|
    requires forall i :: 0 <= i < n ==> KeyOf(s[i], keys) != k
    ensures WithKey(s, keys, k) == WithKey(s[n..], keys, k)
  {
    var head, rest := s[..n], s[n..];
    assert s == head + rest;
    WithKeyAppend(head, rest, keys, k);
    assert forall i :: 0 <= i < |head| ==> head[i] == s[i];
    WithKeyNone(head, keys, k);
  }

  /** On sorted rows the first run holds every row with its key. */
  lemma FirstRunIsClass(s: seq<Record>, keys: seq<string>)
    requires Sorted(s, keys) && s != []
    ensures var n := RunLength(s, keys, KeyOf(s[0], keys));
      s[..n] == WithKey(s, keys, KeyOf(s[0], keys))
  {
    var k := KeyOf(s[0], keys);
    var n := RunLength(s, keys, k);
    RunLengthMaximal(s, keys, k);
    forall i | n <= i < |s| ensures KeyOf(s[i], keys) != k {
      assert s[i] == s[n..][i - n];
      AfterFirstRun(s, keys, s[i]);
      TupleLessIrreflexive(k);
    }
    PrefixIsClass(s, keys, k, n);
  }

  /** On sorted rows a key above the first run's has no row in the first run. */
  lemma LaterKeyClass(s: seq<Record>, keys: seq<string>, kg: seq<string>)
    requires Sorted(s, keys) && s != [] && TupleLess(KeyOf(s[0], keys), kg)
    ensures var n := RunLength(s, keys, KeyOf(s[0], keys));
      WithKey(s, keys, kg) == WithKey(s[n..], keys, kg)
  {
    var k := KeyOf(s[0], keys);
    var n := RunLength(s, keys, k);
    RunLengthMaximal(s, keys, k);
    TupleLessIrreflexive(k);
    SkipPrefix(s, keys, kg, n);
  }

  /** On sorted rows every run is the whole class of its key: all rows with
      that key, in their order. */
  lemma {:induction false} RunsAreKeyClasses(s: seq<Record>, keys: seq<string>)
    requires Sorted(s, keys)
    ensures forall g :: g in Runs(s, keys) ==> g != [] && g == WithKey(s, keys, KeyOf(g[0], keys))
    decreases |s|
  {
    if s != [] {
      var n := RunLength(s, keys, KeyOf(s[0], keys));
      var rest := s[n..];
      RunsUnfold(s, keys);
      SortedSuffix(s, keys, n);
      RunsAreKeyClasses(rest, keys);
      LaterRunsAbove(s, keys);
      FirstRunIsClass(s, keys);
      forall g | g in Runs(rest, keys) ensures g == WithKey(s, keys, KeyOf(g[0], keys)) {
        LaterKeyClass(s, keys, KeyOf(g[0], keys));
      }
    }
  }

  /** The rows a group report covers, and what `analyze_dataframe` prints for them. */
  datatype GroupReport = GroupReport(key: seq<string>, rows: seq<Record>, report: Option<seq<ColumnReport>>)

  datatype Grouped =
    | NoData            // `if not data: return`
    | ColumnsNotFound   // the "Skipping Grouped Analysis" message
    | Groups(groups: seq<GroupReport>)

  predicate HasColumns(data: seq<Record>, keys: seq<string>)
    requires data != []
  {
    forall i :: 0 <= i < |keys| ==> keys[i] in Headers(data[0])
  }

  /** The runs `analyze_grouped` visits. */
  function GroupRuns(data: seq<Record>, keys: seq<string>): seq<seq<Record>> {
    Runs(SortByKey(Kept(data, keys), keys), keys)
  }

  function ReportOfRun(g: seq<Record>, keys: seq<string>, parse: Parser): GroupReport
    requires g != []
  {
    GroupReport(KeyOf(g[0], keys), g, DataframeReport(g, parse))
  }

  /** One report per run, in run order. */
  function GroupReports(runs: seq<seq<Record>>, keys: seq<string>, parse: Parser): seq<GroupReport>
    requires forall g :: g in runs ==> g != []
  {
    if runs == [] then []
    else
      assert runs[0] in runs;
      assert forall g :: g in runs[1..] ==> g in runs;
      [ReportOfRun(runs[0], keys, parse)] + GroupReports(runs[1..], keys, parse)
  }

  lemma GroupReportsCons(g: seq<Record>, runs: seq<seq<Record>>, keys: seq<string>, parse: Parser)
    requires g != [] && forall h :: h in runs ==> h != []
    ensures GroupReports([g] + runs, keys, parse) == [ReportOfRun(g, keys, parse)] + GroupReports(runs, keys, parse)
  {
    assert ([g] + runs)[0] == g && ([g] + runs)[1..] == runs;
  }

  lemma {:induction false} GroupReportsAt(runs: seq<seq<Record>>, keys: seq<string>, parse: Parser)
    requires forall i :: 0 <= i < |runs| ==> runs[i] != []
    ensures |GroupReports(runs, keys, parse)| == |runs|
    ensures forall i :: 0 <= i < |runs| ==> GroupReports(runs, keys, parse)[i] == ReportOfRun(runs[i], keys, parse)
  {
    if runs != [] {
      var rest := runs[1..];
      GroupReportsAt(rest, keys, parse);
      var r := GroupReports(runs, keys, parse);
      assert r == [ReportOfRun(runs[0], keys, parse)] + GroupReports(rest, keys, parse);
      forall i | 0 < i < |runs| ensures r[i] == ReportOfRun(runs[i], keys, parse) {
        assert runs[i] == rest[i - 1];
      }
    }
  }

  /** Every run of a non-empty sequence is non-empty. */
  lemma RunsNonEmpty(s: seq<Record>, keys: seq<string>)
    ensures forall g :: g in Runs(s, keys) ==> g != []
  {
    RunsUniform(s, keys);
  }

  /** What `analyze_grouped` does for a dataset and a list of grouping columns. */
  function GroupedAnalysis(data: seq<Record>, keys: seq<string>, parse: Parser): Grouped {
    if data == [] then NoData
    else if !HasColumns(data, keys) then ColumnsNotFound
    else
      var runs := GroupRuns(data, keys);
      RunsNonEmpty(SortByKey(Kept(data, keys), keys), keys);
      Groups(GroupReports(runs, keys, parse))
  }

  /** `analyze_grouped` returns at once on an empty dataset, skips the analysis
      exactly when some grouping column is not a header of the first record,
      and otherwise reports every run in order: its key, its rows, and the
      analysis of its rows as a dataset of their own. */
  lemma GroupedAnalysisOutcome(data: seq<Record>, keys: seq<string>, parse: Parser)
    ensures GroupedAnalysis(data, keys, parse) == NoData <==> data == []
    ensures GroupedAnalysis(data, keys, parse) == ColumnsNotFound <==>
      data != [] && exists i :: 0 <= i < |keys| && keys[i] !in Headers(data[0])
    ensures GroupedAnalysis(data, keys, parse).Groups? ==>
      var runs := GroupRuns(data, keys);
      var groups := GroupedAnalysis(data, keys, parse).groups;
      && |groups| == |runs|
      && forall i :: 0 <= i < |runs| ==>
           && runs[i] != []
           && groups[i].key == KeyOf(runs[i][0], keys)
           && groups[i].rows == runs[i]
           && groups[i].report == DataframeReport(runs[i], parse)
  {
    if GroupedAnalysis(data, keys, parse).Groups? {
      var runs := GroupRuns(data, keys);
      RunsNonEmpty(SortByKey(Kept(data, keys), keys), keys);
      forall i | 0 <= i < |runs| ensures runs[i] != [] {
        assert runs[i] in runs;
      }
      GroupReportsAt(runs, keys, parse);
    }
  }

  /** A row is kept exactly when it is a row of the data whose grouping cells
      are all truthy, and then as many times as it occurs in the data. */
  lemma {:induction false} KeptRows(data: seq<Record>, keys: seq<string>)
    ensures forall x :: x in Kept(data, keys) <==> x in data && KeepRow(x, keys)
    ensures forall x :: multiset(Kept(data, keys))[x] == (if KeepRow(x, keys) then multiset(data)[x] else 0)
    ensures multiset(Kept(data, keys)) <= multiset(data)
  {
    if data != [] {
      KeptRows(data[1..], keys);
      assert data == [data[0]] + data[1..];
    }
  }

  /** The partition `analyze_grouped` computes: the group keys strictly increase;
      every group is non-empty and holds exactly the kept rows with its key, in
      their original order; and the groups together hold exactly the kept rows. */
  lemma GroupsPartitionKeptRows(data: seq<Record>, keys: seq<string>)
    ensures var runs := GroupRuns(data, keys);
      && (forall i, j :: 0 <= i < j < |runs| ==>
            runs[i] != [] && runs[j] != [] && TupleLess(KeyOf(runs[i][0], keys), KeyOf(runs[j][0], keys)))
      && (forall g :: g in runs ==>
            g != [] && g == WithKey(Kept(data, keys), keys, KeyOf(g[0], keys)))
      && multiset(Flatten(runs)) == multiset(Kept(data, keys))
      && multiset(Flatten(runs)) <= multiset(data)
  {
    KeptRows(data, keys);
    var kept := Kept(data, keys);
    var sorted := SortByKey(kept, keys);
    SortByKeySorts(kept, keys);
    RunKeysAscend(sorted, keys);
    RunsAreKeyClasses(sorted, keys);
    RunsUniform(sorted, keys);
    forall g | g in Runs(sorted, keys) ensures g != [] && g == WithKey(kept, keys, KeyOf(g[0], keys)) {
      SortByKeyStable(kept, keys, KeyOf(g[0], keys));
    }
  }

  /** Every kept row falls in exactly one group, the one of its key. */
  lemma KeptRowInOneGroup(data: seq<Record>, keys: seq<string>, x: Record)
    requires x in data && KeepRow(x, keys)
    ensures var runs := GroupRuns(data, keys);
      exists i :: 0 <= i < |runs| && x in runs[i] && KeyOf(runs[i][0], keys) == KeyOf(x, keys)
    ensures var runs := GroupRuns(data, keys);
      forall i :: 0 <= i < |runs| && x in runs[i] ==> KeyOf(runs[i][0], keys) == KeyOf(x, keys)
  {
    var runs := GroupRuns(data, keys);
    var sorted := SortByKey(Kept(data, keys), keys);
    KeptRows(data, keys);
    GroupsPartitionKeptRows(data, keys);
    RunsUniform(sorted, keys);
    FlattenMember(runs, x);
    forall i | 0 <= i < |runs| && x in runs[i] ensures KeyOf(runs[i][0], keys) == KeyOf(x, keys) {
      assert runs[i] in runs;
      var m :| 0 <= m < |runs[i]| && runs[i][m] == x;
    }
  }

  /** No row sits in two groups: the groups' keys strictly increase. */
  lemma RowInAtMostOneGroup(data: seq<Record>, keys: seq<string>, x: Record)
    ensures var runs := GroupRuns(data, keys);
      forall i, j :: 0 <= i < |runs| && 0 <= j < |runs| && x in runs[i] && x in runs[j] ==> i == j
  {
    var runs := GroupRuns(data, keys);
    GroupRowsShareKey(data, keys);
    GroupsPartitionKeptRows(data, keys);
    forall i, j | 0 <= i < |runs| && 0 <= j < |runs| && x in runs[i] && x in runs[j] ensures i == j {
      var k := KeyOf(x, keys);
      assert runs[i] in runs && runs[j] in runs;
      TupleLessIrreflexive(k);
    }
  }

  /** Every row of a group has the group's key, and neighbouring groups have
      different keys. */
  lemma GroupRowsShareKey(data: seq<Record>, keys: seq<string>)
    ensures var runs := GroupRuns(data, keys);
      forall g :: g in runs ==> g != [] && forall x :: x in g ==> KeyOf(x, keys) == KeyOf(g[0], keys)
    ensures var runs := GroupRuns(data, keys);
      forall i, j :: 0 <= i && j == i + 1 && j < |runs| ==>
        runs[i] != [] && runs[j] != [] && KeyOf(runs[i][0], keys) != KeyOf(runs[j][0], keys)
  {
    var runs := GroupRuns(data, keys);
    RunsUniform(SortByKey(Kept(data, keys), keys), keys);
    forall g | g in runs ensures forall x :: x in g ==> KeyOf(x, keys) == KeyOf(g[0], keys) {
      forall x | x in g ensures KeyOf(x, keys) == KeyOf(g[0], keys) {
        var m :| 0 <= m < |g| && g[m] == x;
      }
    }
    GroupsPartitionKeptRows(data, keys);
    forall i, j | 0 <= i && j == i + 1 && j < |runs|
      ensures runs[i] != [] && runs[j] != [] && KeyOf(runs[i][0], keys) != KeyOf(runs[j][0], keys)
    {
      TupleLessIrreflexive(KeyOf(runs[i][0], keys));
    }
  }

  lemma {:induction false} FlattenMember(groups: seq<seq<Record>>, x: Record)
    requires x in multiset(Flatten(groups))
    ensures exists i :: 0 <= i < |groups| && x in groups[i]
  {
    if x in groups[0] {
    } else {
      FlattenMember(groups[1..], x);
      var i :| 0 <= i < |groups[1..]| && x in groups[1..][i];
      assert groups[i + 1] == groups[1..][i];
    }
  }

  /** The inner scan of the `groupby` loop: from the first of the remaining
      rows, find where its run ends. */
  method RunEnd(rest: seq<Record>, keys: seq<string>) returns (n: nat)
    requires rest != []
    ensures 0 < n <= |rest|
    ensures n == RunLength(rest, keys, KeyOf(rest[0], keys))
  {
    var key := KeyOf(rest[0], keys);
    n := 1;
    while n < |rest| && KeyOf(rest[n], keys) == key
      invariant 0 < n <= |rest|
      invariant forall m :: 0 <= m < n ==> KeyOf(rest[m], keys) == key
    {
      n := n + 1;
    }
    RunLengthExact(rest, keys, key, n);
  }

  /** The body of the `groupby` loop for one run. */
  method AnalyzeRun(g: seq<Record>, keys: seq<string>, parse: Parser) returns (group: GroupReport)
    requires g != []
    ensures group == ReportOfRun(g, keys, parse)
  {
    var report := AnalyzeDataframe(g, parse);
    group := GroupReport(KeyOf(g[0], keys), g, report);
  }

  /** The `groupby` loop: one report per run of equal keys, each run analysed
      as a dataset of its own; `rest` holds the rows the iterator has not
      consumed yet. */
  method GroupbyLoop(sorted: seq<Record>, keys: seq<string>, parse: Parser) returns (groups: seq<GroupReport>)
    requires forall g :: g in Runs(sorted, keys) ==> g != []
    ensures groups == GroupReports(Runs(sorted, keys), keys, parse)
  {
    groups := [];
    var rest := sorted;
    while rest != []
      invariant forall g :: g in Runs(rest, keys) ==> g != []
      invariant groups + GroupReports(Runs(rest, keys), keys, parse) == GroupReports(Runs(sorted, keys), keys, parse)
      decreases |rest|
    {
      var n := RunEnd(rest, keys);
      RunsUnfold(rest, keys);
      RunsNonEmpty(rest[n..], keys);
      var group := AnalyzeRun(rest[..n], keys, parse);
      GroupReportsCons(rest[..n], Runs(rest[n..], keys), keys, parse);
      groups := groups + [group];
      rest := rest[n..];
    }
  }

  /** `analyze_grouped`: the two early returns, the filter and the sort, then
      the `groupby` loop. */
  method AnalyzeGrouped(data: seq<Record>, keys: seq<string>, parse: Parser) returns (result: Grouped)
    requires data == [] || |keys| >= 1
    ensures result == GroupedAnalysis(data, keys, parse)
  {
    if data == [] {
      return NoData;
    }
    if !HasColumns(data, keys) {
      return ColumnsNotFound;
    }
    var sorted := SortByKey(Kept(data, keys), keys);
    RunsNonEmpty(sorted, keys);
    var groups := GroupbyLoop(sorted, keys, parse);
    result := Groups(groups);
  }
}
