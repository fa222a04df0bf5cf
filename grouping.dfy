/** The meaning of `SELECT key, SUM(...) ... GROUP BY key ORDER BY metric DESC
    [LIMIT n]` over materialised sales lines, and the TypeScript
    post-processing that numbers the rows and gives each a percentage of the
    returned total.

    SQL gives no tie-break for equal metrics, so `IsGroupedResult` describes
    every answer the engine may return; `GroupAndOrder` computes one of them.
    The post-processing lemmas hold for any row sequence. */
module Grouping {
  import opened Common
  import opened Sales

  /** One aggregate row: a group key with the two sums the queries select. */
  datatype Group<K> = Group(key: K, quantity: int, salesAmount: int)

  function GroupMetric<K>(g: Group<K>, m: Metric): int {
    match m
    case Quantity => g.quantity
    case Sales => g.salesAmount
  }

  /** The aggregate row that `GROUP BY key` yields for the key `k`. */
  function GroupFor<K(==,!new)>(lines: seq<SalesLine>, key: SalesLine -> K, k: K): Group<K> {
    Group(k, SumFor(lines, key, k, Quantity), SumFor(lines, key, k, Sales))
  }

  /** `ORDER BY metric DESC`: no row is followed by a larger one. */
  predicate SortedDesc<K>(rows: seq<Group<K>>, m: Metric) {
    forall i, j :: 0 <= i < j < |rows| ==> GroupMetric(rows[i], m) >= GroupMetric(rows[j], m)
  }

  /** Each group key occurs at most once. */
  predicate KeysDistinct<K(==,!new)>(rows: seq<Group<K>>) {
    forall i, j :: 0 <= i < j < |rows| ==> rows[i].key != rows[j].key
  }

  function RowKeys<K>(rows: seq<Group<K>>): set<K> {
    set r | r in rows :: r.key
  }

  /** The number of rows `LIMIT` lets through out of `n` groups (`None`: no `LIMIT` clause). */
  function LimitedSize(n: nat, limit: Option<nat>): nat {
    if limit.Some? && limit.value < n then limit.value else n
  }

  /** Every answer a SQL engine may give to the grouped, ordered, limited query:
      sorted non-increasingly, one row per key, each row carrying the sums of
      its group, as many rows as the limit allows, and no omitted group larger
      than a returned one. */
  predicate IsGroupedResult<K(==,!new)>(lines: seq<SalesLine>, key: SalesLine -> K, m: Metric,
                                   limit: Option<nat>, rows: seq<Group<K>>) {
    && SortedDesc(rows, m)
    && KeysDistinct(rows)
    && (forall r :: r in rows ==> r.key in KeySet(lines, key) && r == GroupFor(lines, key, r.key))
    && |rows| == LimitedSize(|KeySet(lines, key)|, limit)
    && (forall k, r :: k in KeySet(lines, key) && k !in RowKeys(rows) && r in rows ==>
          SumFor(lines, key, k, m) <= GroupMetric(r, m))
  }

  /** The distinct keys of the lines, each once. */
  function DistinctKeys<K(==,!new)>(lines: seq<SalesLine>, key: SalesLine -> K): (ks: seq<K>)
    ensures forall k :: k in ks <==> k in KeySet(lines, key)
    ensures forall i, j :: 0 <= i < j < |ks| ==> ks[i] != ks[j]
  {
    if lines == [] then []
    else
      var rest := DistinctKeys(lines[1..], key);
      assert forall l :: l in lines <==> l == lines[0] || l in lines[1..];
      if key(lines[0]) in rest then rest else [key(lines[0])] + rest
  }

  lemma {:induction false} DistinctCard<K(!new)>(ks: seq<K>)
    requires forall i, j :: 0 <= i < j < |ks| ==> ks[i] != ks[j]
    ensures |set k | k in ks| == |ks|
  {
    if ks != [] {
      DistinctCard(ks[1..]);
      assert (set k | k in ks) == {ks[0]} + (set k | k in ks[1..]);
      assert ks[0] !in (set k | k in ks[1..]);
    }
  }

  /** The number of distinct keys equals the length of `DistinctKeys`. */
  lemma DistinctKeysCard<K(!new)>(lines: seq<SalesLine>, key: SalesLine -> K)
    ensures |DistinctKeys(lines, key)| == |KeySet(lines, key)|
  {
    var ks := DistinctKeys(lines, key);
    DistinctCard(ks);
    assert (set k | k in ks) == KeySet(lines, key);
  }

  /** One aggregate row per key, in the order of the keys. */
  function GroupsFor<K(==,!new)>(lines: seq<SalesLine>, key: SalesLine -> K, ks: seq<K>): (gs: seq<Group<K>>)
    ensures |gs| == |ks|
    ensures forall i :: 0 <= i < |ks| ==> gs[i] == GroupFor(lines, key, ks[i])
  {
    if ks == [] then [] else [GroupFor(lines, key, ks[0])] + GroupsFor(lines, key, ks[1..])
  }

  /** A row no smaller than any row of a sorted sequence may be put in front of it. */
  lemma SortedDescCons<K>(x: Group<K>, rest: seq<Group<K>>, m: Metric)
    requires SortedDesc(rest, m)
    requires forall y :: y in rest ==> GroupMetric(y, m) <= GroupMetric(x, m)
    ensures SortedDesc([x] + rest, m)
  {
    var s := [x] + rest;
    forall i, j | 0 <= i < j < |s| ensures GroupMetric(s[i], m) >= GroupMetric(s[j], m) {
      assert s[j] == rest[j - 1];
      assert rest[j - 1] in rest;
      if i > 0 {
        assert s[i] == rest[i - 1];
      }
    }
  }

  /** Inserts a row before the first strictly smaller one. */
  function InsertDesc<K>(g: Group<K>, s: seq<Group<K>>, m: Metric): (r: seq<Group<K>>)
    requires SortedDesc(s, m)
    ensures SortedDesc(r, m)
    ensures multiset(r) == multiset(s) + multiset{g}
  {
    if s == [] then [g]
    else if GroupMetric(g, m) >= GroupMetric(s[0], m) then
      SortedDescCons(g, s, m);
      [g] + s
    else
      var rest := InsertDesc(g, s[1..], m);
      assert s == [s[0]] + s[1..];
      InsertDescBounded(g, s, m, rest);
      SortedDescCons(s[0], rest, m);
      [s[0]] + rest
  }

  lemma InsertDescBounded<K>(g: Group<K>, s: seq<Group<K>>, m: Metric, rest: seq<Group<K>>)
    requires s != [] && SortedDesc(s, m) && GroupMetric(g, m) < GroupMetric(s[0], m)
    requires multiset(rest) == multiset(s[1..]) + multiset{g}
    ensures forall x :: x in rest ==> GroupMetric(x, m) <= GroupMetric(s[0], m)
  {
    forall x | x in rest ensures GroupMetric(x, m) <= GroupMetric(s[0], m) {
      assert x in multiset(rest);
      if x != g {
        assert x in multiset(s[1..]);
        var j :| 0 <= j < |s[1..]| && s[1..][j] == x;
        assert s[j + 1] == x;
      }
    }
  }

  /** An insertion sort into non-increasing order (one admissible tie order). */
  function SortDesc<K>(s: seq<Group<K>>, m: Metric): (r: seq<Group<K>>)
    ensures SortedDesc(r, m)
    ensures multiset(r) == multiset(s)
  {
    if s == [] then []
    else
      assert s == [s[0]] + s[1..];
      InsertDesc(s[0], SortDesc(s[1..], m), m)
  }

  lemma {:induction false} InsertDescKeysDistinct<K(!new)>(g: Group<K>, s: seq<Group<K>>, m: Metric)
    requires SortedDesc(s, m) && KeysDistinct(s) && g.key !in RowKeys(s)
    ensures KeysDistinct(InsertDesc(g, s, m))
  {
    if s != [] && GroupMetric(g, m) < GroupMetric(s[0], m) {
      var rest := InsertDesc(g, s[1..], m);
      assert RowKeys(s[1..]) <= RowKeys(s);
      InsertDescKeysDistinct(g, s[1..], m);
      forall x | x in rest ensures x.key != s[0].key {
        assert x in multiset(rest);
        if x != g {
          var j :| 1 <= j < |s| && s[j] == x;
        }
      }
      assert InsertDesc(g, s, m) == [s[0]] + rest;
    }
  }

  lemma {:induction false} SortDescKeysDistinct<K(!new)>(s: seq<Group<K>>, m: Metric)
    requires KeysDistinct(s)
    ensures KeysDistinct(SortDesc(s, m))
  {
    if s != [] {
      var rest := SortDesc(s[1..], m);
      SortDescKeysDistinct(s[1..], m);
      forall x | x in rest ensures x.key != s[0].key {
        assert x in multiset(s[1..]);
        var j :| 0 <= j < |s[1..]| && s[1..][j] == x;
        assert s[j + 1] == x;
      }
      InsertDescKeysDistinct(s[0], rest, m);
    }
  }

  /** Groups the lines by `key`, orders the groups by `m` descending and keeps
      as many as `limit` allows: one admissible answer of the SQL engine. */
  function GroupAndOrder<K(==,!new)>(lines: seq<SalesLine>, key: SalesLine -> K, m: Metric,
                                limit: Option<nat>): (rows: seq<Group<K>>)
    ensures IsGroupedResult(lines, key, m, limit, rows)
  {
    var ks := DistinctKeys(lines, key);
    var gs := GroupsFor(lines, key, ks);
    var sorted := SortDesc(gs, m);
    var n := LimitedSize(|sorted|, limit);
    GroupAndOrderCorrect(lines, key, m, limit, ks, gs, sorted, n);
    sorted[..n]
  }

  lemma GroupAndOrderCorrect<K(!new)>(lines: seq<SalesLine>, key: SalesLine -> K, m: Metric, limit: Option<nat>,
                                ks: seq<K>, gs: seq<Group<K>>, sorted: seq<Group<K>>, n: nat)
    requires ks == DistinctKeys(lines, key)
    requires gs == GroupsFor(lines, key, ks)
    requires sorted == SortDesc(gs, m)
    requires n == LimitedSize(|sorted|, limit)
    ensures IsGroupedResult(lines, key, m, limit, sorted[..n])
  {
    var rows := sorted[..n];
    assert |sorted| == |gs| by {
      assert |multiset(sorted)| == |multiset(gs)|;
    }
    DistinctKeysCard(lines, key);
    assert |rows| == LimitedSize(|KeySet(lines, key)|, limit);
    assert KeysDistinct(gs);
    SortDescKeysDistinct(gs, m);
    PrefixKeepsOrder(sorted, m, n);
    GroupsArePermuted(lines, key, ks, gs, sorted);
    assert forall r :: r in rows ==> r in sorted;
    TopRowsDominate(lines, key, m, sorted, n);
  }

  lemma PrefixKeepsOrder<K(!new)>(s: seq<Group<K>>, m: Metric, n: nat)
    requires n <= |s| && SortedDesc(s, m) && KeysDistinct(s)
    ensures SortedDesc(s[..n], m) && KeysDistinct(s[..n])
  {
  }

  /** A reordering of the aggregate rows holds exactly one row per key, with its sums. */
  lemma GroupsArePermuted<K(!new)>(lines: seq<SalesLine>, key: SalesLine -> K,
                                   ks: seq<K>, gs: seq<Group<K>>, sorted: seq<Group<K>>)
    requires forall k :: k in ks <==> k in KeySet(lines, key)
    requires |gs| == |ks| && forall i :: 0 <= i < |ks| ==> gs[i] == GroupFor(lines, key, ks[i])
    requires multiset(sorted) == multiset(gs)
    ensures forall x :: x in sorted ==> x.key in KeySet(lines, key) && x == GroupFor(lines, key, x.key)
    ensures forall k :: k in KeySet(lines, key) ==> GroupFor(lines, key, k) in sorted
  {
    forall x | x in sorted ensures x.key in KeySet(lines, key) && x == GroupFor(lines, key, x.key) {
      assert x in multiset(gs);
      var i :| 0 <= i < |gs| && gs[i] == x;
    }
    forall k | k in KeySet(lines, key) ensures GroupFor(lines, key, k) in sorted {
      var i :| 0 <= i < |ks| && ks[i] == k;
      assert gs[i] in multiset(sorted);
    }
  }

  /** No group left out by the limit is larger than a returned one. */
  lemma TopRowsDominate<K(!new)>(lines: seq<SalesLine>, key: SalesLine -> K, m: Metric,
                                 sorted: seq<Group<K>>, n: nat)
    requires SortedDesc(sorted, m)
    requires forall k :: k in KeySet(lines, key) ==> GroupFor(lines, key, k) in sorted
    requires n <= |sorted|
    ensures forall k, r :: k in KeySet(lines, key) && k !in RowKeys(sorted[..n]) && r in sorted[..n] ==>
              SumFor(lines, key, k, m) <= GroupMetric(r, m)
  {
    var rows := sorted[..n];
    forall k, r | k in KeySet(lines, key) && k !in RowKeys(rows) && r in rows
      ensures SumFor(lines, key, k, m) <= GroupMetric(r, m)
    {
      var g := GroupFor(lines, key, k);
      var j :| 0 <= j < |sorted| && sorted[j] == g;
      assert j >= n;
      var a :| 0 <= a < n && rows[a] == r;
      assert GroupMetric(sorted[a], m) >= GroupMetric(sorted[j], m);
      assert GroupMetric(g, m) == SumFor(lines, key, k, m);
    }
  }

  /** With no limit, the returned keys are exactly the keys of the lines. */
  lemma UnlimitedKeepsEveryKey<K(!new)>(lines: seq<SalesLine>, key: SalesLine -> K, m: Metric,
                                        rows: seq<Group<K>>)
    requires IsGroupedResult(lines, key, m, None, rows)
    ensures RowKeys(rows) == KeySet(lines, key)
  {
    assert RowKeys(rows) <= KeySet(lines, key);
    DistinctRowsCoverKeys(rows, KeySet(lines, key));
  }

  /** Distinct keys, all from `ks`, and as many rows as `ks` has keys: every key of `ks` is used. */
  lemma DistinctRowsCoverKeys<K(!new)>(rows: seq<Group<K>>, ks: set<K>)
    requires KeysDistinct(rows) && RowKeys(rows) <= ks && |rows| == |ks|
    ensures RowKeys(rows) == ks
  {
    var keys := seq(|rows|, i requires 0 <= i < |rows| => rows[i].key);
    DistinctCard(keys);
    assert (set k | k in keys) == RowKeys(rows) by {
      forall r | r in rows ensures r.key in keys {
        var i :| 0 <= i < |rows| && rows[i] == r;
        assert keys[i] == r.key;
      }
    }
    var missing := ks - RowKeys(rows);
    assert |ks| == |RowKeys(rows)| + |missing|;
  }

  /** `results.reduce((sum, item) => sum + item.metric, 0)` over the returned rows. */
  function RowsTotal<K>(rows: seq<Group<K>>, m: Metric): int {
    if rows == [] then 0 else GroupMetric(rows[0], m) + RowsTotal(rows[1..], m)
  }

  /** Grouping conserves the sum: over any rows with distinct keys that carry
      their groups' sums, the rows add up to the lines with those keys. */
  lemma {:induction false} RowsTotalIsTotalWhere<K(!new)>(lines: seq<SalesLine>, key: SalesLine -> K, m: Metric,
                                                    rows: seq<Group<K>>)
    requires KeysDistinct(rows)
    requires forall r :: r in rows ==> r == GroupFor(lines, key, r.key)
    ensures RowsTotal(rows, m) == TotalWhere(lines, key, RowKeys(rows), m)
  {
    if rows == [] {
      assert RowKeys(rows) == {};
      TotalWhereEmpty(lines, key, m);
    } else {
      var rest := rows[1..];
      assert forall r :: r in rest ==> r in rows;
      assert KeysDistinct(rest);
      RowsTotalIsTotalWhere(lines, key, m, rest);
      assert RowKeys(rows) == RowKeys(rest) + {rows[0].key} by {
        assert forall r :: r in rows <==> r == rows[0] || r in rest;
      }
      assert rows[0].key !in RowKeys(rest) by {
        forall r | r in rest ensures r.key != rows[0].key {
          var j :| 0 <= j < |rest| && rest[j] == r;
          assert rows[j + 1] == r;
        }
      }
      TotalWhereAdd(lines, key, RowKeys(rest), rows[0].key, m);
      assert GroupMetric(rows[0], m) == SumFor(lines, key, rows[0].key, m);
    }
  }

  /** Without a limit the rows add up to the total of the grouped lines. */
  lemma UnlimitedRowsTotal<K(!new)>(lines: seq<SalesLine>, key: SalesLine -> K, m: Metric, rows: seq<Group<K>>)
    requires IsGroupedResult(lines, key, m, None, rows)
    ensures RowsTotal(rows, m) == Total(lines, m)
    ensures forall m' :: RowsTotal(rows, m') == Total(lines, m')
  {
    UnlimitedKeepsEveryKey(lines, key, m, rows);
    forall m' ensures RowsTotal(rows, m') == Total(lines, m') {
      RowsTotalIsTotalWhere(lines, key, m', rows);
      TotalWhereAll(lines, key, RowKeys(rows), m');
    }
  }

  /** One numbered row of the TypeScript result. */
  datatype Ranked<K> = Ranked(rank: nat, key: K, value: int, percentage: real)

  /** `total > 0 ? (value / total) * 100 : 0`. */
  function Percentage(value: int, total: int): real {
    if total > 0 then (value as real) / (total as real) * 100.0 else 0.0
  }

  /** `results.map((item, index) => ({ rank: index + 1, ..., percentage }))`. */
  function RankRows<K>(rows: seq<Group<K>>, m: Metric): (r: seq<Ranked<K>>)
    ensures |r| == |rows|
    ensures forall i :: 0 <= i < |r| ==> r[i].rank == i + 1 && r[i].key == rows[i].key && r[i].value == GroupMetric(rows[i], m)
    ensures forall i :: 0 <= i < |r| ==> r[i].percentage == Percentage(r[i].value, RowsTotal(rows, m))
  {
    var total := RowsTotal(rows, m);
    seq(|rows|, i requires 0 <= i < |rows| =>
      Ranked(i + 1, rows[i].key, GroupMetric(rows[i], m), Percentage(GroupMetric(rows[i], m), total)))
  }

  function SumPercentages<K>(items: seq<Ranked<K>>): real {
    if items == [] then 0.0 else items[0].percentage + SumPercentages(items[1..])
  }

  lemma {:induction false} SumPercentagesOf<K(!new)>(items: seq<Ranked<K>>, rows: seq<Group<K>>, m: Metric, total: int)
    requires total > 0 && |items| == |rows|
    requires forall i :: 0 <= i < |rows| ==> items[i].percentage == Percentage(GroupMetric(rows[i], m), total)
    ensures SumPercentages(items) == (RowsTotal(rows, m) as real) / (total as real) * 100.0
  {
    if rows != [] {
      SumPercentagesOf(items[1..], rows[1..], m, total);
      var v, s, t := GroupMetric(rows[0], m) as real, RowsTotal(rows[1..], m) as real, total as real;
      assert v / t * 100.0 + s / t * 100.0 == (v + s) / t * 100.0;
    }
  }

  /** When the returned total is positive the percentages add up to 100;
      otherwise every percentage is 0. */
  lemma PercentagesSum<K(!new)>(rows: seq<Group<K>>, m: Metric)
    ensures RowsTotal(rows, m) > 0 ==> SumPercentages(RankRows(rows, m)) == 100.0
    ensures RowsTotal(rows, m) <= 0 ==> forall it :: it in RankRows(rows, m) ==> it.percentage == 0.0
  {
    var total := RowsTotal(rows, m);
    if total > 0 {
      SumPercentagesOf(RankRows(rows, m), rows, m, total);
      assert (total as real) / (total as real) == 1.0;
    }
  }

  lemma {:induction false} RowBelowTotal<K(!new)>(rows: seq<Group<K>>, m: Metric, i: nat)
    requires i < |rows|
    requires forall r :: r in rows ==> GroupMetric(r, m) >= 0
    ensures 0 <= GroupMetric(rows[i], m) <= RowsTotal(rows, m)
  {
    assert rows[0] in rows;
    assert forall r :: r in rows[1..] ==> r in rows;
    if i > 0 {
      RowBelowTotal(rows[1..], m, i - 1);
    } else if |rows| > 1 {
      RowBelowTotal(rows[1..], m, 0);
    }
  }

  /** A share of a total that the value does not exceed lies between 0 and 100. */
  lemma ShareBounds(v: int, t: int)
    requires 0 <= v <= t
    ensures 0.0 <= Percentage(v, t) <= 100.0
  {
    if t > 0 {
      var x, y := v as real, t as real;
      assert x / y <= 1.0 by {
        assert x / y == x * (1.0 / y);
        assert 1.0 / y > 0.0;
        assert x * (1.0 / y) <= y * (1.0 / y);
      }
    }
  }

  /** With no negative row, every percentage lies between 0 and 100. */
  lemma PercentageBounds<K(!new)>(rows: seq<Group<K>>, m: Metric)
    requires forall r :: r in rows ==> GroupMetric(r, m) >= 0
    ensures forall i :: 0 <= i < |rows| ==> 0.0 <= RankRows(rows, m)[i].percentage <= 100.0
  {
    var items := RankRows(rows, m);
    forall i | 0 <= i < |rows| ensures 0.0 <= items[i].percentage <= 100.0 {
      RowBelowTotal(rows, m, i);
      ShareBounds(GroupMetric(rows[i], m), RowsTotal(rows, m));
    }
  }

  /** Over lines whose values are all positive, every returned group has a positive sum. */
  lemma PositiveGroups<K(!new)>(lines: seq<SalesLine>, key: SalesLine -> K, m: Metric,
                                limit: Option<nat>, rows: seq<Group<K>>)
    requires IsGroupedResult(lines, key, m, limit, rows)
    requires forall l :: l in lines ==> LineValue(l, m) > 0
    ensures forall g :: g in rows ==> GroupMetric(g, m) > 0
  {
    forall g | g in rows ensures GroupMetric(g, m) > 0 {
      assert g.key in KeySet(lines, key) && g == GroupFor(lines, key, g.key);
      SumForPositive(lines, key, g.key, m);
    }
  }

  /** `results.reduce((sum, item) => sum + item.value, 0)` over the numbered rows. */
  function RankedTotal<K>(items: seq<Ranked<K>>): int {
    if items == [] then 0 else items[0].value + RankedTotal(items[1..])
  }

  lemma {:induction false} RankedTotalOf<K>(items: seq<Ranked<K>>, rows: seq<Group<K>>, m: Metric)
    requires |items| == |rows|
    requires forall i :: 0 <= i < |rows| ==> items[i].value == GroupMetric(rows[i], m)
    ensures RankedTotal(items) == RowsTotal(rows, m)
  {
    if rows != [] {
      RankedTotalOf(items[1..], rows[1..], m);
    }
  }

  function RankedKeys<K>(items: seq<Ranked<K>>): set<K> {
    set it | it in items :: it.key
  }

  /** What the post-processed ranking promises: one numbered row per group key
      (as many as the limit allows), each with the sum of its group, in
      non-increasing order, no omitted group above a returned one, and each
      percentage taken of the returned total. */
  predicate IsRanking<K(==,!new)>(lines: seq<SalesLine>, key: SalesLine -> K, m: Metric,
                                limit: Option<nat>, r: seq<Ranked<K>>) {
    && |r| == LimitedSize(|KeySet(lines, key)|, limit)
    && (forall i :: 0 <= i < |r| ==>
          && r[i].rank == i + 1
          && r[i].key in KeySet(lines, key)
          && r[i].value == SumFor(lines, key, r[i].key, m)
          && r[i].percentage == Percentage(r[i].value, RankedTotal(r)))
    && (forall i, j :: 0 <= i < j < |r| ==> r[i].value >= r[j].value && r[i].key != r[j].key)
    && (forall k, i :: k in KeySet(lines, key) && k !in RankedKeys(r) && 0 <= i < |r| ==>
          SumFor(lines, key, k, m) <= r[i].value)
  }

  lemma RankedKeysOfRows<K(!new)>(rows: seq<Group<K>>, m: Metric)
    ensures RankedKeys(RankRows(rows, m)) == RowKeys(rows)
  {
    var r := RankRows(rows, m);
    forall k ensures k in RankedKeys(r) <==> k in RowKeys(rows) {
      if k in RowKeys(rows) {
        var g :| g in rows && g.key == k;
        var i :| 0 <= i < |rows| && rows[i] == g;
        assert r[i] in r;
      }
      if k in RankedKeys(r) {
        var it :| it in r && it.key == k;
        var i :| 0 <= i < |r| && r[i] == it;
        assert rows[i] in rows;
      }
    }
  }

  lemma RankedRowsAreGroups<K(!new)>(lines: seq<SalesLine>, key: SalesLine -> K, m: Metric, rows: seq<Group<K>>)
    requires forall g :: g in rows ==> g.key in KeySet(lines, key) && g == GroupFor(lines, key, g.key)
    ensures var r := RankRows(rows, m);
            forall i :: 0 <= i < |r| ==> r[i].key in KeySet(lines, key) && r[i].value == SumFor(lines, key, r[i].key, m)
  {
    var r := RankRows(rows, m);
    forall i | 0 <= i < |r|
      ensures r[i].key in KeySet(lines, key) && r[i].value == SumFor(lines, key, r[i].key, m)
    {
      assert rows[i] in rows;
    }
  }

  lemma RankedOrder<K(!new)>(rows: seq<Group<K>>, m: Metric)
    requires SortedDesc(rows, m) && KeysDistinct(rows)
    ensures var r := RankRows(rows, m);
            forall i, j :: 0 <= i < j < |r| ==> r[i].value >= r[j].value && r[i].key != r[j].key
  {
  }

  lemma RankedTopK<K(!new)>(lines: seq<SalesLine>, key: SalesLine -> K, m: Metric, rows: seq<Group<K>>)
    requires forall k, g :: k in KeySet(lines, key) && k !in RowKeys(rows) && g in rows ==>
               SumFor(lines, key, k, m) <= GroupMetric(g, m)
    ensures var r := RankRows(rows, m);
            forall k, i :: k in KeySet(lines, key) && k !in RankedKeys(r) && 0 <= i < |r| ==>
              SumFor(lines, key, k, m) <= r[i].value
  {
    var r := RankRows(rows, m);
    RankedKeysOfRows(rows, m);
    forall k, i | k in KeySet(lines, key) && k !in RankedKeys(r) && 0 <= i < |r|
      ensures SumFor(lines, key, k, m) <= r[i].value
    {
      assert rows[i] in rows;
    }
  }

  lemma RankedShares<K(!new)>(rows: seq<Group<K>>, m: Metric)
    ensures var r := RankRows(rows, m);
            forall i :: 0 <= i < |r| ==> r[i].percentage == Percentage(r[i].value, RankedTotal(r))
  {
    RankedTotalOf(RankRows(rows, m), rows, m);
  }

  /** Numbering any admissible engine answer yields a ranking, whatever order
      the engine chose among equal rows. */
  lemma RankRowsIsRanking<K(!new)>(lines: seq<SalesLine>, key: SalesLine -> K, m: Metric,
                                   limit: Option<nat>, rows: seq<Group<K>>)
    requires IsGroupedResult(lines, key, m, limit, rows)
    ensures IsRanking(lines, key, m, limit, RankRows(rows, m))
  {
    RankedRowsAreGroups(lines, key, m, rows);
    RankedOrder(rows, m);
    RankedTopK(lines, key, m, rows);
    RankedShares(rows, m);
  }
}
