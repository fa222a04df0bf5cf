/** A materialised sales line (one product line of one paid order, with the
    order's columns joined in) and the aggregates the queries compute over a
    sequence of such lines: filtering, sums and distinct counts. */
module Sales {
  import opened Common

  /** One row of `shop_order_goods` joined with its `shop_order` (the same
      columns appear in the `report.fur_sell_order_goods` view). Money is in
      integer cents. `goodsBom` and `doneSales1Name` are nullable columns. */
  datatype SalesLine = SalesLine(
    orderSn: string,
    shop: string,
    doneSales1: string,             // login id of the first salesperson
    doneSales1Name: Option<string>, // display name of that salesperson (view only)
    payTime: int,
    status: int,
    orderType: int,
    orderTypeSub: int,
    goodsBom: Option<string>,
    goodsName: string,
    goodsSpec: string,
    goodsNum: int,
    goodsPrice: int)

  /** The two measures summed by the queries: `goodsNum` and `goodsNum * goodsPrice`. */
  datatype Metric = Quantity | Sales

  function LineValue(l: SalesLine, m: Metric): int {
    match m
    case Quantity => l.goodsNum
    case Sales => l.goodsNum * l.goodsPrice
  }

  /** A `WHERE` clause: the lines that satisfy `keep`, in their original order. */
  function Filter(lines: seq<SalesLine>, keep: SalesLine -> bool): (r: seq<SalesLine>)
    ensures |r| <= |lines|
    ensures forall l :: l in r <==> l in lines && keep(l)
  {
    if lines == [] then []
    else if keep(lines[0]) then [lines[0]] + Filter(lines[1..], keep)
    else Filter(lines[1..], keep)
  }

  lemma {:induction false} FilterAppend(lines: seq<SalesLine>, l: SalesLine, keep: SalesLine -> bool)
    ensures Filter(lines + [l], keep) == Filter(lines, keep) + (if keep(l) then [l] else [])
  {
    if lines != [] {
      assert (lines + [l])[1..] == lines[1..] + [l];
      FilterAppend(lines[1..], l, keep);
    } else {
      assert lines + [l] == [l];
    }
  }

  /** `COALESCE(SUM(metric), 0)`. */
  function Total(lines: seq<SalesLine>, m: Metric): int {
    if lines == [] then 0 else LineValue(lines[0], m) + Total(lines[1..], m)
  }

  lemma {:induction false} TotalAppend(lines: seq<SalesLine>, l: SalesLine, m: Metric)
    ensures Total(lines + [l], m) == Total(lines, m) + LineValue(l, m)
  {
    if lines != [] {
      assert (lines + [l])[1..] == lines[1..] + [l];
      TotalAppend(lines[1..], l, m);
    } else {
      assert lines + [l] == [l];
    }
  }

  /** When every line contributes at least one unit, the sum is at least the number of lines. */
  lemma {:induction false} TotalOfPositive(lines: seq<SalesLine>, m: Metric)
    requires forall l :: l in lines ==> LineValue(l, m) > 0
    ensures Total(lines, m) >= |lines|
  {
    if lines != [] {
      TotalOfPositive(lines[1..], m);
    }
  }

  /** The distinct values of a column: what `COUNT(DISTINCT column)` counts. */
  function KeySet<K(==)>(lines: seq<SalesLine>, key: SalesLine -> K): set<K> {
    set l | l in lines :: key(l)
  }

  /** A distinct count never exceeds the number of rows counted; it is zero
      exactly for no rows. */
  lemma {:induction false} KeySetBound<K>(lines: seq<SalesLine>, key: SalesLine -> K)
    ensures |KeySet(lines, key)| <= |lines|
    ensures |KeySet(lines, key)| == 0 <==> lines == []
  {
    if lines != [] {
      KeySetBound(lines[1..], key);
      assert KeySet(lines, key) == {key(lines[0])} + KeySet(lines[1..], key) by {
        assert forall l :: l in lines <==> l == lines[0] || l in lines[1..];
      }
      assert key(lines[0]) in KeySet(lines, key);
    }
  }

  lemma KeySetAppend<K>(lines: seq<SalesLine>, l: SalesLine, key: SalesLine -> K)
    ensures KeySet(lines + [l], key) == KeySet(lines, key) + {key(l)}
  {
    assert forall x :: x in lines + [l] <==> x in lines || x == l;
  }

  /** `SUM(metric)` over the lines of one group, i.e. those whose key is `k`. */
  function SumFor<K(==)>(lines: seq<SalesLine>, key: SalesLine -> K, k: K, m: Metric): int {
    if lines == [] then 0
    else (if key(lines[0]) == k then LineValue(lines[0], m) else 0) + SumFor(lines[1..], key, k, m)
  }

  /** The sum over the lines whose key lies in `ks`. */
  function TotalWhere<K(==)>(lines: seq<SalesLine>, key: SalesLine -> K, ks: set<K>, m: Metric): int {
    if lines == [] then 0
    else (if key(lines[0]) in ks then LineValue(lines[0], m) else 0) + TotalWhere(lines[1..], key, ks, m)
  }

  lemma {:induction false} TotalWhereAdd<K>(lines: seq<SalesLine>, key: SalesLine -> K, ks: set<K>, k: K, m: Metric)
    requires k !in ks
    ensures TotalWhere(lines, key, ks + {k}, m) == SumFor(lines, key, k, m) + TotalWhere(lines, key, ks, m)
  {
    if lines != [] {
      TotalWhereAdd(lines[1..], key, ks, k, m);
    }
  }

  lemma {:induction false} TotalWhereAll<K>(lines: seq<SalesLine>, key: SalesLine -> K, ks: set<K>, m: Metric)
    requires KeySet(lines, key) <= ks
    ensures TotalWhere(lines, key, ks, m) == Total(lines, m)
  {
    if lines != [] {
      assert KeySet(lines[1..], key) <= KeySet(lines, key);
      assert key(lines[0]) in KeySet(lines, key);
      TotalWhereAll(lines[1..], key, ks, m);
    }
  }

  lemma {:induction false} TotalWhereEmpty<K>(lines: seq<SalesLine>, key: SalesLine -> K, m: Metric)
    ensures TotalWhere(lines, key, {}, m) == 0
  {
    if lines != [] {
      TotalWhereEmpty(lines[1..], key, m);
    }
  }

  /** A group whose lines all contribute at least one unit has a positive sum. */
  lemma {:induction false} SumForPositive<K>(lines: seq<SalesLine>, key: SalesLine -> K, k: K, m: Metric)
    requires forall l :: l in lines ==> LineValue(l, m) > 0
    requires k in KeySet(lines, key)
    ensures SumFor(lines, key, k, m) > 0
  {
    if key(lines[0]) != k {
      assert forall l :: l in lines[1..] ==> l in lines;
      assert k in KeySet(lines[1..], key);
      SumForPositive(lines[1..], key, k, m);
    } else if lines[1..] != [] {
      SumForNonNegative(lines[1..], key, k, m);
    }
  }

  lemma {:induction false} SumForNonNegative<K>(lines: seq<SalesLine>, key: SalesLine -> K, k: K, m: Metric)
    requires forall l :: l in lines ==> LineValue(l, m) > 0
    ensures SumFor(lines, key, k, m) >= 0
  {
    if lines != [] {
      SumForNonNegative(lines[1..], key, k, m);
    }
  }
}
