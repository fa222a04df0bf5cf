/** The report types shared by both query implementations (types/report.ts):
    the filter parameters, the KPI record, the product key of the rankings,
    the product-detail request and its rows. */
module Report {
  import opened Common
  import opened Sales
  import opened Grouping

  /** `FilterParams`: every field optional; dates as comparable instants. */
  datatype FilterParams = FilterParams(
    shop: Option<string>,
    salesperson: Option<string>,
    startDate: Option<int>,
    endDate: Option<int>)

  /** `KPIMetrics`. */
  datatype KPIMetrics = KPIMetrics(totalQuantity: int, totalSales: int, productCount: nat, orderCount: nat)

  /** The ranking key: `GROUP BY goodsName, goodsSpec`. */
  datatype ProductKey = ProductKey(goodsName: string, goodsSpec: string)

  function ProductOf(l: SalesLine): ProductKey { ProductKey(l.goodsName, l.goodsSpec) }
  function OrderSnOf(l: SalesLine): string { l.orderSn }
  function GoodsNameOf(l: SalesLine): string { l.goodsName }
  function ShopOf(l: SalesLine): string { l.shop }

  /** `payTime >= startDate` and `payTime <= endDate`, each only when given. */
  predicate InDateRange(l: SalesLine, startDate: Option<int>, endDate: Option<int>) {
    && (startDate.None? || l.payTime >= startDate.value)
    && (endDate.None? || l.payTime <= endDate.value)
  }

  /** `goodsBom` is present and not one of the excluded codes (a NULL
      `goodsBom` fails both `!=` and `NOT IN` in SQL). */
  predicate BomAllowed(l: SalesLine, excluded: set<string>) {
    l.goodsBom.Some? && l.goodsBom.value !in excluded
  }

  /** The single aggregate row of the KPI query over the matching lines,
      with `COALESCE(..., 0)` and `|| 0` giving zeros when nothing matches. */
  function KPIOf(matched: seq<SalesLine>): (r: KPIMetrics)
    ensures r.orderCount <= |matched| && r.productCount <= |matched|
    ensures r.orderCount == 0 <==> matched == []
    ensures r.productCount == 0 <==> matched == []
    ensures matched == [] ==> r == KPIMetrics(0, 0, 0, 0)
  {
    KeySetBound(matched, OrderSnOf);
    KeySetBound(matched, GoodsNameOf);
    KPIMetrics(Total(matched, Quantity), Total(matched, Sales),
               |KeySet(matched, GoodsNameOf)|, |KeySet(matched, OrderSnOf)|)
  }

  lemma CardAddOne<T>(s: set<T>, x: T)
    ensures |s + {x}| == |s| + (if x in s then 0 else 1)
  {
    if x in s {
      assert s + {x} == s;
    }
  }

  /** One more matching line adds its units and its amount to the totals, and
      adds one to a distinct count exactly when its order or product is new. */
  lemma KPIAppend(matched: seq<SalesLine>, l: SalesLine)
    ensures var before, after := KPIOf(matched), KPIOf(matched + [l]);
            && after.totalQuantity == before.totalQuantity + l.goodsNum
            && after.totalSales == before.totalSales + l.goodsNum * l.goodsPrice
            && after.orderCount == before.orderCount + (if l.orderSn in KeySet(matched, OrderSnOf) then 0 else 1)
            && after.productCount == before.productCount + (if l.goodsName in KeySet(matched, GoodsNameOf) then 0 else 1)
  {
    TotalAppend(matched, l, Quantity);
    TotalAppend(matched, l, Sales);
    KeySetAppend(matched, l, OrderSnOf);
    KeySetAppend(matched, l, GoodsNameOf);
    CardAddOne(KeySet(matched, OrderSnOf), l.orderSn);
    CardAddOne(KeySet(matched, GoodsNameOf), l.goodsName);
  }

  datatype GroupBy = ByShop | BySalesperson

  /** The `getProductDetail` request. */
  datatype DetailParams = DetailParams(
    goodsName: string,
    shop: Option<string>,
    startDate: Option<int>,
    endDate: Option<int>,
    detailType: Metric,
    groupBy: Option<GroupBy>)

  /** The detail groups by salesperson when a shop is chosen or when asked to. */
  predicate BySalespersonMode(q: DetailParams) {
    Truthy(q.shop) || q.groupBy == Some(BySalesperson)
  }

  /** A detail group key: a salesperson name (`None`: SQL NULL) or a shop code. */
  datatype DetailKey = SalespersonKey(userName: Option<string>) | ShopKey(code: string)

  /** One row of the product-detail result. */
  datatype DetailRow = DetailRow(name: string, quantity: int, salesAmount: int)

  const UnknownSalesperson: string := "未知销售员"

  /** `userName || '未知销售员'` for salespeople; `COALESCE(ue.name, shop)` for shops,
      where `shopNames` holds the `ubigger_enum` shop names by shop code. */
  function DisplayName(k: DetailKey, shopNames: map<string, string>): string {
    match k
    case SalespersonKey(n) => if Truthy(n) then n.value else UnknownSalesperson
    case ShopKey(c) => if c in shopNames then shopNames[c] else c
  }

  /** The TypeScript `map` from aggregate rows to detail rows. */
  function NameRows(groups: seq<Group<DetailKey>>, shopNames: map<string, string>): (r: seq<DetailRow>)
    ensures |r| == |groups|
    ensures forall i :: 0 <= i < |r| ==>
              r[i] == DetailRow(DisplayName(groups[i].key, shopNames), groups[i].quantity, groups[i].salesAmount)
  {
    seq(|groups|, i requires 0 <= i < |groups| =>
      DetailRow(DisplayName(groups[i].key, shopNames), groups[i].quantity, groups[i].salesAmount))
  }

  /** The detail row of the group whose key is `k`: its display name and its two sums. */
  function DetailRowFor(lines: seq<SalesLine>, key: SalesLine -> DetailKey, k: DetailKey,
                        shopNames: map<string, string>): DetailRow
  {
    DetailRow(DisplayName(k, shopNames), SumFor(lines, key, k, Quantity), SumFor(lines, key, k, Sales))
  }

  /** The keys of aggregate rows, in row order. */
  function GroupKeys(groups: seq<Group<DetailKey>>): (ks: seq<DetailKey>)
    ensures |ks| == |groups|
    ensures forall i :: 0 <= i < |ks| ==> ks[i] == groups[i].key
  {
    seq(|groups|, i requires 0 <= i < |groups| => groups[i].key)
  }

  /** Row `i` is the named row of key `ks[i]`, and `ks` lists every present key
      exactly once. */
  predicate RowsAreNamedGroups(r: seq<DetailRow>, ks: seq<DetailKey>, lines: seq<SalesLine>,
                               key: SalesLine -> DetailKey, shopNames: map<string, string>)
  {
    && |ks| == |r|
    && (forall i :: 0 <= i < |r| ==> ks[i] in KeySet(lines, key) && r[i] == DetailRowFor(lines, key, ks[i], shopNames))
    && (forall k :: k in KeySet(lines, key) ==> k in ks)
    && (forall i, j :: 0 <= i < j < |ks| ==> ks[i] != ks[j])
  }

  /** Naming an admissible unlimited answer gives, in order, the named rows of
      its keys, which are the present keys, each once. */
  lemma NamedRowsAreGroups(lines: seq<SalesLine>, key: SalesLine -> DetailKey, m: Metric,
                           groups: seq<Group<DetailKey>>, shopNames: map<string, string>)
    requires IsGroupedResult(lines, key, m, None, groups)
    ensures RowsAreNamedGroups(NameRows(groups, shopNames), GroupKeys(groups), lines, key, shopNames)
  {
    var r, ks := NameRows(groups, shopNames), GroupKeys(groups);
    forall i | 0 <= i < |r|
      ensures ks[i] in KeySet(lines, key) && r[i] == DetailRowFor(lines, key, ks[i], shopNames)
    {
      assert groups[i] in groups;
    }
    UnlimitedKeepsEveryKey(lines, key, m, groups);
    forall k | k in KeySet(lines, key)
      ensures k in ks
    {
      assert k in RowKeys(groups);
      var g :| g in groups && g.key == k;
      var i :| 0 <= i < |groups| && groups[i] == g;
      assert ks[i] == k;
    }
  }

  function DetailMetric(r: DetailRow, m: Metric): int {
    match m
    case Quantity => r.quantity
    case Sales => r.salesAmount
  }

  function DetailTotal(rows: seq<DetailRow>, m: Metric): int {
    if rows == [] then 0 else DetailMetric(rows[0], m) + DetailTotal(rows[1..], m)
  }

  lemma {:induction false} DetailTotalOf(rows: seq<DetailRow>, groups: seq<Group<DetailKey>>, m: Metric)
    requires |rows| == |groups|
    requires forall i :: 0 <= i < |rows| ==> DetailMetric(rows[i], m) == GroupMetric(groups[i], m)
    ensures DetailTotal(rows, m) == RowsTotal(groups, m)
  {
    if rows != [] {
      DetailTotalOf(rows[1..], groups[1..], m);
    }
  }

  /** Naming an admissible engine answer for the unlimited detail query gives
      one row per group, ordered by the requested measure, whose columns add
      up to the totals of the counted lines. */
  lemma NamedDetailRows(lines: seq<SalesLine>, key: SalesLine -> DetailKey, m: Metric,
                        groups: seq<Group<DetailKey>>, shopNames: map<string, string>)
    requires IsGroupedResult(lines, key, m, None, groups)
    ensures var r := NameRows(groups, shopNames);
            && |r| == |KeySet(lines, key)|
            && (forall i, j :: 0 <= i < j < |r| ==> DetailMetric(r[i], m) >= DetailMetric(r[j], m))
            && DetailTotal(r, Quantity) == Total(lines, Quantity)
            && DetailTotal(r, Sales) == Total(lines, Sales)
  {
    var r := NameRows(groups, shopNames);
    assert forall i :: 0 <= i < |r| ==> DetailMetric(r[i], m) == GroupMetric(groups[i], m);
    assert forall i :: 0 <= i < |r| ==> DetailMetric(r[i], Quantity) == GroupMetric(groups[i], Quantity);
    assert forall i :: 0 <= i < |r| ==> DetailMetric(r[i], Sales) == GroupMetric(groups[i], Sales);
    DetailTotalOf(r, groups, Quantity);
    DetailTotalOf(r, groups, Sales);
    UnlimitedRowsTotal(lines, key, m, groups);
  }

  /** Every group key of an unlimited detail answer has a row, named by `DisplayName`. */
  lemma EveryKeyNamed(lines: seq<SalesLine>, key: SalesLine -> DetailKey, m: Metric,
                      groups: seq<Group<DetailKey>>, shopNames: map<string, string>, k: DetailKey)
    requires IsGroupedResult(lines, key, m, None, groups)
    requires k in KeySet(lines, key)
    ensures exists i :: 0 <= i < |groups| && NameRows(groups, shopNames)[i].name == DisplayName(k, shopNames)
  {
    UnlimitedKeepsEveryKey(lines, key, m, groups);
    assert k in RowKeys(groups);
    var g :| g in groups && g.key == k;
    var i :| 0 <= i < |groups| && groups[i] == g;
    assert NameRows(groups, shopNames)[i].name == DisplayName(k, shopNames);
  }
}
