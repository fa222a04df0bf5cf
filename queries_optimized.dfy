/** The query layer over the `report.fur_sell_order_goods` view
    (lib/db/queries.optimized.ts): the salesperson list, the KPI aggregate,
    the two product rankings and the product detail. Unlike the original
    layer it excludes five BOM codes, drops lines with no positive quantity,
    matches salespeople by display name and applies a limit only when given. */
module QueriesOptimized {
  import opened Common
  import opened Sales
  import opened Grouping
  import opened Report

  /** `goodsBom NOT IN ('dingjin', '0500553', 'FY00049', 'FY00017', '6616801')`. */
  const ExcludedBoms: set<string> := {"dingjin", "0500553", "FY00049", "FY00017", "6616801"}

  /** The distinct, non-null salesperson names of the view, within `shop` when one is given. */
  function SalespersonNames(lines: seq<SalesLine>, shop: Option<string>): set<string> {
    set l | l in lines && l.doneSales1Name.Some? && (Truthy(shop) ==> l.shop == shop.value) :: l.doneSales1Name.value
  }

  /** `getSalespeople`: `SELECT DISTINCT doneSales1Name ... ORDER BY doneSales1Name ASC`. */
  function GetSalespeople(lines: seq<SalesLine>, shop: Option<string>): (r: seq<string>)
    ensures StrictlyAscending(r)
    ensures forall n :: n in r <==> n in SalespersonNames(lines, shop)
  {
    if lines == [] then []
    else
      var rest := GetSalespeople(lines[1..], shop);
      var l := lines[0];
      assert forall x :: x in lines <==> x == l || x in lines[1..];
      if l.doneSales1Name.Some? && (Truthy(shop) ==> l.shop == shop.value) then
        InsertAscending(l.doneSales1Name.value, rest)
      else rest
  }

  /** Each name is listed once, so the list is exactly as long as the set of names. */
  lemma {:induction false} SalespeopleDistinct(lines: seq<SalesLine>, shop: Option<string>)
    ensures var r := GetSalespeople(lines, shop);
            && (forall i, j :: 0 <= i < j < |r| ==> r[i] != r[j])
            && |r| == |SalespersonNames(lines, shop)|
  {
    var r := GetSalespeople(lines, shop);
    forall i, j | 0 <= i < j < |r| ensures r[i] != r[j] {
      if r[i] == r[j] {
        LexIrreflexive(r[i]);
      }
    }
    DistinctCard(r);
    assert (set n | n in r) == SalespersonNames(lines, shop);
  }

  /** The `WHERE` clause of the KPI and ranking queries. The salesperson is
      compared with the display name `doneSales1Name`; a NULL name never matches. */
  predicate Matches(p: FilterParams, l: SalesLine) {
    && (Truthy(p.shop) ==> l.shop == p.shop.value)
    && (Truthy(p.salesperson) ==> l.doneSales1Name == Some(p.salesperson.value))
    && InDateRange(l, p.startDate, p.endDate)
    && BomAllowed(l, ExcludedBoms)
    && l.goodsNum > 0
  }

  function Keep(p: FilterParams): SalesLine -> bool {
    l => Matches(p, l)
  }

  /** The lines the KPI and ranking queries aggregate, in their original order. */
  function Matching(lines: seq<SalesLine>, p: FilterParams): (r: seq<SalesLine>)
    ensures |r| <= |lines|
    ensures forall l :: l in r <==> l in lines && Matches(p, l)
  {
    Filter(lines, Keep(p))
  }

  lemma MatchingAppend(lines: seq<SalesLine>, l: SalesLine, p: FilterParams)
    ensures Matching(lines + [l], p) == Matching(lines, p) + (if Matches(p, l) then [l] else [])
  {
    FilterAppend(lines, l, Keep(p));
  }

  /** The filter never reads the login id. */
  lemma FilterIgnoresLoginId(p: FilterParams, l: SalesLine, id: string)
    ensures Matches(p, l) == Matches(p, l.(doneSales1 := id))
  {
  }

  /** A salesperson filter only matches lines carrying that display name. */
  lemma SalespersonFilterNeedsName(p: FilterParams, l: SalesLine)
    requires Truthy(p.salesperson) && Matches(p, l)
    ensures l.doneSales1Name == p.salesperson && l.doneSales1Name.value != ""
  {
  }

  /** `getKPIMetrics`. Every counted line has a positive quantity, so the total
      quantity is at least the number of counted lines. */
  function GetKPIMetrics(lines: seq<SalesLine>, p: FilterParams): (r: KPIMetrics)
    ensures r.orderCount <= |Matching(lines, p)| && r.productCount <= |Matching(lines, p)|
    ensures r.totalQuantity >= |Matching(lines, p)| >= 0
    ensures r.orderCount == 0 <==> forall l :: l in lines ==> !Matches(p, l)
    ensures (forall l :: l in lines ==> !Matches(p, l)) ==> r == KPIMetrics(0, 0, 0, 0)
  {
    var matched := Matching(lines, p);
    assert matched != [] ==> matched[0] in matched;
    TotalOfPositive(matched, Quantity);
    KPIOf(matched)
  }

  /** A line the filter rejects changes no KPI field. */
  lemma KPIIgnoresNonMatching(lines: seq<SalesLine>, l: SalesLine, p: FilterParams)
    requires !Matches(p, l)
    ensures GetKPIMetrics(lines + [l], p) == GetKPIMetrics(lines, p)
  {
    MatchingAppend(lines, l, p);
    assert Matching(lines, p) + [] == Matching(lines, p);
  }

  /** A line the filter accepts raises the total quantity, and adds one to a
      distinct count exactly when its order or product is new. */
  lemma KPICountsMatching(lines: seq<SalesLine>, l: SalesLine, p: FilterParams)
    requires Matches(p, l)
    ensures var before, after := GetKPIMetrics(lines, p), GetKPIMetrics(lines + [l], p);
            && after.totalQuantity == before.totalQuantity + l.goodsNum > before.totalQuantity
            && after.totalSales == before.totalSales + l.goodsNum * l.goodsPrice
            && after.orderCount == before.orderCount + (if l.orderSn in KeySet(Matching(lines, p), OrderSnOf) then 0 else 1)
            && after.productCount == before.productCount + (if l.goodsName in KeySet(Matching(lines, p), GoodsNameOf) then 0 else 1)
  {
    MatchingAppend(lines, l, p);
    KPIAppend(Matching(lines, p), l);
  }

  /** `${params.limit ? LIMIT params.limit : ''}`: no `LIMIT` clause when absent or 0. */
  function QueryLimit(limit: Option<nat>): (r: Option<nat>)
    ensures r.Some? <==> limit.Some? && limit.value > 0
    ensures r.Some? ==> r == limit
  {
    if limit.Some? && limit.value > 0 then limit else None
  }

  /** `getProductRankingByQuantity` (`m = Quantity`) and `getProductRankingBySales`
      (`m = Sales`). Without a limit every product of the matching lines is ranked. */
  function GetProductRanking(lines: seq<SalesLine>, p: FilterParams, limit: Option<nat>, m: Metric)
    : (r: seq<Ranked<ProductKey>>)
    ensures IsRanking(Matching(lines, p), ProductOf, m, QueryLimit(limit), r)
    ensures limit.Some? && limit.value > 0 ==> |r| <= limit.value
    ensures QueryLimit(limit).None? ==> RankedKeys(r) == KeySet(Matching(lines, p), ProductOf)
  {
    var rows := GroupAndOrder(Matching(lines, p), ProductOf, m, QueryLimit(limit));
    RankRowsIsRanking(Matching(lines, p), ProductOf, m, QueryLimit(limit), rows);
    RankedKeysOfRows(rows, m);
    if QueryLimit(limit).None? then
      UnlimitedKeepsEveryKey(Matching(lines, p), ProductOf, m, rows);
      RankRows(rows, m)
    else RankRows(rows, m)
  }

  /** The percentages add up to 100 when the returned rows have a positive
      total, and are all 0 otherwise. */
  lemma RankingPercentages(lines: seq<SalesLine>, p: FilterParams, limit: Option<nat>, m: Metric)
    ensures var r := GetProductRanking(lines, p, limit, m);
            && (RankedTotal(r) > 0 ==> SumPercentages(r) == 100.0)
            && (RankedTotal(r) <= 0 ==> forall i :: 0 <= i < |r| ==> r[i].percentage == 0.0)
  {
    var rows := GroupAndOrder(Matching(lines, p), ProductOf, m, QueryLimit(limit));
    var r := RankRows(rows, m);
    RankedTotalOf(r, rows, m);
    PercentagesSum(rows, m);
    assert forall i :: 0 <= i < |r| ==> r[i] in r;
  }

  /** Every quantity in the quantity ranking is positive and every quantity
      share lies between 0 and 100. */
  lemma QuantityRankingBounds(lines: seq<SalesLine>, p: FilterParams, limit: Option<nat>)
    ensures var r := GetProductRanking(lines, p, limit, Quantity);
            forall i :: 0 <= i < |r| ==> r[i].value > 0 && 0.0 <= r[i].percentage <= 100.0
  {
    var matched := Matching(lines, p);
    var rows := GroupAndOrder(matched, ProductOf, Quantity, QueryLimit(limit));
    PositiveGroups(matched, ProductOf, Quantity, QueryLimit(limit), rows);
    assert forall i :: 0 <= i < |rows| ==> rows[i] in rows;
    PercentageBounds(rows, Quantity);
  }

  /** Without a limit the ranking covers every matching line: its total is the
      KPI total of the same filter, and the percentages add up to 100 whenever
      that total is positive. */
  lemma UnlimitedRankingTotals(lines: seq<SalesLine>, p: FilterParams, limit: Option<nat>, m: Metric)
    requires QueryLimit(limit).None?
    ensures var r := GetProductRanking(lines, p, limit, m);
            && RankedTotal(r) == Total(Matching(lines, p), m)
            && (m == Quantity ==> RankedTotal(r) == GetKPIMetrics(lines, p).totalQuantity)
            && (m == Sales ==> RankedTotal(r) == GetKPIMetrics(lines, p).totalSales)
            && (RankedTotal(r) > 0 ==> SumPercentages(r) == 100.0)
  {
    var rows := GroupAndOrder(Matching(lines, p), ProductOf, m, None);
    var r := RankRows(rows, m);
    RankedTotalOf(r, rows, m);
    UnlimitedRowsTotal(Matching(lines, p), ProductOf, m, rows);
    RankingPercentages(lines, p, limit, m);
  }

  /** The `WHERE` clause of the detail queries; grouping by salesperson adds
      `doneSales1Name IS NOT NULL`. */
  predicate DetailMatches(q: DetailParams, l: SalesLine) {
    && l.goodsName == q.goodsName
    && (Truthy(q.shop) ==> l.shop == q.shop.value)
    && InDateRange(l, q.startDate, q.endDate)
    && BomAllowed(l, ExcludedBoms)
    && l.goodsNum > 0
    && (BySalespersonMode(q) ==> l.doneSales1Name.Some?)
  }

  /** `DetailMatches` as a filter; it reads only the filtering fields of the
      request and whether it groups by salesperson. */
  function DetailKeep(goodsName: string, shop: Option<string>, startDate: Option<int>, endDate: Option<int>,
                      bySalesperson: bool): SalesLine -> bool
  {
    l => DetailMatches(DetailParams(goodsName, shop, startDate, endDate, Quantity,
                                    if bySalesperson then Some(BySalesperson) else None), l)
  }

  function DetailLines(lines: seq<SalesLine>, q: DetailParams): (r: seq<SalesLine>)
    ensures forall l :: l in r <==> l in lines && DetailMatches(q, l)
  {
    Filter(lines, DetailKeep(q.goodsName, q.shop, q.startDate, q.endDate, BySalespersonMode(q)))
  }

  lemma DetailLinesAppend(lines: seq<SalesLine>, l: SalesLine, q: DetailParams)
    ensures DetailLines(lines + [l], q) == DetailLines(lines, q) + (if DetailMatches(q, l) then [l] else [])
  {
    FilterAppend(lines, l, DetailKeep(q.goodsName, q.shop, q.startDate, q.endDate, BySalespersonMode(q)));
  }

  function SalespersonNameOf(l: SalesLine): Option<string> { l.doneSales1Name }

  /** `GROUP BY doneSales1Name` when grouping by salesperson, else `GROUP BY v.shop`. */
  function DetailKeyFn(q: DetailParams): SalesLine -> DetailKey {
    KeyFor(BySalespersonMode(q))
  }

  function KeyFor(bySalesperson: bool): SalesLine -> DetailKey {
    if bySalesperson then ((l: SalesLine) => SalespersonKey(l.doneSales1Name))
    else ((l: SalesLine) => ShopKey(l.shop))
  }

  /** The aggregate rows of the detail query, in one admissible order. */
  function DetailGroups(lines: seq<SalesLine>, q: DetailParams): (rows: seq<Group<DetailKey>>)
    ensures IsGroupedResult(DetailLines(lines, q), DetailKeyFn(q), q.detailType, None, rows)
  {
    GroupAndOrder(DetailLines(lines, q), DetailKeyFn(q), q.detailType, None)
  }

  /** `getProductDetail`: one row per salesperson name (when a shop is chosen,
      or `groupBy` asks for it) or per shop, ordered by the requested measure,
      its columns adding up to the totals of the counted lines. */
  function GetProductDetail(lines: seq<SalesLine>, shopNames: map<string, string>, q: DetailParams)
    : (r: seq<DetailRow>)
    ensures |r| == |KeySet(DetailLines(lines, q), DetailKeyFn(q))|
    ensures RowsAreNamedGroups(r, GroupKeys(DetailGroups(lines, q)), DetailLines(lines, q), DetailKeyFn(q), shopNames)
    ensures forall i, j :: 0 <= i < j < |r| ==> DetailMetric(r[i], q.detailType) >= DetailMetric(r[j], q.detailType)
    ensures DetailTotal(r, Quantity) == Total(DetailLines(lines, q), Quantity)
    ensures DetailTotal(r, Sales) == Total(DetailLines(lines, q), Sales)
    ensures BySalespersonMode(q) ==> forall i :: 0 <= i < |r| ==>
              r[i].name == UnknownSalesperson || Some(r[i].name) in KeySet(DetailLines(lines, q), SalespersonNameOf)
    ensures !BySalespersonMode(q) ==> forall i :: 0 <= i < |r| ==>
              r[i].name in shopNames.Values || r[i].name in KeySet(DetailLines(lines, q), ShopOf)
  {
    var groups := DetailGroups(lines, q);
    NamedDetailRows(DetailLines(lines, q), DetailKeyFn(q), q.detailType, groups, shopNames);
    NamedRowsAreGroups(DetailLines(lines, q), DetailKeyFn(q), q.detailType, groups, shopNames);
    DetailNamesFromSources(lines, shopNames, q, groups);
    NameRows(groups, shopNames)
  }

  lemma DetailNamesFromSources(lines: seq<SalesLine>, shopNames: map<string, string>, q: DetailParams,
                               groups: seq<Group<DetailKey>>)
    requires forall g :: g in groups ==> g.key in KeySet(DetailLines(lines, q), DetailKeyFn(q))
    ensures var r := NameRows(groups, shopNames);
            && (BySalespersonMode(q) ==> forall i :: 0 <= i < |r| ==>
                  r[i].name == UnknownSalesperson || Some(r[i].name) in KeySet(DetailLines(lines, q), SalespersonNameOf))
            && (!BySalespersonMode(q) ==> forall i :: 0 <= i < |r| ==>
                  r[i].name in shopNames.Values || r[i].name in KeySet(DetailLines(lines, q), ShopOf))
  {
    var r := NameRows(groups, shopNames);
    var dl := DetailLines(lines, q);
    forall i | 0 <= i < |r|
      ensures BySalespersonMode(q) ==>
                r[i].name == UnknownSalesperson || Some(r[i].name) in KeySet(dl, SalespersonNameOf)
      ensures !BySalespersonMode(q) ==> r[i].name in shopNames.Values || r[i].name in KeySet(dl, ShopOf)
    {
      assert groups[i] in groups;
      var l :| l in dl && DetailKeyFn(q)(l) == groups[i].key;
      if BySalespersonMode(q) {
        assert SalespersonNameOf(l) in KeySet(dl, SalespersonNameOf);
      } else {
        assert ShopOf(l) in KeySet(dl, ShopOf);
        if l.shop in shopNames {
          assert shopNames[l.shop] in shopNames.Values;
        }
      }
    }
  }

  /** A chosen shop forces grouping by salesperson, whatever `groupBy` says. */
  lemma ShopOverridesGroupBy(lines: seq<SalesLine>, shopNames: map<string, string>, q: DetailParams, g: Option<GroupBy>)
    requires Truthy(q.shop)
    ensures GetProductDetail(lines, shopNames, q) == GetProductDetail(lines, shopNames, q.(groupBy := g))
  {
  }

  /** Grouping by salesperson ignores a line with no salesperson name. */
  lemma NullNameExcluded(lines: seq<SalesLine>, shopNames: map<string, string>, q: DetailParams, l: SalesLine)
    requires BySalespersonMode(q) && l.doneSales1Name.None?
    ensures GetProductDetail(lines + [l], shopNames, q) == GetProductDetail(lines, shopNames, q)
  {
    DetailLinesAppend(lines, l, q);
    assert DetailLines(lines, q) + [] == DetailLines(lines, q);
  }

  /** A counted line with an empty salesperson name puts a row named `未知销售员`
      into the salesperson detail. */
  lemma EmptyNameShownUnknown(lines: seq<SalesLine>, shopNames: map<string, string>, q: DetailParams, l: SalesLine)
    requires BySalespersonMode(q)
    requires l in lines && DetailMatches(q, l) && l.doneSales1Name == Some("")
    ensures exists i :: 0 <= i < |GetProductDetail(lines, shopNames, q)| &&
              GetProductDetail(lines, shopNames, q)[i].name == UnknownSalesperson
  {
    var dl := DetailLines(lines, q);
    var key := DetailKeyFn(q);
    assert key(l) == SalespersonKey(Some(""));
    assert key(l) in KeySet(dl, key);
    var groups := DetailGroups(lines, q);
    EveryKeyNamed(dl, key, q.detailType, groups, shopNames, SalespersonKey(Some("")));
    var i :| 0 <= i < |groups| && NameRows(groups, shopNames)[i].name == DisplayName(SalespersonKey(Some("")), shopNames);
    assert GetProductDetail(lines, shopNames, q)[i].name == UnknownSalesperson;
  }

  /** Grouping by shop shows the enumerated name of a counted shop, or its code
      when the shop has no name. */
  lemma ShopRowNamed(lines: seq<SalesLine>, shopNames: map<string, string>, q: DetailParams, l: SalesLine)
    requires !BySalespersonMode(q)
    requires l in lines && DetailMatches(q, l)
    ensures var r := GetProductDetail(lines, shopNames, q);
            exists i :: 0 <= i < |r| && r[i].name == (if l.shop in shopNames then shopNames[l.shop] else l.shop)
  {
    var dl := DetailLines(lines, q);
    var key := DetailKeyFn(q);
    assert key(l) == ShopKey(l.shop);
    assert key(l) in KeySet(dl, key);
    var groups := DetailGroups(lines, q);
    EveryKeyNamed(dl, key, q.detailType, groups, shopNames, ShopKey(l.shop));
    var i :| 0 <= i < |groups| && NameRows(groups, shopNames)[i].name == DisplayName(ShopKey(l.shop), shopNames);
    assert GetProductDetail(lines, shopNames, q)[i].name == DisplayName(ShopKey(l.shop), shopNames);
  }
}
