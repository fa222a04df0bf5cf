/** The original query layer over `shop_order` joined with `shop_order_goods`
    (lib/db/queries.ts): the KPI aggregate, the two product rankings with
    their TypeScript numbering, and the product detail. */
module Queries {
  import opened Common
  import opened Sales
  import opened Grouping
  import opened Report

  /** `goodsBom != 'dingjin' AND goodsBom != '0500553'`. */
  const ExcludedBoms: set<string> := {"dingjin", "0500553"}

  /** `status >= 3 AND status != 8 AND orderType = 1 AND orderTypeSub = 0`. */
  predicate IsCompletedSale(l: SalesLine) {
    l.status >= 3 && l.status != 8 && l.orderType == 1 && l.orderTypeSub == 0
  }

  /** The `WHERE` clause of the KPI and ranking queries. The salesperson is
      compared with the login id `doneSales1`. */
  predicate Matches(p: FilterParams, l: SalesLine) {
    && (Truthy(p.shop) ==> l.shop == p.shop.value)
    && (Truthy(p.salesperson) ==> l.doneSales1 == p.salesperson.value)
    && InDateRange(l, p.startDate, p.endDate)
    && IsCompletedSale(l)
    && BomAllowed(l, ExcludedBoms)
  }

  function Keep(p: FilterParams): SalesLine -> bool {
    l => Matches(p, l)
  }

  /** The lines the KPI and ranking queries aggregate, in their original order. */
  function Matching(lines: seq<SalesLine>, p: FilterParams): (r: seq<SalesLine>)
    ensures |r| <= |lines|
    ensures forall l :: l in r <==> l in lines && Matches(p, l)
  {
    Filter(lines, Keep(p))
  }

  lemma MatchingAppend(lines: seq<SalesLine>, l: SalesLine, p: FilterParams)
    ensures Matching(lines + [l], p) == Matching(lines, p) + (if Matches(p, l) then [l] else [])
  {
    FilterAppend(lines, l, Keep(p));
  }

  /** `getKPIMetrics`. */
  function GetKPIMetrics(lines: seq<SalesLine>, p: FilterParams): (r: KPIMetrics)
    ensures r.orderCount <= |Matching(lines, p)| && r.productCount <= |Matching(lines, p)|
    ensures r.orderCount == 0 <==> forall l :: l in lines ==> !Matches(p, l)
    ensures (forall l :: l in lines ==> !Matches(p, l)) ==> r == KPIMetrics(0, 0, 0, 0)
  {
    var matched := Matching(lines, p);
    assert matched != [] ==> matched[0] in matched;
    KPIOf(matched)
  }

  /** A line the filter rejects changes no KPI field. */
  lemma KPIIgnoresNonMatching(lines: seq<SalesLine>, l: SalesLine, p: FilterParams)
    requires !Matches(p, l)
    ensures GetKPIMetrics(lines + [l], p) == GetKPIMetrics(lines, p)
  {
    MatchingAppend(lines, l, p);
    assert Matching(lines, p) + [] == Matching(lines, p);
  }

  /** A line the filter accepts adds its units and amount to the totals and
      one to a distinct count exactly when its order or product is new. */
  lemma KPICountsMatching(lines: seq<SalesLine>, l: SalesLine, p: FilterParams)
    requires Matches(p, l)
    ensures var before, after := GetKPIMetrics(lines, p), GetKPIMetrics(lines + [l], p);
            && after.totalQuantity == before.totalQuantity + l.goodsNum
            && after.totalSales == before.totalSales + l.goodsNum * l.goodsPrice
            && after.orderCount == before.orderCount + (if l.orderSn in KeySet(Matching(lines, p), OrderSnOf) then 0 else 1)
            && after.productCount == before.productCount + (if l.goodsName in KeySet(Matching(lines, p), GoodsNameOf) then 0 else 1)
  {
    MatchingAppend(lines, l, p);
    KPIAppend(Matching(lines, p), l);
  }

  const DefaultRankingLimit: nat := 20

  /** `params.limit || 20`. */
  function RankingLimit(limit: Option<nat>): (n: nat)
    ensures n > 0
    ensures limit.Some? && limit.value > 0 ==> n == limit.value
    ensures limit.None? || limit.value == 0 ==> n == DefaultRankingLimit
  {
    if limit.Some? && limit.value > 0 then limit.value else DefaultRankingLimit
  }

  /** `getProductRankingByQuantity` (`m = Quantity`) and `getProductRankingBySales`
      (`m = Sales`): group by product, order by the measure, keep `limit` rows,
      then number them and give each its share of the returned total. */
  function GetProductRanking(lines: seq<SalesLine>, p: FilterParams, limit: Option<nat>, m: Metric)
    : (r: seq<Ranked<ProductKey>>)
    ensures IsRanking(Matching(lines, p), ProductOf, m, Some(RankingLimit(limit)), r)
    ensures |r| <= RankingLimit(limit)
  {
    var rows := GroupAndOrder(Matching(lines, p), ProductOf, m, Some(RankingLimit(limit)));
    RankRowsIsRanking(Matching(lines, p), ProductOf, m, Some(RankingLimit(limit)), rows);
    RankRows(rows, m)
  }

  /** The percentages add up to 100 when the returned rows have a positive
      total, and are all 0 otherwise. */
  lemma RankingPercentages(lines: seq<SalesLine>, p: FilterParams, limit: Option<nat>, m: Metric)
    ensures var r := GetProductRanking(lines, p, limit, m);
            && (RankedTotal(r) > 0 ==> SumPercentages(r) == 100.0)
            && (RankedTotal(r) <= 0 ==> forall i :: 0 <= i < |r| ==> r[i].percentage == 0.0)
  {
    var rows := GroupAndOrder(Matching(lines, p), ProductOf, m, Some(RankingLimit(limit)));
    var r := RankRows(rows, m);
    RankedTotalOf(r, rows, m);
    PercentagesSum(rows, m);
    assert forall i :: 0 <= i < |r| ==> r[i] in r;
  }

  /** A line the filter rejects does not change the ranking. */
  lemma RankingIgnoresNonMatching(lines: seq<SalesLine>, l: SalesLine, p: FilterParams, limit: Option<nat>, m: Metric)
    requires !Matches(p, l)
    ensures GetProductRanking(lines + [l], p, limit, m) == GetProductRanking(lines, p, limit, m)
  {
    MatchingAppend(lines, l, p);
    assert Matching(lines, p) + [] == Matching(lines, p);
  }

  /** The legacy filter never reads the salesperson display name. */
  lemma FilterIgnoresDisplayName(p: FilterParams, l: SalesLine, name: Option<string>)
    ensures Matches(p, l) == Matches(p, l.(doneSales1Name := name))
  {
  }

  /** The `WHERE` clause of the detail queries: the chosen product, the shop when
      one is chosen, the dates and the same order and BOM conditions. */
  predicate DetailMatches(q: DetailParams, l: SalesLine) {
    && l.goodsName == q.goodsName
    && (Truthy(q.shop) ==> l.shop == q.shop.value)
    && InDateRange(l, q.startDate, q.endDate)
    && IsCompletedSale(l)
    && BomAllowed(l, ExcludedBoms)
  }

  /** `DetailMatches` as a filter; it reads only the filtering fields of the request. */
  function DetailKeep(goodsName: string, shop: Option<string>, startDate: Option<int>, endDate: Option<int>)
    : SalesLine -> bool
  {
    l => DetailMatches(DetailParams(goodsName, shop, startDate, endDate, Quantity, None), l)
  }

  function DetailLines(lines: seq<SalesLine>, q: DetailParams): (r: seq<SalesLine>)
    ensures forall l :: l in r <==> l in lines && DetailMatches(q, l)
  {
    Filter(lines, DetailKeep(q.goodsName, q.shop, q.startDate, q.endDate))
  }

  /** `LEFT JOIN sales_person sp ON so.doneSales1 = sp.userId AND sp.enable = 1`:
      `roster` maps the login id of each enabled salesperson to their name. */
  function RosterName(roster: map<string, string>, l: SalesLine): Option<string> {
    if l.doneSales1 in roster then Some(roster[l.doneSales1]) else None
  }

  /** `GROUP BY sp.userName` when grouping by salesperson, else `GROUP BY so.shop`. */
  function DetailKeyFn(roster: map<string, string>, q: DetailParams): SalesLine -> DetailKey {
    KeyFor(roster, BySalespersonMode(q))
  }

  function KeyFor(roster: map<string, string>, bySalesperson: bool): SalesLine -> DetailKey {
    if bySalesperson then ((l: SalesLine) => SalespersonKey(RosterName(roster, l)))
    else ((l: SalesLine) => ShopKey(l.shop))
  }

  /** The aggregate rows of the detail query, in one admissible order. */
  function DetailGroups(lines: seq<SalesLine>, roster: map<string, string>, q: DetailParams)
    : (rows: seq<Group<DetailKey>>)
    ensures IsGroupedResult(DetailLines(lines, q), DetailKeyFn(roster, q), q.detailType, None, rows)
  {
    GroupAndOrder(DetailLines(lines, q), DetailKeyFn(roster, q), q.detailType, None)
  }

  /** `getProductDetail`: one row per salesperson (when a shop is chosen, or
      `groupBy` asks for it) or per shop, ordered by the requested measure,
      its columns adding up to the totals of the counted lines. */
  function GetProductDetail(lines: seq<SalesLine>, roster: map<string, string>,
                            shopNames: map<string, string>, q: DetailParams): (r: seq<DetailRow>)
    ensures |r| == |KeySet(DetailLines(lines, q), DetailKeyFn(roster, q))|
    ensures RowsAreNamedGroups(r, GroupKeys(DetailGroups(lines, roster, q)), DetailLines(lines, q), DetailKeyFn(roster, q), shopNames)
    ensures forall i, j :: 0 <= i < j < |r| ==> DetailMetric(r[i], q.detailType) >= DetailMetric(r[j], q.detailType)
    ensures DetailTotal(r, Quantity) == Total(DetailLines(lines, q), Quantity)
    ensures DetailTotal(r, Sales) == Total(DetailLines(lines, q), Sales)
    ensures BySalespersonMode(q) ==> forall i :: 0 <= i < |r| ==>
              r[i].name == UnknownSalesperson || r[i].name in roster.Values
    ensures !BySalespersonMode(q) ==> forall i :: 0 <= i < |r| ==>
              r[i].name in shopNames.Values || r[i].name in KeySet(DetailLines(lines, q), ShopOf)
  {
    var groups := DetailGroups(lines, roster, q);
    NamedDetailRows(DetailLines(lines, q), DetailKeyFn(roster, q), q.detailType, groups, shopNames);
    NamedRowsAreGroups(DetailLines(lines, q), DetailKeyFn(roster, q), q.detailType, groups, shopNames);
    DetailNamesFromSources(lines, roster, shopNames, q, groups);
    NameRows(groups, shopNames)
  }

  lemma DetailNamesFromSources(lines: seq<SalesLine>, roster: map<string, string>,
                               shopNames: map<string, string>, q: DetailParams, groups: seq<Group<DetailKey>>)
    requires forall g :: g in groups ==> g.key in KeySet(DetailLines(lines, q), DetailKeyFn(roster, q))
    ensures var r := NameRows(groups, shopNames);
            && (BySalespersonMode(q) ==> forall i :: 0 <= i < |r| ==>
                  r[i].name == UnknownSalesperson || r[i].name in roster.Values)
            && (!BySalespersonMode(q) ==> forall i :: 0 <= i < |r| ==>
                  r[i].name in shopNames.Values || r[i].name in KeySet(DetailLines(lines, q), ShopOf))
  {
    var r := NameRows(groups, shopNames);
    var dl := DetailLines(lines, q);
    forall i | 0 <= i < |r|
      ensures BySalespersonMode(q) ==> r[i].name == UnknownSalesperson || r[i].name in roster.Values
      ensures !BySalespersonMode(q) ==> r[i].name in shopNames.Values || r[i].name in KeySet(dl, ShopOf)
    {
      assert groups[i] in groups;
      var l :| l in dl && DetailKeyFn(roster, q)(l) == groups[i].key;
      if BySalespersonMode(q) {
        if l.doneSales1 in roster {
          assert roster[l.doneSales1] in roster.Values;
        }
      } else {
        assert ShopOf(l) in KeySet(dl, ShopOf);
        if l.shop in shopNames {
          assert shopNames[l.shop] in shopNames.Values;
        }
      }
    }
  }

  /** A chosen shop forces grouping by salesperson, whatever `groupBy` says. */
  lemma ShopOverridesGroupBy(lines: seq<SalesLine>, roster: map<string, string>,
                             shopNames: map<string, string>, q: DetailParams, g: Option<GroupBy>)
    requires Truthy(q.shop)
    ensures GetProductDetail(lines, roster, shopNames, q) == GetProductDetail(lines, roster, shopNames, q.(groupBy := g))
  {
  }

  /** A counted line whose salesperson has no enabled roster entry puts a row
      named `未知销售员` into the salesperson detail. */
  lemma UnrosteredSalespersonShownUnknown(lines: seq<SalesLine>, roster: map<string, string>,
                                        shopNames: map<string, string>, q: DetailParams, l: SalesLine)
    requires BySalespersonMode(q)
    requires l in lines && DetailMatches(q, l) && l.doneSales1 !in roster
    ensures exists i :: 0 <= i < |GetProductDetail(lines, roster, shopNames, q)| &&
              GetProductDetail(lines, roster, shopNames, q)[i].name == UnknownSalesperson
  {
    var dl := DetailLines(lines, q);
    var key := DetailKeyFn(roster, q);
    assert key(l) == SalespersonKey(None);
    assert key(l) in KeySet(dl, key);
    var groups := DetailGroups(lines, roster, q);
    EveryKeyNamed(dl, key, q.detailType, groups, shopNames, SalespersonKey(None));
    var i :| 0 <= i < |groups| && NameRows(groups, shopNames)[i].name == DisplayName(SalespersonKey(None), shopNames);
    assert GetProductDetail(lines, roster, shopNames, q)[i].name == UnknownSalesperson;
  }

  /** Grouping by shop shows the enumerated name of a counted shop, or its code
      when the shop has no name. */
  lemma ShopRowNamed(lines: seq<SalesLine>, roster: map<string, string>,
                     shopNames: map<string, string>, q: DetailParams, l: SalesLine)
    requires !BySalespersonMode(q)
    requires l in lines && DetailMatches(q, l)
    ensures var r := GetProductDetail(lines, roster, shopNames, q);
            exists i :: 0 <= i < |r| && r[i].name == (if l.shop in shopNames then shopNames[l.shop] else l.shop)
  {
    var dl := DetailLines(lines, q);
    var key := DetailKeyFn(roster, q);
    assert key(l) == ShopKey(l.shop);
    assert key(l) in KeySet(dl, key);
    var groups := DetailGroups(lines, roster, q);
    EveryKeyNamed(dl, key, q.detailType, groups, shopNames, ShopKey(l.shop));
    var i :| 0 <= i < |groups| && NameRows(groups, shopNames)[i].name == DisplayName(ShopKey(l.shop), shopNames);
    assert GetProductDetail(lines, roster, shopNames, q)[i].name == DisplayName(ShopKey(l.shop), shopNames);
  }
}
