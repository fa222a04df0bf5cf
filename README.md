# Sales report core: roles, scoped queries, rankings and pagination

This project is a Dafny model of the core of a furniture-retail sales report. It covers five parts:

- **Roles.** How a logged-in user is classified as administrator, regional manager, shop manager or employee (`lib/auth/permissions.ts`).
- **Filters.** The shop and salesperson filters each role may apply (same file).
- **Shop list.** Which shops the `GET /api/filters/shops` endpoint shows each role (`app/api/filters/shops/route.ts`).
- **Queries.** What the report queries compute over the sales lines, in both query layers (`lib/db/queries.ts` and `lib/db/queries.optimized.ts`):
  - the KPI aggregate;
  - the two product rankings, with their rank numbers and percentages;
  - the three product-detail groupings;
  - the salesperson list.
- **Pagination.** The page arithmetic of the paginator (`components/ui/RangeFilter.tsx`).

Each SQL query is modelled as a function over an in-memory sequence of sales lines (`Sales.SalesLine`). Money is in integer cents. Percentages are `real`.

`ORDER BY metric DESC` has no tie-break. The predicate `Grouping.IsGroupedResult` therefore describes *every* answer the database may return:

- one row per group key;
- each row holding the sums of its group;
- rows sorted non-increasingly;
- as many rows as the `LIMIT` allows;
- no omitted group larger than a returned one.

`Grouping.GroupAndOrder` computes one such answer, by an insertion sort. The lemma `Grouping.RankRowsIsRanking` shows that the TypeScript numbering of *any* admissible answer satisfies `Grouping.IsRanking`.

JavaScript truthiness is modelled explicitly:

- `Common.Truthy` is false for an absent value and for `""`.
- A `0` limit counts as absent.
- A `0` shop id counts as absent.

| module | file | models |
|---|---|---|
| `Common` | common.dfy | `Option`, truthiness, `x \|\| undefined`, code-point string order |
| `Sales` | sales.dfy | the sales line, `WHERE` filtering, `SUM`, `COUNT(DISTINCT)` |
| `Grouping` | grouping.dfy | `GROUP BY … ORDER BY … DESC [LIMIT]`, then rank and percentage |
| `Report` | report.dfy | types/report.ts records; the KPI row and the detail rows both layers share |
| `Queries` | queries.dfy | lib/db/queries.ts |
| `QueriesOptimized` | queries_optimized.dfy | lib/db/queries.optimized.ts |
| `Permissions` | permissions.dfy | lib/auth/permissions.ts |
| `ShopsRoute` | shops_route.dfy | app/api/filters/shops/route.ts |
| `RangeFilter` | range_filter.dfy | components/ui/RangeFilter.tsx |

### Behaviour of the code worth knowing

- **Ranking key.** Rankings group by `(goodsName, goodsSpec)`, not by the product name alone. Equal totals have no tie order.
- **Shop filter.** A salesperson filter keeps the shop filter in force.
- **Percentage base.** Percentages are taken over the rows *returned*, so after the `LIMIT`.
- **Detail shop filter.** `getProductDetail` filters by the chosen shop inside the query.
- **Unfilled fields.** `types/report.ts:24-29` declares optional ranking fields that no query fills.

## Model

| member | source | states |
|---|---|---|
| Common.OrUndefined | lib/auth/permissions.ts:158 | `s \|\| undefined` is defined exactly when `s` is truthy, and is then `s` itself |
| Common.InsertAscending | lib/db/queries.optimized.ts:22-26 | inserting a name into a strictly ascending list keeps it strictly ascending, with membership exactly the old names plus the new one (`DISTINCT … ORDER BY … ASC`) |
| Sales.Filter | lib/db/queries.ts:44-50 | a `WHERE` clause keeps exactly the lines satisfying it, never more lines than it was given |
| Sales.FilterAppend | lib/db/queries.ts:44-50 | filtering distributes over appending one line |
| Sales.TotalAppend | lib/db/queries.ts:39-40 | `SUM` over one more line adds that line's value |
| Sales.TotalOfPositive | lib/db/queries.optimized.ts:51 | when every line has a positive value, the sum is at least the number of lines |
| Sales.KeySetBound | lib/db/queries.ts:38 | `COUNT(DISTINCT)` is at most the number of rows, and zero exactly for no rows |
| Sales.KeySetAppend | lib/db/queries.ts:38 | one more line adds its key to the distinct keys |
| Sales.TotalWhereAdd | lib/db/queries.ts:87 | the sum over a set of groups plus a new group is the new group's sum plus the old one |
| Sales.TotalWhereAll | lib/db/queries.ts:87 | summing the groups of every key gives the total of all lines |
| Sales.TotalWhereEmpty | lib/db/queries.ts:87 | summing no groups gives 0 |
| Sales.SumForPositive | lib/db/queries.optimized.ts:76-85 | a group that exists, over lines with positive quantities, has a positive sum |
| Sales.SumForNonNegative | lib/db/queries.optimized.ts:76-85 | a group sum over lines with positive values is never negative |
| Grouping.DistinctKeys | lib/db/queries.ts:87 | `GROUP BY` yields each key of the lines exactly once |
| Grouping.DistinctCard | lib/db/queries.ts:87 | a duplicate-free key list is as long as its set of keys |
| Grouping.DistinctKeysCard | lib/db/queries.ts:87 | there are as many groups as distinct keys |
| Grouping.GroupsFor | lib/db/queries.ts:74-77 | one aggregate row per key, carrying that key's sums |
| Grouping.InsertDesc | lib/db/queries.ts:88 | insertion keeps the rows sorted non-increasingly and adds exactly one row (as multisets) |
| Grouping.SortDesc | lib/db/queries.ts:88 | `ORDER BY … DESC` yields a sorted permutation of the groups |
| Grouping.InsertDescKeysDistinct | lib/db/queries.ts:87-88 | inserting a row with a new key keeps keys distinct |
| Grouping.SortDescKeysDistinct | lib/db/queries.ts:87-88 | sorting keeps group keys distinct |
| Grouping.GroupAndOrder | lib/db/queries.ts:74-89 | the grouped, ordered, limited rows are an admissible engine answer (`IsGroupedResult`) |
| Grouping.GroupAndOrderCorrect | lib/db/queries.ts:87-89 | the sorted, truncated groups are an admissible engine answer |
| Grouping.PrefixKeepsOrder | lib/db/queries.ts:89 | `LIMIT` keeps the order and distinctness of the rows it keeps |
| Grouping.GroupsArePermuted | lib/db/queries.ts:87-88 | after sorting, every group still appears and every row is a group of the lines |
| Grouping.TopRowsDominate | lib/db/queries.ts:88-89 | no group cut off by `LIMIT` exceeds a returned row |
| Grouping.UnlimitedKeepsEveryKey | lib/db/queries.optimized.ts:87 | without `LIMIT` every group key is returned |
| Grouping.RowsTotalIsTotalWhere | lib/db/queries.ts:93 | the sum of the returned rows is the sum of the lines whose key was returned |
| Grouping.UnlimitedRowsTotal | lib/db/queries.optimized.ts:91 | without `LIMIT` the returned rows add up to the total of all lines, for both measures |
| Grouping.RowsTotal | lib/db/queries.ts:93 | the `reduce` that sums the chosen measure over the returned rows; `RowsTotalIsTotalWhere` and `UnlimitedRowsTotal` relate it to the lines |
| Grouping.RankRows | lib/db/queries.ts:95-101 | the numbered rows are the engine rows in order, with `rank = index + 1` and the row's measure as value |
| Grouping.Percentage | lib/db/queries.ts:100 | `total > 0 ? value / total * 100 : 0`; `ShareBounds` and `PercentagesSum` state its range and its sum |
| Grouping.SumPercentagesOf | lib/db/queries.ts:100 | the shares of a common positive total add up to the rows' sum over that total, times 100 |
| Grouping.PercentagesSum | lib/db/queries.ts:93-101 | percentages add up to 100 when the returned total is positive, and are all 0 otherwise |
| Grouping.RowBelowTotal | lib/db/queries.ts:93 | with no negative row, each row lies between 0 and the total |
| Grouping.PercentageBounds | lib/db/queries.optimized.ts:98 | with no negative row, every percentage lies in [0, 100] |
| Grouping.ShareBounds | lib/db/queries.optimized.ts:98 | a share of a total the value does not exceed lies in [0, 100] |
| Grouping.PositiveGroups | lib/db/queries.optimized.ts:84-86 | over lines with positive values, every returned group has a positive sum |
| Grouping.DistinctRowsCoverKeys | lib/db/queries.optimized.ts:85-87 | as many distinct-key rows as keys, all drawn from those keys, use every key |
| Grouping.RankedOrder | lib/db/queries.optimized.ts:86-96 | numbered rows keep the engine's non-increasing order and distinct keys |
| Grouping.RankedTopK | lib/db/queries.ts:88-98 | no group left out of the numbered rows exceeds a numbered row |
| Grouping.RankedShares | lib/db/queries.ts:93-100 | each numbered row's percentage is its share of the numbered rows' own total |
| Grouping.RankedTotalOf | lib/db/queries.ts:93 | the `reduce` over numbered rows equals the sum of the engine rows |
| Grouping.RankedKeysOfRows | lib/db/queries.ts:95-98 | numbering keeps exactly the keys of the engine rows |
| Grouping.RankedRowsAreGroups | lib/db/queries.ts:95-99 | each numbered row names an existing group and carries that group's sum |
| Grouping.RankRowsIsRanking | lib/db/queries.ts:64-102 | numbering any admissible engine answer gives a ranking (`IsRanking`): ranks 1..n, groups' sums, non-increasing, distinct keys, top-k, shares of the returned total |
| Report.KPIOf | lib/db/queries.ts:37-60 | distinct counts are at most the matching lines and zero exactly when none match; no matching lines gives all four fields 0 |
| Report.KPIAppend | lib/db/queries.ts:37-60 | one more counted line adds its units and amount, and adds one to a distinct count exactly when its order or product is new |
| Report.NameRows | lib/db/queries.ts:180-184 | one detail row per aggregate row, with its display name and both sums |
| Report.DisplayName | lib/db/queries.ts:180-242 | a salesperson key shows its name when truthy, else `未知销售员`; a shop key shows its enumerated name, else its code (`COALESCE(ue.name, shop)`) |
| Report.DetailRowFor | lib/db/queries.ts:163-184 | the detail row a key's group yields: its display name with the quantity and amount sums of that key's lines |
| Report.RowsAreNamedGroups | lib/db/queries.ts:163-184 | row `i` is the named group of key `i`, and the keys are the present keys, each once |
| Report.NamedRowsAreGroups | lib/db/queries.ts:163-184 | naming any admissible unlimited engine answer gives, row by row, the display name and both sums of that row's key, and every present key gets exactly one row |
| Report.DetailTotalOf | lib/db/queries.ts:180-184 | the detail rows' column sums are the aggregate rows' sums |
| Report.NamedDetailRows | lib/db/queries.ts:156-243 | a detail has one row per group, ordered by the requested measure, with columns adding up to the counted lines' totals |
| Report.EveryKeyNamed | lib/db/queries.ts:180-184 | every group of the detail appears as a row under its display name |
| Queries.Matching | lib/db/queries.ts:80-86 | exactly the lines passing shop, login-id salesperson, date range, order-status and BOM conditions are counted |
| Queries.MatchingAppend | lib/db/queries.ts:80-86 | the filter distributes over appending one line |
| Queries.Matches | lib/db/queries.ts:80-86 | the ranking and KPI `WHERE` clause: shop and login id when truthy, dates when given, completed standard orders, BOM not excluded and not NULL |
| Queries.GetKPIMetrics | lib/db/queries.ts:29-61 | distinct counts are bounded by the matching lines; `orderCount` is 0 exactly when nothing matches, and then every field is 0 |
| Queries.KPIIgnoresNonMatching | lib/db/queries.ts:44-50 | a line failing the filter changes no KPI field |
| Queries.KPICountsMatching | lib/db/queries.ts:37-50 | a matching line adds its `goodsNum` and `goodsNum*goodsPrice`, and adds one to `orderCount` (`productCount`) exactly when its order (product name) was not yet counted |
| Queries.RankingLimit | lib/db/queries.ts:67 | the limit is the given one when positive, else 20 |
| Queries.GetProductRanking | lib/db/queries.ts:64-143 | both rankings satisfy `IsRanking` for the matching lines, keyed by `(goodsName, goodsSpec)`, limited to `limit \|\| 20`, so at most that many rows |
| Queries.RankingPercentages | lib/db/queries.ts:93-101 | percentages add up to 100 when the returned total is positive, and are all 0 otherwise |
| Queries.RankingIgnoresNonMatching | lib/db/queries.ts:80-86 | a line failing the filter does not change the ranking |
| Queries.FilterIgnoresDisplayName | lib/db/queries.ts:82 | the original filter compares the login id, never the display name |
| Queries.DetailLines | lib/db/queries.ts:170-175 | the detail counts exactly the lines of the product, in the chosen shop when one is given, within the dates and conditions |
| Queries.DetailMatches | lib/db/queries.ts:170-175 | the detail `WHERE` clause: the product, the shop when one is chosen, the dates, the order and BOM conditions |
| Queries.RosterName | lib/db/queries.ts:169 | the `LEFT JOIN` on enabled roster rows: the roster name of the line's login id, or NULL |
| Queries.DetailGroups | lib/db/queries.ts:163-177 | the detail aggregate is an admissible engine answer, grouped by roster name or by shop |
| Queries.GetProductDetail | lib/db/queries.ts:146-245 | row `i` is the display name with the quantity and amount sums of group key `i`, the keys being every present key once (by roster name or by shop); rows ordered by the requested measure; columns adding up to the counted totals; salesperson rows are named from the roster or `未知销售员`; shop rows carry an enumerated name or a shop code |
| Queries.DetailNamesFromSources | lib/db/queries.ts:180-242 | every detail row name comes from the roster, the shop names or the shop codes, or is `未知销售员` |
| Queries.ShopOverridesGroupBy | lib/db/queries.ts:156-187 | with a shop chosen, `groupBy` has no effect |
| Queries.UnrosteredSalespersonShownUnknown | lib/db/queries.ts:169-184 | a counted line whose salesperson has no enabled roster entry yields a row named `未知销售员` |
| Queries.ShopRowNamed | lib/db/queries.ts:223-239 | grouping by shop shows each counted shop under its enumerated name, or its code |
| QueriesOptimized.GetSalespeople | lib/db/queries.optimized.ts:20-29 | the list is strictly ascending and holds exactly the non-null names of the view, within the shop when one is given |
| QueriesOptimized.SalespeopleDistinct | lib/db/queries.optimized.ts:22 | each name appears once, so the list is as long as the set of names |
| QueriesOptimized.Matching | lib/db/queries.optimized.ts:78-84 | exactly the lines passing shop, display-name salesperson, dates, the five-code BOM exclusion and `goodsNum > 0` are counted |
| QueriesOptimized.MatchingAppend | lib/db/queries.optimized.ts:78-84 | the filter distributes over appending one line |
| QueriesOptimized.Matches | lib/db/queries.optimized.ts:78-84 | the view `WHERE` clause: shop and display name when truthy, dates when given, the five-code BOM exclusion, `goodsNum > 0` |
| QueriesOptimized.FilterIgnoresLoginId | lib/db/queries.optimized.ts:78-84 | the filter never reads the login id |
| QueriesOptimized.SalespersonFilterNeedsName | lib/db/queries.optimized.ts:47 | a salesperson filter matches only lines carrying exactly that non-empty display name |
| QueriesOptimized.GetKPIMetrics | lib/db/queries.optimized.ts:32-62 | distinct counts are bounded by the matching lines; the total quantity is at least the number of matching lines; nothing matching gives all zeros |
| QueriesOptimized.KPIIgnoresNonMatching | lib/db/queries.optimized.ts:45-51 | a line failing the filter changes no KPI field |
| QueriesOptimized.KPICountsMatching | lib/db/queries.optimized.ts:39-51 | a matching line strictly raises the total quantity, adds its amount, and adds one to `orderCount` (`productCount`) exactly when its order (product name) was not yet counted |
| QueriesOptimized.QueryLimit | lib/db/queries.optimized.ts:87 | a `LIMIT` is applied exactly when the limit is given and positive |
| QueriesOptimized.GetProductRanking | lib/db/queries.optimized.ts:65-138 | both rankings satisfy `IsRanking`: at most `limit` rows when one is given, and with no limit every matching product is ranked |
| QueriesOptimized.RankingPercentages | lib/db/queries.optimized.ts:91-99 | percentages add up to 100 when the returned total is positive, and are all 0 otherwise |
| QueriesOptimized.QuantityRankingBounds | lib/db/queries.optimized.ts:84-98 | every quantity in the quantity ranking is positive and every share lies in [0, 100] |
| QueriesOptimized.UnlimitedRankingTotals | lib/db/queries.optimized.ts:87-99 | without a limit the ranking total equals the KPI total of the same filter, and the percentages add up to 100 when it is positive |
| QueriesOptimized.DetailLines | lib/db/queries.optimized.ts:163-169 | the detail counts exactly the product's lines passing the filter, and drops null names when grouping by salesperson |
| QueriesOptimized.DetailMatches | lib/db/queries.optimized.ts:163-169 | the detail `WHERE` clause, with `doneSales1Name IS NOT NULL` only when grouping by salesperson |
| QueriesOptimized.DetailLinesAppend | lib/db/queries.optimized.ts:163-169 | the detail filter distributes over appending one line |
| QueriesOptimized.DetailGroups | lib/db/queries.optimized.ts:158-171 | the detail aggregate is an admissible engine answer, grouped by `doneSales1Name` or by shop |
| QueriesOptimized.GetProductDetail | lib/db/queries.optimized.ts:141-237 | row `i` is the display name with the quantity and amount sums of group key `i`, the keys being every present key once (by `doneSales1Name` or by shop); rows ordered by the requested measure; columns adding up to the counted totals; salesperson rows carry a counted name or `未知销售员`; shop rows carry an enumerated name or a shop code |
| QueriesOptimized.DetailNamesFromSources | lib/db/queries.optimized.ts:174-234 | every detail row name is a counted salesperson name, a shop name, a shop code or `未知销售员` |
| QueriesOptimized.ShopOverridesGroupBy | lib/db/queries.optimized.ts:151-181 | with a shop chosen, `groupBy` has no effect |
| QueriesOptimized.NullNameExcluded | lib/db/queries.optimized.ts:163-170 | grouping by salesperson ignores a line with a null name |
| QueriesOptimized.EmptyNameShownUnknown | lib/db/queries.optimized.ts:174-178 | a counted line with an empty name yields a row named `未知销售员` |
| QueriesOptimized.ShopRowNamed | lib/db/queries.optimized.ts:216-233 | grouping by shop shows each counted shop under its enumerated name, or its code |
| Permissions.GetRegionalManagerShops | lib/auth/permissions.ts:38-40 | the shop-id list is non-empty exactly for a configured regional manager |
| Permissions.IsRegionalManager | lib/auth/permissions.ts:29-31 | a user id is a regional manager exactly when it is a key of the regional-manager shop map |
| Permissions.GetRegionalManagerShopNames | lib/auth/permissions.ts:47-49 | the shop-name list is non-empty exactly for a configured regional manager, has one name per configured shop id, and holds no empty name |
| Permissions.GetUserRole | lib/auth/permissions.ts:63-86 | administrator exactly for the three listed ids; regional manager exactly for a configured non-administrator; manager exactly for the rest with `shopId ≠ 0` and `roleIdTotal = 41` |
| Permissions.AdminIgnoresShopAndRole | lib/auth/permissions.ts:65-67 | a listed administrator stays administrator whatever the shop id and role code |
| Permissions.RolePrecedence | lib/auth/permissions.ts:69-85 | regional manager beats shop id 0 and role 41; shop id 0 gives employee; otherwise role 41 decides manager; the rest are employees |
| Permissions.IsAdmin | lib/auth/permissions.ts:93-95 | the user's role is administrator |
| Permissions.IsRegionalManagerRole | lib/auth/permissions.ts:102-104 | the user's role is regional manager |
| Permissions.IsManager | lib/auth/permissions.ts:111-113 | the user's role is shop manager |
| Permissions.IsEmployee | lib/auth/permissions.ts:120-122 | the user's role is employee; `ExactlyOneRole` shows the four are exclusive and exhaustive |
| Permissions.ExactlyOneRole | lib/auth/permissions.ts:93-122 | exactly one of the four role predicates holds for every user |
| Permissions.GetShopFilter | lib/auth/permissions.ts:131-167 | administrators and employees keep the requested shop; a manager gets their own shop name or none; a regional manager always gets an allowed shop, the requested one when allowed, else the first allowed |
| Permissions.ShopFilterIdempotent | lib/auth/permissions.ts:131-167 | applying the shop filter to its own result changes nothing, for every role |
| Permissions.ManagerShopFilterIgnoresRequest | lib/auth/permissions.ts:156-158 | a manager's shop filter does not depend on the request |
| Permissions.GetSalespersonFilter | lib/auth/permissions.ts:176-199 | an employee is forced to their login id; every other role keeps the request |
| Permissions.GetSalespersonFilterAsync | lib/auth/permissions.ts:208-235 | other roles keep the request; an employee gets the looked-up name, with an empty or missing name or login id giving none, so never an empty name |
| Permissions.AsyncLookupOnlyForEmployee | lib/auth/permissions.ts:208-235 | the lookup is consulted only for an employee with a login id, and only at that id |
| Permissions.AsyncTranslatesSync | lib/auth/permissions.ts:192-230 | for an employee the asynchronous filter is the lookup of the synchronous filter's login id |
| Permissions.CanAccessShop | lib/auth/permissions.ts:243-267 | access is denied only to a manager, for a shop other than their own |
| Permissions.ManagerAccessMatchesFilter | lib/auth/permissions.ts:243-267 | a manager may access a shop exactly when their shop filter forces that shop |
| Permissions.GetUserRoleName | lib/auth/permissions.ts:274-289 | the label is one of the four, and each of the first three labels is given exactly to its role |
| Permissions.RoleNameDeterminesRole | lib/auth/permissions.ts:274-289 | two users share a label exactly when they share a role |
| ShopsRoute.Digits | app/api/filters/shops/route.ts:29 | the decimal digits of a number are at least one digit, two from 10 on, all in `'0'..'9'` |
| ShopsRoute.DigitsInjective | app/api/filters/shops/route.ts:29 | distinct natural numbers have distinct digit strings |
| ShopsRoute.DecimalString | app/api/filters/shops/route.ts:29 | `toString` of an integer: a minus sign for negatives, then the decimal digits |
| ShopsRoute.DecimalStringInjective | app/api/filters/shops/route.ts:29 | `toString` on integers is injective |
| ShopsRoute.ShopsWithValue | app/api/filters/shops/route.ts:31 | the filter keeps exactly the shops with that value, in their original order (a subsequence); `ShopsWithValueAppend` and `ShopsWithValueCounts` fix the exact result |
| ShopsRoute.ShopsWithValueAppend | app/api/filters/shops/route.ts:31 | one more shop is appended to the result exactly when its value matches, so the result is the input's matching entries in order |
| ShopsRoute.ShopsWithValueCounts | app/api/filters/shops/route.ts:31 | every copy of a matching shop is kept and no copy of another shop |
| ShopsRoute.ShopsFor | app/api/filters/shops/route.ts:6-45 | 401 without a user; an empty list for a manager without a shop id; a manager otherwise gets exactly `ShopsWithValue` of the fetched list at their shop id's decimal string (every matching entry, in order); everyone else gets the full list; a failed fetch gives 500 |
| ShopsRoute.ManagerShopIdFalsyMeansAbsent | app/api/filters/shops/route.ts:24 | a manager's shop id is falsy exactly when it is absent (a 0 id never classifies as manager) |
| ShopsRoute.ManagersSeeDisjointShops | app/api/filters/shops/route.ts:29-31 | managers with different shop ids are shown disjoint shop lists |
| RangeFilter.TotalPages | components/ui/RangeFilter.tsx:20 | the page count is the least number of pages holding every item |
| RangeFilter.CurrentPage | components/ui/RangeFilter.tsx:21 | the current page is the page whose item range contains `start` |
| RangeFilter.Run | components/ui/RangeFilter.tsx:41-43 | the page run `lo..hi` has `hi - lo + 1` entries, or none |
| RangeFilter.PageList | components/ui/RangeFilter.tsx:24-53 | the page strip: every page up to 7 pages, else page 1, optional ellipsis, the current page's neighbours, optional ellipsis, the last page |
| RangeFilter.PageNumbers | components/ui/RangeFilter.tsx:24-53 | the loop builds exactly the page strip `PageList` |
| RangeFilter.PlainPageList | components/ui/RangeFilter.tsx:27-31 | with at most 7 pages the strip is exactly pages 1..totalPages |
| RangeFilter.CondensedPageList | components/ui/RangeFilter.tsx:33-50 | with more than 7 pages the strip starts at 1, ends at the last page and has 3 to 7 entries; for an in-range current page, the leading ellipsis is there iff `currentPage > 3` and the trailing one iff `currentPage < totalPages - 2` |
| RangeFilter.CondensedParts | components/ui/RangeFilter.tsx:33-50 | the condensed strip is page 1, optional ellipsis, the neighbour run, optional ellipsis, last page |
| RangeFilter.PageNumbersIncrease | components/ui/RangeFilter.tsx:24-53 | page numbers strictly increase along the strip |
| RangeFilter.CurrentPageShown | components/ui/RangeFilter.tsx:24-53 | an in-range current page always has its own button |
| RangeFilter.AdjacentPagesConsecutive | components/ui/RangeFilter.tsx:33-50 | adjacent buttons show consecutive pages |
| RangeFilter.EllipsisMarksGap | components/ui/RangeFilter.tsx:36-47 | each ellipsis stands between two buttons that skip at least one page |
| RangeFilter.PageChange | components/ui/RangeFilter.tsx:55-59 | the range of page `p` holds exactly the items of `1..totalCount` on page `p`, starts on page `p` (round trip), holds at most `pageSize` items, and lies within `1..totalCount` for a valid page |
| RangeFilter.PageStartRoundTrip | components/ui/RangeFilter.tsx:20-57 | recomputing the current page from a page's first item gives that page |
| RangeFilter.OnPage | components/ui/RangeFilter.tsx:21 | item `x` is on page `p` exactly when `(p-1)*pageSize < x <= p*pageSize` |
| RangeFilter.PageTiles | components/ui/RangeFilter.tsx:55-57 | the items of `1..totalCount` inside page `p`'s range are exactly those on page `p` |
| RangeFilter.PageFits | components/ui/RangeFilter.tsx:56-57 | a page's range holds at most `pageSize` items and is non-empty for a valid page |
| RangeFilter.PrevPage | components/ui/RangeFilter.tsx:55-65 | moves exactly when the current page exceeds 1, and then returns exactly `PageChange(currentPage - 1)`: the range holding the items of the previous page, at most `pageSize` of them, within `1..totalCount` for an in-range page |
| RangeFilter.NextPage | components/ui/RangeFilter.tsx:55-71 | moves exactly when a later page exists, and then returns exactly `PageChange(currentPage + 1)`: the range holding the items of the next page, at most `pageSize` of them, within `1..totalCount` |
| RangeFilter.Visible | components/ui/RangeFilter.tsx:74-76 | the paginator is drawn unless there is at most one page or no data |
| RangeFilter.VisibleIffMoreThanOnePage | components/ui/RangeFilter.tsx:74-76 | the paginator is drawn exactly when the items do not fit on one page |

The generic helper lemmas `Grouping.SortedDescCons`, `Grouping.InsertDescBounded`, `Report.CardAddOne`, `ShopsRoute.DigitsStartWithDigit`, `ShopsRoute.SubsequenceOfTail`, `ShopsRoute.SubsequenceDropHead`, `ShopsRoute.ShopsWithValueCons` and `RangeFilter.MulMonotone` state sequence, set and arithmetic facts used by the proofs above; they model no particular source line.

## Left out

- React rendering, component state and the `onChange` callback: the paginator's output is modelled as the `Range` value passed to `onChange`.
- I/O, such as database access, HTTP and request decoding. `getShops()` becomes the `fetched` parameter of `ShopsRoute.ShopsFor`; a thrown error is `None`. `getUserFromRequest` becomes the `user` parameter. The roster lookup `getUserNameByUserId` becomes the `lookup` parameter of `Permissions.GetSalespersonFilterAsync`. A rejected lookup promise is not modelled.
- `getShops` (both query files) and the original `getSalespeople` (lib/db/queries.ts:16-26) read configuration tables, not sales lines. They are not modelled. The shop list enters only as a parameter.
- The `sales_person` join of the original detail query is a map from login id to name. The map form takes at most one enabled roster row per login id; duplicate rows would repeat lines in SQL. The `ubigger_enum` join is likewise a map from shop code to name.
- SQL string collation: strings are compared and ordered by code point (`Common.LexLess` and `==`), not by the database collation. This covers every `GROUP BY`, `COUNT(DISTINCT)`, `goodsName = ?`, `NOT IN (...)` and the `DISTINCT … ORDER BY` salesperson list. Under a case- or accent-insensitive collation those groups and matches can differ.
- Dates: `payTime`, `startDate` and `endDate` are plain integer instants. JavaScript `Date` values, their parsing and the time-zone conversion Prisma applies when passing them to SQL are not modelled.
- SQL NULL in `orderSn`, `goodsName`, `goodsSpec`, `shop`, `doneSales1`, `payTime` and the numeric order and goods columns: these columns are assumed non-null. `Sales.SalesLine` gives them plain types. The NULL rules for them are not modelled (`COUNT(DISTINCT)` skipping NULL, `GROUP BY` putting all NULLs in one group, a date comparison rejecting NULL). Only `goodsBom` and `doneSales1Name` are nullable (`Option`).
- Floating point, `Number(bigint)` conversion and rounding: sums are exact integers (money in cents), percentages are exact reals.
- Negative or non-integer limits: the limit is a `nat`, because a negative `LIMIT` is an SQL error.
- The JavaScript `in` operator also sees inherited object keys. Map membership here is exactly the configured keys.
- RangeFilter: the `pageSize = 20` default (components/ui/RangeFilter.tsx:17) is the caller's default argument; the model takes the page size as a parameter. `pageSize` must be positive; a zero page size gives `NaN` or `Infinity` in JavaScript. `totalCount` is a natural number.
- Grouping.IsGroupedResult: the engine's choice among equal rows is not modelled. Every tie order is admitted, and the lemmas hold for all of them.

