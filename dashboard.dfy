/** The KPI scalars and the grouped tables that the dashboard computes from
    the filtered view. */
module Dashboard {
  import opened Orders
  import opened Ordering
  import opened Grouping
  import opened Ranking
  import Selection

  /** How many customers the two customer rankings list. */
  const TopCount: nat := 10

  // KPI scalars

  /** Total revenue, in cents. */
  function TotalRevenue(v: Table): int {
    Sum(v, OrderTotal)
  }

  /** Total items sold. */
  function ItemsSold(v: Table): int {
    Sum(v, Quantity)
  }

  lemma {:induction false} ItemsSoldNonNegative(v: Table)
    ensures ItemsSold(v) >= 0
    ensures ItemsSold(v) == 0 <== (forall r :: r in v ==> r.quantity == 0)
  {
    if v != [] {
      ItemsSoldNonNegative(v[1..]);
      assert forall r :: r in v[1..] ==> r in v;
    }
  }

  /** Mean order total over the lines of the view; `None` is the NaN that
      the mean of an empty view gives. */
  function AvgOrderValue(v: Table): (a: Option<real>)
    ensures a.None? <==> |v| == 0
    ensures a.Some? ==> a.value * (|v| as real) == TotalRevenue(v) as real
  {
    if |v| == 0 then None else Some(TotalRevenue(v) as real / |v| as real)
  }

  // Customer rankings

  /** `customer_revenue`: spend per customer, largest first, first ten. */
  function CustomerRevenue(v: Table): (r: seq<Row<int>>)
    ensures |r| <= TopCount
  {
    TopN(GroupSum(v, CustId, IntLt, OrderTotal), TopCount)
  }

  /** `customer_loyalty`: distinct orders per customer, most first, first ten. */
  function CustomerLoyalty(v: Table): (r: seq<Row<int>>)
    ensures |r| <= TopCount
  {
    TopN(GroupNUnique(v, CustId, IntLt), TopCount)
  }

  /** A row of a table whose key is not among a ranking's keys is not in
      the ranking. */
  lemma OmittedRow(g: seq<Row<int>>, r: seq<Row<int>>, j: int)
    requires 0 <= j < |g| && g[j].key !in Keys(r) && multiset(r) <= multiset(g)
    ensures g[j] in multiset(g) - multiset(r)
  {
    forall i | 0 <= i < |r| ensures r[i] != g[j] {
      assert Keys(r)[i] == r[i].key;
    }
    assert g[j] !in r;
  }

  /** What a ranking of a grouped table keeps: at most ten rows, distinct
      keys, rows of the grouped table, non-increasing; and a key of the
      grouped table that is left out means the ranking is full and the
      left-out value is no larger than the last listed one. */
  lemma RankingOf(g: seq<Row<int>>)
    requires KeysDistinct(g)
    ensures var r := TopN(g, TopCount);
      && |r| <= TopCount
      && (|r| == 0 <==> |g| == 0)
      && KeysDistinct(r)
      && NonIncreasing(r)
      && (forall i :: 0 <= i < |r| ==> r[i] in g)
      && (forall j :: 0 <= j < |g| && g[j].key !in Keys(r) ==>
            |r| == TopCount && g[j].value <= r[|r| - 1].value)
  {
    var r := TopN(g, TopCount);
    TopNOrdered(g, TopCount);
    TopNRows(g, TopCount);
    forall i | 0 <= i < |r| ensures r[i] in g {
      assert r[i] in multiset(r);
    }
    forall j | 0 <= j < |g| && g[j].key !in Keys(r)
      ensures |r| == TopCount && g[j].value <= r[|r| - 1].value
    {
      OmittedRow(g, r, j);
      TopNCutoff(g, TopCount);
      assert r[|r| - 1] in r;
    }
  }

  /** Top spenders: at most ten distinct customers of the view, each with
      the sum of that customer's order totals, largest first; any customer
      not listed means ten are listed and spent no more than the last one. */
  lemma CustomerRevenueSpec(v: Table)
    ensures var r := CustomerRevenue(v);
      && |r| <= TopCount
      && (|r| == 0 <==> |v| == 0)
      && KeysDistinct(r)
      && NonIncreasing(r)
      && (forall i :: 0 <= i < |r| ==> r[i].key in Column(v, CustId))
      && (forall i :: 0 <= i < |r| ==> r[i].value == SumWhere(v, CustId, OrderTotal, r[i].key))
      && (forall c :: c in Column(v, CustId) && c !in Keys(r) ==>
            |r| == TopCount && SumWhere(v, CustId, OrderTotal, c) <= r[|r| - 1].value)
  {
    CustomerRevenueRanked(v);
    CustomerRevenueSums(v);
    CustomerRevenueOmitted(v);
  }

  lemma CustomerRevenueSums(v: Table)
    ensures var r := CustomerRevenue(v);
      forall i :: 0 <= i < |r| ==> r[i].value == SumWhere(v, CustId, OrderTotal, r[i].key)
  {
    var g := GroupSum(v, CustId, IntLt, OrderTotal);
    var r := CustomerRevenue(v);
    CustomerRevenueRanked(v);
    forall i | 0 <= i < |r| ensures r[i].value == SumWhere(v, CustId, OrderTotal, r[i].key) {
      var j :| 0 <= j < |g| && g[j] == r[i];
    }
  }

  lemma CustomerRevenueOmitted(v: Table)
    ensures var r := CustomerRevenue(v);
      forall c :: c in Column(v, CustId) && c !in Keys(r) ==>
        |r| == TopCount && SumWhere(v, CustId, OrderTotal, c) <= r[|r| - 1].value
  {
    var g := GroupSum(v, CustId, IntLt, OrderTotal);
    var r := CustomerRevenue(v);
    CustomerRevenueRanked(v);
    forall c | c in Column(v, CustId) && c !in Keys(r)
      ensures |r| == TopCount && SumWhere(v, CustId, OrderTotal, c) <= r[|r| - 1].value
    {
      var j :| 0 <= j < |g| && g[j].key == c && g[j].value <= r[|r| - 1].value;
    }
  }

  /** Most loyal customers: at most ten distinct customers of the view,
      each with the number of distinct orders, between one and the
      customer's line count, most first; any customer not listed means ten
      are listed and has no more orders than the last one. */
  lemma CustomerLoyaltySpec(v: Table)
    ensures var r := CustomerLoyalty(v);
      && |r| <= TopCount
      && (|r| == 0 <==> |v| == 0)
      && KeysDistinct(r)
      && NonIncreasing(r)
      && (forall i :: 0 <= i < |r| ==> r[i].key in Column(v, CustId))
      && (forall i :: 0 <= i < |r| ==> r[i].value == |OrderIdsWhere(v, CustId, r[i].key)|)
      && (forall i :: 0 <= i < |r| ==> 1 <= r[i].value <= CountWhere(v, CustId, r[i].key))
      && (forall c :: c in Column(v, CustId) && c !in Keys(r) ==>
            |r| == TopCount && |OrderIdsWhere(v, CustId, c)| <= r[|r| - 1].value)
  {
    CustomerLoyaltyRanked(v);
    CustomerLoyaltyCounts(v);
    CustomerLoyaltyOmitted(v);
  }

  lemma CustomerLoyaltyCounts(v: Table)
    ensures var r := CustomerLoyalty(v);
      forall i :: 0 <= i < |r| ==>
        r[i].value == |OrderIdsWhere(v, CustId, r[i].key)| && 1 <= r[i].value <= CountWhere(v, CustId, r[i].key)
  {
    var g := GroupNUnique(v, CustId, IntLt);
    var r := CustomerLoyalty(v);
    CustomerLoyaltyRanked(v);
    forall i | 0 <= i < |r|
      ensures r[i].value == |OrderIdsWhere(v, CustId, r[i].key)|
      ensures 1 <= r[i].value <= CountWhere(v, CustId, r[i].key)
    {
      var j :| 0 <= j < |g| && g[j] == r[i];
      OrderIdsBounds(v, CustId, r[i].key);
    }
  }

  lemma CustomerLoyaltyOmitted(v: Table)
    ensures var r := CustomerLoyalty(v);
      forall c :: c in Column(v, CustId) && c !in Keys(r) ==>
        |r| == TopCount && |OrderIdsWhere(v, CustId, c)| <= r[|r| - 1].value
  {
    var g := GroupNUnique(v, CustId, IntLt);
    var r := CustomerLoyalty(v);
    CustomerLoyaltyRanked(v);
    forall c | c in Column(v, CustId) && c !in Keys(r)
      ensures |r| == TopCount && |OrderIdsWhere(v, CustId, c)| <= r[|r| - 1].value
    {
      var j :| 0 <= j < |g| && g[j].key == c && g[j].value <= r[|r| - 1].value;
    }
  }

  /** Glue between a grouped table over customers and its ranking. */
  lemma RankingFromGroups(v: Table, g: seq<Row<int>>)
    requires Distinct(Keys(g))
    requires forall k :: k in Keys(g) ==> k in Column(v, CustId)
    requires forall k :: k in Column(v, CustId) ==> k in Keys(g)
    ensures var r := TopN(g, TopCount);
      && |r| <= TopCount
      && (|r| == 0 <==> |g| == 0)
      && KeysDistinct(r)
      && NonIncreasing(r)
      && (forall i :: 0 <= i < |r| ==> r[i] in g && r[i].key in Column(v, CustId))
      && (forall c :: c in Column(v, CustId) && c !in Keys(r) ==>
            |r| == TopCount && exists j :: 0 <= j < |g| && g[j].key == c && g[j].value <= r[|r| - 1].value)
  {
    assert KeysDistinct(g) by {
      forall i, j | 0 <= i < j < |g| ensures g[i].key != g[j].key {
        assert Keys(g)[i] == g[i].key && Keys(g)[j] == g[j].key;
      }
    }
    RankingOf(g);
    var r := TopN(g, TopCount);
    forall i | 0 <= i < |r| ensures r[i].key in Column(v, CustId) {
      var j :| 0 <= j < |g| && g[j] == r[i];
      assert Keys(g)[j] == r[i].key;
    }
    forall c | c in Column(v, CustId) && c !in Keys(r)
      ensures |r| == TopCount && exists j :: 0 <= j < |g| && g[j].key == c && g[j].value <= r[|r| - 1].value
    {
      var j :| 0 <= j < |g| && Keys(g)[j] == c;
      assert g[j].key == c;
    }
  }

  lemma CustomerRevenueRanked(v: Table)
    ensures var g := GroupSum(v, CustId, IntLt, OrderTotal);
      var r := TopN(g, TopCount);
      && |r| <= TopCount
      && (|r| == 0 <==> |v| == 0)
      && KeysDistinct(r)
      && NonIncreasing(r)
      && (forall i :: 0 <= i < |r| ==> r[i] in g && r[i].key in Column(v, CustId))
      && (forall c :: c in Column(v, CustId) && c !in Keys(r) ==>
            |r| == TopCount && exists j :: 0 <= j < |g| && g[j].key == c && g[j].value <= r[|r| - 1].value)
  {
    var g := GroupSum(v, CustId, IntLt, OrderTotal);
    IntLtIsStrictTotal();
    GroupKeysCover(v, CustId, IntLt);
    assert Keys(g) == GroupKeys(v, CustId, IntLt);
    RankingFromGroups(v, g);
    NoGroupsOnlyWhenEmpty(v, g);
  }

  lemma CustomerLoyaltyRanked(v: Table)
    ensures var g := GroupNUnique(v, CustId, IntLt);
      var r := TopN(g, TopCount);
      && |r| <= TopCount
      && (|r| == 0 <==> |v| == 0)
      && KeysDistinct(r)
      && NonIncreasing(r)
      && (forall i :: 0 <= i < |r| ==> r[i] in g && r[i].key in Column(v, CustId))
      && (forall c :: c in Column(v, CustId) && c !in Keys(r) ==>
            |r| == TopCount && exists j :: 0 <= j < |g| && g[j].key == c && g[j].value <= r[|r| - 1].value)
  {
    var g := GroupNUnique(v, CustId, IntLt);
    IntLtIsStrictTotal();
    GroupKeysCover(v, CustId, IntLt);
    assert Keys(g) == GroupKeys(v, CustId, IntLt);
    RankingFromGroups(v, g);
    NoGroupsOnlyWhenEmpty(v, g);
  }

  /** A grouped table whose keys cover the view's customers is empty only
      when the view is. */
  lemma NoGroupsOnlyWhenEmpty(v: Table, g: seq<Row<int>>)
    requires forall k :: k in Column(v, CustId) ==> k in Keys(g)
    ensures |g| == 0 ==> |v| == 0
  {
    if |v| > 0 {
      assert Column(v, CustId)[0] in Keys(g);
    }
  }

  /** `top_spender = customer_revenue.iloc[0]`: a customer of the view who
      spent at least as much as every other customer of the view. */
  function TopSpender(v: Table): (r: Row<int>)
    requires |v| > 0
    ensures r.key in Column(v, CustId)
    ensures r.value == SumWhere(v, CustId, OrderTotal, r.key)
    ensures forall c :: c in Column(v, CustId) ==> SumWhere(v, CustId, OrderTotal, c) <= r.value
  {
    CustomerRevenueSpec(v);
    var ranking := CustomerRevenue(v);
    assert forall c :: c in Column(v, CustId) && c in Keys(ranking) ==>
      SumWhere(v, CustId, OrderTotal, c) <= ranking[0].value by {
      forall c | c in Column(v, CustId) && c in Keys(ranking)
        ensures SumWhere(v, CustId, OrderTotal, c) <= ranking[0].value
      {
        var i :| 0 <= i < |ranking| && Keys(ranking)[i] == c;
      }
    }
    ranking[0]
  }

  /** `most_loyal = customer_loyalty.iloc[0]`: a customer of the view with
      at least as many distinct orders as every other customer of the view. */
  function MostLoyal(v: Table): (r: Row<int>)
    requires |v| > 0
    ensures r.key in Column(v, CustId)
    ensures r.value == |OrderIdsWhere(v, CustId, r.key)|
    ensures forall c :: c in Column(v, CustId) ==> |OrderIdsWhere(v, CustId, c)| <= r.value
  {
    CustomerLoyaltySpec(v);
    var ranking := CustomerLoyalty(v);
    assert forall c :: c in Column(v, CustId) && c in Keys(ranking) ==>
      |OrderIdsWhere(v, CustId, c)| <= ranking[0].value by {
      forall c | c in Column(v, CustId) && c in Keys(ranking)
        ensures |OrderIdsWhere(v, CustId, c)| <= ranking[0].value
      {
        var i :| 0 <= i < |ranking| && Keys(ranking)[i] == c;
      }
    }
    ranking[0]
  }

  /** With no category selected the two rankings have no rows, so the
      first-row reads behind `TopSpender` and `MostLoyal` have nothing to
      read. */
  lemma EmptySelectionHasNoLeader(t: Table, days: seq<string>)
    ensures CustomerRevenue(Selection.FilterView(t, [], days)) == []
    ensures CustomerLoyalty(Selection.FilterView(t, [], days)) == []
  {
    Selection.FilterEmptySelection(t, [], days);
  }

  /** The top spender when the view has lines, and no top spender
      otherwise. */
  function TopSpenderIfAny(v: Table): (r: Option<Row<int>>)
    ensures r.None? <==> |v| == 0
    ensures r.Some? ==> r.value.key in Column(v, CustId)
    ensures r.Some? ==> r.value.value == SumWhere(v, CustId, OrderTotal, r.value.key)
    ensures r.Some? ==> forall c :: c in Column(v, CustId) ==> SumWhere(v, CustId, OrderTotal, c) <= r.value.value
  {
    if |v| == 0 then None else Some(TopSpender(v))
  }

  /** The most loyal customer when the view has lines, and none otherwise. */
  function MostLoyalIfAny(v: Table): (r: Option<Row<int>>)
    ensures r.None? <==> |v| == 0
    ensures r.Some? ==> r.value.key in Column(v, CustId)
    ensures r.Some? ==> r.value.value == |OrderIdsWhere(v, CustId, r.value.key)|
    ensures r.Some? ==> forall c :: c in Column(v, CustId) ==> |OrderIdsWhere(v, CustId, c)| <= r.value.value
  {
    if |v| == 0 then None else Some(MostLoyal(v))
  }

  // Category, item and weekday tables

  /** `rev_cat`: revenue per category. */
  function RevenueByCategory(v: Table): seq<Row<string>> {
    GroupSum(v, Category, StrLt, OrderTotal)
  }

  /** `vol_cat`: quantity per category. */
  function VolumeByCategory(v: Table): seq<Row<string>> {
    GroupSum(v, Category, StrLt, Quantity)
  }

  /** One category per row, in ascending order, exactly the categories of the
      view; each row's revenue is its category's share, and the shares add
      up to the total-revenue KPI. */
  lemma RevenueByCategorySpec(v: Table)
    ensures var g := RevenueByCategory(v);
      && StrictlySorted(StrLt, Keys(g))
      && (forall c :: c in Keys(g) <==> c in Column(v, Category))
      && (forall i :: 0 <= i < |g| ==> g[i].value == SumWhere(v, Category, OrderTotal, g[i].key))
      && Total(g) == TotalRevenue(v)
  {
    StrLtIsStrictTotal();
    GroupSumSpec(v, Category, StrLt, OrderTotal);
  }

  /** As `RevenueByCategorySpec`, for quantities: the per-category volumes
      add up to the items-sold KPI. */
  lemma VolumeByCategorySpec(v: Table)
    ensures var g := VolumeByCategory(v);
      && StrictlySorted(StrLt, Keys(g))
      && (forall c :: c in Keys(g) <==> c in Column(v, Category))
      && (forall i :: 0 <= i < |g| ==> g[i].value == SumWhere(v, Category, Quantity, g[i].key))
      && Total(g) == ItemsSold(v)
  {
    StrLtIsStrictTotal();
    GroupSumSpec(v, Category, StrLt, Quantity);
  }

  /** One row of `item_perf`. */
  datatype ItemRow = ItemRow(category: string, item: string, totalQuantity: int, totalRevenue: int)

  function ItemRows(v: Table, ks: seq<(string, string)>): (rows: seq<ItemRow>)
    ensures |rows| == |ks|
    ensures forall i :: 0 <= i < |ks| ==>
      rows[i] == ItemRow(ks[i].0, ks[i].1,
                         SumWhere(v, CategoryItem, Quantity, ks[i]),
                         SumWhere(v, CategoryItem, OrderTotal, ks[i]))
  {
    if ks == [] then []
    else [ItemRow(ks[0].0, ks[0].1,
                  SumWhere(v, CategoryItem, Quantity, ks[0]),
                  SumWhere(v, CategoryItem, OrderTotal, ks[0]))] + ItemRows(v, ks[1..])
  }

  /** `item_perf`: quantity and revenue per (category, item). */
  function ItemPerformance(v: Table): seq<ItemRow> {
    ItemRows(v, GroupKeys(v, CategoryItem, PairLt))
  }

  function QuantityColumnTotal(rows: seq<ItemRow>): int {
    if rows == [] then 0 else rows[0].totalQuantity + QuantityColumnTotal(rows[1..])
  }

  function RevenueColumnTotal(rows: seq<ItemRow>): int {
    if rows == [] then 0 else rows[0].totalRevenue + RevenueColumnTotal(rows[1..])
  }

  lemma {:induction false} ItemColumnsAreGroupSums(v: Table, ks: seq<(string, string)>)
    ensures QuantityColumnTotal(ItemRows(v, ks)) == Total(SumRows(v, CategoryItem, Quantity, ks))
    ensures RevenueColumnTotal(ItemRows(v, ks)) == Total(SumRows(v, CategoryItem, OrderTotal, ks))
  {
    if ks != [] {
      ItemColumnsAreGroupSums(v, ks[1..]);
      assert ItemRows(v, ks)[1..] == ItemRows(v, ks[1..]);
      assert SumRows(v, CategoryItem, Quantity, ks)[1..] == SumRows(v, CategoryItem, Quantity, ks[1..]);
      assert SumRows(v, CategoryItem, OrderTotal, ks)[1..] == SumRows(v, CategoryItem, OrderTotal, ks[1..]);
    }
  }

  function ItemKeys(rows: seq<ItemRow>): (ks: seq<(string, string)>)
    ensures |ks| == |rows|
    ensures forall i :: 0 <= i < |rows| ==> ks[i] == (rows[i].category, rows[i].item)
  {
    if rows == [] then [] else [(rows[0].category, rows[0].item)] + ItemKeys(rows[1..])
  }

  /** Exactly one row per distinct (category, item) pair of the view, in
      ascending order; each row holds that pair's quantity and revenue, and
      the two columns add up to the items-sold and total-revenue KPIs. */
  lemma ItemPerformanceSpec(v: Table)
    ensures var rows := ItemPerformance(v);
      && StrictlySorted(PairLt, ItemKeys(rows))
      && (forall p :: p in ItemKeys(rows) <==> p in Column(v, CategoryItem))
      && (forall i :: 0 <= i < |rows| ==>
            rows[i].totalQuantity == SumWhere(v, CategoryItem, Quantity, (rows[i].category, rows[i].item)) &&
            rows[i].totalRevenue == SumWhere(v, CategoryItem, OrderTotal, (rows[i].category, rows[i].item)))
      && QuantityColumnTotal(rows) == ItemsSold(v)
      && RevenueColumnTotal(rows) == TotalRevenue(v)
  {
    ItemPerformanceKeys(v);
    ItemPerformanceTotals(v);
  }

  lemma ItemPerformanceKeys(v: Table)
    ensures ItemKeys(ItemPerformance(v)) == GroupKeys(v, CategoryItem, PairLt)
    ensures StrictlySorted(PairLt, ItemKeys(ItemPerformance(v)))
  {
    PairLtIsStrictTotal();
    SortedDistinctSorted(PairLt, Column(v, CategoryItem));
  }

  lemma ItemPerformanceTotals(v: Table)
    ensures QuantityColumnTotal(ItemPerformance(v)) == ItemsSold(v)
    ensures RevenueColumnTotal(ItemPerformance(v)) == TotalRevenue(v)
  {
    var ks := GroupKeys(v, CategoryItem, PairLt);
    PairLtIsStrictTotal();
    SortedDistinctSorted(PairLt, Column(v, CategoryItem));
    ItemColumnsAreGroupSums(v, ks);
    SumRowsConserve(v, CategoryItem, Quantity, ks);
    SumRowsConserve(v, CategoryItem, OrderTotal, ks);
  }

  /** `weekday_order`: distinct orders per weekday. */
  function WeekdayOrders(v: Table): seq<Row<string>> {
    GroupNUnique(v, Weekday, StrLt)
  }

  /** One row per weekday of the view, in ascending order of the weekday's
      name; each holds the number of distinct orders on that weekday, which
      is at least one and at most the weekday's line count. */
  lemma WeekdayOrdersSpec(v: Table)
    ensures var g := WeekdayOrders(v);
      && StrictlySorted(StrLt, Keys(g))
      && (forall d :: d in Keys(g) <==> d in Column(v, Weekday))
      && (forall i :: 0 <= i < |g| ==> g[i].value == |OrderIdsWhere(v, Weekday, g[i].key)|)
      && (forall i :: 0 <= i < |g| ==> 1 <= g[i].value <= CountWhere(v, Weekday, g[i].key))
  {
    StrLtIsStrictTotal();
    GroupNUniqueSpec(v, Weekday, StrLt);
  }

  /** On an empty view the sums are zero, the mean is NaN and every table
      is empty. */
  lemma EmptyView()
    ensures TotalRevenue([]) == 0 && ItemsSold([]) == 0 && AvgOrderValue([]).None?
    ensures CustomerRevenue([]) == [] && CustomerLoyalty([]) == []
    ensures RevenueByCategory([]) == [] && VolumeByCategory([]) == []
    ensures ItemPerformance([]) == [] && WeekdayOrders([]) == []
  {
  }
}
