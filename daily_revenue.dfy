/** The per-year daily revenue panel: narrow the filtered view to one year,
    offer "All Months" plus the months present in that year, narrow to the
    chosen month, and sum revenue per day, or report that there is no data. */
module DailyRevenue {
  import opened Orders
  import opened Ordering
  import opened Grouping
  import Dashboard

  const MonthMap: map<int, string> := map[
    1 := "January", 2 := "February", 3 := "March", 4 := "April",
    5 := "May", 6 := "June", 7 := "July", 8 := "August",
    9 := "September", 10 := "October", 11 := "November", 12 := "December"]

  /** The option that selects the whole year. */
  const AllMonths: string := "All Months"

  /** The month table covers exactly 1..12, and "All Months" is not a month
      name. */
  lemma MonthMapDomain()
    ensures forall m :: m in MonthMap <==> 1 <= m <= 12
    ensures AllMonths !in MonthMap.Values
  {
  }

  /** No two months share a name. */
  lemma MonthMapInjective()
    ensures forall a, b :: a in MonthMap && b in MonthMap && MonthMap[a] == MonthMap[b] ==> a == b
  {
    forall a, b | a in MonthMap && b in MonthMap && MonthMap[a] == MonthMap[b] ensures a == b {
      SameNameSameMonth(a, b);
    }
  }

  lemma SameNameSameMonth(a: int, b: int)
    requires a in MonthMap && b in MonthMap && MonthMap[a] == MonthMap[b]
    ensures a == b
  {
    // The twelve names differ in their length, first or third letter.
    var s := MonthMap[a];
    assert (|s|, s[0], s[2]) == (|MonthMap[b]|, MonthMap[b][0], MonthMap[b][2]);
  }

  /** `[k for k, v in MONTH_MAP.items() if v == name]`, scanning the keys
      upwards from `from`. */
  function MonthsNamed(name: string, from: int): (ks: seq<int>)
    requires 1 <= from <= 13
    ensures forall k :: k in ks ==> from <= k <= 12 && k in MonthMap && MonthMap[k] == name
    decreases 13 - from
  {
    if from == 13 then []
    else (if MonthMap[from] == name then [from] else []) + MonthsNamed(name, from + 1)
  }

  /** Scanning for a month's name finds that month and no other. */
  lemma {:induction false} MonthsNamedOfMonth(m: int, from: int)
    requires m in MonthMap && 1 <= from <= 13
    ensures MonthsNamed(MonthMap[m], from) == if from <= m then [m] else []
    decreases 13 - from
  {
    if from < 13 {
      MonthsNamedOfMonth(m, from + 1);
      assert from in MonthMap;
      if MonthMap[from] == MonthMap[m] {
        SameNameSameMonth(from, m);
      }
    }
  }

  /** The names the reverse lookup accepts: "All Months" or a name the scan
      finds (for any other, taking the first match would fail). */
  predicate ValidSelection(sel: string) {
    sel == AllMonths || MonthsNamed(sel, 1) != []
  }

  /** `month_num`: the first key of the month table whose name is `name`. */
  function MonthNumber(name: string): (m: int)
    requires MonthsNamed(name, 1) != []
    ensures m in MonthMap && MonthMap[m] == name
  {
    var ks := MonthsNamed(name, 1);
    assert ks[0] in ks;
    ks[0]
  }

  /** Looking a month's name up again gives back exactly that month. */
  lemma MonthLookupRoundTrip(m: int)
    requires m in MonthMap
    ensures MonthsNamed(MonthMap[m], 1) == [m]
    ensures MonthNumber(MonthMap[m]) == m
  {
    MonthMapDomain();
    assert 1 <= m;
    MonthsNamedOfMonth(m, 1);
  }

  /** A boolean-mask selection on one calendar field: the lines whose
      field `f` equals `k`, in their original order, repeats kept. */
  function RowsWhere(v: Table, f: OrderLine -> int, k: int): (y: Table)
    ensures |y| <= |v|
    ensures forall r :: r in y ==> r in v && f(r) == k
    ensures forall r :: r in v && f(r) == k ==> r in y
  {
    if v == [] then []
    else if f(v[0]) == k then [v[0]] + RowsWhere(v[1..], f, k)
    else RowsWhere(v[1..], f, k)
  }

  /** Selecting from a concatenation selects from each part: every matching
      line is kept once per occurrence, in order. */
  lemma {:induction false} RowsWhereAppend(a: Table, b: Table, f: OrderLine -> int, k: int)
    ensures RowsWhere(a + b, f, k) == RowsWhere(a, f, k) + RowsWhere(b, f, k)
  {
    if a != [] {
      assert (a + b)[1..] == a[1..] + b;
      RowsWhereAppend(a[1..], b, f, k);
    } else {
      assert a + b == b;
    }
  }

  /** `df[df["year"] == year]` */
  function YearRows(v: Table, year: int): Table {
    RowsWhere(v, Year, year)
  }

  /** `df[df["month"] == month]` */
  function MonthRows(v: Table, month: int): Table {
    RowsWhere(v, MonthOf, month)
  }

  function MonthNames(ms: seq<int>): (names: seq<string>)
    requires forall i :: 0 <= i < |ms| ==> ms[i] in MonthMap
    ensures |names| == |ms|
    ensures forall i :: 0 <= i < |ms| ==> names[i] == MonthMap[ms[i]]
  {
    if ms == [] then [] else [MonthMap[ms[0]]] + MonthNames(ms[1..])
  }

  /** `sorted(df["month"].unique())`: the months present in a year's lines,
      ascending and without repeats. */
  function MonthsPresent(y: Table): (ms: seq<int>)
    ensures forall i :: 0 <= i < |ms| ==> ms[i] in MonthMap
  {
    MonthMapDomain();
    var ms := SortedDistinct(IntLt, Column(y, MonthOf));
    assert forall i :: 0 <= i < |ms| ==> ms[i] in Column(y, MonthOf);
    ms
  }

  /** `month_options`: "All Months", then the names of the months present. */
  function MonthOptions(y: Table): seq<string> {
    [AllMonths] + MonthNames(MonthsPresent(y))
  }

  /** Each option after the first is the name of the month at the same
      position in the sorted months, and looks up to that month. */
  lemma MonthOptionsAt(y: Table, i: int)
    requires 1 <= i < |MonthOptions(y)|
    ensures var ms := MonthsPresent(y);
      && MonthOptions(y)[i] == MonthMap[ms[i - 1]]
      && ValidSelection(MonthOptions(y)[i])
      && MonthOptions(y)[i] != AllMonths
      && MonthNumber(MonthOptions(y)[i]) == ms[i - 1]
  {
    var ms := MonthsPresent(y);
    var m := ms[i - 1];
    assert MonthOptions(y)[i] == MonthMap[m];
    MonthLookupRoundTrip(m);
    NotAllMonths(m);
  }

  lemma NotAllMonths(m: int)
    requires m in MonthMap
    ensures MonthMap[m] != AllMonths
  {
    MonthMapDomain();
    assert MonthMap[m] in MonthMap.Values;
  }

  /** The options start with "All Months", followed by the names of exactly
      the months present, in ascending month order and without repeats; each
      offered name looks up to a month that is present. */
  lemma MonthOptionsSpec(y: Table)
    ensures var opts := MonthOptions(y);
      && |opts| >= 1 && opts[0] == AllMonths
      && (forall i :: 1 <= i < |opts| ==> ValidSelection(opts[i]) && opts[i] != AllMonths)
      && (forall i :: 1 <= i < |opts| ==> MonthNumber(opts[i]) in Column(y, MonthOf))
      && (forall i, j :: 1 <= i < j < |opts| ==> MonthNumber(opts[i]) < MonthNumber(opts[j]))
      && (forall m :: m in Column(y, MonthOf) ==> MonthMap[m] in opts)
      && Distinct(opts)
  {
    var ms := MonthsPresent(y);
    var opts := MonthOptions(y);
    IntLtIsStrictTotal();
    SortedDistinctSorted(IntLt, Column(y, MonthOf));
    forall i | 1 <= i < |opts|
      ensures ValidSelection(opts[i]) && opts[i] != AllMonths
      ensures MonthNumber(opts[i]) == ms[i - 1] && ms[i - 1] in Column(y, MonthOf)
    {
      MonthOptionsAt(y, i);
      assert ms[i - 1] in ms;
    }
    forall m | m in Column(y, MonthOf) ensures MonthMap[m] in opts {
      var i :| 0 <= i < |ms| && ms[i] == m;
      assert opts[i + 1] == MonthMap[m];
    }
    forall i, j | 0 <= i < j < |opts| ensures opts[i] != opts[j] {
      if i > 0 {
        assert MonthNumber(opts[i]) == ms[i - 1] && MonthNumber(opts[j]) == ms[j - 1];
      }
    }
  }

  /** `plot_df`: the year's lines, narrowed to the chosen month unless the
      whole year is selected. */
  function PlotView(v: Table, year: int, sel: string): Table
    requires ValidSelection(sel)
  {
    var y := YearRows(v, year);
    if sel == AllMonths then y else MonthRows(y, MonthNumber(sel))
  }

  /** The plotted lines come only from the chosen year, and from the chosen
      month unless "All Months" is selected; every such line is plotted. */
  lemma PlotViewSpec(v: Table, year: int, sel: string)
    requires ValidSelection(sel)
    ensures |PlotView(v, year, sel)| <= |v|
    ensures forall r :: r in PlotView(v, year, sel) ==>
      r in v && r.year == year && (sel == AllMonths || MonthMap[r.month] == sel)
    ensures forall r :: r in v && r.year == year && (sel == AllMonths || r.month == MonthNumber(sel)) ==>
      r in PlotView(v, year, sel)
  {
  }

  /** The plotted view of a concatenation is the concatenation of the
      plotted views: order and repeats are kept as the boolean masks keep
      them. */
  lemma PlotViewAppend(a: Table, b: Table, year: int, sel: string)
    requires ValidSelection(sel)
    ensures PlotView(a + b, year, sel) == PlotView(a, year, sel) + PlotView(b, year, sel)
  {
    RowsWhereAppend(a, b, Year, year);
    if sel != AllMonths {
      RowsWhereAppend(YearRows(a, year), YearRows(b, year), MonthOf, MonthNumber(sel));
    }
  }

  /** What the panel shows: a line chart of daily revenue, or the "no data"
      notice. */
  datatype Panel = NoData | Trend(points: seq<Row<int>>)

  /** `daily_rev`: revenue per day, days ascending. */
  function DailyRevenueOf(p: Table): seq<Row<int>> {
    GroupSum(p, Day, IntLt, OrderTotal)
  }

  function DailyRevenuePanel(v: Table, year: int, sel: string): Panel
    requires ValidSelection(sel)
  {
    var daily := DailyRevenueOf(PlotView(v, year, sel));
    if daily == [] then NoData else Trend(daily)
  }

  /** The panel reports "no data" exactly when nothing is plotted; otherwise
      its points are the days plotted, ascending and once each, each with
      that day's revenue, adding up to the plotted lines' revenue. */
  lemma DailyRevenuePanelSpec(v: Table, year: int, sel: string)
    requires ValidSelection(sel)
    ensures var p := PlotView(v, year, sel);
      && (DailyRevenuePanel(v, year, sel).NoData? <==> |p| == 0)
      && (DailyRevenuePanel(v, year, sel).Trend? ==>
            var pts := DailyRevenuePanel(v, year, sel).points;
            && StrictlySorted(IntLt, Keys(pts))
            && (forall d :: d in Keys(pts) <==> d in Column(p, Day))
            && (forall i :: 0 <= i < |pts| ==> pts[i].value == SumWhere(p, Day, OrderTotal, pts[i].key))
            && Total(pts) == Dashboard.TotalRevenue(p))
  {
    var p := PlotView(v, year, sel);
    IntLtIsStrictTotal();
    GroupSumSpec(p, Day, IntLt, OrderTotal);
    if |p| > 0 {
      assert Column(p, Day)[0] in Keys(DailyRevenueOf(p));
    }
  }

  /** Choosing any offered month shows "no data" only when the year itself
      has no lines: an offered month always has data. */
  lemma OfferedMonthHasData(v: Table, year: int, sel: string)
    requires sel in MonthOptions(YearRows(v, year))
    ensures ValidSelection(sel)
    ensures DailyRevenuePanel(v, year, sel).NoData? <==> |YearRows(v, year)| == 0
  {
    var y := YearRows(v, year);
    var opts := MonthOptions(y);
    var i :| 0 <= i < |opts| && opts[i] == sel;
    if i > 0 {
      MonthOptionsAt(y, i);
      var m := MonthNumber(sel);
      assert m in MonthsPresent(y);
      var j :| 0 <= j < |y| && Column(y, MonthOf)[j] == m;
      assert y[j] in MonthRows(y, m);
    }
    DailyRevenuePanelSpec(v, year, sel);
  }
}
