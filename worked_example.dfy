/** A small worked instance of the pipeline: three order lines, a filter on
    one category, and the KPI and tables that result. */
module WorkedExample {
  import opened Orders
  import opened Ordering
  import opened Grouping
  import opened Ranking
  import opened Selection
  import opened Dashboard

  /** Customer 1 buys two drinks (10.00) and a food item (20.00) on a
      Monday; customer 2 buys one drink (5.00) on a Tuesday. */
  function Sample(): Table {
    [ OrderLine(1, 1, "Drinks", "Tea", 2, 1000, 100, "Monday", 1, 2022),
      OrderLine(2, 1, "Food", "Rice", 1, 2000, 100, "Monday", 1, 2022),
      OrderLine(3, 2, "Drinks", "Tea", 1, 500, 101, "Tuesday", 1, 2022) ]
  }

  /** Selecting only "Drinks" on Monday and Tuesday keeps the two drink
      lines, in their original order. */
  lemma DrinksView()
    ensures FilterView(Sample(), ["Drinks"], ["Monday", "Tuesday"]) == [Sample()[0], Sample()[2]]
  {
    var t := Sample();
    assert t[1..][1..] == [t[2]] && [t[2]][1..] == [];
  }

  /** On those two lines: revenue 15.00 and three items sold. */
  lemma DrinksKpis()
    ensures var v := [Sample()[0], Sample()[2]];
      TotalRevenue(v) == 1500 && ItemsSold(v) == 3
  {
    var v := [Sample()[0], Sample()[2]];
    var w := [Sample()[2]];
    assert v[1..] == w && w[1..] == [];
    assert Sum(w, OrderTotal) == 500 && Sum(w, Quantity) == 1;
    assert Sum(v, OrderTotal) == 1000 + Sum(w, OrderTotal);
    assert Sum(v, Quantity) == 2 + Sum(w, Quantity);
  }

  /** One category row, holding all the revenue. */
  lemma DrinksByCategory()
    ensures RevenueByCategory([Sample()[0], Sample()[2]]) == [Row("Drinks", 1500)]
  {
    var v := [Sample()[0], Sample()[2]];
    assert v[1..] == [Sample()[2]] && [Sample()[2]][1..] == [];
    assert Column(v, Category) == ["Drinks", "Drinks"];
    assert ["Drinks", "Drinks"][1..] == ["Drinks"];
    assert SortedDistinct(StrLt, ["Drinks"]) == ["Drinks"];
    assert GroupKeys(v, Category, StrLt) == ["Drinks"];
    var w := [Sample()[2]];
    assert SumWhere(w, Category, OrderTotal, "Drinks") == 500;
    assert SumWhere(v, Category, OrderTotal, "Drinks") == 1000 + SumWhere(w, Category, OrderTotal, "Drinks");
  }

  /** Grouped by customer: customer 1 spent 10.00, customer 2 spent 5.00. */
  lemma DrinksCustomerSums()
    ensures GroupSum([Sample()[0], Sample()[2]], CustId, IntLt, OrderTotal) == [Row(1, 1000), Row(2, 500)]
  {
    var v := [Sample()[0], Sample()[2]];
    assert v[1..] == [Sample()[2]] && [Sample()[2]][1..] == [];
    assert Column(v, CustId) == [1, 2];
    assert [1, 2][1..] == [2] && [2][1..] == [];
    assert SortedDistinct(IntLt, [2]) == [2];
    assert GroupKeys(v, CustId, IntLt) == [1, 2];
    var w := [Sample()[2]];
    assert w[1..] == [] && CustId(w[0]) == 2 && OrderTotal(w[0]) == 500;
    assert SumWhere(w, CustId, OrderTotal, 2) == OrderTotal(w[0]) + SumWhere(w[1..], CustId, OrderTotal, 2);
    assert SumWhere(w, CustId, OrderTotal, 1) == 0 && SumWhere(w, CustId, OrderTotal, 2) == 500;
    assert SumWhere(v, CustId, OrderTotal, 1) == 1000 + SumWhere(w, CustId, OrderTotal, 1);
    assert SumWhere(v, CustId, OrderTotal, 2) == 0 + SumWhere(w, CustId, OrderTotal, 2);
  }

  /** Customer 1 (10.00) ranks ahead of customer 2 (5.00). */
  lemma DrinksTopSpenders()
    ensures CustomerRevenue([Sample()[0], Sample()[2]]) == [Row(1, 1000), Row(2, 500)]
  {
    DrinksCustomerSums();
    var g := [Row(1, 1000), Row(2, 500)];
    assert g[1..] == [Row(2, 500)] && g[1..][1..] == [];
    assert SortDesc([Row(2, 500)]) == [Row(2, 500)];
    assert SortDesc(g) == g;
  }
}
