/** The sidebar filter: keep the lines whose category is among the selected
    categories and whose weekday is among the selected weekdays. */
module Selection {
  import opened Orders
  import opened Ordering

  predicate Kept(r: OrderLine, cats: seq<string>, days: seq<string>) {
    r.category in cats && r.weekday in days
  }

  /** The filtered view: the kept lines, in their original order. */
  function FilterView(t: Table, cats: seq<string>, days: seq<string>): (v: Table)
    ensures |v| <= |t|
    ensures forall r :: r in v ==> r in t && Kept(r, cats, days)
    ensures forall r :: r in t && Kept(r, cats, days) ==> r in v
  {
    if t == [] then []
    else if Kept(t[0], cats, days) then [t[0]] + FilterView(t[1..], cats, days)
    else FilterView(t[1..], cats, days)
  }

  /** The values of a column in order of first appearance, like
      `Series.unique()`; these are the options and defaults of the two
      selectors. */
  function Unique(s: seq<string>): (u: seq<string>)
    ensures Distinct(u)
    ensures forall x :: x in u <==> x in s
  {
    if s == [] then []
    else if s[|s| - 1] in s[..|s| - 1] then Unique(s[..|s| - 1])
    else Unique(s[..|s| - 1]) + [s[|s| - 1]]
  }

  /** Filtering a concatenation filters each part: relative order is kept. */
  lemma {:induction false} FilterAppend(a: Table, b: Table, cats: seq<string>, days: seq<string>)
    ensures FilterView(a + b, cats, days) == FilterView(a, cats, days) + FilterView(b, cats, days)
  {
    if a != [] {
      assert (a + b)[1..] == a[1..] + b;
      FilterAppend(a[1..], b, cats, days);
    } else {
      assert a + b == b;
    }
  }

  lemma {:induction false} FilterAllKept(t: Table, cats: seq<string>, days: seq<string>)
    requires forall r :: r in t ==> Kept(r, cats, days)
    ensures FilterView(t, cats, days) == t
  {
    if t != [] {
      FilterAllKept(t[1..], cats, days);
    }
  }

  lemma {:induction false} FilterDropsOne(t: Table, cats: seq<string>, days: seq<string>)
    requires exists r :: r in t && !Kept(r, cats, days)
    ensures |FilterView(t, cats, days)| < |t|
  {
    if Kept(t[0], cats, days) {
      var r :| r in t && !Kept(r, cats, days);
      assert r in t[1..];
      FilterDropsOne(t[1..], cats, days);
    }
  }

  /** The view is as long as the table exactly when every category and
      every weekday present in the table is selected; then it is the table. */
  lemma FilterKeepsAll(t: Table, cats: seq<string>, days: seq<string>)
    ensures |FilterView(t, cats, days)| == |t| <==>
      (forall c :: c in Column(t, Category) ==> c in cats) &&
      (forall d :: d in Column(t, Weekday) ==> d in days)
    ensures |FilterView(t, cats, days)| == |t| ==> FilterView(t, cats, days) == t
  {
    var allKept := forall r :: r in t ==> Kept(r, cats, days);
    if allKept {
      FilterAllKept(t, cats, days);
      forall c | c in Column(t, Category) ensures c in cats {
        var i :| 0 <= i < |t| && Column(t, Category)[i] == c;
        assert t[i] in t;
      }
      forall d | d in Column(t, Weekday) ensures d in days {
        var i :| 0 <= i < |t| && Column(t, Weekday)[i] == d;
        assert t[i] in t;
      }
    } else {
      FilterDropsOne(t, cats, days);
      var r :| r in t && !Kept(r, cats, days);
      var i :| 0 <= i < |t| && t[i] == r;
      assert Column(t, Category)[i] == r.category;
      assert Column(t, Weekday)[i] == r.weekday;
    }
  }

  /** The default selection (every category and weekday present) keeps the
      whole table. */
  lemma DefaultSelectionKeepsAll(t: Table)
    ensures FilterView(t, Unique(Column(t, Category)), Unique(Column(t, Weekday))) == t
  {
    FilterKeepsAll(t, Unique(Column(t, Category)), Unique(Column(t, Weekday)));
  }

  /** An empty category or weekday selection yields an empty view. */
  lemma {:induction false} FilterEmptySelection(t: Table, cats: seq<string>, days: seq<string>)
    requires cats == [] || days == []
    ensures FilterView(t, cats, days) == []
  {
    if t != [] {
      FilterEmptySelection(t[1..], cats, days);
    }
  }

  /** Filtering an already filtered view again changes nothing. */
  lemma FilterIdempotent(t: Table, cats: seq<string>, days: seq<string>)
    ensures FilterView(FilterView(t, cats, days), cats, days) == FilterView(t, cats, days)
  {
    FilterAllKept(FilterView(t, cats, days), cats, days);
  }

  /** Only which values are selected matters, not their order or repetition. */
  lemma {:induction false} FilterSelectionAsSet(t: Table, cats: seq<string>, days: seq<string>,
                                                cats': seq<string>, days': seq<string>)
    requires forall c :: c in cats <==> c in cats'
    requires forall d :: d in days <==> d in days'
    ensures FilterView(t, cats, days) == FilterView(t, cats', days')
  {
    if t != [] {
      FilterSelectionAsSet(t[1..], cats, days, cats', days');
    }
  }
}
