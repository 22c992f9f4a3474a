/** `sort_values(measure, ascending=False).head(n)` over a grouped table.
    The sort below is one admissible order; nothing here depends on how
    rows with equal values are ordered among themselves. */
module Ranking {
  import opened Grouping

  predicate NonIncreasing<K>(g: seq<Row<K>>) {
    forall i, j :: 0 <= i < j < |g| ==> g[i].value >= g[j].value
  }

  predicate KeysDistinct<K(==)>(g: seq<Row<K>>) {
    forall i, j :: 0 <= i < j < |g| ==> g[i].key != g[j].key
  }

  function InsertDesc<K>(x: Row<K>, s: seq<Row<K>>): (r: seq<Row<K>>)
    ensures |r| == |s| + 1
    ensures multiset(r) == multiset(s) + multiset{x}
  {
    if s == [] || x.value >= s[0].value then [x] + s
    else
      assert s == [s[0]] + s[1..];
      [s[0]] + InsertDesc(x, s[1..])
  }

  lemma InsertDescMembers<K>(x: Row<K>, s: seq<Row<K>>)
    ensures forall y :: y in InsertDesc(x, s) ==> y == x || y in s
  {
    forall y | y in InsertDesc(x, s) ensures y == x || y in s {
      assert y in multiset(InsertDesc(x, s));
    }
  }

  lemma {:induction false} InsertDescOrdered<K>(x: Row<K>, s: seq<Row<K>>)
    requires NonIncreasing(s)
    ensures NonIncreasing(InsertDesc(x, s))
    ensures KeysDistinct(s) && (forall y :: y in s ==> y.key != x.key) ==> KeysDistinct(InsertDesc(x, s))
  {
    if s != [] && x.value < s[0].value {
      var rest := InsertDesc(x, s[1..]);
      InsertDescOrdered(x, s[1..]);
      InsertDescMembers(x, s[1..]);
      forall y | y in rest ensures y.value <= s[0].value && (KeysDistinct(s) && y != x ==> y.key != s[0].key) {
        if y != x {
          var j :| 0 <= j < |s| - 1 && s[1..][j] == y;
          assert s[j + 1] == y;
        }
      }
      assert InsertDesc(x, s) == [s[0]] + rest;
    }
  }

  /** The rows in non-increasing order of value. */
  function SortDesc<K>(s: seq<Row<K>>): (r: seq<Row<K>>)
    ensures |r| == |s|
    ensures multiset(r) == multiset(s)
  {
    if s == [] then []
    else
      assert s == [s[0]] + s[1..];
      InsertDesc(s[0], SortDesc(s[1..]))
  }

  lemma {:induction false} SortDescOrdered<K>(s: seq<Row<K>>)
    ensures NonIncreasing(SortDesc(s))
    ensures KeysDistinct(s) ==> KeysDistinct(SortDesc(s))
  {
    if s != [] {
      var rest := SortDesc(s[1..]);
      SortDescOrdered(s[1..]);
      forall y | y in rest ensures y in s[1..] {
        assert y in multiset(rest);
      }
      InsertDescOrdered(s[0], rest);
    }
  }

  /** The first `n` rows after sorting in non-increasing order of value. */
  function TopN<K>(g: seq<Row<K>>, n: nat): (r: seq<Row<K>>)
    ensures |r| == if |g| <= n then |g| else n
  {
    var s := SortDesc(g);
    s[..if |s| <= n then |s| else n]
  }

  /** Every row cut off from a non-increasing list is no larger than any
      row kept. */
  lemma PrefixDominates<K>(s: seq<Row<K>>, k: nat)
    requires NonIncreasing(s) && k <= |s|
    ensures multiset(s) == multiset(s[..k]) + multiset(s[k..])
    ensures multiset(s) - multiset(s[..k]) == multiset(s[k..])
    ensures forall x, y :: x in s[..k] && y in multiset(s[k..]) ==> y.value <= x.value
  {
    assert s == s[..k] + s[k..];
    forall x, y | x in s[..k] && y in multiset(s[k..]) ensures y.value <= x.value {
      var i :| 0 <= i < k && s[i] == x;
      var j :| 0 <= j < |s| - k && s[k..][j] == y;
      assert s[k + j] == y;
    }
  }

  lemma TopNOrdered<K>(g: seq<Row<K>>, n: nat)
    ensures NonIncreasing(TopN(g, n))
    ensures KeysDistinct(g) ==> KeysDistinct(TopN(g, n))
  {
    SortDescOrdered(g);
  }

  lemma TopNRows<K>(g: seq<Row<K>>, n: nat)
    ensures multiset(TopN(g, n)) <= multiset(g)
    ensures |g| <= n ==> multiset(TopN(g, n)) == multiset(g)
  {
    var s := SortDesc(g);
    var k := if |s| <= n then |s| else n;
    assert s == s[..k] + s[k..];
    if |g| <= n {
      assert s[..k] == s;
    }
  }

  lemma TopNCutoff<K>(g: seq<Row<K>>, n: nat)
    ensures forall x, y :: x in TopN(g, n) && y in multiset(g) - multiset(TopN(g, n)) ==> y.value <= x.value
  {
    var s := SortDesc(g);
    var k := if |s| <= n then |s| else n;
    SortDescOrdered(g);
    PrefixDominates(s, k);
  }

  /** Top-N keeps rows of the table only, in non-increasing order, all of
      them when there are at most `n`; every row left out is no larger than
      every row kept; and distinct keys stay distinct. */
  lemma TopNSpec<K>(g: seq<Row<K>>, n: nat)
    ensures NonIncreasing(TopN(g, n))
    ensures multiset(TopN(g, n)) <= multiset(g)
    ensures |g| <= n ==> multiset(TopN(g, n)) == multiset(g)
    ensures forall x, y :: x in TopN(g, n) && y in multiset(g) - multiset(TopN(g, n)) ==> y.value <= x.value
    ensures KeysDistinct(g) ==> KeysDistinct(TopN(g, n))
  {
    TopNOrdered(g, n);
    TopNRows(g, n);
    TopNCutoff(g, n);
  }
}
