/** Group-by over the filtered view: one row per distinct key, in ascending
    key order, carrying either the sum of a measure or the number of
    distinct order ids among the lines of that key. */
module Grouping {
  import opened Orders
  import opened Ordering

  /** One row of a grouped table: the group key and its aggregate. */
  datatype Row<K> = Row(key: K, value: int)

  /** Sum of `m` over all lines. */
  function Sum(t: Table, m: OrderLine -> int): int {
    if t == [] then 0 else m(t[0]) + Sum(t[1..], m)
  }

  /** Sum of `m` over the lines whose key is `k`. */
  function SumWhere<K(==)>(t: Table, key: OrderLine -> K, m: OrderLine -> int, k: K): int {
    if t == [] then 0
    else (if key(t[0]) == k then m(t[0]) else 0) + SumWhere(t[1..], key, m, k)
  }

  /** Number of lines whose key is `k`. */
  function CountWhere<K(==)>(t: Table, key: OrderLine -> K, k: K): nat {
    if t == [] then 0
    else (if key(t[0]) == k then 1 else 0) + CountWhere(t[1..], key, k)
  }

  /** The order ids of the lines whose key is `k`. */
  function OrderIdsWhere<K(==)>(t: Table, key: OrderLine -> K, k: K): set<int> {
    if t == [] then {}
    else if key(t[0]) == k then OrderIdsWhere(t[1..], key, k) + {t[0].orderId}
    else OrderIdsWhere(t[1..], key, k)
  }

  function Keys<K>(g: seq<Row<K>>): (ks: seq<K>)
    ensures |ks| == |g|
    ensures forall i :: 0 <= i < |g| ==> ks[i] == g[i].key
  {
    if g == [] then [] else [g[0].key] + Keys(g[1..])
  }

  /** Sum of a grouped table's aggregate column. */
  function Total<K>(g: seq<Row<K>>): int {
    if g == [] then 0 else g[0].value + Total(g[1..])
  }

  /** The group keys present in `t`, ascending under `lt`. */
  function GroupKeys<K(==)>(t: Table, key: OrderLine -> K, lt: (K, K) -> bool): seq<K> {
    SortedDistinct(lt, Column(t, key))
  }

  function SumRows<K(==)>(t: Table, key: OrderLine -> K, m: OrderLine -> int, ks: seq<K>): (g: seq<Row<K>>)
    ensures |g| == |ks|
    ensures forall i :: 0 <= i < |ks| ==> g[i] == Row(ks[i], SumWhere(t, key, m, ks[i]))
  {
    if ks == [] then [] else [Row(ks[0], SumWhere(t, key, m, ks[0]))] + SumRows(t, key, m, ks[1..])
  }

  function CountRows<K(==)>(t: Table, key: OrderLine -> K, ks: seq<K>): (g: seq<Row<K>>)
    ensures |g| == |ks|
    ensures forall i :: 0 <= i < |ks| ==> g[i] == Row(ks[i], |OrderIdsWhere(t, key, ks[i])|)
  {
    if ks == [] then [] else [Row(ks[0], |OrderIdsWhere(t, key, ks[0])|)] + CountRows(t, key, ks[1..])
  }

  /** `groupby(key).agg(sum of m)` */
  function GroupSum<K(==)>(t: Table, key: OrderLine -> K, lt: (K, K) -> bool, m: OrderLine -> int): seq<Row<K>> {
    SumRows(t, key, m, GroupKeys(t, key, lt))
  }

  /** `groupby(key).agg(nunique of order_id)` */
  function GroupNUnique<K(==)>(t: Table, key: OrderLine -> K, lt: (K, K) -> bool): seq<Row<K>> {
    CountRows(t, key, GroupKeys(t, key, lt))
  }

  lemma {:induction false} SumRowsOfEmpty<K>(key: OrderLine -> K, m: OrderLine -> int, ks: seq<K>)
    ensures Total(SumRows([], key, m, ks)) == 0
  {
    if ks != [] {
      SumRowsOfEmpty(key, m, ks[1..]);
    }
  }

  /** Peeling the first line off the table removes its measure from the
      one group (if any) that holds its key. */
  lemma {:induction false} SumRowsUncons<K>(t: Table, key: OrderLine -> K, m: OrderLine -> int, ks: seq<K>)
    requires t != [] && Distinct(ks)
    ensures Total(SumRows(t, key, m, ks)) ==
      (if key(t[0]) in ks then m(t[0]) else 0) + Total(SumRows(t[1..], key, m, ks))
  {
    if ks != [] {
      SumRowsUncons(t, key, m, ks[1..]);
    }
  }

  /** Partition conservation: when the keys are distinct and cover every
      key present, the grouped sums add up to the ungrouped sum. */
  lemma {:induction false} SumRowsConserve<K>(t: Table, key: OrderLine -> K, m: OrderLine -> int, ks: seq<K>)
    requires Distinct(ks)
    requires forall k :: k in Column(t, key) ==> k in ks
    ensures Total(SumRows(t, key, m, ks)) == Sum(t, m)
  {
    if t == [] {
      SumRowsOfEmpty(key, m, ks);
    } else {
      assert Column(t, key) == [key(t[0])] + Column(t[1..], key);
      SumRowsUncons(t, key, m, ks);
      SumRowsConserve(t[1..], key, m, ks);
    }
  }

  /** The group keys are distinct and are exactly the keys present. */
  lemma GroupKeysCover<K(!new)>(t: Table, key: OrderLine -> K, lt: (K, K) -> bool)
    requires StrictTotalOrder(lt)
    ensures Distinct(GroupKeys(t, key, lt))
    ensures forall k :: k in GroupKeys(t, key, lt) ==> k in Column(t, key)
    ensures forall k :: k in Column(t, key) ==> k in GroupKeys(t, key, lt)
  {
    SortedDistinctSorted(lt, Column(t, key));
  }

  /** A group-by-sum has one row per distinct key present, ascending and
      without repeats; each row carries the sum over its key's lines, and
      the rows add up to the sum over the whole table. */
  lemma GroupSumSpec<K(!new)>(t: Table, key: OrderLine -> K, lt: (K, K) -> bool, m: OrderLine -> int)
    requires StrictTotalOrder(lt)
    ensures var g := GroupSum(t, key, lt, m);
      && StrictlySorted(lt, Keys(g))
      && Distinct(Keys(g))
      && (forall k :: k in Keys(g) ==> k in Column(t, key))
      && (forall k :: k in Column(t, key) ==> k in Keys(g))
      && (forall i :: 0 <= i < |g| ==> g[i].value == SumWhere(t, key, m, g[i].key))
      && Total(g) == Sum(t, m)
  {
    var ks := GroupKeys(t, key, lt);
    SortedDistinctSorted(lt, Column(t, key));
    assert Keys(GroupSum(t, key, lt, m)) == ks;
    SumRowsConserve(t, key, m, ks);
  }

  /** The distinct order ids of a key number at most its lines, and at least
      one when the key is present. */
  lemma {:induction false} OrderIdsBounds<K>(t: Table, key: OrderLine -> K, k: K)
    ensures |OrderIdsWhere(t, key, k)| <= CountWhere(t, key, k)
    ensures k in Column(t, key) ==> |OrderIdsWhere(t, key, k)| >= 1
  {
    if t != [] {
      OrderIdsBounds(t[1..], key, k);
      assert Column(t, key) == [key(t[0])] + Column(t[1..], key);
      if key(t[0]) == k {
        assert t[0].orderId in OrderIdsWhere(t, key, k);
      }
    }
  }

  /** A distinct-count group-by has one row per distinct key present,
      ascending and without repeats; each count lies between one and the
      number of that key's lines. */
  lemma GroupNUniqueSpec<K(!new)>(t: Table, key: OrderLine -> K, lt: (K, K) -> bool)
    requires StrictTotalOrder(lt)
    ensures var g := GroupNUnique(t, key, lt);
      && StrictlySorted(lt, Keys(g))
      && Distinct(Keys(g))
      && (forall k :: k in Keys(g) ==> k in Column(t, key))
      && (forall k :: k in Column(t, key) ==> k in Keys(g))
      && (forall i :: 0 <= i < |g| ==> g[i].value == |OrderIdsWhere(t, key, g[i].key)|)
      && (forall i :: 0 <= i < |g| ==> 1 <= g[i].value <= CountWhere(t, key, g[i].key))
  {
    var ks := GroupKeys(t, key, lt);
    SortedDistinctSorted(lt, Column(t, key));
    var g := GroupNUnique(t, key, lt);
    assert Keys(g) == ks;
    forall i | 0 <= i < |g| ensures 1 <= g[i].value <= CountWhere(t, key, g[i].key) {
      OrderIdsBounds(t, key, g[i].key);
    }
  }
}
