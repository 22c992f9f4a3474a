/** Orders on group keys, and the sorted list of distinct keys that a
    group-by produces (group keys come out in ascending order). */
module Ordering {

  ghost predicate StrictTotalOrder<K(!new)>(lt: (K, K) -> bool) {
    && (forall x :: !lt(x, x))
    && (forall x, y, z :: lt(x, y) && lt(y, z) ==> lt(x, z))
    && (forall x, y :: x != y ==> lt(x, y) || lt(y, x))
  }

  predicate StrictlySorted<K>(lt: (K, K) -> bool, s: seq<K>) {
    forall i, j :: 0 <= i < j < |s| ==> lt(s[i], s[j])
  }

  predicate Distinct<K(==)>(s: seq<K>) {
    forall i, j :: 0 <= i < j < |s| ==> s[i] != s[j]
  }

  /** Adds `k` to the ascending list `s` unless it is already there. */
  function Insert<K(==)>(lt: (K, K) -> bool, k: K, s: seq<K>): (r: seq<K>)
    ensures k in r && forall x :: x in s ==> x in r
    ensures forall x :: x in r ==> x == k || x in s
  {
    if s == [] then [k]
    else if k == s[0] then s
    else if lt(k, s[0]) then [k] + s
    else [s[0]] + Insert(lt, k, s[1..])
  }

  lemma {:induction false} InsertSorted<K(!new)>(lt: (K, K) -> bool, k: K, s: seq<K>)
    requires StrictTotalOrder(lt) && StrictlySorted(lt, s)
    ensures StrictlySorted(lt, Insert(lt, k, s))
  {
    if s != [] && k != s[0] && !lt(k, s[0]) {
      InsertSorted(lt, k, s[1..]);
      var r := Insert(lt, k, s[1..]);
      assert lt(s[0], k);
      forall x | x in r ensures lt(s[0], x) {
        if x != k {
          var j :| 0 <= j < |s[1..]| && s[1..][j] == x;
          assert s[j + 1] == x;
        }
      }
    }
  }

  /** The distinct values of `s` in ascending order: the key order of a
      group-by and of `sorted(...unique())`. */
  function SortedDistinct<K(==)>(lt: (K, K) -> bool, s: seq<K>): (r: seq<K>)
    ensures forall x :: x in r ==> x in s
    ensures forall x :: x in s ==> x in r
  {
    if s == [] then [] else Insert(lt, s[0], SortedDistinct(lt, s[1..]))
  }

  lemma {:induction false} SortedDistinctSorted<K(!new)>(lt: (K, K) -> bool, s: seq<K>)
    requires StrictTotalOrder(lt)
    ensures StrictlySorted(lt, SortedDistinct(lt, s))
    ensures Distinct(SortedDistinct(lt, s))
  {
    if s != [] {
      SortedDistinctSorted(lt, s[1..]);
      InsertSorted(lt, s[0], SortedDistinct(lt, s[1..]));
    }
  }

  function IntLt(a: int, b: int): bool { a < b }

  lemma IntLtIsStrictTotal()
    ensures StrictTotalOrder(IntLt)
  {
  }

  /** Lexicographic order on strings by code point, as Python compares str. */
  predicate StrLt(a: string, b: string) {
    if |a| == 0 then |b| > 0
    else if |b| == 0 then false
    else a[0] < b[0] || (a[0] == b[0] && StrLt(a[1..], b[1..]))
  }

  lemma {:induction false} StrLtIrreflexive(a: string)
    ensures !StrLt(a, a)
  {
    if |a| > 0 {
      StrLtIrreflexive(a[1..]);
    }
  }

  lemma {:induction false} StrLtTransitive(a: string, b: string, c: string)
    requires StrLt(a, b) && StrLt(b, c)
    ensures StrLt(a, c)
  {
    if |a| > 0 && a[0] == b[0] && b[0] == c[0] {
      StrLtTransitive(a[1..], b[1..], c[1..]);
    }
  }

  lemma {:induction false} StrLtTotal(a: string, b: string)
    requires a != b
    ensures StrLt(a, b) || StrLt(b, a)
  {
    if |a| > 0 && |b| > 0 && a[0] == b[0] {
      assert a == [a[0]] + a[1..] && b == [b[0]] + b[1..];
      StrLtTotal(a[1..], b[1..]);
    }
  }

  lemma StrLtIsStrictTotal()
    ensures StrictTotalOrder(StrLt)
  {
    forall a ensures !StrLt(a, a) {
      StrLtIrreflexive(a);
    }
    forall a, b, c | StrLt(a, b) && StrLt(b, c) ensures StrLt(a, c) {
      StrLtTransitive(a, b, c);
    }
    forall a, b | a != b ensures StrLt(a, b) || StrLt(b, a) {
      StrLtTotal(a, b);
    }
  }

  /** Order on (category, item) keys: by category, then by item. */
  predicate PairLt(a: (string, string), b: (string, string)) {
    StrLt(a.0, b.0) || (a.0 == b.0 && StrLt(a.1, b.1))
  }

  lemma PairLtIsStrictTotal()
    ensures StrictTotalOrder(PairLt)
  {
    StrLtIsStrictTotal();
  }
}
