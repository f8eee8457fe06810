/** Stable sorting of a sequence by an integer key, ascending, as the
    standard library's `sort_by_cached_key` does. The model sorts by
    insertion; SortedStablyUnique shows that the result does not depend on
    the algorithm, because a sorted permutation that keeps the relative
    order of equal keys is unique. */
module StableSort {

  /** Keys never decrease from left to right. */
  predicate Sorted<T>(s: seq<T>, key: T -> int) {
    forall i, j :: 0 <= i < j < |s| ==> key(s[i]) <= key(s[j])
  }

  /** The subsequence of `s` whose elements have key `v`, in their order in `s`. */
  function WithKey<T>(s: seq<T>, key: T -> int, v: int): seq<T> {
    if s == [] then []
    else (if key(s[0]) == v then [s[0]] else []) + WithKey(s[1..], key, v)
  }

  /** Inserts `x` before the first element whose key is not smaller than its own. */
  function Insert<T>(x: T, s: seq<T>, key: T -> int): seq<T> {
    if s == [] || key(x) <= key(s[0]) then [x] + s
    else [s[0]] + Insert(x, s[1..], key)
  }

  /** Stable insertion sort: the head of `s` is inserted in front of every
      element of the sorted tail that has the same key. */
  function SortByKey<T>(s: seq<T>, key: T -> int): (r: seq<T>)
    ensures Sorted(r, key)
    ensures multiset(r) == multiset(s)
    ensures forall v {:trigger WithKey(r, key, v)} :: WithKey(r, key, v) == WithKey(s, key, v)
  {
    if s == [] then []
    else
      var tail := SortByKey(s[1..], key);
      InsertPermutes(s[0], tail, key);
      InsertKeepsSorted(s[0], tail, key);
      assert s == [s[0]] + s[1..];
      assert forall v :: WithKey(Insert(s[0], tail, key), key, v) == WithKey(s, key, v) by {
        forall v ensures WithKey(Insert(s[0], tail, key), key, v) == WithKey(s, key, v) {
          InsertWithKey(s[0], tail, key, v);
        }
      }
      Insert(s[0], tail, key)
  }

  /** Insert adds exactly `x` to the multiset of elements. */
  lemma {:induction false} InsertPermutes<T>(x: T, s: seq<T>, key: T -> int)
    ensures multiset(Insert(x, s, key)) == multiset(s) + multiset{x}
  {
    if s != [] && key(x) > key(s[0]) {
      InsertPermutes(x, s[1..], key);
      assert s == [s[0]] + s[1..];
    }
  }

  /** Insert keeps a sorted sequence sorted. */
  lemma {:induction false} InsertKeepsSorted<T>(x: T, s: seq<T>, key: T -> int)
    requires Sorted(s, key)
    ensures Sorted(Insert(x, s, key), key)
  {
    if s != [] && key(x) > key(s[0]) {
      var t := Insert(x, s[1..], key);
      var r := [s[0]] + t;
      InsertKeepsSorted(x, s[1..], key);
      InsertPermutes(x, s[1..], key);
      forall i, j | 0 <= i < j < |r| ensures key(r[i]) <= key(r[j]) {
        if i == 0 {
          assert r[j] == t[j - 1];
          assert r[j] in multiset(t);
          if r[j] != x {
            assert r[j] in multiset(s[1..]);
            var k :| 0 <= k < |s[1..]| && s[1..][k] == r[j];
            assert s[k + 1] == r[j];
          }
        } else {
          assert r[i] == t[i - 1] && r[j] == t[j - 1];
        }
      }
    }
  }

  /** In a sorted sequence, `x` lands in front of every element with its own key. */
  lemma {:induction false} InsertWithKey<T>(x: T, s: seq<T>, key: T -> int, v: int)
    requires Sorted(s, key)
    ensures WithKey(Insert(x, s, key), key, v) == (if key(x) == v then [x] else []) + WithKey(s, key, v)
  {
    var r := Insert(x, s, key);
    if s == [] || key(x) <= key(s[0]) {
      assert r == [x] + s;
      assert r[0] == x && r[1..] == s;
    } else {
      var t := Insert(x, s[1..], key);
      assert r == [s[0]] + t;
      assert r[0] == s[0] && r[1..] == t;
      InsertWithKey(x, s[1..], key, v);
      if key(x) == v {
        // x sorts after s[0], so s[0] has a different key than x
        assert key(s[0]) != v;
      }
    }
  }

  /** Every element of WithKey(s, key, v) occurs in `s` and has key `v`. */
  lemma {:induction false} WithKeyMembers<T>(s: seq<T>, key: T -> int, v: int)
    ensures forall e :: e in WithKey(s, key, v) ==> e in s && key(e) == v
  {
    if s != [] {
      WithKeyMembers(s[1..], key, v);
    }
  }

  /** If the head of r1 occurs with its key in r2, the sorted r2 starts no higher. */
  lemma HeadKeyBelow<T>(r1: seq<T>, r2: seq<T>, key: T -> int)
    requires r1 != [] && r2 != [] && Sorted(r2, key)
    requires WithKey(r1, key, key(r1[0])) == WithKey(r2, key, key(r1[0]))
    ensures key(r2[0]) <= key(r1[0])
  {
    var v := key(r1[0]);
    assert WithKey(r1, key, v) == [r1[0]] + WithKey(r1[1..], key, v);
    WithKeyMembers(r2, key, v);
    assert r1[0] in WithKey(r2, key, v);
    var k :| 0 <= k < |r2| && r2[k] == r1[0];
  }

  /** The head of a non-empty sequence appears in WithKey for its own key. */
  lemma WithKeyOfHead<T>(s: seq<T>, key: T -> int)
    requires s != []
    ensures WithKey(s, key, key(s[0])) != []
  {
    assert WithKey(s, key, key(s[0])) == [s[0]] + WithKey(s[1..], key, key(s[0]));
  }

  /** Sortedness together with "equal keys keep their relative order" fixes
      the sequence: two sequences with both properties and the same input
      are equal. */
  lemma {:induction false} SortedStablyUnique<T>(r1: seq<T>, r2: seq<T>, key: T -> int)
    requires Sorted(r1, key) && Sorted(r2, key)
    requires forall v :: WithKey(r1, key, v) == WithKey(r2, key, v)
    ensures r1 == r2
  {
    if r1 == [] {
      if r2 != [] {
        WithKeyOfHead(r2, key);
      }
    } else if r2 == [] {
      WithKeyOfHead(r1, key);
    } else {
      HeadKeyBelow(r1, r2, key);
      HeadKeyBelow(r2, r1, key);
      var v := key(r1[0]);
      var w1, w2 := WithKey(r1, key, v), WithKey(r2, key, v);
      assert w1 == [r1[0]] + WithKey(r1[1..], key, v);
      assert w2 == [r2[0]] + WithKey(r2[1..], key, v);
      assert r1[0] == w1[0] == w2[0] == r2[0];
      assert WithKey(r1[1..], key, v) == w1[1..] == w2[1..] == WithKey(r2[1..], key, v);
      forall w | w != v ensures WithKey(r1[1..], key, w) == WithKey(r2[1..], key, w) {
        assert WithKey(r1, key, w) == WithKey(r1[1..], key, w);
        assert WithKey(r2, key, w) == WithKey(r2[1..], key, w);
      }
      SortedStablyUnique(r1[1..], r2[1..], key);
      assert r1 == [r1[0]] + r1[1..];
      assert r2 == [r2[0]] + r2[1..];
    }
  }

  /** A sequence that is already sorted is its own stable sort. */
  lemma SortSortedIsIdentity<T>(s: seq<T>, key: T -> int)
    requires Sorted(s, key)
    ensures SortByKey(s, key) == s
  {
    SortedStablyUnique(SortByKey(s, key), s, key);
  }
}
