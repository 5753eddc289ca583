/** The stable `sort_by_key` every report relies on for an order that does not depend on scheduling. */
module Sorting {
  import opened Collections

  function InsertByKey<T(!new)>(x: T, s: seq<T>, key: T -> int): (r: seq<T>)
    ensures multiset(r) == multiset(s) + multiset{x}
  {
    if s == [] || key(x) <= key(s[0]) then
      [x] + s
    else
      assert s == [s[0]] + s[1..];
      [s[0]] + InsertByKey(x, s[1..], key)
  }

  function SortByKey<T(!new)>(s: seq<T>, key: T -> int): (r: seq<T>)
    ensures multiset(r) == multiset(s)
    ensures |r| == |s|
  {
    if s == [] then []
    else
      assert s == [s[0]] + s[1..];
      var r := InsertByKey(s[0], SortByKey(s[1..], key), key);
      assert |r| == |multiset(r)| == |multiset(s)| == |s|;
      r
  }

  ghost predicate SortedByKey<T(!new)>(s: seq<T>, key: T -> int) {
    forall i, j :: 0 <= i < j < |s| ==> key(s[i]) <= key(s[j])
  }

  /** The elements carrying key `k`, in their order of appearance. */
  function WithKey<T(!new)>(s: seq<T>, key: T -> int, k: int): (r: seq<T>)
    ensures forall x :: x in r <==> x in s && key(x) == k
  {
    if s == [] then []
    else if key(s[0]) == k then [s[0]] + WithKey(s[1..], key, k)
    else WithKey(s[1..], key, k)
  }

  lemma InsertSorted<T(!new)>(x: T, s: seq<T>, key: T -> int)
    requires SortedByKey(s, key)
    ensures SortedByKey(InsertByKey(x, s, key), key)
  {
    if s != [] && key(x) > key(s[0]) {
      InsertSorted(x, s[1..], key);
      var r := InsertByKey(x, s[1..], key);
      forall y | y in r ensures key(s[0]) <= key(y) {
        assert y in multiset(r);
        assert y == x || y in s[1..];
      }
    }
  }

  lemma InsertStable<T(!new)>(x: T, s: seq<T>, key: T -> int, k: int)
    requires SortedByKey(s, key)
    ensures WithKey(InsertByKey(x, s, key), key, k) == (if key(x) == k then [x] else []) + WithKey(s, key, k)
  {
    if s == [] || key(x) <= key(s[0]) {
      assert ([x] + s)[1..] == s;
    } else {
      var r := InsertByKey(x, s[1..], key);
      assert ([s[0]] + r)[1..] == r;
      InsertStable(x, s[1..], key, k);
    }
  }

  /** The result is sorted, and elements with equal keys keep their relative order. */
  lemma SortByKeyStable<T(!new)>(s: seq<T>, key: T -> int)
    ensures SortedByKey(SortByKey(s, key), key)
    ensures forall k :: WithKey(SortByKey(s, key), key, k) == WithKey(s, key, k)
  {
    if s != [] {
      SortByKeyStable(s[1..], key);
      var t := SortByKey(s[1..], key);
      InsertSorted(s[0], t, key);
      forall k ensures WithKey(SortByKey(s, key), key, k) == WithKey(s, key, k) {
        InsertStable(s[0], t, key, k);
      }
    }
  }

  /** A sorted sequence is determined by the order inside each key. */
  lemma {:induction false} SortedUnique<T(!new)>(a: seq<T>, b: seq<T>, key: T -> int)
    requires SortedByKey(a, key) && SortedByKey(b, key)
    requires forall k :: WithKey(a, key, k) == WithKey(b, key, k)
    ensures a == b
  {
    if a == [] {
      assert forall x :: x in b ==> x in WithKey(a, key, key(x));
    } else {
      assert a[0] in WithKey(b, key, key(a[0]));
      assert b[0] in WithKey(a, key, key(b[0]));
      assert key(a[0]) == key(b[0]);
      assert WithKey(a, key, key(a[0]))[0] == a[0];
      forall k ensures WithKey(a[1..], key, k) == WithKey(b[1..], key, k) {
        assert WithKey(a, key, k) == WithKey(b, key, k);
        if k == key(a[0]) {
          assert WithKey(a, key, k)[1..] == WithKey(a[1..], key, k);
          assert WithKey(b, key, k)[1..] == WithKey(b[1..], key, k);
        }
      }
      SortedUnique(a[1..], b[1..], key);
    }
  }

  /** The stable sort of `s` is the only sorted sequence that agrees with `s` inside every key. */
  lemma SortByKeyIs<T(!new)>(s: seq<T>, key: T -> int, sorted: seq<T>)
    requires SortedByKey(sorted, key)
    requires forall k :: WithKey(sorted, key, k) == WithKey(s, key, k)
    ensures SortByKey(s, key) == sorted
  {
    SortByKeyStable(s, key);
    SortedUnique(SortByKey(s, key), sorted, key);
  }

  lemma WithKeyAppend<T(!new)>(a: seq<T>, b: seq<T>, key: T -> int, k: int)
    ensures WithKey(a + b, key, k) == WithKey(a, key, k) + WithKey(b, key, k)
  {
    if a == [] {
      assert a + b == b;
    } else {
      assert (a + b)[1..] == a[1..] + b;
      WithKeyAppend(a[1..], b, key, k);
    }
  }

  lemma {:induction false} WithKeyUniform<T(!new)>(s: seq<T>, key: T -> int, k: int, own: int)
    requires forall x :: x in s ==> key(x) == own
    ensures WithKey(s, key, k) == if k == own then s else []
  {
    if s != [] {
      assert s[0] in s && forall x :: x in s[1..] ==> x in s;
      WithKeyUniform(s[1..], key, k, own);
    }
  }

  lemma {:induction false} WithKeyNone<T(!new)>(s: seq<T>, key: T -> int, k: int)
    requires forall x :: x in s ==> key(x) != k
    ensures WithKey(s, key, k) == []
  {
    if s != [] {
      assert s[0] in s && forall x :: x in s[1..] ==> x in s;
      WithKeyNone(s[1..], key, k);
    }
  }

  lemma WithKeyCount<T(!new)>(s: seq<T>, key: T -> int, x: T)
    requires forall y :: y in s && key(y) == key(x) ==> y == x
    ensures |WithKey(s, key, key(x))| == multiset(s)[x]
  {
    if s != [] {
      assert s == [s[0]] + s[1..];
      WithKeyCount(s[1..], key, x);
    }
  }

  lemma AllEqual<T(!new)>(a: seq<T>, b: seq<T>, x: T)
    requires |a| == |b| && (forall y :: y in a ==> y == x) && (forall y :: y in b ==> y == x)
    ensures a == b
  {
    assert forall i :: 0 <= i < |a| ==> a[i] in a && b[i] in b;
  }

  /** When distinct elements have distinct keys, the sorted sequence depends on the multiset alone. */
  lemma SortByKeyUpToOrder<T(!new)>(a: seq<T>, b: seq<T>, key: T -> int)
    requires multiset(a) == multiset(b)
    requires forall x, y :: x in a && y in a && key(x) == key(y) ==> x == y
    ensures SortByKey(a, key) == SortByKey(b, key)
  {
    hide SortByKey;
    PermutationElements(a, b);
    forall k ensures WithKey(a, key, k) == WithKey(b, key, k) {
      if x :| x in a && key(x) == k {
        WithKeyCount(a, key, x);
        WithKeyCount(b, key, x);
        AllEqual(WithKey(a, key, k), WithKey(b, key, k), x);
      } else {
        WithKeyNone(a, key, k);
        WithKeyNone(b, key, k);
      }
    }
    SortByKeyStable(a, key);
    SortByKeyStable(b, key);
    SortedUnique(SortByKey(a, key), SortByKey(b, key), key);
  }
}
