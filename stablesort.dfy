/**
 * Python's `sorted(xs, key=k)` on integer keys: a stable sort, here written
 * as an insertion sort. Each element is inserted in front of the first
 * element whose key is not smaller, so among equal keys the element that
 * came first in the input stays first.
 */
module StableSort {

  predicate SortedBy<T>(s: seq<T>, key: T -> int) {
    forall i, j :: 0 <= i < j < |s| ==> key(s[i]) <= key(s[j])
  }

  /** The elements of `s` whose key is `k`, in their order in `s`. */
  function WithKey<T>(s: seq<T>, key: T -> int, k: int): seq<T> {
    if s == [] then []
    else (if key(s[0]) == k then [s[0]] else []) + WithKey(s[1..], key, k)
  }

  function Insert<T>(x: T, s: seq<T>, key: T -> int): (r: seq<T>)
    ensures |r| == |s| + 1
  {
    if s == [] || key(x) <= key(s[0]) then [x] + s
    else [s[0]] + Insert(x, s[1..], key)
  }

  /** `sorted(s, key=key)` */
  function SortBy<T>(s: seq<T>, key: T -> int): (r: seq<T>)
    ensures |r| == |s|
  {
    if s == [] then [] else Insert(s[0], SortBy(s[1..], key), key)
  }

  lemma {:induction false} InsertSorted<T>(x: T, s: seq<T>, key: T -> int)
    requires SortedBy(s, key)
    ensures SortedBy(Insert(x, s, key), key)
    ensures var r := Insert(x, s, key); r[0] == x || (s != [] && r[0] == s[0])
  {
    if s != [] && key(x) > key(s[0]) {
      InsertSorted(x, s[1..], key);
      var r := Insert(x, s, key);
      var t := Insert(x, s[1..], key);
      assert r == [s[0]] + t;
      assert key(s[0]) <= key(t[0]);
      forall i, j | 0 <= i < j < |r|
        ensures key(r[i]) <= key(r[j])
      {
        if 0 < i {
          assert r[i] == t[i - 1] && r[j] == t[j - 1];
        } else {
          assert r[j] == t[j - 1];
        }
      }
    }
  }

  lemma {:induction false} InsertMultiset<T>(x: T, s: seq<T>, key: T -> int)
    ensures multiset(Insert(x, s, key)) == multiset{x} + multiset(s)
  {
    if s != [] && key(x) > key(s[0]) {
      InsertMultiset(x, s[1..], key);
      assert s == [s[0]] + s[1..];
    }
  }

  /** The result is in non-decreasing key order. */
  lemma {:induction false} SortBySorted<T>(s: seq<T>, key: T -> int)
    ensures SortedBy(SortBy(s, key), key)
  {
    if s != [] {
      SortBySorted(s[1..], key);
      InsertSorted(s[0], SortBy(s[1..], key), key);
    }
  }

  /** The result is a permutation of the input. */
  lemma {:induction false} SortByPermutes<T>(s: seq<T>, key: T -> int)
    ensures multiset(SortBy(s, key)) == multiset(s)
  {
    if s != [] {
      SortByPermutes(s[1..], key);
      InsertMultiset(s[0], SortBy(s[1..], key), key);
      assert s == [s[0]] + s[1..];
    }
  }

  lemma WithKeyCons<T>(a: T, t: seq<T>, key: T -> int, k: int)
    ensures WithKey([a] + t, key, k) == (if key(a) == k then [a] else []) + WithKey(t, key, k)
  {
    assert ([a] + t)[1..] == t;
  }

  lemma {:induction false} InsertWithKey<T>(x: T, s: seq<T>, key: T -> int, k: int)
    ensures WithKey(Insert(x, s, key), key, k) == (if key(x) == k then [x] else []) + WithKey(s, key, k)
  {
    if s == [] || key(x) <= key(s[0]) {
      WithKeyCons(x, s, key, k);
    } else {
      var t := Insert(x, s[1..], key);
      InsertWithKey(x, s[1..], key, k);
      WithKeyCons(s[0], t, key, k);
      WithKeyCons(s[0], s[1..], key, k);
      assert [s[0]] + s[1..] == s;
    }
  }

  /** Stability: the elements with any one key keep their input order. */
  lemma {:induction false} SortByStable<T>(s: seq<T>, key: T -> int, k: int)
    ensures WithKey(SortBy(s, key), key, k) == WithKey(s, key, k)
  {
    if s != [] {
      SortByStable(s[1..], key, k);
      InsertWithKey(s[0], SortBy(s[1..], key), key, k);
    }
  }

  lemma {:induction false} FirstWithKey<T>(s: seq<T>, key: T -> int, k: int) returns (j: nat)
    requires exists i :: 0 <= i < |s| && key(s[i]) == k
    ensures j < |s| && key(s[j]) == k && forall i :: 0 <= i < j ==> key(s[i]) != k
    ensures WithKey(s, key, k) != [] && WithKey(s, key, k)[0] == s[j]
  {
    if key(s[0]) == k {
      j := 0;
    } else {
      var i :| 0 <= i < |s| && key(s[i]) == k;
      assert key(s[1..][i - 1]) == k;
      var j' := FirstWithKey(s[1..], key, k);
      j := j' + 1;
      forall i | 0 <= i < j
        ensures key(s[i]) != k
      {
        if i > 0 {
          assert s[i] == s[1..][i - 1];
        }
      }
    }
  }

  lemma SortedMinimum<T>(r: seq<T>, s: seq<T>, key: T -> int)
    requires r != [] && SortedBy(r, key) && multiset(r) == multiset(s)
    ensures forall i :: 0 <= i < |s| ==> key(r[0]) <= key(s[i])
  {
    forall i | 0 <= i < |s|
      ensures key(r[0]) <= key(s[i])
    {
      assert s[i] in multiset(r);
      var p :| 0 <= p < |r| && r[p] == s[i];
    }
  }

  /**
   * The first element of the result is the earliest input element among
   * those with the smallest key: every input element has a key at least as
   * large, and every one before it a strictly larger key.
   */
  lemma TopRanked<T>(s: seq<T>, key: T -> int)
    requires s != []
    ensures var top := SortBy(s, key)[0];
      && (forall i :: 0 <= i < |s| ==> key(top) <= key(s[i]))
      && exists j :: 0 <= j < |s| && top == s[j] && forall i :: 0 <= i < j ==> key(s[i]) > key(top)
  {
    var r := SortBy(s, key);
    SortBySorted(s, key);
    SortByPermutes(s, key);
    SortedMinimum(r, s, key);
    var k := key(r[0]);
    assert r[0] in multiset(s);
    var j0 :| 0 <= j0 < |s| && s[j0] == r[0];
    var j := FirstWithKey(s, key, k);
    var jr := FirstWithKey(r, key, k);
    assert jr == 0;
    SortByStable(s, key, k);
  }
}
