/** A key-ordered insertion sort. The source sorts twice: the inventory
    timeline by date (Python's `sorted`) and the asset list by descending
    quantity (the ORM's `order_by("-quantity")`); both are this one function
    with different keys. */
module Sorting {

  /** `s` is ordered by ascending `key`. */
  predicate SortedBy<T>(key: T -> int, s: seq<T>) {
    forall i, j :: 0 <= i < j < |s| ==> key(s[i]) <= key(s[j])
  }

  /** Prepending an element no larger than any other keeps the order. */
  lemma ConsSorted<T>(key: T -> int, a: T, t: seq<T>)
    requires SortedBy(key, t)
    requires forall k :: 0 <= k < |t| ==> key(a) <= key(t[k])
    ensures SortedBy(key, [a] + t)
  {
    var r := [a] + t;
    forall i, j | 0 <= i < j < |r| ensures key(r[i]) <= key(r[j]) {
      assert r[j] == t[j - 1];
      if i > 0 {
        assert r[i] == t[i - 1];
      }
    }
  }

  /** A lower bound on the keys of `u` and of `x` bounds every key of a
      permutation of `u` with `x` added. */
  lemma BoundedPermutation<T>(key: T -> int, lo: int, t: seq<T>, u: seq<T>, x: T)
    requires multiset(t) == multiset(u) + multiset{x}
    requires lo <= key(x)
    requires forall k :: 0 <= k < |u| ==> lo <= key(u[k])
    ensures forall k :: 0 <= k < |t| ==> lo <= key(t[k])
  {
    forall k | 0 <= k < |t| ensures lo <= key(t[k]) {
      assert t[k] in multiset(t);
      if t[k] != x {
        assert t[k] in multiset(u);
        var j :| 0 <= j < |u| && u[j] == t[k];
      }
    }
  }

  /** Places `x` in front of the first element whose key is not smaller. */
  function Insert<T>(key: T -> int, x: T, s: seq<T>): (r: seq<T>)
    requires SortedBy(key, s)
    ensures SortedBy(key, r)
    ensures multiset(r) == multiset(s) + multiset{x}
    ensures |r| == |s| + 1
  {
    if |s| == 0 then [x]
    else if key(x) <= key(s[0]) then
      ConsSorted(key, x, s);
      [x] + s
    else
      var rest := s[1..];
      var t := Insert(key, x, rest);
      assert s == [s[0]] + rest;
      BoundedPermutation(key, key(s[0]), t, rest, x);
      ConsSorted(key, s[0], t);
      [s[0]] + t
  }

  /** A permutation of `s` ordered by ascending `key`. */
  function SortBy<T>(key: T -> int, s: seq<T>): (r: seq<T>)
    ensures SortedBy(key, r)
    ensures multiset(r) == multiset(s)
    ensures |r| == |s|
  {
    if |s| == 0 then []
    else
      assert s == [s[0]] + s[1..];
      Insert(key, s[0], SortBy(key, s[1..]))
  }
}
