/**
 * Stable sorting by a numeric key, as lodash's `_.sortBy` does it and as
 * `Array.prototype.sort` with the comparator `(x, y) => x - y` orders numbers.
 * The sort is insertion sort written as a function; what the callers need of
 * it is stated in its contract: sorted, a permutation, and stable.
 */
module Sorting {

  /** Keys never decrease along `s`: each key is at most the next one. */
  predicate SortedBy<T>(s: seq<T>, key: T -> real)
  {
    |s| < 2 || (key(s[0]) <= key(s[1]) && SortedBy(s[1..], key))
  }

  /** Sortedness follows from every key being at most the next one. */
  lemma {:induction false} AdjacentSorted<T>(s: seq<T>, key: T -> real)
    requires forall i :: 0 <= i < |s| - 1 ==> key(s[i]) <= key(s[i + 1])
    ensures SortedBy(s, key)
  {
    if |s| >= 2 {
      forall i | 0 <= i < |s| - 2 ensures key(s[1..][i]) <= key(s[1..][i + 1]) {
        assert s[1..][i] == s[i + 1] && s[1..][i + 1] == s[i + 2];
      }
      AdjacentSorted(s[1..], key);
    }
  }

  /** In a sorted list, a later element never has a smaller key. */
  lemma {:induction false} SortedLe<T>(s: seq<T>, key: T -> real, i: nat, j: nat)
    requires SortedBy(s, key) && i <= j < |s|
    ensures key(s[i]) <= key(s[j])
  {
    if i > 0 {
      SortedLe(s[1..], key, i - 1, j - 1);
    } else if j > 0 {
      SortedLe(s[1..], key, 0, j - 1);
    }
  }

  /** The elements of `s` whose key is `v`, in their order in `s`. */
  function WithKey<T>(s: seq<T>, key: T -> real, v: real): seq<T>
  {
    if |s| == 0 then []
    else (if key(s[0]) == v then [s[0]] else []) + WithKey(s[1..], key, v)
  }

  /**
   * Puts `x` in front of the first element whose key is not smaller than its
   * own, so `x` precedes every element of `s` with an equal key.
   */
  function Insert<T>(x: T, s: seq<T>, key: T -> real): (r: seq<T>)
    ensures |r| == |s| + 1
    ensures multiset(r) == multiset(s) + multiset{x}
  {
    if |s| == 0 || key(x) <= key(s[0]) then [x] + s
    else
      assert s == [s[0]] + s[1..];
      [s[0]] + Insert(x, s[1..], key)
  }

  /** Inserting into a sorted sequence keeps it sorted. */
  lemma {:induction false} InsertSorted<T>(x: T, s: seq<T>, key: T -> real)
    requires SortedBy(s, key)
    ensures SortedBy(Insert(x, s, key), key)
  {
    var r := Insert(x, s, key);
    if |s| == 0 || key(x) <= key(s[0]) {
      assert r[1..] == s;
    } else {
      var tail := Insert(x, s[1..], key);
      InsertSorted(x, s[1..], key);
      assert r[1..] == tail;
      assert tail[0] == x || tail[0] == s[1];
    }
  }

  /** Insertion places `x` ahead of every element that shares its key. */
  lemma {:induction false} InsertWithKey<T>(x: T, s: seq<T>, key: T -> real, v: real)
    ensures WithKey(Insert(x, s, key), key, v) == (if key(x) == v then [x] else []) + WithKey(s, key, v)
  {
    var r := Insert(x, s, key);
    if |s| == 0 || key(x) <= key(s[0]) {
      assert r == [x] + s;
      WithKeyCons(x, s, key, v);
    } else {
      var tail := Insert(x, s[1..], key);
      InsertWithKey(x, s[1..], key, v);
      assert r == [s[0]] + tail;
      WithKeyCons(s[0], tail, key, v);
      assert s == [s[0]] + s[1..];
      WithKeyCons(s[0], s[1..], key, v);
      assert key(s[0]) != v || key(x) != v;
    }
  }

  /** The elements with key `v` of a list with a head in front. */
  lemma WithKeyCons<T>(y: T, s: seq<T>, key: T -> real, v: real)
    ensures WithKey([y] + s, key, v) == (if key(y) == v then [y] else []) + WithKey(s, key, v)
  {
    assert ([y] + s)[0] == y && ([y] + s)[1..] == s;
  }

  /** `s` sorted by `key`: a permutation of `s` (sortedness is `SortBySorted`). */
  function SortBy<T>(s: seq<T>, key: T -> real): (r: seq<T>)
    ensures |r| == |s|
    ensures multiset(r) == multiset(s)
  {
    if |s| == 0 then []
    else
      assert s == [s[0]] + s[1..];
      Insert(s[0], SortBy(s[1..], key), key)
  }

  /** The keys along `SortBy(s, key)` never decrease. */
  lemma {:induction false} SortBySorted<T>(s: seq<T>, key: T -> real)
    ensures SortedBy(SortBy(s, key), key)
  {
    if |s| > 0 {
      SortBySorted(s[1..], key);
      InsertSorted(s[0], SortBy(s[1..], key), key);
    }
  }

  /** The sort is stable: elements with equal keys keep their relative order. */
  lemma {:induction false} SortByStable<T>(s: seq<T>, key: T -> real, v: real)
    ensures WithKey(SortBy(s, key), key, v) == WithKey(s, key, v)
  {
    if |s| > 0 {
      SortByStable(s[1..], key, v);
      InsertWithKey(s[0], SortBy(s[1..], key), key, v);
    }
  }

  /** The identity key, for sorting plain numbers. */
  function Id(x: real): real { x }

  /** Dropping the first element of a sorted sequence leaves it sorted. */
  lemma SortedTail<T>(s: seq<T>, key: T -> real)
    requires |s| > 0 && SortedBy(s, key)
    ensures SortedBy(s[1..], key)
  {
  }

  /** The first element of a sorted sequence has the least key of all its elements. */
  lemma SortedHeadLeast<T>(s: seq<T>, key: T -> real, y: T)
    requires |s| > 0 && SortedBy(s, key) && y in multiset(s)
    ensures key(s[0]) <= key(y)
  {
    var i :| 0 <= i < |s| && s[i] == y;
    SortedLe(s, key, 0, i);
  }

  /** The last element of a sorted sequence has the greatest key of all its elements. */
  lemma SortedLastGreatest<T>(s: seq<T>, key: T -> real, y: T)
    requires |s| > 0 && SortedBy(s, key) && y in multiset(s)
    ensures key(y) <= key(s[|s| - 1])
  {
    var i :| 0 <= i < |s| && s[i] == y;
    SortedLe(s, key, i, |s| - 1);
  }

  /** Removing the element at `i` removes one occurrence of it from the multiset. */
  lemma MultisetRemove<T>(ys: seq<T>, i: nat)
    requires i < |ys|
    ensures multiset(ys[..i] + ys[i + 1..]) == multiset(ys) - multiset{ys[i]}
  {
    assert ys == ys[..i] + [ys[i]] + ys[i + 1..];
  }

  /** A sequence is the part before `i`, the element at `i` and the part after it. */
  lemma SplitAround<T>(ys: seq<T>, i: nat)
    requires i < |ys|
    ensures ys == ys[..i] + ([ys[i]] + ys[i + 1..])
  {
    assert ys[i..] == [ys[i]] + ys[i + 1..];
    assert ys == ys[..i] + ys[i..];
  }

  /** Dropping the head removes one occurrence of it from the multiset. */
  lemma MultisetTail<T>(xs: seq<T>)
    requires |xs| > 0
    ensures multiset(xs[1..]) == multiset(xs) - multiset{xs[0]}
  {
    assert xs == [xs[0]] + xs[1..];
  }

  /**
   * The head of `xs` occurs in its permutation `ys`; taking it out of both
   * leaves permutations of each other.
   */
  lemma MatchHead<T>(xs: seq<T>, ys: seq<T>) returns (i: nat)
    requires |xs| > 0 && multiset(xs) == multiset(ys)
    ensures i < |ys| && ys[i] == xs[0]
    ensures multiset(xs[1..]) == multiset(ys[..i] + ys[i + 1..])
  {
    assert xs[0] in multiset(ys);
    i :| 0 <= i < |ys| && ys[i] == xs[0];
    MultisetRemove(ys, i);
    MultisetTail(xs);
  }

  /** Two ascending sequences of numbers holding the same multiset are equal. */
  lemma {:induction false} SortedPermutationsEqual(a: seq<real>, b: seq<real>)
    requires SortedBy(a, Id) && SortedBy(b, Id)
    requires multiset(a) == multiset(b)
    ensures a == b
  {
    assert |a| == |multiset(a)| == |multiset(b)| == |b|;
    if |a| > 0 {
      assert b[0] in multiset(a) && a[0] in multiset(b);
      SortedHeadLeast(a, Id, b[0]);
      SortedHeadLeast(b, Id, a[0]);
      var h := a[0];
      assert h == b[0];
      MultisetTail(a);
      MultisetTail(b);
      assert multiset(a[1..]) == multiset(b[1..]);
      SortedTail(a, Id);
      SortedTail(b, Id);
      SortedPermutationsEqual(a[1..], b[1..]);
      HeadTailEqual(a, b);
    }
  }

  /** Sequences with the same head and the same tail are equal. */
  lemma HeadTailEqual<T>(a: seq<T>, b: seq<T>)
    requires |a| > 0 && |b| > 0 && a[0] == b[0] && a[1..] == b[1..]
    ensures a == b
  {
    assert a == [a[0]] + a[1..] && b == [b[0]] + b[1..];
  }
}
