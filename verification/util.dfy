/** Small generic building blocks shared by the simulation model: an optional
    value, left-to-right sums and products over sequences, an insertion sort
    by a numeric key, and an order-preserving filter. */
module Util {

  datatype Option<T> = None | Some(value: T)

  /** Sum of `f` over the elements of `s`, as the accumulating loops of the program compute it. */
  function Sum<T>(s: seq<T>, f: T -> real): real
  {
    if |s| == 0 then 0.0 else f(s[0]) + Sum(s[1..], f)
  }

  /** Product of `f` over the elements of `s`, starting from 1. */
  function Prod<T>(s: seq<T>, f: T -> int): int
  {
    if |s| == 0 then 1 else f(s[0]) * Prod(s[1..], f)
  }

  /** `s` without its element at index `k`. */
  function Without<T>(s: seq<T>, k: nat): (r: seq<T>)
    requires k < |s|
    ensures |r| == |s| - 1
    ensures multiset(r) == multiset(s) - multiset{s[k]}
    ensures forall i :: 0 <= i < k ==> r[i] == s[i]
    ensures forall i :: k <= i < |r| ==> r[i] == s[i + 1]
  {
    assert s == s[..k] + [s[k]] + s[k+1..];
    s[..k] + s[k+1..]
  }

  lemma SumAppend<T>(a: seq<T>, b: seq<T>, f: T -> real)
    ensures Sum(a + b, f) == Sum(a, f) + Sum(b, f)
  {
    if |a| > 0 {
      assert (a + b)[1..] == a[1..] + b;
    } else {
      assert a + b == b;
    }
  }

  /** Sums of two functions that agree on every element are equal. */
  lemma {:induction false} SumCongruence<T>(s: seq<T>, f: T -> real, g: T -> real)
    requires forall i :: 0 <= i < |s| ==> f(s[i]) == g(s[i])
    ensures Sum(s, f) == Sum(s, g)
  {
    if |s| > 0 {
      SumCongruence(s[1..], f, g);
    }
  }

  /** Taking one element out of a sum. */
  lemma {:induction false} SumWithout<T>(s: seq<T>, k: nat, f: T -> real)
    requires k < |s|
    ensures Sum(s, f) == f(s[k]) + Sum(Without(s, k), f)
  {
    if k == 0 {
      assert Without(s, 0) == s[1..];
    } else {
      var tail := Without(s[1..], k - 1);
      SumWithout(s[1..], k - 1, f);
      assert Without(s, k) == [s[0]] + tail;
      assert ([s[0]] + tail)[1..] == tail;
    }
  }

  /** A sum depends only on the multiset of the summed elements. */
  lemma {:induction false} SumPermutation<T>(a: seq<T>, b: seq<T>, f: T -> real)
    requires multiset(a) == multiset(b)
    ensures Sum(a, f) == Sum(b, f)
    decreases |a|
  {
    if |a| == 0 {
      assert |b| == |multiset(b)| == 0;
    } else {
      assert a[0] in multiset(b);
      var k :| 0 <= k < |b| && b[k] == a[0];
      SumWithout(b, k, f);
      assert a == [a[0]] + a[1..];
      assert multiset(a[1..]) == multiset(Without(b, k));
      SumPermutation(a[1..], Without(b, k), f);
    }
  }

  /** Taking one factor out of a product. */
  lemma {:induction false} ProdWithout<T>(s: seq<T>, k: nat, f: T -> int)
    requires k < |s|
    ensures Prod(s, f) == f(s[k]) * Prod(Without(s, k), f)
  {
    if k == 0 {
      assert Without(s, 0) == s[1..];
    } else {
      var tail := Without(s[1..], k - 1);
      ProdWithout(s[1..], k - 1, f);
      assert Without(s, k) == [s[0]] + tail;
      assert ([s[0]] + tail)[1..] == tail;
      MulSwap(f(s[0]), f(s[k]), Prod(tail, f));
    }
  }

  lemma MulSwap(a: int, b: int, c: int)
    ensures a * (b * c) == b * (a * c)
  {
  }

  /** A product depends only on the multiset of its factors. */
  lemma {:induction false} ProdPermutation<T>(a: seq<T>, b: seq<T>, f: T -> int)
    requires multiset(a) == multiset(b)
    ensures Prod(a, f) == Prod(b, f)
    decreases |a|
  {
    if |a| == 0 {
      assert |b| == |multiset(b)| == 0;
    } else {
      assert a[0] in multiset(b);
      var k :| 0 <= k < |b| && b[k] == a[0];
      ProdWithout(b, k, f);
      assert a == [a[0]] + a[1..];
      assert multiset(a[1..]) == multiset(Without(b, k));
      ProdPermutation(a[1..], Without(b, k), f);
    }
  }

  /** `s` is in non-decreasing order of `key`. */
  predicate SortedBy<T>(s: seq<T>, key: T -> real)
  {
    forall i, j :: 0 <= i < j < |s| ==> key(s[i]) <= key(s[j])
  }

  /** Inserts `x` before the first element whose key is at least its own. */
  function Insert<T>(x: T, s: seq<T>, key: T -> real): (r: seq<T>)
    requires SortedBy(s, key)
    ensures SortedBy(r, key)
    ensures multiset(r) == multiset(s) + multiset{x}
    ensures |r| == |s| + 1
  {
    if |s| == 0 then [x]
    else if key(x) <= key(s[0]) then [x] + s
    else
      var rest := Insert(x, s[1..], key);
      assert s == [s[0]] + s[1..];
      BoundedPermutation(rest, s[1..], x, key(s[0]), key);
      ConsSorted(s[0], rest, key);
      [s[0]] + rest
  }

  /** A sorted sequence stays sorted behind a head whose key is at most all of its keys. */
  lemma ConsSorted<T>(h: T, s: seq<T>, key: T -> real)
    requires SortedBy(s, key)
    requires forall i :: 0 <= i < |s| ==> key(h) <= key(s[i])
    ensures SortedBy([h] + s, key)
  {
    var r := [h] + s;
    forall i, j | 0 <= i < j < |r|
      ensures key(r[i]) <= key(r[j])
    {
      assert r[j] == s[j - 1];
      if i > 0 {
        assert r[i] == s[i - 1];
      }
    }
  }

  /** A bound on the keys of `b` and of `x` bounds the keys of any
      rearrangement of `b` with `x` added. */
  lemma BoundedPermutation<T>(a: seq<T>, b: seq<T>, x: T, lo: real, key: T -> real)
    requires multiset(a) == multiset(b) + multiset{x}
    requires lo <= key(x)
    requires forall j :: 0 <= j < |b| ==> lo <= key(b[j])
    ensures forall i :: 0 <= i < |a| ==> lo <= key(a[i])
  {
    forall i | 0 <= i < |a|
      ensures lo <= key(a[i])
    {
      assert a[i] in multiset(a);
      if a[i] != x {
        assert a[i] in multiset(b);
        var j :| 0 <= j < |b| && b[j] == a[i];
      }
    }
  }

  /** Insertion sort: a sorted permutation of `s`. */
  function Sort<T>(s: seq<T>, key: T -> real): (r: seq<T>)
    ensures SortedBy(r, key)
    ensures multiset(r) == multiset(s)
    ensures |r| == |s|
  {
    if |s| == 0 then [] else
      assert s == [s[0]] + s[1..];
      Insert(s[0], Sort(s[1..], key), key)
  }

  /** Two sorted sequences with the same elements are identical when the key
      tells the elements apart. */
  lemma {:induction false} SortedUnique<T>(a: seq<T>, b: seq<T>, key: T -> real)
    requires forall x, y :: key(x) == key(y) ==> x == y
    requires SortedBy(a, key) && SortedBy(b, key)
    requires multiset(a) == multiset(b)
    ensures a == b
    decreases |a|
  {
    if |a| == 0 {
      assert |b| == |multiset(b)| == 0;
    } else {
      assert |b| == |multiset(b)| == |multiset(a)| == |a|;
      assert a[0] in multiset(b);
      var j :| 0 <= j < |b| && b[j] == a[0];
      assert b[0] in multiset(a);
      var i :| 0 <= i < |a| && a[i] == b[0];
      assert key(a[0]) <= key(b[0]) by {
        if i > 0 { assert key(a[0]) <= key(a[i]); }
      }
      assert key(b[0]) <= key(a[0]) by {
        if j > 0 { assert key(b[0]) <= key(b[j]); }
      }
      assert a[0] == b[0];
      SameTails(a, b);
      SortedUnique(a[1..], b[1..], key);
    }
  }

  lemma SameTails<T>(a: seq<T>, b: seq<T>)
    requires |a| > 0 && |b| > 0 && a[0] == b[0]
    requires multiset(a) == multiset(b)
    ensures multiset(a[1..]) == multiset(b[1..])
  {
    assert a == [a[0]] + a[1..];
    assert b == [b[0]] + b[1..];
    assert multiset(a) == multiset{a[0]} + multiset(a[1..]);
    assert multiset(b) == multiset{b[0]} + multiset(b[1..]);
    forall z
      ensures multiset(a[1..])[z] == multiset(b[1..])[z]
    {
      assert multiset(a)[z] == multiset{a[0]}[z] + multiset(a[1..])[z];
      assert multiset(b)[z] == multiset{b[0]}[z] + multiset(b[1..])[z];
    }
  }

  /** A sorted sequence is its own sort. */
  lemma SortOfSorted<T>(s: seq<T>, key: T -> real)
    requires forall x, y :: key(x) == key(y) ==> x == y
    requires SortedBy(s, key)
    ensures Sort(s, key) == s
  {
    SortedUnique(Sort(s, key), s, key);
  }

  /** The elements of `s` satisfying `p`, in their original order. */
  function Filter<T(==)>(s: seq<T>, p: T -> bool): (r: seq<T>)
    ensures |r| <= |s|
    ensures forall i :: 0 <= i < |r| ==> r[i] in s && p(r[i])
    ensures forall i :: 0 <= i < |s| && p(s[i]) ==> s[i] in r
    ensures multiset(r) <= multiset(s)
  {
    if |s| == 0 then []
    else
      var front := Filter(s[..|s| - 1], p);
      assert s == s[..|s| - 1] + [s[|s| - 1]];
      if p(s[|s| - 1]) then front + [s[|s| - 1]] else front
  }

  /** The elements of `s` whose key is `v`, in their order in `s`. */
  function WithKey<T>(s: seq<T>, key: T -> real, v: real): seq<T>
  {
    if |s| == 0 then []
    else (if key(s[0]) == v then [s[0]] else []) + WithKey(s[1..], key, v)
  }

  lemma WithKeyCons<T>(h: T, t: seq<T>, key: T -> real, v: real)
    ensures WithKey([h] + t, key, v) == (if key(h) == v then [h] else []) + WithKey(t, key, v)
  {
    assert ([h] + t)[0] == h && ([h] + t)[1..] == t;
  }

  /** Insertion puts `x` ahead of the elements that share its key. */
  lemma {:induction false} InsertStable<T>(x: T, s: seq<T>, key: T -> real, v: real)
    requires SortedBy(s, key)
    ensures WithKey(Insert(x, s, key), key, v) == WithKey([x] + s, key, v)
    decreases |s|
  {
    if |s| > 0 && key(x) > key(s[0]) {
      var t := s[1..];
      assert s == [s[0]] + t;
      InsertPast(x, s, key);
      InsertStable(x, t, key, v);
      WithKeyCons(s[0], Insert(x, t, key), key, v);
      WithKeyCons(x, t, key, v);
      WithKeyCons(s[0], t, key, v);
      WithKeyCons(x, s, key, v);
      SwapKeyed(x, s[0], WithKey(t, key, v), key, v);
    }
  }

  /** Two elements that do not both have key `v` commute in front of a list
      of elements with key `v`. */
  lemma SwapKeyed<T>(x: T, h: T, a: seq<T>, key: T -> real, v: real)
    requires !(key(x) == v && key(h) == v)
    ensures (if key(h) == v then [h] else []) + ((if key(x) == v then [x] else []) + a)
         == (if key(x) == v then [x] else []) + ((if key(h) == v then [h] else []) + a)
  {
  }

  /** Inserting past the head of a sorted sequence inserts into its tail. */
  lemma InsertPast<T>(x: T, s: seq<T>, key: T -> real)
    requires SortedBy(s, key) && |s| > 0 && key(x) > key(s[0])
    ensures SortedBy(s[1..], key)
    ensures Insert(x, s, key) == [s[0]] + Insert(x, s[1..], key)
  {
  }

  /** Sorting is stable: the elements of any one key keep their order. */
  lemma {:induction false} SortStable<T>(s: seq<T>, key: T -> real, v: real)
    ensures WithKey(Sort(s, key), key, v) == WithKey(s, key, v)
  {
    if |s| > 0 {
      var t := Sort(s[1..], key);
      SortStable(s[1..], key, v);
      InsertStable(s[0], t, key, v);
      assert ([s[0]] + t)[1..] == t;
    }
  }

  /** No element occurs twice. */
  predicate Distinct<T(==)>(s: seq<T>)
  {
    forall i, j :: 0 <= i < j < |s| ==> s[i] != s[j]
  }

  /** The integers `lo`, `lo + 1`, ..., `hi - 1`. */
  function Range(lo: int, hi: int): (r: seq<int>)
    ensures |r| == if lo <= hi then hi - lo else 0
    ensures forall i :: 0 <= i < |r| ==> r[i] == lo + i
    decreases hi - lo
  {
    if lo >= hi then [] else [lo] + Range(lo + 1, hi)
  }

  /** Consecutive ranges join. */
  lemma RangeAppend(lo: int, mid: int, hi: int)
    requires lo <= mid <= hi
    ensures Range(lo, mid) + Range(mid, hi) == Range(lo, hi)
  {
    var r := Range(lo, mid) + Range(mid, hi);
    assert forall i :: 0 <= i < |r| ==> r[i] == lo + i;
  }

  /** Filtering a sequence with one more element at the end. */
  lemma FilterSnoc<T>(s: seq<T>, x: T, p: T -> bool)
    ensures Filter(s + [x], p) == Filter(s, p) + (if p(x) then [x] else [])
  {
    assert (s + [x])[..|s|] == s;
  }

  /** Filters that agree on the elements of `s` keep the same elements. */
  lemma {:induction false} FilterCongruence<T>(s: seq<T>, p: T -> bool, q: T -> bool)
    requires forall i :: 0 <= i < |s| ==> p(s[i]) == q(s[i])
    ensures Filter(s, p) == Filter(s, q)
  {
    if |s| > 0 {
      FilterCongruence(s[..|s| - 1], p, q);
    }
  }

  /** Filtering keeps a sequence free of repetitions. */
  lemma {:induction false} FilterDistinct<T>(s: seq<T>, p: T -> bool)
    requires Distinct(s)
    ensures Distinct(Filter(s, p))
  {
    if |s| > 0 {
      var front := s[..|s| - 1];
      var last := s[|s| - 1];
      assert s == front + [last];
      FilterDistinct(front, p);
      var r := Filter(front, p);
      assert last !in r by {
        assert last !in front;
      }
    }
  }

  /** In a sequence free of repetitions every element occurs once. */
  lemma {:induction false} DistinctCount<T>(s: seq<T>)
    requires Distinct(s)
    ensures forall x :: multiset(s)[x] <= 1
  {
    if |s| > 0 {
      var front := s[..|s| - 1];
      assert s == front + [s[|s| - 1]];
      DistinctCount(front);
      assert s[|s| - 1] !in front;
    }
  }

  /** A rearrangement of a sequence free of repetitions is free of them. */
  lemma DistinctPermutation<T>(a: seq<T>, b: seq<T>)
    requires Distinct(a) && multiset(a) == multiset(b)
    ensures Distinct(b)
  {
    DistinctCount(a);
    forall i, j | 0 <= i < j < |b|
      ensures b[i] != b[j]
    {
      assert b == b[..j] + b[j..];
      assert b[i] in b[..j] && b[j] in b[j..];
      assert multiset(b)[b[j]] == multiset(b[..j])[b[j]] + multiset(b[j..])[b[j]];
    }
  }

  /** Sorting the elements of `s` that satisfy `p` keeps exactly those. */
  lemma SortFilterMembers<T>(s: seq<T>, p: T -> bool, key: T -> real)
    ensures forall x :: x in Sort(Filter(s, p), key) <==> x in s && p(x)
  {
    var r := Sort(Filter(s, p), key);
    assert forall x :: x in r <==> x in multiset(Filter(s, p));
  }

  /** Moving the head of the unvisited part of a sequence to the end of the
      visited part, and appending to the unvisited part: the visited part
      followed by the unvisited one grows by what was appended. */
  lemma VisitNext<T>(visited: seq<T>, t: seq<T>, cur: nat, t2: seq<T>, cur2: nat, order: seq<T>, born: seq<T>)
    requires cur < |t| && cur2 <= |t2|
    requires visited + t[cur..] == order
    requires t2[cur2..] == t[cur + 1..] + born
    ensures visited + [t[cur]] + t2[cur2..] == order + born
  {
    assert t[cur..] == [t[cur]] + t[cur + 1..];
  }

  /** A sequence followed by consecutive ranges. */
  lemma ExtendRange(s: seq<int>, lo: int, mid: int, hi: int)
    requires lo <= mid <= hi
    ensures s + Range(lo, mid) + Range(mid, hi) == s + Range(lo, hi)
  {
    RangeAppend(lo, mid, hi);
    assert s + Range(lo, mid) + Range(mid, hi) == s + (Range(lo, mid) + Range(mid, hi));
  }
}
