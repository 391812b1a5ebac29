/**
 * Generic sequence operations that stand for the SQL clauses the queries use:
 * ``filter`` (Filter), ``.first()`` (First) and ``order_by`` (SortBy, a stable
 * insertion sort by an integer key, ascending; a descending order uses a
 * negated key).
 */
module Sequences {
  import opened Wrappers

  /**
   * The elements of ``s`` that satisfy ``p``, in their original order: each
   * kept element as often as in ``s``, every other element never.
   */
  function Filter<T(!new)>(s: seq<T>, p: T -> bool): (r: seq<T>)
    ensures forall x :: x in r <==> x in s && p(x)
    ensures forall x :: multiset(r)[x] == if p(x) then multiset(s)[x] else 0
    ensures |r| <= |s|
  {
    if s == [] then []
    else
      var rest := Filter(s[1..], p);
      assert multiset(s) == multiset{s[0]} + multiset(s[1..]) by {
        assert s == [s[0]] + s[1..];
      }
      if p(s[0]) then [s[0]] + rest else rest
  }

  /**
   * Filtering by a predicate and by its negation splits the sequence: every
   * element lands in exactly one of the two parts, with its multiplicity.
   */
  lemma {:induction false} FilterSplits<T(!new)>(s: seq<T>, p: T -> bool, q: T -> bool)
    requires forall x :: p(x) == !q(x)
    ensures multiset(Filter(s, p)) + multiset(Filter(s, q)) == multiset(s)
  {
    if s != [] {
      assert s == [s[0]] + s[1..];
      FilterSplits(s[1..], p, q);
    }
  }

  /** No two positions of ``s`` share a key: the column is unique. */
  predicate DistinctBy<T, K(==)>(s: seq<T>, key: T -> K) {
    forall i, j :: 0 <= i < |s| && 0 <= j < |s| && i != j ==> key(s[i]) != key(s[j])
  }

  lemma PrependDistinct<T, K>(x: T, s: seq<T>, key: T -> K)
    requires DistinctBy(s, key)
    requires forall y :: y in s ==> key(y) != key(x)
    ensures DistinctBy([x] + s, key)
  {
    forall i, j | 0 <= i < |[x] + s| && 0 <= j < |[x] + s| && i != j
      ensures key(([x] + s)[i]) != key(([x] + s)[j])
    {
      if i == 0 {
        assert ([x] + s)[j] == s[j - 1];
      } else if j == 0 {
        assert ([x] + s)[i] == s[i - 1];
      } else {
        assert ([x] + s)[i] == s[i - 1] && ([x] + s)[j] == s[j - 1];
      }
    }
  }

  /** Deleting rows keeps a unique column unique. */
  lemma {:induction false} FilterDistinct<T(!new), K>(s: seq<T>, p: T -> bool, key: T -> K)
    requires DistinctBy(s, key)
    ensures DistinctBy(Filter(s, p), key)
  {
    if s != [] {
      assert DistinctBy(s[1..], key) by {
        forall i, j | 0 <= i < |s[1..]| && 0 <= j < |s[1..]| && i != j ensures key(s[1..][i]) != key(s[1..][j]) {
          assert s[1..][i] == s[i + 1] && s[1..][j] == s[j + 1];
        }
      }
      FilterDistinct(s[1..], p, key);
      if p(s[0]) {
        forall y | y in Filter(s[1..], p) ensures key(y) != key(s[0]) {
          var k :| 0 <= k < |s[1..]| && s[1..][k] == y;
          assert s[k + 1] == y;
        }
        PrependDistinct(s[0], Filter(s[1..], p), key);
      }
    }
  }

  /** Deleting the row at position ``k`` keeps a unique column unique and adds no element. */
  lemma RemoveAtDistinct<T, K>(s: seq<T>, k: nat, key: T -> K)
    requires DistinctBy(s, key) && k < |s|
    ensures DistinctBy(s[..k] + s[k + 1..], key)
    ensures forall x :: x in s[..k] + s[k + 1..] ==> x in s
  {
    var r := s[..k] + s[k + 1..];
    forall i, j | 0 <= i < |r| && 0 <= j < |r| && i != j ensures key(r[i]) != key(r[j]) {
      var i' := if i < k then i else i + 1;
      var j' := if j < k then j else j + 1;
      assert r[i] == s[i'] && r[j] == s[j'];
    }
    forall x | x in r ensures x in s {
      var i :| 0 <= i < |r| && r[i] == x;
      assert r[i] == s[if i < k then i else i + 1];
    }
  }

  /** The position of the first element at or after ``from`` that satisfies ``p``. */
  function FirstIndexFrom<T>(s: seq<T>, p: T -> bool, from: nat): (r: Option<nat>)
    requires from <= |s|
    ensures r.None? <==> forall i :: from <= i < |s| ==> !p(s[i])
    ensures r.Some? ==> from <= r.value < |s| && p(s[r.value]) && forall i :: from <= i < r.value ==> !p(s[i])
    decreases |s| - from
  {
    if from == |s| then None
    else if p(s[from]) then Some(from)
    else FirstIndexFrom(s, p, from + 1)
  }

  /** The position of the first element of ``s`` that satisfies ``p``, if any. */
  function FirstIndex<T>(s: seq<T>, p: T -> bool): (r: Option<nat>)
    ensures r.None? <==> forall i :: 0 <= i < |s| ==> !p(s[i])
    ensures r.Some? ==> r.value < |s| && p(s[r.value]) && forall i :: 0 <= i < r.value ==> !p(s[i])
  {
    FirstIndexFrom(s, p, 0)
  }

  /** ``.first()``: the first element of ``s`` that satisfies ``p``, if any. */
  function First<T(!new)>(s: seq<T>, p: T -> bool): (r: Option<T>)
    ensures r.None? <==> forall x :: x in s ==> !p(x)
    ensures r.Some? ==> r.value in s && p(r.value)
    ensures r.Some? ==> exists i :: 0 <= i < |s| && s[i] == r.value && forall k :: 0 <= k < i ==> !p(s[k])
  {
    match FirstIndex(s, p)
    case None => None
    case Some(i) => Some(s[i])
  }

  /** The keys of ``s`` never decrease from left to right. */
  predicate SortedBy<T>(s: seq<T>, key: T -> int) {
    forall i, j :: 0 <= i < j < |s| ==> key(s[i]) <= key(s[j])
  }

  /** Putting in front an element whose key is not larger than any other keeps the order. */
  lemma PrependSorted<T>(x: T, s: seq<T>, key: T -> int)
    requires SortedBy(s, key)
    requires forall y :: y in s ==> key(x) <= key(y)
    ensures SortedBy([x] + s, key)
  {
    forall i, j | 0 <= i < j < |[x] + s| ensures key(([x] + s)[i]) <= key(([x] + s)[j]) {
      if i == 0 {
        assert ([x] + s)[j] == s[j - 1];
      }
    }
  }

  /** A lower bound for ``x`` and every element of ``s`` bounds every element of a permutation of both. */
  lemma {:induction false} BoundedPermutation<T(!new)>(b: int, x: T, s: seq<T>, r: seq<T>, key: T -> int)
    requires multiset(r) == multiset{x} + multiset(s)
    requires b <= key(x)
    requires forall y :: y in s ==> b <= key(y)
    ensures forall y :: y in r ==> b <= key(y)
  {
    forall y | y in r ensures b <= key(y) {
      assert y in multiset(r);
      assert y == x || y in multiset(s);
    }
  }

  /** Inserts ``x`` ahead of the first element whose key is not smaller. */
  function InsertBy<T(!new)>(x: T, s: seq<T>, key: T -> int): (r: seq<T>)
    requires SortedBy(s, key)
    ensures SortedBy(r, key)
    ensures multiset(r) == multiset{x} + multiset(s)
  {
    if s == [] then [x]
    else if key(x) <= key(s[0]) then
      PrependSorted(x, s, key);
      [x] + s
    else
      assert s == [s[0]] + s[1..];
      var rest := InsertBy(x, s[1..], key);
      BoundedPermutation(key(s[0]), x, s[1..], rest, key);
      PrependSorted(s[0], rest, key);
      [s[0]] + rest
  }

  /** ``order_by`` on ``key``: a sorted permutation of ``s``. */
  function SortBy<T(!new)>(s: seq<T>, key: T -> int): (r: seq<T>)
    ensures SortedBy(r, key)
    ensures multiset(r) == multiset(s)
    ensures |r| == |s|
  {
    if s == [] then []
    else
      var rest := SortBy(s[1..], key);
      assert multiset(s) == multiset{s[0]} + multiset(s[1..]) by {
        assert s == [s[0]] + s[1..];
      }
      var r := InsertBy(s[0], rest, key);
      assert |r| == |multiset(r)|;
      r
  }

  /** A sorted permutation holds exactly the elements it was made from. */
  lemma SortByMembers<T(!new)>(s: seq<T>, key: T -> int)
    ensures forall x :: x in SortBy(s, key) <==> x in s
  {
    forall x ensures x in SortBy(s, key) <==> x in s {
      assert x in SortBy(s, key) <==> x in multiset(SortBy(s, key));
    }
  }
}
