/**
 * A reference sort standing for Go's library `sort.Sort`: insertion sort by a
 * strict total order, with the facts the callers need (sorted, a permutation,
 * and unique, so that any correct sort gives the same sequence).
 */
module Sorting {

  ghost predicate StrictTotalOrder<T(!new)>(less: (T, T) -> bool)
  {
    && (forall a :: !less(a, a))
    && (forall a, b, c :: less(a, b) && less(b, c) ==> less(a, c))
    && (forall a, b :: a != b ==> less(a, b) || less(b, a))
  }

  /** No element is strictly below an element placed before it. */
  predicate SortedBy<T>(s: seq<T>, less: (T, T) -> bool)
  {
    forall i, j :: 0 <= i < j < |s| ==> !less(s[j], s[i])
  }

  predicate StrictlySortedBy<T>(s: seq<T>, less: (T, T) -> bool)
  {
    forall i, j :: 0 <= i < j < |s| ==> less(s[i], s[j])
  }

  /** Go's `sort.IsSorted`: no element is below its left neighbour. */
  predicate AdjacentSortedBy<T>(s: seq<T>, less: (T, T) -> bool)
  {
    forall i :: 0 < i < |s| ==> !less(s[i], s[i - 1])
  }

  function Insert<T>(x: T, s: seq<T>, less: (T, T) -> bool): (r: seq<T>)
    ensures multiset(r) == multiset(s) + multiset{x}
  {
    if s == [] || !less(s[0], x) then [x] + s
    else
      assert s == [s[0]] + s[1..];
      [s[0]] + Insert(x, s[1..], less)
  }

  function InsertionSort<T>(s: seq<T>, less: (T, T) -> bool): (r: seq<T>)
    ensures multiset(r) == multiset(s)
    ensures |r| == |s|
  {
    if s == [] then []
    else
      assert s == [s[0]] + s[1..];
      Insert(s[0], InsertionSort(s[1..], less), less)
  }

  lemma {:induction false} InsertSorted<T(!new)>(x: T, s: seq<T>, less: (T, T) -> bool)
    requires StrictTotalOrder(less) && SortedBy(s, less)
    ensures SortedBy(Insert(x, s, less), less)
  {
    if s != [] && less(s[0], x) {
      InsertSorted(x, s[1..], less);
      var r := Insert(x, s[1..], less);
      assert multiset(r) == multiset(s[1..]) + multiset{x};
      forall j | 0 <= j < |r| ensures !less(r[j], s[0]) {
        assert r[j] in multiset(r);
        if r[j] != x {
          assert r[j] in multiset(s[1..]);
          var k :| 0 <= k < |s[1..]| && s[1..][k] == r[j];
          assert s[k + 1] == r[j];
        }
      }
    }
  }

  lemma {:induction false} InsertionSortSorted<T(!new)>(s: seq<T>, less: (T, T) -> bool)
    requires StrictTotalOrder(less)
    ensures SortedBy(InsertionSort(s, less), less)
  {
    if s != [] {
      InsertionSortSorted(s[1..], less);
      InsertSorted(s[0], InsertionSort(s[1..], less), less);
    }
  }

  /** Go's `sort.IsSorted` check is as strong as pairwise sortedness. */
  lemma {:induction false} AdjacentSortedIsSorted<T(!new)>(s: seq<T>, less: (T, T) -> bool)
    requires StrictTotalOrder(less) && AdjacentSortedBy(s, less)
    ensures SortedBy(s, less)
  {
    if |s| > 1 {
      var t := s[..|s| - 1];
      assert AdjacentSortedBy(t, less);
      AdjacentSortedIsSorted(t, less);
      forall i, j | 0 <= i < j < |s| ensures !less(s[j], s[i]) {
        if j < |s| - 1 {
          assert t[i] == s[i] && t[j] == s[j];
        } else if i < j - 1 {
          assert t[i] == s[i] && t[j - 1] == s[j - 1];
          assert !less(s[j - 1], s[i]) && !less(s[j], s[j - 1]);
        }
      }
    }
  }

  lemma SortedDistinctIsStrict<T(!new)>(s: seq<T>, less: (T, T) -> bool)
    requires StrictTotalOrder(less) && SortedBy(s, less)
    requires forall i, j :: 0 <= i < j < |s| ==> s[i] != s[j]
    ensures StrictlySortedBy(s, less)
  {
  }

  /** Two strictly sorted sequences holding the same elements start alike. */
  lemma StrictlySortedHeads<T(!new)>(s: seq<T>, t: seq<T>, less: (T, T) -> bool)
    requires StrictTotalOrder(less)
    requires StrictlySortedBy(s, less) && StrictlySortedBy(t, less)
    requires forall x :: x in s <==> x in t
    requires s != []
    ensures t != [] && s[0] == t[0]
  {
    assert s[0] in t;
    assert t != [] && t[0] in t;
  }

  /** Two strictly sorted sequences holding the same elements are equal. */
  lemma {:induction false} StrictlySortedUnique<T(!new)>(s: seq<T>, t: seq<T>, less: (T, T) -> bool)
    requires StrictTotalOrder(less)
    requires StrictlySortedBy(s, less) && StrictlySortedBy(t, less)
    requires forall x :: x in s <==> x in t
    ensures s == t
  {
    if s == [] {
      assert forall i :: 0 <= i < |t| ==> t[i] in s;
    } else {
      StrictlySortedHeads(s, t, less);
      forall x ensures x in s[1..] <==> x in t[1..] {
        if x in s[1..] {
          var i :| 0 <= i < |s[1..]| && s[1..][i] == x;
          assert less(s[0], s[i + 1]);
        }
        if x in t[1..] {
          var i :| 0 <= i < |t[1..]| && t[1..][i] == x;
          assert less(t[0], t[i + 1]);
        }
        assert x in s <==> x == s[0] || x in s[1..];
        assert x in t <==> x == t[0] || x in t[1..];
      }
      StrictlySortedUnique(s[1..], t[1..], less);
      assert s == [s[0]] + s[1..] && t == [t[0]] + t[1..];
    }
  }
}
