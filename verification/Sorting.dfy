/** Stable sorting by an integer key, as `Array.prototype.sort` and `sort.Strings` do it. */
module Sorting {

  /** Puts x behind the last elements whose key is not larger. */
  function Insert<T>(sorted: seq<T>, x: T, key: T -> int): (r: seq<T>)
    ensures |r| == |sorted| + 1
  {
    if sorted == [] || key(sorted[|sorted| - 1]) <= key(x) then sorted + [x]
    else Insert(sorted[..|sorted| - 1], x, key) + [sorted[|sorted| - 1]]
  }

  function StableSort<T>(s: seq<T>, key: T -> int): (r: seq<T>)
    ensures |r| == |s|
  {
    if s == [] then [] else Insert(StableSort(s[..|s| - 1], key), s[|s| - 1], key)
  }

  ghost predicate Sorted<T>(s: seq<T>, key: T -> int) {
    forall i, j :: 0 <= i < j < |s| ==> key(s[i]) <= key(s[j])
  }

  /** The elements with a given key, in sequence. */
  function WithKey<T>(s: seq<T>, key: T -> int, k: int): seq<T> {
    if s == [] then []
    else
      var front, last := WithKey(s[..|s| - 1], key, k), s[|s| - 1];
      if key(last) == k then front + [last] else front
  }

  lemma SplitLast<T>(s: seq<T>)
    requires s != []
    ensures s == s[..|s| - 1] + [s[|s| - 1]]
  {
  }

  lemma {:induction false} InsertKeepsElements<T>(sorted: seq<T>, x: T, key: T -> int)
    ensures multiset(Insert(sorted, x, key)) == multiset(sorted) + multiset{x}
  {
    if sorted != [] && key(sorted[|sorted| - 1]) > key(x) {
      InsertKeepsElements(sorted[..|sorted| - 1], x, key);
      SplitLast(sorted);
    }
  }

  /** Whatever bounds the old elements and the new one bounds the result. */
  lemma {:induction false} InsertBounded<T>(sorted: seq<T>, x: T, key: T -> int, bound: int)
    requires key(x) <= bound && forall i :: 0 <= i < |sorted| ==> key(sorted[i]) <= bound
    ensures forall i :: 0 <= i < |Insert(sorted, x, key)| ==> key(Insert(sorted, x, key)[i]) <= bound
  {
    if sorted != [] && key(sorted[|sorted| - 1]) > key(x) {
      InsertBounded(sorted[..|sorted| - 1], x, key, bound);
    }
  }

  lemma {:induction false} InsertSorts<T>(sorted: seq<T>, x: T, key: T -> int)
    requires Sorted(sorted, key)
    ensures Sorted(Insert(sorted, x, key), key)
  {
    if sorted != [] && key(sorted[|sorted| - 1]) > key(x) {
      var front, last := sorted[..|sorted| - 1], sorted[|sorted| - 1];
      InsertSorts(front, x, key);
      InsertBounded(front, x, key, key(last));
    }
  }

  lemma WithKeyAppend<T>(s: seq<T>, x: T, key: T -> int, k: int)
    ensures WithKey(s + [x], key, k) == WithKey(s, key, k) + (if key(x) == k then [x] else [])
  {
    assert (s + [x])[..|s|] == s;
  }

  lemma {:induction false} InsertIsStable<T>(sorted: seq<T>, x: T, key: T -> int, k: int)
    ensures WithKey(Insert(sorted, x, key), key, k) == WithKey(sorted, key, k) + (if key(x) == k then [x] else [])
  {
    if sorted == [] || key(sorted[|sorted| - 1]) <= key(x) {
      WithKeyAppend(sorted, x, key, k);
    } else {
      var front, last := sorted[..|sorted| - 1], sorted[|sorted| - 1];
      InsertIsStable(front, x, key, k);
      WithKeyAppend(Insert(front, x, key), last, key, k);
    }
  }

  /** The sort orders the elements and keeps the sequence of those with equal key, hence loses and invents none. */
  lemma {:induction false} StableSortMeaning<T>(s: seq<T>, key: T -> int, k: int)
    ensures Sorted(StableSort(s, key), key)
    ensures multiset(StableSort(s, key)) == multiset(s)
    ensures WithKey(StableSort(s, key), key, k) == WithKey(s, key, k)
  {
    if s != [] {
      var front, last := s[..|s| - 1], s[|s| - 1];
      StableSortMeaning(front, key, k);
      SplitLast(s);
      InsertKeepsElements(StableSort(front, key), last, key);
      InsertSorts(StableSort(front, key), last, key);
      InsertIsStable(StableSort(front, key), last, key, k);
      WithKeyAppend(front, last, key, k);
    }
  }

  lemma {:induction false} SortOfSorted<T>(s: seq<T>, key: T -> int)
    requires Sorted(s, key)
    ensures StableSort(s, key) == s
  {
    if s != [] {
      var front, last := s[..|s| - 1], s[|s| - 1];
      SortOfSorted(front, key);
      SplitLast(s);
      InsertLast(front, last, key);
    }
  }

  lemma InsertLast<T>(front: seq<T>, last: T, key: T -> int)
    requires front != [] ==> key(front[|front| - 1]) <= key(last)
    ensures Insert(front, last, key) == front + [last]
  {
  }

  /** Inserting puts x right after the last element whose key is not larger. */
  lemma {:induction false} InsertAt<T>(sorted: seq<T>, x: T, key: T -> int, k: nat)
    requires k <= |sorted|
    requires forall i :: 0 <= i < k ==> key(sorted[i]) <= key(x)
    requires forall i :: k <= i < |sorted| ==> key(sorted[i]) > key(x)
    ensures Insert(sorted, x, key) == sorted[..k] + [x] + sorted[k..]
  {
    if k == |sorted| {
      InsertLast(sorted, x, key);
      assert sorted[..k] == sorted && sorted[k..] == [];
    } else {
      var front, last := sorted[..|sorted| - 1], sorted[|sorted| - 1];
      InsertAt(front, x, key, k);
      assert front[..k] == sorted[..k];
      assert front[k..] + [last] == sorted[k..];
    }
  }

  /** Sorting a sorted list with one element pushed behind it. */
  lemma SortAfterPush<T>(s: seq<T>, x: T, key: T -> int, k: nat)
    requires Sorted(s, key) && k <= |s|
    requires forall i :: 0 <= i < k ==> key(s[i]) <= key(x)
    requires forall i :: k <= i < |s| ==> key(s[i]) > key(x)
    ensures StableSort(s + [x], key) == s[..k] + [x] + s[k..]
  {
    assert (s + [x])[..|s|] == s;
    SortOfSorted(s, key);
    InsertAt(s, x, key, k);
  }
}
