/** `Array.prototype.sort` with a numeric comparator: a stable sort in ascending key order. */
module Sorting {

  predicate Sorted<T>(key: T -> int, s: seq<T>) {
    forall i, j :: 0 <= i < j < |s| ==> key(s[i]) <= key(s[j])
  }

  function Insert<T>(key: T -> int, x: T, s: seq<T>): seq<T> {
    if s == [] || key(x) <= key(s[0]) then [x] + s else [s[0]] + Insert(key, x, s[1..])
  }

  function StableSort<T>(key: T -> int, s: seq<T>): seq<T> {
    if s == [] then [] else Insert(key, s[0], StableSort(key, s[1..]))
  }

  /** The elements of one key, in order. */
  function WithKey<T>(key: T -> int, k: int, s: seq<T>): seq<T> {
    if s == [] then []
    else if key(s[0]) == k then [s[0]] + WithKey(key, k, s[1..])
    else WithKey(key, k, s[1..])
  }

  lemma WithKeyCons<T>(key: T -> int, k: int, x: T, s: seq<T>)
    ensures WithKey(key, k, [x] + s) == if key(x) == k then [x] + WithKey(key, k, s) else WithKey(key, k, s)
  {
    assert ([x] + s)[1..] == s;
  }

  lemma {:induction false} WithKeyAppend<T>(key: T -> int, k: int, a: seq<T>, b: seq<T>)
    ensures WithKey(key, k, a + b) == WithKey(key, k, a) + WithKey(key, k, b)
    decreases |a|
  {
    if a == [] {
      assert a + b == b;
    } else {
      assert (a + b)[1..] == a[1..] + b;
      WithKeyAppend(key, k, a[1..], b);
    }
  }

  lemma {:induction false} InsertIsPermutation<T>(key: T -> int, x: T, s: seq<T>)
    ensures multiset(Insert(key, x, s)) == multiset{x} + multiset(s)
  {
    if s == [] || key(x) <= key(s[0]) {
      assert Insert(key, x, s) == [x] + s;
    } else {
      InsertIsPermutation(key, x, s[1..]);
      assert s == [s[0]] + s[1..];
    }
  }

  lemma SortedCons<T>(key: T -> int, x: T, s: seq<T>)
    requires Sorted(key, s) && forall j :: 0 <= j < |s| ==> key(x) <= key(s[j])
    ensures Sorted(key, [x] + s)
  {
  }

  lemma {:induction false} InsertIsSorted<T>(key: T -> int, x: T, s: seq<T>)
    requires Sorted(key, s)
    ensures Sorted(key, Insert(key, x, s))
  {
    if s == [] || key(x) <= key(s[0]) {
      SortedCons(key, x, s);
    } else {
      InsertIsSorted(key, x, s[1..]);
      InsertIsPermutation(key, x, s[1..]);
      var rest := Insert(key, x, s[1..]);
      forall j | 0 <= j < |rest| ensures key(s[0]) <= key(rest[j]) {
        assert rest[j] in multiset(rest);
      }
      SortedCons(key, s[0], rest);
    }
  }

  lemma {:induction false} InsertIsStable<T>(key: T -> int, x: T, s: seq<T>, k: int)
    ensures WithKey(key, k, Insert(key, x, s)) == WithKey(key, k, [x] + s)
  {
    if s != [] && key(x) > key(s[0]) {
      var rest := s[1..];
      InsertIsStable(key, x, rest, k);
      WithKeyCons(key, k, s[0], Insert(key, x, rest));
      WithKeyCons(key, k, x, s);
      WithKeyCons(key, k, x, rest);
    }
  }

  /** Sorted, a permutation, and elements of equal key keep their order. */
  lemma {:induction false} SortIsStable<T>(key: T -> int, s: seq<T>)
    ensures Sorted(key, StableSort(key, s))
    ensures multiset(StableSort(key, s)) == multiset(s)
    ensures forall k :: WithKey(key, k, StableSort(key, s)) == WithKey(key, k, s)
  {
    if s != [] {
      var rest := StableSort(key, s[1..]);
      SortIsStable(key, s[1..]);
      InsertIsSorted(key, s[0], rest);
      InsertIsPermutation(key, s[0], rest);
      assert s == [s[0]] + s[1..];
      forall k ensures WithKey(key, k, StableSort(key, s)) == WithKey(key, k, s) {
        InsertIsStable(key, s[0], rest, k);
        WithKeyCons(key, k, s[0], rest);
      }
    }
  }

  lemma {:induction false} SortOfSorted<T>(key: T -> int, s: seq<T>)
    requires Sorted(key, s)
    ensures StableSort(key, s) == s
  {
    if s != [] {
      SortOfSorted(key, s[1..]);
    }
  }
}
