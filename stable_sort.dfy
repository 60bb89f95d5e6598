/** Python's `sorted(xs, key=k)`: an ascending sort by an integer key that keeps
    elements with equal keys in their original order (a stable sort). */
module StableSort {

  ghost predicate SortedBy<T>(s: seq<T>, key: T -> int)
  {
    forall i, j :: 0 <= i < j < |s| ==> key(s[i]) <= key(s[j])
  }

  /** The elements of `s` whose key is `k`, in the order they appear in `s`. */
  function WithKey<T>(s: seq<T>, key: T -> int, k: int): (r: seq<T>)
    ensures |r| <= |s|
  {
    if s == [] then []
    else (if key(s[0]) == k then [s[0]] else []) + WithKey(s[1..], key, k)
  }

  /** Inserts `x` before the first element whose key is not smaller. */
  function Insert<T>(x: T, s: seq<T>, key: T -> int): (r: seq<T>)
    ensures |r| == |s| + 1
  {
    if s == [] || key(x) <= key(s[0]) then [x] + s else [s[0]] + Insert(x, s[1..], key)
  }

  function SortBy<T>(s: seq<T>, key: T -> int): (r: seq<T>)
    ensures |r| == |s|
  {
    if s == [] then [] else Insert(s[0], SortBy(s[1..], key), key)
  }

  lemma {:induction false} InsertSorted<T>(x: T, s: seq<T>, key: T -> int)
    requires SortedBy(s, key)
    ensures SortedBy(Insert(x, s, key), key)
    ensures multiset(Insert(x, s, key)) == multiset(s) + multiset{x}
  {
    InsertPermutes(x, s, key);
    if s == [] || key(x) <= key(s[0]) {
      SortedCons(x, s, key);
    } else {
      var r := Insert(x, s[1..], key);
      InsertSorted(x, s[1..], key);
      InsertBounded(x, s[1..], key, key(s[0]));
      SortedCons(s[0], r, key);
    }
  }

  /** Inserting adds exactly `x` to the elements. */
  lemma {:induction false} InsertPermutes<T>(x: T, s: seq<T>, key: T -> int)
    ensures multiset(Insert(x, s, key)) == multiset(s) + multiset{x}
  {
    if s != [] && key(x) > key(s[0]) {
      InsertPermutes(x, s[1..], key);
      assert s == [s[0]] + s[1..];
    }
  }

  /** An element no larger than any of a sorted sequence can go in front of it. */
  lemma SortedCons<T>(y: T, r: seq<T>, key: T -> int)
    requires SortedBy(r, key)
    requires r == [] || key(y) <= key(r[0])
    ensures SortedBy([y] + r, key)
  {
    var t := [y] + r;
    forall i, j | 0 <= i < j < |t| ensures key(t[i]) <= key(t[j]) {
      if i == 0 && j > 1 {
        assert key(r[0]) <= key(r[j - 1]);
      }
    }
  }

  /** A lower bound on the keys of `x` and of `s` bounds the keys after the insertion. */
  lemma {:induction false} InsertBounded<T>(x: T, s: seq<T>, key: T -> int, b: int)
    requires b <= key(x) && forall i :: 0 <= i < |s| ==> b <= key(s[i])
    ensures forall i :: 0 <= i < |Insert(x, s, key)| ==> b <= key(Insert(x, s, key)[i])
  {
    if s != [] && key(x) > key(s[0]) {
      InsertBounded(x, s[1..], key, b);
      var r := Insert(x, s[1..], key);
      assert Insert(x, s, key) == [s[0]] + r;
    }
  }

  /** The result is ordered by key and is a permutation of the input. */
  lemma {:induction false} SortBySortedPermutation<T>(s: seq<T>, key: T -> int)
    ensures SortedBy(SortBy(s, key), key)
    ensures multiset(SortBy(s, key)) == multiset(s)
  {
    if s != [] {
      SortBySortedPermutation(s[1..], key);
      InsertSorted(s[0], SortBy(s[1..], key), key);
      assert s == [s[0]] + s[1..];
    }
  }

  lemma {:induction false} InsertWithKey<T>(x: T, s: seq<T>, key: T -> int, k: int)
    requires SortedBy(s, key)
    ensures WithKey(Insert(x, s, key), key, k)
         == (if key(x) == k then [x] else []) + WithKey(s, key, k)
  {
    if s == [] || key(x) <= key(s[0]) {
      assert Insert(x, s, key) == [x] + s;
      assert ([x] + s)[1..] == s;
    } else {
      var r := Insert(x, s[1..], key);
      var head := if key(s[0]) == k then [s[0]] else [];
      InsertWithKey(x, s[1..], key, k);
      assert Insert(x, s, key) == [s[0]] + r;
      assert ([s[0]] + r)[1..] == r;
      assert WithKey(Insert(x, s, key), key, k) == head + WithKey(r, key, k);
      assert WithKey(s, key, k) == head + WithKey(s[1..], key, k);
      if key(x) == k {
        assert head == [];
      }
    }
  }

  /** Stability: among elements with the same key, the input order is kept. */
  lemma {:induction false} SortByStable<T>(s: seq<T>, key: T -> int, k: int)
    ensures WithKey(SortBy(s, key), key, k) == WithKey(s, key, k)
  {
    if s != [] {
      SortByStable(s[1..], key, k);
      SortBySortedPermutation(s[1..], key);
      InsertWithKey(s[0], SortBy(s[1..], key), key, k);
    }
  }
}
