/** Python's `sorted(xs, key=...)` and `list.sort(key=...)` on an integer key:
    a stable sort, written as an insertion sort. The bot sorts collected lines by
    their timestamp and simulator entries by whether they are booted; both rely
    on stability, because ties keep the order the items were gathered in. */
module Sorting {

  predicate SortedBy<T>(xs: seq<T>, key: T -> int)
  {
    forall i, j :: 0 <= i < j < |xs| ==> key(xs[i]) <= key(xs[j])
  }

  /** Inserts `x` in front of the first element whose key is not smaller. */
  function Insert<T>(x: T, ys: seq<T>, key: T -> int): seq<T>
  {
    if |ys| == 0 || key(x) <= key(ys[0]) then [x] + ys
    else [ys[0]] + Insert(x, ys[1..], key)
  }

  function SortBy<T>(xs: seq<T>, key: T -> int): seq<T>
  {
    if |xs| == 0 then [] else Insert(xs[0], SortBy(xs[1..], key), key)
  }

  /** The items of `xs` whose key is `k`, in their order in `xs`. */
  function WithKey<T>(xs: seq<T>, key: T -> int, k: int): seq<T>
  {
    if |xs| == 0 then []
    else (if key(xs[0]) == k then [xs[0]] else []) + WithKey(xs[1..], key, k)
  }

  lemma {:induction false} InsertSorted<T>(x: T, ys: seq<T>, key: T -> int)
    requires SortedBy(ys, key)
    ensures SortedBy(Insert(x, ys, key), key)
    ensures |Insert(x, ys, key)| == |ys| + 1
    ensures Insert(x, ys, key)[0] == x || (|ys| > 0 && Insert(x, ys, key)[0] == ys[0])
  {
    if |ys| > 0 && key(x) > key(ys[0]) {
      InsertSorted(x, ys[1..], key);
    }
  }

  lemma {:induction false} InsertPermutes<T>(x: T, ys: seq<T>, key: T -> int)
    ensures multiset(Insert(x, ys, key)) == multiset(ys) + multiset{x}
  {
    if |ys| > 0 && key(x) > key(ys[0]) {
      InsertPermutes(x, ys[1..], key);
      assert ys == [ys[0]] + ys[1..];
    }
  }

  lemma {:induction false} InsertKeepsTies<T>(x: T, ys: seq<T>, key: T -> int, k: int)
    ensures WithKey(Insert(x, ys, key), key, k) == (if key(x) == k then [x] else []) + WithKey(ys, key, k)
  {
    if |ys| > 0 && key(x) > key(ys[0]) {
      InsertKeepsTies(x, ys[1..], key, k);
      assert ([ys[0]] + Insert(x, ys[1..], key))[1..] == Insert(x, ys[1..], key);
    } else {
      assert ([x] + ys)[1..] == ys;
    }
  }

  /** The sort returns its input ordered by key and rearranged, nothing lost or added. */
  lemma {:induction false} SortBySortsAndPermutes<T>(xs: seq<T>, key: T -> int)
    ensures SortedBy(SortBy(xs, key), key)
    ensures multiset(SortBy(xs, key)) == multiset(xs)
    ensures |SortBy(xs, key)| == |xs|
  {
    if |xs| > 0 {
      var rest := SortBy(xs[1..], key);
      SortBySortsAndPermutes(xs[1..], key);
      InsertSorted(xs[0], rest, key);
      InsertPermutes(xs[0], rest, key);
      assert SortBy(xs, key) == Insert(xs[0], rest, key);
      assert multiset(xs) == multiset(xs[1..]) + multiset{xs[0]} by {
        assert xs == [xs[0]] + xs[1..];
      }
    }
  }

  /** Stability: for every key, the items with that key keep their input order. */
  lemma {:induction false} SortByIsStable<T>(xs: seq<T>, key: T -> int, k: int)
    ensures WithKey(SortBy(xs, key), key, k) == WithKey(xs, key, k)
  {
    if |xs| > 0 {
      SortByIsStable(xs[1..], key, k);
      InsertKeepsTies(xs[0], SortBy(xs[1..], key), key, k);
    }
  }

  /** Index of the first item of `xs` whose key is minimal. */
  function FirstMin<T>(xs: seq<T>, key: T -> int): (i: nat)
    requires |xs| > 0
    ensures i < |xs|
    ensures forall j :: 0 <= j < |xs| ==> key(xs[i]) <= key(xs[j])
    ensures forall j :: 0 <= j < i ==> key(xs[j]) > key(xs[i])
  {
    if |xs| == 1 then 0
    else
      var t := FirstMin(xs[1..], key);
      if key(xs[0]) <= key(xs[1..][t]) then 0 else t + 1
  }

  /** The front of a stable sort is the first item, in input order, with the
      smallest key. */
  lemma {:induction false} SortByHead<T>(xs: seq<T>, key: T -> int)
    requires |xs| > 0
    ensures |SortBy(xs, key)| == |xs|
    ensures SortBy(xs, key)[0] == xs[FirstMin(xs, key)]
  {
    SortBySortsAndPermutes(xs, key);
    if |xs| > 1 {
      var s := SortBy(xs[1..], key);
      SortByHead(xs[1..], key);
      SortBySortsAndPermutes(xs[1..], key);
      InsertSorted(xs[0], s, key);
    }
  }
}
