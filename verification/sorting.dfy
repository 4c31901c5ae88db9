/**
 * Sequence helpers the course analysis is built from: collecting each item's
 * contribution in order, and a stable insertion sort under a three-way
 * comparator.
 */
module Sorting {
  import opened Options

  /** The contributions of the items, concatenated in item order. */
  function Collect<A, B>(xs: seq<A>, f: A -> seq<B>): seq<B> {
    if xs == [] then [] else Collect(xs[..|xs| - 1], f) + f(xs[|xs| - 1])
  }

  /** Something is collected exactly when some item contributes it. */
  lemma {:induction false} CollectMembers<A, B>(xs: seq<A>, f: A -> seq<B>, y: B)
    ensures y in Collect(xs, f) <==> exists j :: 0 <= j < |xs| && y in f(xs[j])
  {
    if xs != [] {
      var n := |xs| - 1;
      var c := Collect(xs[..n], f);
      assert Collect(xs, f) == c + f(xs[n]);
      CollectMembers(xs[..n], f, y);
      if y in c {
        var j :| 0 <= j < n && y in f(xs[..n][j]);
        assert xs[..n][j] == xs[j];
      }
      if exists j :: 0 <= j < |xs| && y in f(xs[j]) {
        var j :| 0 <= j < |xs| && y in f(xs[j]);
        if j < n {
          assert xs[..n][j] == xs[j];
        }
      }
    }
  }

  /** When no item contributes more than one element, there are no more
      elements than items. */
  lemma {:induction false} CollectAtMost<A, B>(xs: seq<A>, f: A -> seq<B>)
    requires forall j :: 0 <= j < |xs| ==> |f(xs[j])| <= 1
    ensures |Collect(xs, f)| <= |xs|
  {
    if xs != [] {
      var n := |xs| - 1;
      assert forall j :: 0 <= j < n ==> xs[..n][j] == xs[j];
      CollectAtMost(xs[..n], f);
    }
  }

  /** Inserts `x` after every element that does not compare above it, scanning
      from the back, as a stable insertion sort does. */
  function Insert<T>(x: T, sorted: seq<T>, cmp: (T, T) -> int): (r: seq<T>)
    ensures multiset(r) == multiset(sorted) + multiset{x}
    decreases |sorted|
  {
    if sorted == [] then [x]
    else
      var n := |sorted| - 1;
      if cmp(sorted[n], x) > 0 then
        assert sorted == sorted[..n] + [sorted[n]];
        Insert(x, sorted[..n], cmp) + [sorted[n]]
      else
        sorted + [x]
  }

  /** Stable insertion sort: every element is inserted in input order. */
  function SortBy<T>(xs: seq<T>, cmp: (T, T) -> int): (r: seq<T>)
    ensures multiset(r) == multiset(xs)
  {
    if xs == [] then []
    else
      var n := |xs| - 1;
      assert xs == xs[..n] + [xs[n]];
      Insert(xs[n], SortBy(xs[..n], cmp), cmp)
  }

  /** Every element has a key. */
  predicate AllKeyed<T>(xs: seq<T>, key: T -> Option<nat>) {
    forall i :: 0 <= i < |xs| ==> key(xs[i]).Some?
  }

  /** The keys never decrease. */
  predicate SortedByKey<T>(xs: seq<T>, key: T -> Option<nat>)
    requires AllKeyed(xs, key)
  {
    forall i, j :: 0 <= i < j < |xs| ==> key(xs[i]).value <= key(xs[j]).value
  }

  /** The comparator is the difference of the keys wherever both are defined. */
  ghost predicate ComparesByKey<T(!new)>(cmp: (T, T) -> int, key: T -> Option<nat>) {
    forall a, b :: key(a).Some? && key(b).Some? ==> cmp(a, b) == key(a).value - key(b).value
  }

  lemma KeyedByMultiset<T>(a: seq<T>, b: seq<T>, key: T -> Option<nat>)
    requires multiset(a) == multiset(b) && AllKeyed(b, key)
    ensures AllKeyed(a, key)
  {
    forall i | 0 <= i < |a|
      ensures key(a[i]).Some?
    {
      assert a[i] in multiset(b);
    }
  }

  lemma SnocSorted<T>(xs: seq<T>, y: T, key: T -> Option<nat>)
    requires AllKeyed(xs, key) && key(y).Some? && SortedByKey(xs, key)
    requires forall i :: 0 <= i < |xs| ==> key(xs[i]).value <= key(y).value
    ensures AllKeyed(xs + [y], key) && SortedByKey(xs + [y], key)
  {
    var r := xs + [y];
    assert forall i :: 0 <= i < |xs| ==> r[i] == xs[i];
  }

  lemma {:induction false} InsertSorted<T(!new)>(x: T, sorted: seq<T>, cmp: (T, T) -> int, key: T -> Option<nat>)
    requires ComparesByKey(cmp, key)
    requires AllKeyed(sorted, key) && key(x).Some? && SortedByKey(sorted, key)
    ensures AllKeyed(Insert(x, sorted, cmp), key) && SortedByKey(Insert(x, sorted, cmp), key)
    decreases |sorted|
  {
    if sorted == [] {
      assert Insert(x, sorted, cmp) == [x];
    } else {
      var n := |sorted| - 1;
      var last := sorted[n];
      var init := sorted[..n];
      assert sorted == init + [last];
      if cmp(last, x) > 0 {
        assert AllKeyed(init, key) && SortedByKey(init, key);
        InsertSorted(x, init, cmp, key);
        var front := Insert(x, init, cmp);
        assert Insert(x, sorted, cmp) == front + [last];
        forall i | 0 <= i < |front|
          ensures key(front[i]).value <= key(last).value
        {
          assert front[i] in multiset(init) + multiset{x};
          if front[i] != x {
            var k :| 0 <= k < |init| && init[k] == front[i];
            assert sorted[k] == front[i];
          }
        }
        SnocSorted(front, last, key);
      } else {
        assert Insert(x, sorted, cmp) == sorted + [x];
        SnocSorted(sorted, x, key);
      }
    }
  }

  /** With a comparator that is a difference of keys, the sort orders by key. */
  lemma {:induction false} SortOrdersByKey<T(!new)>(xs: seq<T>, cmp: (T, T) -> int, key: T -> Option<nat>)
    requires ComparesByKey(cmp, key) && AllKeyed(xs, key)
    ensures AllKeyed(SortBy(xs, cmp), key) && SortedByKey(SortBy(xs, cmp), key)
  {
    if xs != [] {
      var n := |xs| - 1;
      assert AllKeyed(xs[..n], key);
      SortOrdersByKey(xs[..n], cmp, key);
      InsertSorted(xs[n], SortBy(xs[..n], cmp), cmp, key);
    }
  }
}
