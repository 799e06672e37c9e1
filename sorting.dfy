/**
 * The stable sort behind Python's `sorted(xs, key=..., reverse=...)` and
 * behind an `ORDER BY` on one column, over elements paired with their
 * integer sort key.  `reverse=True` keeps equal keys in their original
 * order, as Python guarantees, so both directions are stable.
 */
module Sorting {

  /** `a` may stand before `b`: ascending, or descending when `descending`. */
  predicate Before(a: int, b: int, descending: bool) {
    if descending then a >= b else a <= b
  }

  predicate Sorted<T>(xs: seq<(int, T)>, descending: bool) {
    forall i, j :: 0 <= i < j < |xs| ==> Before(xs[i].0, xs[j].0, descending)
  }

  /** `x` goes in front of the first element it may stand before. */
  function Insert<T>(x: (int, T), xs: seq<(int, T)>, descending: bool): seq<(int, T)> {
    if xs == [] || Before(x.0, xs[0].0, descending) then [x] + xs
    else [xs[0]] + Insert(x, xs[1..], descending)
  }

  /** Each element is inserted into the sorted rest, ahead of the equal keys that come after it. */
  function Sort<T>(xs: seq<(int, T)>, descending: bool): seq<(int, T)> {
    if xs == [] then [] else Insert(xs[0], Sort(xs[1..], descending), descending)
  }

  /** The elements whose key is `k`, in order. */
  function WithKey<T>(xs: seq<(int, T)>, k: int): seq<(int, T)> {
    if xs == [] then []
    else (if xs[0].0 == k then [xs[0]] else []) + WithKey(xs[1..], k)
  }

  /** The elements without their keys. */
  function Values<T>(xs: seq<(int, T)>): (vs: seq<T>)
    ensures |vs| == |xs| && forall i :: 0 <= i < |xs| ==> vs[i] == xs[i].1
  {
    if xs == [] then [] else [xs[0].1] + Values(xs[1..])
  }

  lemma {:induction false} SortedCons<T>(y: (int, T), ys: seq<(int, T)>, descending: bool)
    ensures Sorted([y] + ys, descending) <==>
      (forall i :: 0 <= i < |ys| ==> Before(y.0, ys[i].0, descending)) && Sorted(ys, descending)
  {
    var s := [y] + ys;
    if (forall i :: 0 <= i < |ys| ==> Before(y.0, ys[i].0, descending)) && Sorted(ys, descending) {
      forall i, j | 0 <= i < j < |s| ensures Before(s[i].0, s[j].0, descending) {
        assert s[j] == ys[j - 1];
        if i > 0 { assert s[i] == ys[i - 1]; }
      }
    }
    if Sorted(s, descending) {
      forall i, j | 0 <= i < j < |ys| ensures Before(ys[i].0, ys[j].0, descending) {
        assert s[i + 1] == ys[i] && s[j + 1] == ys[j];
      }
      forall i | 0 <= i < |ys| ensures Before(y.0, ys[i].0, descending) {
        assert s[0] == y && s[i + 1] == ys[i];
        assert Before(s[0].0, s[i + 1].0, descending);
      }
    }
  }

  lemma {:induction false} InsertMultiset<T>(x: (int, T), xs: seq<(int, T)>, descending: bool)
    ensures multiset(Insert(x, xs, descending)) == multiset(xs) + multiset{x}
  {
    if xs != [] && !Before(x.0, xs[0].0, descending) {
      InsertMultiset(x, xs[1..], descending);
      assert xs == [xs[0]] + xs[1..];
    }
  }

  lemma {:induction false} InsertSorted<T>(x: (int, T), xs: seq<(int, T)>, descending: bool)
    requires Sorted(xs, descending)
    ensures Sorted(Insert(x, xs, descending), descending)
  {
    if xs == [] || Before(x.0, xs[0].0, descending) {
      if xs != [] {
        assert xs == [xs[0]] + xs[1..];
        SortedCons(xs[0], xs[1..], descending);
      }
      SortedCons(x, xs, descending);
    } else {
      var t := Insert(x, xs[1..], descending);
      assert xs == [xs[0]] + xs[1..];
      SortedCons(xs[0], xs[1..], descending);
      InsertSorted(x, xs[1..], descending);
      InsertMultiset(x, xs[1..], descending);
      forall i | 0 <= i < |t| ensures Before(xs[0].0, t[i].0, descending) {
        assert t[i] in multiset(t);
        if t[i] != x {
          assert t[i] in xs[1..];
        }
      }
      SortedCons(xs[0], t, descending);
    }
  }

  /** The sort orders the keys and keeps every element exactly as often as it occurs. */
  lemma {:induction false} SortSorted<T>(xs: seq<(int, T)>, descending: bool)
    ensures Sorted(Sort(xs, descending), descending)
    ensures multiset(Sort(xs, descending)) == multiset(xs)
  {
    if xs != [] {
      SortSorted(xs[1..], descending);
      InsertSorted(xs[0], Sort(xs[1..], descending), descending);
      InsertMultiset(xs[0], Sort(xs[1..], descending), descending);
      assert xs == [xs[0]] + xs[1..];
    }
  }

  lemma {:induction false} WithKeyCons<T>(e: (int, T), xs: seq<(int, T)>, k: int)
    ensures WithKey([e] + xs, k) == (if e.0 == k then [e] else []) + WithKey(xs, k)
  {
    assert ([e] + xs)[1..] == xs;
  }

  lemma {:induction false} InsertWithKey<T>(x: (int, T), xs: seq<(int, T)>, k: int, descending: bool)
    ensures WithKey(Insert(x, xs, descending), k) == (if x.0 == k then [x] else []) + WithKey(xs, k)
  {
    if xs == [] || Before(x.0, xs[0].0, descending) {
      WithKeyCons(x, xs, k);
    } else {
      var r := Insert(x, xs[1..], descending);
      InsertWithKey(x, xs[1..], k, descending);
      WithKeyCons(xs[0], r, k);
      WithKeyCons(xs[0], xs[1..], k);
      assert xs == [xs[0]] + xs[1..];
      assert x.0 != xs[0].0;
    }
  }

  /** Stability: the elements with any one key come out in the order they went in. */
  lemma {:induction false} SortStable<T>(xs: seq<(int, T)>, k: int, descending: bool)
    ensures WithKey(Sort(xs, descending), k) == WithKey(xs, k)
  {
    if xs != [] {
      SortStable(xs[1..], k, descending);
      InsertWithKey(xs[0], Sort(xs[1..], descending), k, descending);
    }
  }

  lemma {:induction false} InsertValues<T>(x: (int, T), xs: seq<(int, T)>, descending: bool)
    ensures multiset(Values(Insert(x, xs, descending))) == multiset(Values(xs)) + multiset{x.1}
  {
    if xs != [] && !Before(x.0, xs[0].0, descending) {
      InsertValues(x, xs[1..], descending);
      assert Values(xs) == [xs[0].1] + Values(xs[1..]);
    }
  }

  /** The sorted values are the same values, each as often as before. */
  lemma {:induction false} SortValues<T>(xs: seq<(int, T)>, descending: bool)
    ensures multiset(Values(Sort(xs, descending))) == multiset(Values(xs))
  {
    if xs != [] {
      SortValues(xs[1..], descending);
      InsertValues(xs[0], Sort(xs[1..], descending), descending);
      assert Values(xs) == [xs[0].1] + Values(xs[1..]);
    }
  }

  lemma {:induction false} ValuesAppend<T>(a: seq<(int, T)>, b: seq<(int, T)>)
    ensures Values(a + b) == Values(a) + Values(b)
  {
    if a != [] {
      ValuesAppend(a[1..], b);
      assert (a + b)[1..] == a[1..] + b;
    } else {
      assert a + b == b;
    }
  }

}
