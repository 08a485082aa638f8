/** The array operations the sources share: `filter`, and the stable `sort` by a numeric key. */
module Sorting {

  function Filter<T>(xs: seq<T>, p: T -> bool): (r: seq<T>)
    ensures forall x :: x in r ==> x in xs && p(x)
    ensures forall x :: x in xs && p(x) ==> x in r
    ensures (forall x :: x in xs ==> !p(x)) ==> r == []
  {
    if |xs| == 0 then []
    else if p(xs[0]) then [xs[0]] + Filter(xs[1..], p)
    else Filter(xs[1..], p)
  }

  ghost predicate Sorted<T>(xs: seq<T>, key: T -> real) {
    forall i, j :: 0 <= i <= j < |xs| ==> key(xs[i]) <= key(xs[j])
  }

  /** Puts `x` before the first element that is not smaller, so `x` stays ahead of its equals. */
  function Insert<T>(x: T, xs: seq<T>, key: T -> real): (r: seq<T>)
    ensures multiset(r) == multiset{x} + multiset(xs)
    ensures |r| == |xs| + 1
  {
    if |xs| == 0 || key(x) <= key(xs[0]) then
      [x] + xs
    else
      assert xs == [xs[0]] + xs[1..];
      [xs[0]] + Insert(x, xs[1..], key)
  }

  function StableSort<T>(xs: seq<T>, key: T -> real): (r: seq<T>)
    ensures multiset(r) == multiset(xs)
    ensures |r| == |xs|
  {
    if |xs| == 0 then []
    else
      assert xs == [xs[0]] + xs[1..];
      Insert(xs[0], StableSort(xs[1..], key), key)
  }

  lemma {:induction false} InsertSorted<T>(x: T, xs: seq<T>, key: T -> real)
    requires Sorted(xs, key)
    ensures Sorted(Insert(x, xs, key), key)
  {
    if |xs| == 0 || key(x) <= key(xs[0]) {
    } else {
      InsertSorted(x, xs[1..], key);
      var r := Insert(x, xs[1..], key);
      forall y | y in r
        ensures key(xs[0]) <= key(y)
      {
        assert y in multiset(r);
        assert y == x || y in xs[1..];
      }
    }
  }

  lemma {:induction false} StableSortSorted<T>(xs: seq<T>, key: T -> real)
    ensures Sorted(StableSort(xs, key), key)
  {
    if |xs| == 0 {
    } else {
      StableSortSorted(xs[1..], key);
      InsertSorted(xs[0], StableSort(xs[1..], key), key);
    }
  }

  lemma SortKeepsMembers<T>(xs: seq<T>, key: T -> real)
    ensures forall x :: x in StableSort(xs, key) ==> x in xs
    ensures forall x :: x in xs ==> x in StableSort(xs, key)
  {
    var r := StableSort(xs, key);
    assert forall x :: x in r ==> x in multiset(r);
    assert forall x :: x in xs ==> x in multiset(xs);
  }

  /** A sorted list is left alone: the sort is stable. */
  lemma {:induction false} SortFixesSorted<T>(xs: seq<T>, key: T -> real)
    requires Sorted(xs, key)
    ensures StableSort(xs, key) == xs
  {
    if |xs| == 0 {
    } else {
      SortFixesSorted(xs[1..], key);
      assert xs == [xs[0]] + xs[1..];
    }
  }

  lemma {:induction false} FilterInsert<T>(x: T, xs: seq<T>, key: T -> real, p: T -> bool)
    requires Sorted(xs, key)
    ensures Filter(Insert(x, xs, key), p) == if p(x) then Insert(x, Filter(xs, p), key) else Filter(xs, p)
  {
    hide Filter, Insert;
    if |xs| == 0 || key(x) <= key(xs[0]) {
      InsertFront(x, xs, key);
      FilterCons(x, xs, p);
      FilteredFirst(xs, key, p);
      InsertFront(x, Filter(xs, p), key);
    } else {
      var rest := xs[1..];
      assert xs == [xs[0]] + rest;
      FilterInsert(x, rest, key, p);
      InsertBehind(x, xs[0], rest, key);
      FilterCons(xs[0], rest, p);
      FilterCons(xs[0], Insert(x, rest, key), p);
      InsertBehind(x, xs[0], Filter(rest, p), key);
      assert [] + Filter(rest, p) == Filter(rest, p);
    }
  }

  lemma InsertFront<T>(x: T, xs: seq<T>, key: T -> real)
    requires |xs| > 0 ==> key(x) <= key(xs[0])
    ensures Insert(x, xs, key) == [x] + xs
  {
  }

  /** Nothing kept from a sorted list comes before its first element. */
  lemma FilteredFirst<T>(xs: seq<T>, key: T -> real, p: T -> bool)
    requires Sorted(xs, key)
    ensures |Filter(xs, p)| > 0 ==> |xs| > 0 && key(xs[0]) <= key(Filter(xs, p)[0])
  {
    hide Filter;
    var f := Filter(xs, p);
    assert |f| > 0 ==> f[0] in xs;
  }

  lemma FilterCons<T>(x: T, xs: seq<T>, p: T -> bool)
    ensures Filter([x] + xs, p) == (if p(x) then [x] else []) + Filter(xs, p)
  {
    assert ([x] + xs)[1..] == xs;
  }

  lemma InsertBehind<T>(x: T, first: T, xs: seq<T>, key: T -> real)
    requires key(x) > key(first)
    ensures Insert(x, [first] + xs, key) == [first] + Insert(x, xs, key)
  {
    assert ([first] + xs)[1..] == xs;
  }

  /** Stability: sorting and then keeping some elements equals keeping them and then sorting. */
  lemma {:induction false} FilterCommutesWithSort<T>(xs: seq<T>, key: T -> real, p: T -> bool)
    ensures Filter(StableSort(xs, key), p) == StableSort(Filter(xs, p), key)
  {
    if |xs| == 0 {
    } else {
      FilterCommutesWithSort(xs[1..], key, p);
      StableSortSorted(xs[1..], key);
      FilterInsert(xs[0], StableSort(xs[1..], key), key, p);
      if p(xs[0]) {
        assert Filter(xs, p)[1..] == Filter(xs[1..], p);
      }
    }
  }

  lemma {:induction false} FilterConcat<T>(a: seq<T>, b: seq<T>, p: T -> bool)
    ensures Filter(a + b, p) == Filter(a, p) + Filter(b, p)
  {
    if |a| == 0 {
      assert a + b == b;
    } else {
      assert (a + b)[1..] == a[1..] + b;
      FilterConcat(a[1..], b, p);
    }
  }

  lemma {:induction false} FiltersSwap<T>(xs: seq<T>, p: T -> bool, q: T -> bool)
    ensures Filter(Filter(xs, p), q) == Filter(Filter(xs, q), p)
  {
    if |xs| == 0 {
    } else {
      FiltersSwap(xs[1..], p, q);
    }
  }

  lemma {:induction false} FilterSame<T(!new)>(xs: seq<T>, p: T -> bool, q: T -> bool)
    requires forall x :: p(x) == q(x)
    ensures Filter(xs, p) == Filter(xs, q)
  {
    if |xs| == 0 {
    } else {
      FilterSame(xs[1..], p, q);
    }
  }

  lemma {:induction false} FilterAll<T>(xs: seq<T>, p: T -> bool)
    requires forall x :: x in xs ==> p(x)
    ensures Filter(xs, p) == xs
  {
    if |xs| == 0 {
    } else {
      assert xs[0] in xs;
      FilterAll(xs[1..], p);
    }
  }

  lemma FilterNone<T>(xs: seq<T>, p: T -> bool)
    requires forall x :: x in xs ==> !p(x)
    ensures Filter(xs, p) == []
  {
  }

  lemma {:induction false} FilterShorter<T>(xs: seq<T>, p: T -> bool)
    ensures |Filter(xs, p)| <= |xs|
  {
    if |xs| == 0 {
    } else {
      FilterShorter(xs[1..], p);
    }
  }

  lemma FilterAppend<T>(a: seq<T>, x: T, p: T -> bool)
    ensures Filter(a + [x], p) == Filter(a, p) + (if p(x) then [x] else [])
  {
    FilterConcat(a, [x], p);
    assert [x][1..] == [];
  }

  /** How many leading elements satisfy `p`. */
  function Leading<T>(xs: seq<T>, p: T -> bool): (n: nat)
    ensures n <= |xs|
    ensures forall i :: 0 <= i < n ==> p(xs[i])
    ensures n < |xs| ==> !p(xs[n])
  {
    if |xs| == 0 || !p(xs[0]) then 0 else 1 + Leading(xs[1..], p)
  }

  /** When exactly the first `n` elements satisfy `p`, filtering keeps that prefix. */
  lemma {:induction false} FilterIsPrefix<T>(xs: seq<T>, p: T -> bool, n: nat)
    requires n <= |xs|
    requires forall i :: 0 <= i < n ==> p(xs[i])
    requires forall i :: n <= i < |xs| ==> !p(xs[i])
    ensures Filter(xs, p) == xs[..n]
  {
    if n > 0 {
      FilterIsPrefix(xs[1..], p, n - 1);
      assert xs[..n] == [xs[0]] + xs[1..][..n - 1];
    } else {
      assert forall x :: x in xs ==> !p(x);
    }
  }
}
