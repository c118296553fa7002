/** Order-keeping selection over sequences, shared by the `Array.filter`
    calls of the model. */
module Sequences {

  /** `xs` is `ys` with some elements left out, order kept. */
  predicate SubsequenceOf<T(==)>(xs: seq<T>, ys: seq<T>)
    decreases |ys|
  {
    if |xs| == 0 then true
    else if |ys| == 0 then false
    else (xs[0] == ys[0] && SubsequenceOf(xs[1..], ys[1..])) || SubsequenceOf(xs, ys[1..])
  }

  /** `xs.filter(p)`: the elements satisfying `p`, in their original order. */
  function Filter<T(==,!new)>(xs: seq<T>, p: T -> bool): (r: seq<T>)
    ensures forall x :: x in r <==> x in xs && p(x)
    ensures SubsequenceOf(r, xs)
    ensures |r| <= |xs|
    decreases |xs|
  {
    if |xs| == 0 then []
    else
      var rest := Filter(xs[1..], p);
      assert forall x :: x in xs <==> x == xs[0] || x in xs[1..] by {
        assert xs == [xs[0]] + xs[1..];
      }
      if p(xs[0]) then
        assert ([xs[0]] + rest)[1..] == rest;
        [xs[0]] + rest
      else rest
  }

  /** Keeping everything keeps the sequence as it is. */
  lemma {:induction false} FilterAll<T(!new)>(xs: seq<T>, p: T -> bool)
    requires forall x :: x in xs ==> p(x)
    ensures Filter(xs, p) == xs
    decreases |xs|
  {
    if |xs| > 0 {
      assert xs[0] in xs;
      assert forall x :: x in xs[1..] ==> x in xs;
      FilterAll(xs[1..], p);
      assert [xs[0]] + xs[1..] == xs;
    }
  }

  /** Filtering with two tests that agree on every element gives the same result. */
  lemma {:induction false} FilterSameTest<T(!new)>(xs: seq<T>, p: T -> bool, q: T -> bool)
    requires forall x :: x in xs ==> p(x) == q(x)
    ensures Filter(xs, p) == Filter(xs, q)
    decreases |xs|
  {
    if |xs| > 0 {
      assert xs[0] in xs;
      assert forall x :: x in xs[1..] ==> x in xs;
      FilterSameTest(xs[1..], p, q);
    }
  }

  /** `xs` is ordered by `key`, smallest first. */
  predicate SortedBy<T>(xs: seq<T>, key: T -> int) {
    forall i, j :: 0 <= i < j < |xs| ==> key(xs[i]) <= key(xs[j])
  }

  /** An element no larger than any of a sorted sequence can go in front. */
  lemma SortedCons<T>(h: T, rest: seq<T>, key: T -> int)
    requires SortedBy(rest, key)
    requires forall y :: y in rest ==> key(h) <= key(y)
    ensures SortedBy([h] + rest, key)
  {
    var r := [h] + rest;
    forall i, j | 0 <= i < j < |r| ensures key(r[i]) <= key(r[j]) {
      assert r[j] == rest[j - 1] && r[j] in rest;
      if i > 0 {
        assert r[i] == rest[i - 1];
      }
    }
  }

  /** `x` put into a sorted sequence before the first element with a larger
      or equal key. */
  function InsertBy<T>(x: T, xs: seq<T>, key: T -> int): (r: seq<T>)
    requires SortedBy(xs, key)
    ensures SortedBy(r, key)
    ensures multiset(r) == multiset(xs) + multiset{x}
    ensures forall y :: y in r ==> y == x || y in xs
    decreases |xs|
  {
    if |xs| == 0 || key(x) <= key(xs[0]) then
      assert forall y :: y in xs ==> key(x) <= key(y) by {
        forall y | y in xs ensures key(x) <= key(y) {
          var k :| 0 <= k < |xs| && xs[k] == y;
          assert key(xs[0]) <= key(xs[k]) || k == 0;
        }
      }
      SortedCons(x, xs, key);
      [x] + xs
    else
      assert xs == [xs[0]] + xs[1..];
      assert SortedBy(xs[1..], key);
      var rest := InsertBy(x, xs[1..], key);
      assert forall y :: y in xs[1..] ==> key(xs[0]) <= key(y);
      SortedCons(xs[0], rest, key);
      [xs[0]] + rest
  }

  /** The sequence sorted by `key` (what a stable `Array.prototype.sort` with
      a `key(a) - key(b)` comparator gives). */
  function SortBy<T>(xs: seq<T>, key: T -> int): (r: seq<T>)
    ensures SortedBy(r, key)
    ensures multiset(r) == multiset(xs)
    ensures |r| == |xs|
    decreases |xs|
  {
    if |xs| == 0 then []
    else
      assert xs == [xs[0]] + xs[1..];
      var r := InsertBy(xs[0], SortBy(xs[1..], key), key);
      assert |r| == |multiset(r)|;
      r
  }

  /** Filtering a sequence with an element in front. */
  lemma FilterCons<T(!new)>(x: T, xs: seq<T>, p: T -> bool)
    ensures Filter([x] + xs, p) == (if p(x) then [x] else []) + Filter(xs, p)
  {
    assert ([x] + xs)[0] == x && ([x] + xs)[1..] == xs;
  }

  /** Inserting drops `x` in among the elements of its own key just before
      them, so each key's elements of the result are those of `xs`, with
      `x` first among its own. */
  lemma {:induction false} InsertByKeepsTies<T(!new)>(x: T, xs: seq<T>, key: T -> int, p: T -> bool, c: int)
    requires SortedBy(xs, key)
    requires forall y :: p(y) <==> key(y) == c
    ensures Filter(InsertBy(x, xs, key), p) == (if key(x) == c then [x] else []) + Filter(xs, p)
    decreases |xs|
  {
    if |xs| == 0 || key(x) <= key(xs[0]) {
      assert InsertBy(x, xs, key) == [x] + xs;
      FilterCons(x, xs, p);
    } else {
      assert key(x) == c ==> !p(xs[0]);
      assert SortedBy(xs[1..], key);
      var rest := InsertBy(x, xs[1..], key);
      assert InsertBy(x, xs, key) == [xs[0]] + rest;
      InsertByKeepsTies(x, xs[1..], key, p, c);
      FilterCons(xs[0], rest, p);
      FilterCons(xs[0], xs[1..], p);
      assert [xs[0]] + xs[1..] == xs;
      var h0: seq<T> := if p(xs[0]) then [xs[0]] else [];
      var hx: seq<T> := if key(x) == c then [x] else [];
      var ft := Filter(xs[1..], p);
      assert Filter(InsertBy(x, xs, key), p) == h0 + (hx + ft);
      assert Filter(xs, p) == h0 + ft;
      if key(x) == c {
        assert h0 + (hx + ft) == hx + ft;
      } else {
        assert hx + ft == ft;
      }
    }
  }

  /** `SortBy` is stable: the elements of any one key come out in the order
      they went in. */
  lemma {:induction false} SortByStable<T(!new)>(xs: seq<T>, key: T -> int, p: T -> bool, c: int)
    requires forall y :: p(y) <==> key(y) == c
    ensures Filter(SortBy(xs, key), p) == Filter(xs, p)
    decreases |xs|
  {
    if |xs| > 0 {
      SortByStable(xs[1..], key, p, c);
      InsertByKeepsTies(xs[0], SortBy(xs[1..], key), key, p, c);
      FilterCons(xs[0], xs[1..], p);
      assert [xs[0]] + xs[1..] == xs;
    }
  }

  /** An element kept by the filter that ends the sequence also ends the
      filtered sequence. */
  lemma {:induction false} FilterKeepsLast<T(!new)>(xs: seq<T>, p: T -> bool)
    requires |xs| > 0 && p(xs[|xs| - 1])
    ensures |Filter(xs, p)| > 0 && Filter(xs, p)[|Filter(xs, p)| - 1] == xs[|xs| - 1]
    decreases |xs|
  {
    if |xs| > 1 {
      FilterKeepsLast(xs[1..], p);
    }
  }
}
