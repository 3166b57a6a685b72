/** List comprehensions with a condition, `[x for x in xs if p(x)]`. */
module Seqs {

  function Filter<T(==,!new)>(xs: seq<T>, p: T -> bool): (r: seq<T>)
    ensures |r| <= |xs|
    ensures forall x :: x in r <==> x in xs && p(x)
  {
    if xs == [] then []
    else (if p(xs[0]) then [xs[0]] else []) + Filter(xs[1..], p)
  }

  lemma {:induction false} FilterAppend<T(!new)>(xs: seq<T>, ys: seq<T>, p: T -> bool)
    ensures Filter(xs + ys, p) == Filter(xs, p) + Filter(ys, p)
    decreases |xs|
  {
    if xs == [] {
      assert xs + ys == ys;
    } else {
      assert (xs + ys)[1..] == xs[1..] + ys;
      FilterAppend(xs[1..], ys, p);
    }
  }

  /** Two conditions that agree on every element keep the same elements. */
  lemma {:induction false} FilterAgree<T(!new)>(xs: seq<T>, p: T -> bool, q: T -> bool)
    requires forall x :: x in xs ==> p(x) == q(x)
    ensures Filter(xs, p) == Filter(xs, q)
    decreases |xs|
  {
    if xs != [] {
      FilterAgree(xs[1..], p, q);
    }
  }

  /** Filtering by a conjunction is filtering twice. */
  lemma {:induction false} FilterBoth<T(!new)>(xs: seq<T>, p: T -> bool, q: T -> bool, pq: T -> bool)
    requires forall x :: x in xs ==> pq(x) == (p(x) && q(x))
    ensures Filter(xs, pq) == Filter(Filter(xs, p), q)
    decreases |xs|
  {
    if xs != [] {
      FilterBoth(xs[1..], p, q, pq);
      if p(xs[0]) {
        assert Filter(xs, p) == [xs[0]] + Filter(xs[1..], p);
        assert Filter(xs, p)[1..] == Filter(xs[1..], p);
      } else {
        assert Filter(xs, p) == Filter(xs[1..], p);
      }
    }
  }

  /** A filter every element passes keeps the whole sequence. */
  lemma {:induction false} FilterKeepsAll<T(!new)>(xs: seq<T>, p: T -> bool)
    requires forall x :: x in xs ==> p(x)
    ensures Filter(xs, p) == xs
    decreases |xs|
  {
    if xs != [] {
      FilterKeepsAll(xs[1..], p);
      assert xs == [xs[0]] + xs[1..];
    }
  }

  /** An element that fails the condition makes the result strictly shorter. */
  lemma {:induction false} FilterDrops<T(!new)>(xs: seq<T>, p: T -> bool, i: nat)
    requires i < |xs| && !p(xs[i])
    ensures |Filter(xs, p)| < |xs|
    decreases |xs|
  {
    if i > 0 {
      FilterDrops(xs[1..], p, i - 1);
    }
  }
}
