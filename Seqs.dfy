/**
 * Generic list operations shared by every `filter`/`map` the dashboard and the
 * worker apply to arrays of records, with the facts about them proved once.
 */
module Seqs {

  /** `xs.filter(p)`: the elements of `xs` satisfying `p`, in their original order. */
  function Filter<T>(p: T -> bool, xs: seq<T>): (r: seq<T>)
    ensures |r| <= |xs|
  {
    if |xs| == 0 then []
    else (if p(xs[0]) then [xs[0]] else []) + Filter(p, xs[1..])
  }

  /** An element is kept exactly when it is in the list and satisfies the predicate. */
  lemma {:induction false} FilterMembers<T>(p: T -> bool, xs: seq<T>)
    ensures forall x :: x in Filter(p, xs) <==> x in xs && p(x)
  {
    if |xs| > 0 {
      FilterMembers(p, xs[1..]);
      assert xs == [xs[0]] + xs[1..];
    }
  }

  /** `xs.map(f)`. */
  function Map<T, U>(f: T -> U, xs: seq<T>): (r: seq<U>)
    ensures |r| == |xs|
    ensures forall i :: 0 <= i < |xs| ==> r[i] == f(xs[i])
  {
    if |xs| == 0 then [] else [f(xs[0])] + Map(f, xs[1..])
  }

  /** No value occurs twice. */
  predicate Distinct<T(==)>(xs: seq<T>) {
    forall i, j :: 0 <= i < j < |xs| ==> xs[i] != xs[j]
  }

  /** `a` is `b` with some elements dropped and the rest kept in order. */
  ghost predicate SubsequenceOf<T>(a: seq<T>, b: seq<T>)
    decreases |b|
  {
    |a| == 0 || (|b| > 0 && ((a[0] == b[0] && SubsequenceOf(a[1..], b[1..])) || SubsequenceOf(a, b[1..])))
  }

  lemma {:induction false} FilterIsSubsequence<T>(p: T -> bool, xs: seq<T>)
    ensures SubsequenceOf(Filter(p, xs), xs)
  {
    if |xs| > 0 {
      FilterIsSubsequence(p, xs[1..]);
      var r := Filter(p, xs);
      if p(xs[0]) {
        assert r[0] == xs[0] && r[1..] == Filter(p, xs[1..]);
      } else {
        assert r == Filter(p, xs[1..]);
      }
    }
  }

  /** Filtering with two predicates that agree on every element gives the same list. */
  lemma {:induction false} FilterAgree<T>(p: T -> bool, q: T -> bool, xs: seq<T>)
    requires forall x :: x in xs ==> p(x) == q(x)
    ensures Filter(p, xs) == Filter(q, xs)
  {
    if |xs| > 0 {
      assert forall x :: x in xs[1..] ==> x in xs;
      FilterAgree(p, q, xs[1..]);
    }
  }

  /** Filtering twice is filtering once by the conjunction. */
  lemma {:induction false} FilterFilter<T>(p: T -> bool, q: T -> bool, pq: T -> bool, xs: seq<T>)
    requires forall x :: x in xs ==> pq(x) == (p(x) && q(x))
    ensures Filter(p, Filter(q, xs)) == Filter(pq, xs)
  {
    if |xs| > 0 {
      assert forall x :: x in xs[1..] ==> x in xs;
      FilterFilter(p, q, pq, xs[1..]);
      var t := Filter(q, xs[1..]);
      if q(xs[0]) {
        assert Filter(q, xs) == [xs[0]] + t;
        assert ([xs[0]] + t)[1..] == t;
      } else {
        assert Filter(q, xs) == t;
      }
    }
  }

  /** Filtering distributes over concatenation. */
  lemma {:induction false} FilterAppend<T>(p: T -> bool, xs: seq<T>, ys: seq<T>)
    ensures Filter(p, xs + ys) == Filter(p, xs) + Filter(p, ys)
  {
    if |xs| == 0 {
      assert xs + ys == ys;
    } else {
      var x, rest := xs[0], xs[1..];
      assert (xs + ys)[0] == x;
      assert (xs + ys)[1..] == rest + ys;
      FilterAppend(p, rest, ys);
      if p(x) {
        assert Filter(p, xs + ys) == [x] + (Filter(p, rest) + Filter(p, ys));
        assert Filter(p, xs) == [x] + Filter(p, rest);
      } else {
        assert Filter(p, xs + ys) == Filter(p, rest) + Filter(p, ys);
        assert Filter(p, xs) == Filter(p, rest);
      }
    }
  }

  /**
   * Splitting a list by a predicate and by its complement loses nothing and
   * duplicates nothing: the two parts together are a permutation of the whole.
   */
  lemma {:induction false} FilterPartition<T>(p: T -> bool, q: T -> bool, xs: seq<T>)
    requires forall i :: 0 <= i < |xs| ==> q(xs[i]) == !p(xs[i])
    ensures |Filter(p, xs)| + |Filter(q, xs)| == |xs|
    ensures multiset(Filter(p, xs)) + multiset(Filter(q, xs)) == multiset(xs)
  {
    if |xs| > 0 {
      var x, rest := xs[0], xs[1..];
      assert forall i :: 0 <= i < |rest| ==> rest[i] == xs[i + 1];
      FilterPartition(p, q, rest);
      assert xs == [x] + rest;
      assert multiset(xs) == multiset{x} + multiset(rest);
      if p(x) {
        assert Filter(p, xs) == [x] + Filter(p, rest);
        assert multiset(Filter(p, xs)) == multiset{x} + multiset(Filter(p, rest));
        assert Filter(q, xs) == Filter(q, rest);
      } else {
        assert Filter(p, xs) == Filter(p, rest);
        assert Filter(q, xs) == [x] + Filter(q, rest);
        assert multiset(Filter(q, xs)) == multiset{x} + multiset(Filter(q, rest));
      }
    }
  }

  /** A filter of a list with distinct elements has distinct elements. */
  lemma {:induction false} FilterDistinct<T>(p: T -> bool, xs: seq<T>)
    requires Distinct(xs)
    ensures Distinct(Filter(p, xs))
  {
    if |xs| > 0 {
      FilterDistinct(p, xs[1..]);
      FilterMembers(p, xs[1..]);
      assert xs[0] !in xs[1..];
    }
  }

  /** A filter that keeps every element is the identity. */
  lemma {:induction false} FilterAll<T>(p: T -> bool, xs: seq<T>)
    requires forall i :: 0 <= i < |xs| ==> p(xs[i])
    ensures Filter(p, xs) == xs
  {
    if |xs| > 0 { FilterAll(p, xs[1..]); }
  }

  /** A filter that keeps no element is empty. */
  lemma {:induction false} FilterNone<T>(p: T -> bool, xs: seq<T>)
    requires forall i :: 0 <= i < |xs| ==> !p(xs[i])
    ensures Filter(p, xs) == []
  {
    if |xs| > 0 { FilterNone(p, xs[1..]); }
  }
}
