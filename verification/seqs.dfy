/** Order-preserving filtering of sequences (`Array.prototype.filter`). */
module Seqs {

  /** `a` is `b` with some elements left out and the rest kept in order. */
  predicate IsSubseq<T(==)>(a: seq<T>, b: seq<T>)
    decreases |b|
  {
    if a == [] then true
    else if b == [] then false
    else (a[0] == b[0] && IsSubseq(a[1..], b[1..])) || IsSubseq(a, b[1..])
  }

  /** The elements of `xs` that satisfy `p`, in their original order. */
  function Filter<T(==,!new)>(xs: seq<T>, p: T -> bool): (r: seq<T>)
    ensures IsSubseq(r, xs)
    ensures forall x :: multiset(r)[x] == if p(x) then multiset(xs)[x] else 0
    ensures |r| <= |xs|
  {
    if xs == [] then []
    else
      var rest := Filter(xs[1..], p);
      assert xs == [xs[0]] + xs[1..];
      if p(xs[0]) then [xs[0]] + rest else rest
  }

  /** Membership in a filtered sequence, as a plain statement. */
  lemma FilterMembers<T(!new)>(xs: seq<T>, p: T -> bool, x: T)
    ensures x in Filter(xs, p) <==> x in xs && p(x)
  {
    assert x in Filter(xs, p) <==> multiset(Filter(xs, p))[x] > 0;
    assert x in xs <==> multiset(xs)[x] > 0;
  }

  /** A predicate every element satisfies leaves the sequence unchanged. */
  lemma {:induction false} FilterKeepsAll<T(!new)>(xs: seq<T>, p: T -> bool)
    requires forall x :: x in xs ==> p(x)
    ensures Filter(xs, p) == xs
  {
    if xs != [] {
      FilterKeepsAll(xs[1..], p);
    }
  }

  /** Filtering a concatenation filters each part. */
  lemma {:induction false} FilterAppend<T(!new)>(xs: seq<T>, ys: seq<T>, p: T -> bool)
    ensures Filter(xs + ys, p) == Filter(xs, p) + Filter(ys, p)
  {
    if xs == [] {
      assert xs + ys == ys;
    } else {
      assert (xs + ys)[1..] == xs[1..] + ys;
      FilterAppend(xs[1..], ys, p);
    }
  }

  /** A predicate and its negation split a sequence: every element lands in
      exactly one of the two filters, so their lengths add up. */
  lemma {:induction false} FilterPartition<T(!new)>(xs: seq<T>, p: T -> bool, q: T -> bool)
    requires forall x :: q(x) == !p(x)
    ensures |Filter(xs, p)| + |Filter(xs, q)| == |xs|
    ensures forall x :: x in xs ==> (x in Filter(xs, p) <==> x !in Filter(xs, q))
  {
    if xs != [] {
      FilterPartition(xs[1..], p, q);
    }
    forall x | x in xs
      ensures x in Filter(xs, p) <==> x !in Filter(xs, q)
    {
      FilterMembers(xs, p, x);
      FilterMembers(xs, q, x);
    }
  }

  /** How many times `x` occurs in `xs`. */
  function Occurrences<T(==)>(xs: seq<T>, x: T): nat {
    if xs == [] then 0 else (if xs[0] == x then 1 else 0) + Occurrences(xs[1..], x)
  }
}
