/** The store's `orderBy`: a functional insertion sort over a total preorder,
    and the first-n prefix that `take` returns. */
module Sorting {

  /** `le` is total and transitive, so it can order any list. */
  ghost predicate TotalPreorder<T(!new)>(le: (T, T) -> bool) {
    && (forall a, b :: le(a, b) || le(b, a))
    && (forall a, b, c :: le(a, b) && le(b, c) ==> le(a, c))
  }

  predicate Sorted<T>(xs: seq<T>, le: (T, T) -> bool) {
    forall i, j :: 0 <= i < j < |xs| ==> le(xs[i], xs[j])
  }

  /** Places `x` before the first element it may precede. */
  function Insert<T(!new)>(x: T, ys: seq<T>, le: (T, T) -> bool): (r: seq<T>)
    requires TotalPreorder(le)
    requires Sorted(ys, le)
    ensures Sorted(r, le)
    ensures multiset(r) == multiset(ys) + multiset{x}
  {
    if ys == [] then [x]
    else if le(x, ys[0]) then
      ConsSorted(x, ys, le);
      [x] + ys
    else
      var rest := Insert(x, ys[1..], le);
      assert ys == [ys[0]] + ys[1..];
      HeadBelow(x, ys, rest, le);
      ConsSorted(ys[0], rest, le);
      [ys[0]] + rest
  }

  /** Prefixing an element that precedes everything keeps a list sorted. */
  lemma ConsSorted<T(!new)>(y: T, ys: seq<T>, le: (T, T) -> bool)
    requires TotalPreorder(le)
    requires Sorted(ys, le)
    requires ys != [] ==> le(y, ys[0])
    ensures Sorted([y] + ys, le)
  {
    var r := [y] + ys;
    forall i, j | 0 <= i < j < |r|
      ensures le(r[i], r[j])
    {
      if i == 0 && j > 1 {
        assert le(y, ys[0]) && le(ys[0], ys[j - 1]);
      }
    }
  }

  /** When `x` goes after the head, the head precedes everything of the rest. */
  lemma HeadBelow<T(!new)>(x: T, ys: seq<T>, rest: seq<T>, le: (T, T) -> bool)
    requires TotalPreorder(le)
    requires Sorted(ys, le) && ys != [] && !le(x, ys[0])
    requires multiset(rest) == multiset(ys[1..]) + multiset{x}
    ensures rest != [] ==> le(ys[0], rest[0])
  {
    if rest != [] {
      assert rest[0] in multiset(rest);
      if rest[0] != x {
        assert rest[0] in ys[1..];
        var k :| 0 <= k < |ys[1..]| && ys[1..][k] == rest[0];
        assert ys[k + 1] == rest[0];
      }
    }
  }

  /** The elements of `xs`, rearranged so that `le` holds between every
      element and each one after it. */
  function Sort<T(!new)>(xs: seq<T>, le: (T, T) -> bool): (r: seq<T>)
    requires TotalPreorder(le)
    ensures Sorted(r, le)
    ensures multiset(r) == multiset(xs)
    ensures |r| == |xs|
  {
    if xs == [] then []
    else
      assert xs == [xs[0]] + xs[1..];
      Insert(xs[0], Sort(xs[1..], le), le)
  }

  /** The first `n` elements (`take: n`), or all of them when there are fewer. */
  function Take<T>(xs: seq<T>, n: nat): (r: seq<T>)
    ensures |r| == if |xs| < n then |xs| else n
    ensures r == xs[..|r|]
  {
    if |xs| <= n then xs else xs[..n]
  }

  /** In a sorted list, everything `take` keeps is ordered before any
      element it drops. */
  lemma TakeDominates<T>(xs: seq<T>, le: (T, T) -> bool, n: nat, x: T)
    requires Sorted(xs, le) && x in xs && x !in Take(xs, n)
    ensures forall i :: 0 <= i < |Take(xs, n)| ==> le(Take(xs, n)[i], x)
  {
    var j :| 0 <= j < |xs| && xs[j] == x;
    assert forall i :: 0 <= i < |Take(xs, n)| ==> xs[i] == Take(xs, n)[i];
  }

  /** `findMany({ take: n, orderBy })`: the first `n` rows in `le` order.
      They are rows of `xs`, in order, and each comes before every row left
      out. */
  function Top<T(!new)>(xs: seq<T>, le: (T, T) -> bool, n: nat): (r: seq<T>)
    requires TotalPreorder(le)
    ensures |r| == if |xs| < n then |xs| else n
    ensures Sorted(r, le)
    ensures multiset(r) <= multiset(xs)
    ensures forall i :: 0 <= i < |r| ==> r[i] in xs
    ensures forall x :: x in xs && x !in r ==> forall i :: 0 <= i < |r| ==> le(r[i], x)
  {
    var sorted := Sort(xs, le);
    var r := Take(sorted, n);
    assert sorted == r + sorted[|r|..];
    forall i | 0 <= i < |r|
      ensures r[i] in xs
    {
      assert r[i] == sorted[i];
      assert r[i] in multiset(sorted);
    }
    forall x | x in xs && x !in r
      ensures forall i :: 0 <= i < |r| ==> le(r[i], x)
    {
      assert x in multiset(sorted);
      TakeDominates(sorted, le, n, x);
    }
    r
  }
}
