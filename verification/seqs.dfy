/** Sequence helpers: the `WHERE` of a query (`Filter`) and counting. */
module Seqs {

  /** The elements of `s` that satisfy `p`, in their original order. */
  function Filter<T(!new)>(s: seq<T>, p: T -> bool): (r: seq<T>)
    ensures |r| <= |s|
    ensures forall x :: x in r <==> x in s && p(x)
    ensures forall i :: 0 <= i < |r| ==> p(r[i])
    ensures (forall i :: 0 <= i < |s| ==> !p(s[i])) ==> r == []
  {
    if |s| == 0 then []
    else
      var rest := Filter(s[..|s| - 1], p);
      assert forall x :: x in s <==> x in s[..|s| - 1] || x == s[|s| - 1];
      if p(s[|s| - 1]) then rest + [s[|s| - 1]] else rest
  }

  /** The elements of a pointwise image are the images of the elements. */
  lemma MapMembers<A, B>(xs: seq<A>, ys: seq<B>, f: A --> B)
    requires forall x :: x in xs ==> f.requires(x)
    requires |ys| == |xs| && forall i :: 0 <= i < |xs| ==> ys[i] == f(xs[i])
    ensures forall y :: y in ys <==> exists x :: x in xs && y == f(x)
  {
    forall y | y in ys
      ensures exists x :: x in xs && y == f(x)
    {
      var i :| 0 <= i < |ys| && ys[i] == y;
      assert xs[i] in xs;
    }
    forall x | x in xs
      ensures f(x) in ys
    {
      var i :| 0 <= i < |xs| && xs[i] == x;
      assert ys[i] == f(x);
    }
  }

  /** Filtering keeps every element that satisfies `p` exactly as often as it occurs. */
  lemma {:induction false} FilterMultiset<T(!new)>(s: seq<T>, p: T -> bool)
    ensures forall x :: p(x) ==> multiset(Filter(s, p))[x] == multiset(s)[x]
    ensures forall x :: !p(x) ==> multiset(Filter(s, p))[x] == 0
  {
    if |s| > 0 {
      FilterMultiset(s[..|s| - 1], p);
      assert s == s[..|s| - 1] + [s[|s| - 1]];
    }
  }

  /** How many times `x` occurs in `s`. */
  function Count<T(==)>(s: seq<T>, x: T): (n: nat)
    ensures n == multiset(s)[x]
  {
    if |s| == 0 then 0
    else
      assert s == s[..|s| - 1] + [s[|s| - 1]];
      Count(s[..|s| - 1], x) + (if s[|s| - 1] == x then 1 else 0)
  }
}
