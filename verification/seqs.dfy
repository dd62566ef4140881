/** Order-preserving filtering of sequences, the shape of Python's
    `[x for x in xs if p(x)]`, with the facts that pin it down: which
    elements survive, how often, and in which order. */
module Seqs {

  /** The elements of `xs` satisfying `p`, in their original order. */
  function Filter<T>(p: T -> bool, xs: seq<T>): (r: seq<T>)
    ensures |r| <= |xs|
    ensures forall x :: x in r ==> x in xs && p(x)
    decreases |xs|
  {
    if |xs| == 0 then []
    else if p(xs[0]) then [xs[0]] + Filter(p, xs[1..])
    else Filter(p, xs[1..])
  }

  /** Applies `f` to every element, keeping positions. */
  function Map<A, B>(f: A -> B, xs: seq<A>): (r: seq<B>)
    ensures |r| == |xs|
    ensures forall i :: 0 <= i < |xs| ==> r[i] == f(xs[i])
  {
    seq(|xs|, i requires 0 <= i < |xs| => f(xs[i]))
  }

  /** Positions `i..|xs|-1` of `xs` whose element satisfies `p`, ascending. */
  function IndicesFrom<T>(p: T -> bool, xs: seq<T>, i: nat): seq<int>
    decreases |xs| - i
  {
    if i >= |xs| then []
    else if p(xs[i]) then [i] + IndicesFrom(p, xs, i + 1)
    else IndicesFrom(p, xs, i + 1)
  }

  /** `idx` is a strictly increasing list of positions of `xs` such that
      `r[k] == xs[idx[k]]`, and it names exactly the positions in `lo..|xs|-1`
      whose element satisfies `p`. This is what "r is the order-preserving
      selection of the p-elements of xs" means, stated without recursion. */
  ghost predicate SelectsFrom<T>(p: T -> bool, xs: seq<T>, lo: nat, r: seq<T>, idx: seq<int>)
  {
    && |idx| == |r|
    && (forall k :: 0 <= k < |idx| ==> lo <= idx[k] < |xs| && r[k] == xs[idx[k]] && p(xs[idx[k]]))
    && (forall k, l :: 0 <= k < l < |idx| ==> idx[k] < idx[l])
    && (forall j :: lo <= j < |xs| && p(xs[j]) ==> j in idx)
  }

  lemma {:induction false} FilterSelectsFrom<T>(p: T -> bool, xs: seq<T>, i: nat)
    requires i <= |xs|
    ensures SelectsFrom(p, xs, i, Filter(p, xs[i..]), IndicesFrom(p, xs, i))
    decreases |xs| - i
  {
    if i < |xs| {
      FilterSelectsFrom(p, xs, i + 1);
      assert xs[i..] == [xs[i]] + xs[i + 1..];
      if p(xs[i]) {
        KeepStep(p, xs, i, Filter(p, xs[i + 1..]), IndicesFrom(p, xs, i + 1));
      } else {
        assert Filter(p, xs[i..]) == Filter(p, xs[i + 1..]);
      }
    }
  }

  /** Prepending a kept element at position `i` extends a selection from
      `i + 1` to one from `i`. */
  lemma KeepStep<T>(p: T -> bool, xs: seq<T>, i: nat, r: seq<T>, idx: seq<int>)
    requires i < |xs| && p(xs[i])
    requires SelectsFrom(p, xs, i + 1, r, idx)
    ensures SelectsFrom(p, xs, i, [xs[i]] + r, [i] + idx)
  {
    var r', idx' := [xs[i]] + r, [i] + idx;
    forall k | 0 <= k < |idx'|
      ensures i <= idx'[k] < |xs| && r'[k] == xs[idx'[k]] && p(xs[idx'[k]])
    {
      if k > 0 {
        assert idx'[k] == idx[k - 1] && r'[k] == r[k - 1];
      }
    }
    forall k, l | 0 <= k < l < |idx'|
      ensures idx'[k] < idx'[l]
    {
      assert idx'[l] == idx[l - 1];
      if k > 0 {
        assert idx'[k] == idx[k - 1];
      }
    }
    forall j | i <= j < |xs| && p(xs[j])
      ensures j in idx'
    {
      if j > i {
        assert j in idx;
      }
    }
  }

  /** Order preservation: `Filter(p, xs)` is the subsequence of `xs` at the
      strictly increasing positions whose elements satisfy `p`, and every such
      position is used. */
  lemma FilterPreservesOrder<T>(p: T -> bool, xs: seq<T>)
    ensures SelectsFrom(p, xs, 0, Filter(p, xs), IndicesFrom(p, xs, 0))
  {
    FilterSelectsFrom(p, xs, 0);
    assert xs[0..] == xs;
  }

  /** An element is kept exactly when it occurs in the input and passes `p`. */
  lemma {:induction false} FilterMembership<T>(p: T -> bool, xs: seq<T>, x: T)
    ensures x in Filter(p, xs) <==> x in xs && p(x)
    decreases |xs|
  {
    if |xs| > 0 {
      FilterMembership(p, xs[1..], x);
      assert xs == [xs[0]] + xs[1..];
    }
  }

  /** Nothing is added or duplicated: a kept value occurs exactly as often as
      in the input, a dropped one not at all. */
  lemma {:induction false} FilterCount<T>(p: T -> bool, xs: seq<T>, x: T)
    ensures multiset(Filter(p, xs))[x] == if p(x) then multiset(xs)[x] else 0
    decreases |xs|
  {
    if |xs| > 0 {
      FilterCount(p, xs[1..], x);
      assert xs == [xs[0]] + xs[1..];
    }
  }

  /** Mapping over a sequence with a new first element. */
  lemma MapCons<A, B>(f: A -> B, x: A, xs: seq<A>)
    ensures Map(f, [x] + xs) == [f(x)] + Map(f, xs)
  {
  }
}
