/** Left folds: the shape of every streaming computation in the project. */
module Folds {

  function Fold<S, T>(step: (S, T) -> S, start: S, xs: seq<T>): S {
    if xs == [] then start else step(Fold(step, start, xs[..|xs| - 1]), xs[|xs| - 1])
  }

  /** A fold may stop anywhere and go on from what it had. */
  lemma {:induction false} FoldConcat<S, T>(step: (S, T) -> S, start: S, xs: seq<T>, ys: seq<T>)
    ensures Fold(step, start, xs + ys) == Fold(step, Fold(step, start, xs), ys)
    decreases |ys|
  {
    if ys == [] {
      assert xs + ys == xs;
    } else {
      var front := ys[..|ys| - 1];
      assert (xs + ys)[..|xs + ys| - 1] == xs + front;
      FoldConcat(step, start, xs, front);
    }
  }

  /** The fold over the first n elements. */
  function FoldTo<S, T>(step: (S, T) -> S, start: S, xs: seq<T>, n: nat): S
    requires n <= |xs|
  {
    if n == 0 then start else step(FoldTo(step, start, xs, n - 1), xs[n - 1])
  }

  lemma {:induction false} FoldToIsFold<S, T>(step: (S, T) -> S, start: S, xs: seq<T>, n: nat)
    requires n <= |xs|
    ensures FoldTo(step, start, xs, n) == Fold(step, start, xs[..n])
    ensures n == |xs| ==> FoldTo(step, start, xs, n) == Fold(step, start, xs)
  {
    if n > 0 {
      FoldToIsFold(step, start, xs, n - 1);
      assert xs[..n][..n - 1] == xs[..n - 1];
    }
    assert n == |xs| ==> xs[..n] == xs;
  }

  /** Going on from element p over the next n. */
  lemma FoldToAdd<S, T>(step: (S, T) -> S, start: S, xs: seq<T>, p: nat, n: nat)
    requires p + n <= |xs|
    ensures FoldTo(step, start, xs, p + n) == Fold(step, FoldTo(step, start, xs, p), xs[p..p + n])
  {
    FoldToIsFold(step, start, xs, p);
    FoldToIsFold(step, start, xs, p + n);
    assert xs[..p + n] == xs[..p] + xs[p..p + n];
    FoldConcat(step, start, xs[..p], xs[p..p + n]);
  }

  /** Two folds over one sequence keep a relation that each step keeps. */
  predicate RelatedStep<A, B, X>(f: (A, X) -> A, g: (B, X) -> B, rel: (A, B, nat) -> bool, a: A, b: B, n: nat, x: X) {
    rel(a, b, n) ==> rel(f(a, x), g(b, x), n + 1)
  }

  lemma {:induction false} FoldRelated<A(!new), B(!new), X(!new)>(
    f: (A, X) -> A, g: (B, X) -> B, rel: (A, B, nat) -> bool, a: A, b: B, xs: seq<X>)
    requires rel(a, b, 0) && forall a, b, n, x :: RelatedStep(f, g, rel, a, b, n, x)
    ensures rel(Fold(f, a, xs), Fold(g, b, xs), |xs|)
  {
    if xs != [] {
      var n := |xs| - 1;
      FoldRelated(f, g, rel, a, b, xs[..n]);
      assert RelatedStep(f, g, rel, Fold(f, a, xs[..n]), Fold(g, b, xs[..n]), n, xs[n]);
    }
  }
}
