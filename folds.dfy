/** A loop over a sequence that threads a state through one step per
    element, written as a left fold, with the facts every such loop needs. */
module Folds {

  /** The state after applying `f` to each element of `xs` in order, from `s`. */
  function Fold<S, T>(f: (S, T) -> S, s: S, xs: seq<T>): S {
    if |xs| == 0 then s else f(Fold(f, s, xs[..|xs| - 1]), xs[|xs| - 1])
  }

  /** Running over a concatenation is running over each part in turn. */
  lemma {:induction false} FoldAppend<S, T>(f: (S, T) -> S, s: S, a: seq<T>, b: seq<T>)
    ensures Fold(f, s, a + b) == Fold(f, Fold(f, s, a), b)
    decreases |b|
  {
    if |b| == 0 {
      assert a + b == a;
    } else {
      assert (a + b)[..|a + b| - 1] == a + b[..|b| - 1];
      FoldAppend(f, s, a, b[..|b| - 1]);
    }
  }

  lemma FoldOne<S, T>(f: (S, T) -> S, s: S, x: T)
    ensures Fold(f, s, [x]) == f(s, x)
  {
    assert [x][..0] == [];
  }

  /** One more element is one more step. */
  lemma FoldSnoc<S, T>(f: (S, T) -> S, s: S, xs: seq<T>, x: T)
    ensures Fold(f, s, xs + [x]) == f(Fold(f, s, xs), x)
  {
    assert (xs + [x])[..|xs|] == xs;
  }

  /** The loop invariant's step: one more element of a prefix is one more step. */
  lemma FoldPrefix<S, T>(f: (S, T) -> S, s: S, xs: seq<T>, i: nat)
    requires i < |xs|
    ensures Fold(f, s, xs[..i + 1]) == f(Fold(f, s, xs[..i]), xs[i])
  {
    assert xs[..i + 1][..i] == xs[..i];
  }

  /** The loop invariant at the end of the loop. */
  lemma FoldWhole<S, T>(f: (S, T) -> S, s: S, xs: seq<T>)
    ensures Fold(f, s, xs[..|xs|]) == Fold(f, s, xs)
  {
    assert xs[..|xs|] == xs;
  }

  /** A fold whose step also reads a fixed context `c` (what the loop body
      reads but does not change). */
  function FoldWith<C, S, T>(f: (C, S, T) -> S, c: C, s: S, xs: seq<T>): S {
    if |xs| == 0 then s else f(c, FoldWith(f, c, s, xs[..|xs| - 1]), xs[|xs| - 1])
  }

  lemma FoldWithPrefix<C, S, T>(f: (C, S, T) -> S, c: C, s: S, xs: seq<T>, i: nat)
    requires i < |xs|
    ensures FoldWith(f, c, s, xs[..i + 1]) == f(c, FoldWith(f, c, s, xs[..i]), xs[i])
  {
    assert xs[..i + 1][..i] == xs[..i];
  }

  lemma FoldWithWhole<C, S, T>(f: (C, S, T) -> S, c: C, s: S, xs: seq<T>)
    ensures FoldWith(f, c, s, xs[..|xs|]) == FoldWith(f, c, s, xs)
  {
    assert xs[..|xs|] == xs;
  }

  lemma {:induction false} FoldWithAppend<C, S, T>(f: (C, S, T) -> S, c: C, s: S, a: seq<T>, b: seq<T>)
    ensures FoldWith(f, c, s, a + b) == FoldWith(f, c, FoldWith(f, c, s, a), b)
    decreases |b|
  {
    if |b| == 0 {
      assert a + b == a;
    } else {
      assert (a + b)[..|a + b| - 1] == a + b[..|b| - 1];
      FoldWithAppend(f, c, s, a, b[..|b| - 1]);
    }
  }
}
