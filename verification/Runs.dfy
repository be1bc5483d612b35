/** A run of a protocol: its steps folded over a sequence of events. */
module Runs {

  function Fold<S, E>(step: (S, E) -> S, s: S, es: seq<E>): S {
    if es == [] then s else step(Fold(step, s, es[..|es| - 1]), es[|es| - 1])
  }

  lemma {:induction false} FoldConcat<S, E>(step: (S, E) -> S, s: S, xs: seq<E>, ys: seq<E>)
    ensures Fold(step, s, xs + ys) == Fold(step, Fold(step, s, xs), ys)
  {
    if ys == [] {
      assert xs + ys == xs;
    } else {
      var n := |ys| - 1;
      assert (xs + ys)[..|xs| + n] == xs + ys[..n];
      FoldConcat(step, s, xs, ys[..n]);
    }
  }

  /** A run around one event of it. */
  lemma FoldAround<S, E>(step: (S, E) -> S, s: S, before: seq<E>, e: E, after: seq<E>)
    ensures Fold(step, s, before + [e] + after) == Fold(step, step(Fold(step, s, before), e), after)
  {
    FoldConcat(step, s, before + [e], after);
    assert (before + [e])[..|before|] == before;
  }
}
