/** Left folds over a sequence, with the two facts every checksum register needs. */
module Folds {

  function Fold<S, A>(f: (S, A) -> S, s: S, xs: seq<A>): S
    decreases |xs|
  {
    if xs == [] then s else Fold(f, f(s, xs[0]), xs[1..])
  }

  lemma {:induction false} FoldConcat<S, A>(f: (S, A) -> S, s: S, xs: seq<A>, ys: seq<A>)
    ensures Fold(f, s, xs + ys) == Fold(f, Fold(f, s, xs), ys)
    decreases |xs|
  {
    if xs == [] {
      assert xs + ys == ys;
    } else {
      assert (xs + ys)[0] == xs[0] && (xs + ys)[1..] == xs[1..] + ys;
      FoldConcat(f, f(s, xs[0]), xs[1..], ys);
    }
  }

  ghost predicate Injective<S(!new), A(!new)>(f: (S, A) -> S) {
    forall s, t, a :: f(s, a) == f(t, a) ==> s == t
  }

  /** Equal inputs keep different states different. */
  lemma {:induction false} FoldInjective<S(!new), A(!new)>(f: (S, A) -> S, s: S, t: S, xs: seq<A>)
    requires Injective(f) && Fold(f, s, xs) == Fold(f, t, xs)
    ensures s == t
    decreases |xs|
  {
    if xs != [] {
      FoldInjective(f, f(s, xs[0]), f(t, xs[0]), xs[1..]);
    }
  }

  /** Inputs with the same ends that lead to the same state have met before the common end. */
  lemma FoldCommonEnds<S(!new), A(!new)>(f: (S, A) -> S, s: S, pre: seq<A>, xs: seq<A>, ys: seq<A>, post: seq<A>)
    requires Injective(f) && Fold(f, s, pre + (xs + post)) == Fold(f, s, pre + (ys + post))
    ensures Fold(f, Fold(f, s, pre), xs) == Fold(f, Fold(f, s, pre), ys)
  {
    var m := Fold(f, s, pre);
    FoldConcat(f, s, pre, xs + post);
    FoldConcat(f, s, pre, ys + post);
    FoldConcat(f, m, xs, post);
    FoldConcat(f, m, ys, post);
    FoldInjective(f, Fold(f, m, xs), Fold(f, m, ys), post);
  }
}
