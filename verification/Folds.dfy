/** Running a sequence of operations. */
module Folds {

  function Fold<S, O>(step: (S, O) -> S, s: S, ops: seq<O>): S
    decreases |ops|
  {
    if ops == [] then s else step(Fold(step, s, ops[..|ops| - 1]), ops[|ops| - 1])
  }

  lemma {:induction false} FoldAppend<S, O>(step: (S, O) -> S, s: S, a: seq<O>, b: seq<O>)
    ensures Fold(step, s, a + b) == Fold(step, Fold(step, s, a), b)
    decreases |b|
  {
    if b == [] {
      assert a + b == a;
    } else {
      FoldAppend(step, s, a, b[..|b| - 1]);
      assert (a + b)[..|a + b| - 1] == a + b[..|b| - 1];
    }
  }
}
