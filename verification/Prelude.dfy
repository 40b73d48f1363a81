/** The vocabulary every model shares. */
module Prelude {
  datatype Option<+T> = None | Some(value: T)

  datatype Result<+T, +E> = Ok(value: T) | Err(error: E)

  /** One octet of message data. */
  type Byte = n: int | 0 <= n < 256

  function Min(a: int, b: int): int {
    if a <= b then a else b
  }

  lemma Positive(d: int, x: int)
    requires d > 0 && d * x > 0
    ensures x > 0
  {
  }

  // ---- runs of a transition system ----

  /** The state a list of actions leads to. */
  function Fold<S, A>(step: (S, A) -> S, s: S, run: seq<A>): S
    decreases |run|
  {
    if run == [] then s else Fold(step, step(s, run[0]), run[1..])
  }

  lemma {:induction false} FoldSplit<S, A>(step: (S, A) -> S, s: S, before: seq<A>, after: seq<A>)
    ensures Fold(step, s, before + after) == Fold(step, Fold(step, s, before), after)
    decreases |before|
  {
    if before == [] {
      assert before + after == after;
    } else {
      assert (before + after)[1..] == before[1..] + after;
      FoldSplit(step, step(s, before[0]), before[1..], after);
    }
  }

  /** A list of states that follow from one another ends where the run does. */
  lemma {:induction false} FoldTrace<S, A>(step: (S, A) -> S, run: seq<A>, states: seq<S>)
    requires |states| == |run| + 1
    requires forall i :: 0 <= i < |run| ==> step(states[i], run[i]) == states[i + 1]
    ensures Fold(step, states[0], run) == states[|run|]
    decreases |run|
  {
    if run != [] {
      FoldTrace(step, run[1..], states[1..]);
    }
  }
}
