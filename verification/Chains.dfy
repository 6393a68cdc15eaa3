/** Sequences of states linked by steps, for any relation between a state, a step and the
    next state. */
module Chains {

  /** The states before, between and after the steps. */
  ghost predicate Chain<S, T>(next: (S, T, S) -> bool, states: seq<S>, steps: seq<T>) {
    |states| == |steps| + 1 && forall i | 0 <= i < |steps| :: next(states[i], steps[i], states[i + 1])
  }

  /** Two chains that meet make one. */
  lemma ChainConcat<S, T>(next: (S, T, S) -> bool, states: seq<S>, steps: seq<T>, more: seq<S>, moreSteps: seq<T>)
    requires Chain(next, states, steps) && Chain(next, more, moreSteps) && states[|steps|] == more[0]
    ensures Chain(next, states + more[1..], steps + moreSteps)
    ensures (states + more[1..])[0] == states[0]
    ensures (states + more[1..])[|steps + moreSteps|] == more[|moreSteps|]
  {
    var states', steps' := states + more[1..], steps + moreSteps;
    forall i | 0 <= i < |steps'|
      ensures next(states'[i], steps'[i], states'[i + 1])
    {
      if i < |steps| {
        assert next(states[i], steps[i], states[i + 1]);
      } else {
        var k := i - |steps|;
        assert next(more[k], moreSteps[k], more[k + 1]);
        assert states'[i + 1] == more[k + 1] && states'[i] == more[k];
      }
    }
  }

  lemma ChainOneMore<S, T>(next: (S, T, S) -> bool, states: seq<S>, steps: seq<T>, step: T, s: S)
    requires Chain(next, states, steps) && next(states[|steps|], step, s)
    ensures Chain(next, states + [s], steps + [step])
  {
    var more := [states[|steps|], s];
    ChainConcat(next, states, steps, more, [step]);
    assert more[1..] == [s];
  }

  /** What every step keeps holds in every state, if it holds in the first. */
  lemma {:induction false} ChainKeeps<S(!new), T(!new)>(next: (S, T, S) -> bool, keeps: S -> bool,
                                                       states: seq<S>, steps: seq<T>, i: nat)
    requires Chain(next, states, steps) && i < |states| && keeps(states[0])
    requires forall s, step, s' | keeps(s) && next(s, step, s') :: keeps(s')
    ensures keeps(states[i])
  {
    if i > 0 {
      ChainKeeps(next, keeps, states, steps, i - 1);
      assert next(states[i - 1], steps[i - 1], states[i]);
    }
  }

  /** A stronger relation gives a chain of the weaker one. */
  lemma ChainWeaken<S(!new), T(!new)>(strong: (S, T, S) -> bool, weak: (S, T, S) -> bool, states: seq<S>, steps: seq<T>)
    requires Chain(strong, states, steps)
    requires forall s, step, s' | strong(s, step, s') :: weak(s, step, s')
    ensures Chain(weak, states, steps)
  {
  }
}
