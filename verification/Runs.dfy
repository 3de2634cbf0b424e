/** Runs of a state machine: states linked by labelled steps. */
module Runs {

  ghost predicate Linked<S(!new), C(!new)>(states: seq<S>, steps: seq<C>, next: (S, C, S) -> bool, i: nat) {
    i < |steps| && i + 1 < |states| && next(states[i], steps[i], states[i + 1])
  }

  /** Each state follows from the one before by the step between them. */
  ghost predicate IsRun<S(!new), C(!new)>(states: seq<S>, steps: seq<C>, next: (S, C, S) -> bool) {
    && |states| == |steps| + 1
    && forall i :: 0 <= i < |steps| ==> Linked(states, steps, next, i)
  }

  /** `inv` is kept by every step whose label is allowed. */
  ghost predicate Keeps<S(!new), C(!new)>(inv: S -> bool, allowed: C -> bool, next: (S, C, S) -> bool) {
    forall s, c, s' :: inv(s) && allowed(c) && next(s, c, s') ==> inv(s')
  }

  /** What holds at one state of a run and is kept by the steps that follow holds at a later state. */
  lemma {:induction false} HoldsAt<S(!new), C(!new)>(states: seq<S>, steps: seq<C>, next: (S, C, S) -> bool,
                                                     inv: S -> bool, allowed: C -> bool, i: nat, j: nat)
    requires IsRun(states, steps, next) && Keeps(inv, allowed, next)
    requires i <= j <= |steps| && inv(states[i])
    requires forall k :: i <= k < j ==> allowed(steps[k])
    ensures inv(states[j])
    decreases j
  {
    if i < j {
      HoldsAt(states, steps, next, inv, allowed, i, j - 1);
      assert Linked(states, steps, next, j - 1);
    }
  }

  /** A run goes on by one step. */
  lemma Extend<S(!new), C(!new)>(states: seq<S>, steps: seq<C>, next: (S, C, S) -> bool, c: C, s: S)
    requires IsRun(states, steps, next) && next(states[|steps|], c, s)
    ensures IsRun(states + [s], steps + [c], next)
  {
    forall i | 0 <= i < |steps| + 1
      ensures Linked(states + [s], steps + [c], next, i)
    {
      if i < |steps| {
        assert Linked(states, steps, next, i);
      }
    }
  }
}
