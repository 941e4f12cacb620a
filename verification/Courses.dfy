/** The states a deterministic procedure goes through, one step after the other. */
module Courses {

  function Last<S>(states: seq<S>): S
    requires states != []
  {
    states[|states| - 1]
  }

  predicate StepTo<S>(step: (S, S) -> bool, states: seq<S>, k: nat)
    requires 0 < k < |states|
  {
    step(states[k - 1], states[k])
  }

  ghost predicate Course<S>(step: (S, S) -> bool, states: seq<S>) {
    states != [] && forall k | 0 < k < |states| :: StepTo(step, states, k)
  }

  ghost predicate Deterministic<S(!new)>(step: (S, S) -> bool) {
    forall a, b, c :: step(a, b) && step(a, c) ==> b == c
  }

  lemma Continue<S>(step: (S, S) -> bool, states: seq<S>, next: S)
    requires Course(step, states) && step(Last(states), next)
    ensures Course(step, states + [next])
  {
    var longer := states + [next];
    forall k | 0 < k < |longer| ensures StepTo(step, longer, k) {
      if k < |states| {
        assert StepTo(step, states, k);
      }
    }
  }

  /** What holds of the start and passes along every step holds at the end. */
  lemma {:induction false} Kept<S(!new)>(step: (S, S) -> bool, holds: (S, nat) -> bool, states: seq<S>, n: nat)
    requires Course(step, states) && n < |states| && holds(states[0], 0)
    requires forall a, b, i: nat :: step(a, b) && holds(a, i) ==> holds(b, i + 1)
    ensures holds(states[n], n)
  {
    if n > 0 {
      Kept(step, holds, states, n - 1);
      assert StepTo(step, states, n);
    }
  }

  lemma {:induction false} SameStates<S(!new)>(step: (S, S) -> bool, a: seq<S>, b: seq<S>, n: nat)
    requires Deterministic(step) && Course(step, a) && Course(step, b) && a[0] == b[0] && n < |a| <= |b|
    ensures a[n] == b[n]
  {
    if n > 0 {
      SameStates(step, a, b, n - 1);
      assert StepTo(step, a, n) && StepTo(step, b, n);
    }
  }

  /** Of two courses from one state the shorter one starts the longer one. */
  lemma ShorterStartsLonger<S(!new)>(step: (S, S) -> bool, a: seq<S>, b: seq<S>)
    requires Deterministic(step) && Course(step, a) && Course(step, b) && a[0] == b[0] && |a| <= |b|
    ensures a <= b
  {
    forall n | 0 <= n < |a| ensures a[n] == b[n] {
      SameStates(step, a, b, n);
    }
  }
}
