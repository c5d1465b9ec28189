/** Runs of a state machine given by its step relation. */
module Transitions {

  ghost predicate Execution<S(!new), A(!new)>(next: (S, A, S) -> bool, states: seq<S>, actions: seq<A>) {
    && |states| == |actions| + 1
    && forall k :: 0 <= k < |actions| ==> next(states[k], actions[k], states[k + 1])
  }

  ghost predicate Run<S(!new), A(!new)>(next: (S, A, S) -> bool, from: S, to: S, states: seq<S>, actions: seq<A>) {
    Execution(next, states, actions) && states[0] == from && states[|actions|] == to
  }

  ghost predicate Reaches<S(!new), A(!new)>(next: (S, A, S) -> bool, from: S, to: S) {
    exists states, actions :: Run(next, from, to, states, actions)
  }

  lemma ReachesItself<S(!new), A(!new)>(next: (S, A, S) -> bool, s: S)
    ensures Reaches(next, s, s)
  {
    assert Run(next, s, s, [s], []);
  }

  lemma ReachesNext<S(!new), A(!new)>(next: (S, A, S) -> bool, from: S, s: S, a: A, s': S)
    requires Reaches(next, from, s) && next(s, a, s')
    ensures Reaches(next, from, s')
  {
    var states, actions :| Run(next, from, s, states, actions);
    var states', actions' := states + [s'], actions + [a];
    forall k | 0 <= k < |actions'| ensures next(states'[k], actions'[k], states'[k + 1]) {
      if k < |actions| {
        assert next(states[k], actions[k], states[k + 1]);
      }
    }
    assert Run(next, from, s', states', actions');
  }

  lemma NextReaches<S(!new), A(!new)>(next: (S, A, S) -> bool, s: S, a: A, s': S, to: S)
    requires next(s, a, s') && Reaches(next, s', to)
    ensures Reaches(next, s, to)
  {
    var states, actions :| Run(next, s', to, states, actions);
    var states', actions' := [s] + states, [a] + actions;
    forall k | 0 <= k < |actions'| ensures next(states'[k], actions'[k], states'[k + 1]) {
      if k > 0 {
        assert next(states[k - 1], actions[k - 1], states[k]);
      }
    }
    assert Run(next, s, to, states', actions');
  }

  /** What holds at first and is kept by every step that the run takes holds at every moment of it. */
  lemma {:induction false} HoldsAlways<S(!new), A(!new)>(next: (S, A, S) -> bool, inv: S -> bool, states: seq<S>,
                                                         actions: seq<A>, k: nat)
    requires Execution(next, states, actions) && k <= |actions| && inv(states[0])
    requires forall j :: 0 <= j < k && inv(states[j]) && next(states[j], actions[j], states[j + 1]) ==>
             inv(states[j + 1])
    ensures inv(states[k])
  {
    if k > 0 {
      HoldsAlways(next, inv, states, actions, k - 1);
    }
  }

  /** What holds in a state and is kept by every step holds in every state it reaches. */
  lemma HoldsWhereverReached<S(!new), A(!new)>(next: (S, A, S) -> bool, inv: S -> bool, from: S, to: S)
    requires Reaches(next, from, to) && inv(from)
    requires forall s, a, s' :: inv(s) && next(s, a, s') ==> inv(s')
    ensures inv(to)
  {
    var states, actions :| Run(next, from, to, states, actions);
    HoldsAlways(next, inv, states, actions, |actions|);
  }
}
