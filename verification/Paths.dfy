/** Paths of steps from one state to another. */
module Paths {

  ghost predicate IsPath<S(!new), E(!new)>(states: seq<S>, events: seq<E>, s: S, s': S, step: (S, S, E) -> bool) {
    && |states| == |events| + 1 && states[0] == s && states[|events|] == s'
    && forall i | 0 <= i < |events| :: step(states[i], states[i + 1], events[i])
  }

  /** Some steps lead from `s` to `s'`. */
  ghost predicate Leads<S(!new), E(!new)>(s: S, s': S, step: (S, S, E) -> bool) {
    exists states, events: seq<E> :: IsPath(states, events, s, s', step)
  }

  lemma Begins<S(!new), E(!new)>(s: S, step: (S, S, E) -> bool)
    ensures Leads(s, s, step)
  {
    assert IsPath([s], [], s, s, step);
  }

  lemma GoesOn<S(!new), E(!new)>(s: S, s': S, e: E, s'': S, step: (S, S, E) -> bool)
    requires Leads(s, s', step) && step(s', s'', e)
    ensures Leads(s, s'', step)
  {
    var states, events :| IsPath(states, events, s, s', step);
    assert IsPath(states + [s''], events + [e], s, s'', step);
  }
}
