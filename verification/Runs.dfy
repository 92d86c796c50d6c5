// Runs of a machine: its states after a row of actions.
module Runs {

  function After<S, A>(step: (S, A) -> S, s: S, actions: seq<A>): S
    decreases actions
  {
    if actions == [] then s else After(step, step(s, actions[0]), actions[1..])
  }

  lemma {:induction false} AfterOneMore<S, A>(step: (S, A) -> S, s: S, actions: seq<A>, a: A)
    ensures After(step, s, actions + [a]) == step(After(step, s, actions), a)
    decreases actions
  {
    if actions == [] {
      assert [a][1..] == [];
    } else {
      assert (actions + [a])[1..] == actions[1..] + [a];
      AfterOneMore(step, step(s, actions[0]), actions[1..], a);
    }
  }
}
