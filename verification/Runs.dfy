// Runs of a transition system: sequences of states in which each state follows
// from the one before it by an enabled action.
module Runs {

  ghost predicate StepAt<S(!new), A(!new)>(run: seq<S>, enabled: (S, A) -> bool, apply: (S, A) -> S, i: nat)
    requires i + 1 < |run|
  {
    exists a :: enabled(run[i], a) && run[i + 1] == apply(run[i], a)
  }

  ghost predicate IsRun<S(!new), A(!new)>(run: seq<S>, init: S, enabled: (S, A) -> bool, apply: (S, A) -> S) {
    run != [] && run[0] == init && forall i: nat :: i + 1 < |run| ==> StepAt(run, enabled, apply, i)
  }

  lemma LastAction<S(!new), A(!new)>(
    run: seq<S>, init: S, enabled: (S, A) -> bool, apply: (S, A) -> S, n: nat) returns (a: A)
    requires IsRun(run, init, enabled, apply) && 0 < n < |run|
    ensures enabled(run[n - 1], a) && run[n] == apply(run[n - 1], a)
  {
    assert StepAt(run, enabled, apply, n - 1);
    a :| enabled(run[n - 1], a) && run[n] == apply(run[n - 1], a);
  }

  // What no action undoes holds from the first state that has it on.
  lemma {:induction false} Stable<S(!new), A(!new)>(
    run: seq<S>, init: S, enabled: (S, A) -> bool, apply: (S, A) -> S, p: S -> bool, i: nat, j: nat)
    requires IsRun(run, init, enabled, apply) && i <= j < |run| && p(run[i])
    requires forall s, a :: p(s) && enabled(s, a) ==> p(apply(s, a))
    ensures p(run[j])
    decreases j
  {
    if i < j {
      Stable(run, init, enabled, apply, p, i, j - 1);
      var a := LastAction(run, init, enabled, apply, j);
    }
  }

  lemma Extended<S(!new), A(!new)>(run: seq<S>, init: S, enabled: (S, A) -> bool, apply: (S, A) -> S, a: A)
    requires IsRun(run, init, enabled, apply) && enabled(run[|run| - 1], a)
    ensures IsRun(run + [apply(run[|run| - 1], a)], init, enabled, apply)
  {
    var longer := run + [apply(run[|run| - 1], a)];
    forall i: nat | i + 1 < |longer| ensures StepAt(longer, enabled, apply, i) {
      if i + 1 < |run| {
        assert StepAt(run, enabled, apply, i);
        var b :| enabled(run[i], b) && run[i + 1] == apply(run[i], b);
        assert enabled(longer[i], b) && longer[i + 1] == apply(longer[i], b);
      } else {
        assert enabled(longer[i], a) && longer[i + 1] == apply(longer[i], a);
      }
    }
  }
}
