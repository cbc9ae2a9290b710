// Finite sequences of steps of a system, whatever its states are.

module Chains {
  ghost predicate IsChain<S(!new)>(next: (S, S) -> bool, run: seq<S>) {
    forall i :: 0 <= i < |run| - 1 ==> next(run[i], run[i + 1])
  }

  // Some sequence of steps goes from s to s'.
  ghost predicate Leads<S(!new)>(next: (S, S) -> bool, s: S, s': S) {
    exists run :: run != [] && run[0] == s && run[|run| - 1] == s' && IsChain(next, run)
  }

  lemma LeadsSelf<S(!new)>(next: (S, S) -> bool, s: S)
    ensures Leads(next, s, s)
  {
    assert IsChain(next, [s]) && [s][0] == s && [s][|[s]| - 1] == s;
  }

  lemma LeadsStep<S(!new)>(next: (S, S) -> bool, s: S, s': S)
    requires next(s, s')
    ensures Leads(next, s, s')
  {
    var run := [s, s'];
    assert IsChain(next, run) && run[0] == s && run[|run| - 1] == s';
  }

  lemma LeadsTrans<S(!new)>(next: (S, S) -> bool, s: S, s': S, s'': S)
    requires Leads(next, s, s') && Leads(next, s', s'')
    ensures Leads(next, s, s'')
  {
    var run :| run != [] && run[0] == s && run[|run| - 1] == s' && IsChain(next, run);
    var more :| more != [] && more[0] == s' && more[|more| - 1] == s'' && IsChain(next, more);
    var all := run + more[1..];
    forall i | 0 <= i < |all| - 1
      ensures next(all[i], all[i + 1])
    {
      if i < |run| - 1 {
        assert next(run[i], run[i + 1]);
      } else {
        assert next(more[i - |run| + 1], more[i - |run| + 1 + 1]);
      }
    }
    assert all[|all| - 1] == s'';
  }
}
