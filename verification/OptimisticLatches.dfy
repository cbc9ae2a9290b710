// Validation latches rows in (table, key) order, so waits for latches never
// form a cycle.

module OptimisticLatches {
  import opened Options
  import opened SerialRuns
  import opened AccessOrder
  import opened OptimisticRuns
  import opened OptimisticSafety

  // No two rows have the same table and key.
  ghost predicate KeysDistinct(keys: map<RowId, RowKey>) {
    forall p, q :: p in keys && q in keys && p != q ==> keys[p] != keys[q]
  }

  ghost predicate Ascending(keys: map<RowId, RowKey>, accesses: seq<Access>) {
    forall i, j :: 0 <= i < j < |accesses| && accesses[i].row in keys && accesses[j].row in keys ==>
      Less(keys[accesses[i].row], keys[accesses[j].row])
  }

  ghost predicate LatchOrder(keys: map<RowId, RowKey>, s: State) {
    forall t :: t in s.txns && s.txns[t].phase.Validating? ==> Ascending(keys, s.txns[t].accesses)
  }

  lemma SortAscends(keys: map<RowId, RowKey>, order: seq<Access>, accesses: seq<Access>)
    requires KeysDistinct(keys) && IsSortOf(keys, order, accesses) && DistinctRows(accesses)
    ensures Ascending(keys, order)
  {
    SortKeepsRows(order, accesses);
    forall i, j | 0 <= i < j < |order| && order[i].row in keys && order[j].row in keys
      ensures Less(keys[order[i].row], keys[order[j].row])
    {
      LessIsOrder(keys[order[i].row], keys[order[j].row], keys[order[i].row]);
    }
  }

  lemma StepKeepsOrder(keys: map<RowId, RowKey>, init: Store, s: State, step: Step)
    requires KeysDistinct(keys) && Inv(init, s) && LatchOrder(keys, s) && Enabled(keys, s, step)
    ensures LatchOrder(keys, Do(s, step))
  {
    hide LatchOk, VersionOk, ReadsOk;
    if step.StartValidation? {
      SortAscends(keys, step.order, s.txns[step.t].accesses);
    }
  }

  lemma {:induction false} RunKeepsOrder(keys: map<RowId, RowKey>, init: Store, run: seq<State>, i: nat)
    requires KeysDistinct(keys) && IsRun(keys, init, run) && i < |run|
    ensures Inv(init, run[i]) && LatchOrder(keys, run[i])
  {
    RunKeeps(keys, init, run, i);
    if i > 0 {
      RunKeepsOrder(keys, init, run, i - 1);
      assert Next(keys, run[i - 1], run[i]);
      var step :| Enabled(keys, run[i - 1], step) && run[i] == Do(run[i - 1], step);
      StepKeepsOrder(keys, init, run[i - 1], step);
    }
  }

  // t is about to latch row.
  predicate Wants(s: State, t: TxnId, row: RowId) {
    && t in s.txns && s.txns[t].phase.Validating? && s.txns[t].phase.n < |s.txns[t].accesses|
    && s.txns[t].accesses[s.txns[t].phase.n].row == row
  }

  // t spins on a latch that u holds.
  ghost predicate WaitsFor(s: State, t: TxnId, u: TxnId) {
    exists row: RowId :: Wants(s, t, row) && row in s.rows && s.rows[row].latch == Some(u)
  }

  // Whoever holds a wanted latch and itself waits, waits for a larger key.
  lemma HolderWantsMore(keys: map<RowId, RowKey>, init: Store, s: State, t: TxnId, row: RowId, u: TxnId, next: RowId)
    requires Inv(init, s) && LatchOrder(keys, s) && keys.Keys == s.rows.Keys
    requires Wants(s, t, row) && row in s.rows && s.rows[row].latch == Some(u) && Wants(s, u, next)
    ensures next in keys && Less(keys[row], keys[next])
  {
    assert LatchOk(s.txns, row, s.rows[row]);
    var y := s.txns[u];
    assert Holds(y, row);
    var i :| 0 <= i < y.phase.n && i < |y.accesses| && y.accesses[i].row == row;
    assert y.accesses[y.phase.n] in y.accesses;
  }

  ghost predicate WaitPath(s: State, path: seq<TxnId>) {
    |path| >= 2 && forall i :: 0 <= i < |path| - 1 ==> WaitsFor(s, path[i], path[i + 1])
  }

  lemma {:induction false} PathKeysGrow(keys: map<RowId, RowKey>, init: Store, s: State, path: seq<TxnId>, k: nat)
    returns (first: RowId, last: RowId)
    requires Inv(init, s) && LatchOrder(keys, s) && keys.Keys == s.rows.Keys
    requires WaitPath(s, path) && k < |path| - 1
    ensures Wants(s, path[0], first) && first in keys
    ensures Wants(s, path[k], last) && last in s.rows && s.rows[last].latch == Some(path[k + 1])
    ensures first == last || Less(keys[first], keys[last])
  {
    assert WaitsFor(s, path[k], path[k + 1]);
    last :| Wants(s, path[k], last) && last in s.rows && s.rows[last].latch == Some(path[k + 1]);
    if k == 0 {
      first := last;
    } else {
      var before;
      first, before := PathKeysGrow(keys, init, s, path, k - 1);
      HolderWantsMore(keys, init, s, path[k - 1], before, path[k], last);
      LessIsOrder(keys[first], keys[before], keys[last]);
    }
  }

  // In every state of every run, the waits for latches are acyclic.
  lemma NoLatchCycle(keys: map<RowId, RowKey>, init: Store, run: seq<State>, i: nat, path: seq<TxnId>)
    requires KeysDistinct(keys) && IsRun(keys, init, run) && i < |run| && keys.Keys == run[i].rows.Keys
    requires WaitPath(run[i], path)
    ensures path[0] != path[|path| - 1]
  {
    RunKeepsOrder(keys, init, run, i);
    var k := |path| - 2;
    var first, last := PathKeysGrow(keys, init, run[i], path, k);
    if path[0] == path[|path| - 1] {
      HolderWantsMore(keys, init, run[i], path[k], last, path[0], first);
      LessIsOrder(keys[first], keys[last], keys[first]);
    }
  }

  ghost function Larger(keys: map<RowId, RowKey>, row: RowId): set<RowId>
    requires row in keys
  {
    set r | r in keys && Less(keys[row], keys[r])
  }

  // The step a transaction that holds a latch takes next.
  function NextStep(s: State, u: TxnId): Step
    requires u in s.txns
  {
    var x := s.txns[u];
    match x.phase
    case Validating(n) => if n == |x.accesses| then DrawEnd(u) else LatchNext(u)
    case Writing(_, left) => if left == 0 then Finish(u) else ReturnNext(u)
    case Releasing(n, done) => if done == n then Finish(u) else ReleaseNext(u)
    case _ => GiveUp(u)
  }

  // A holder that waits for nobody can go on.
  lemma HolderGoesOn(keys: map<RowId, RowKey>, init: Store, s: State, u: TxnId, row: RowId)
    requires Inv(init, s) && u in s.txns && Holds(s.txns[u], row) && !exists v: TxnId :: WaitsFor(s, u, v)
    ensures Enabled(keys, s, NextStep(s, u))
  {
    var x := s.txns[u];
    assert TxnOk(x, s.rows.Keys, s.clock);
    assert forall i :: 0 <= i < |x.accesses| ==> x.accesses[i] in x.accesses;
    if x.phase.Validating? && x.phase.n < |x.accesses| {
      var next := x.accesses[x.phase.n].row;
      assert Wants(s, u, next);
      if s.rows[next].latch.Some? {
        assert WaitsFor(s, u, s.rows[next].latch.value);
      }
    }
  }

  // From any waiting transaction the waits lead to one that holds a latch and
  // waits for nobody.
  lemma {:induction false} LastHolder(keys: map<RowId, RowKey>, init: Store, s: State, t: TxnId, row: RowId)
    returns (u: TxnId, held: RowId)
    requires Inv(init, s) && LatchOrder(keys, s) && keys.Keys == s.rows.Keys
    requires Wants(s, t, row) && row in s.rows && s.rows[row].latch.Some?
    ensures u in s.txns && held in s.rows && s.rows[held].latch == Some(u) && Holds(s.txns[u], held)
    ensures !exists v: TxnId :: WaitsFor(s, u, v)
    decreases Larger(keys, row)
  {
    assert LatchOk(s.txns, row, s.rows[row]);
    u, held := s.rows[row].latch.value, row;
    assert Holds(s.txns[u], row);
    if exists v: TxnId :: WaitsFor(s, u, v) {
      var v: TxnId :| WaitsFor(s, u, v);
      var next: RowId :| Wants(s, u, next) && next in s.rows && s.rows[next].latch == Some(v);
      HolderWantsMore(keys, init, s, t, row, u, next);
      forall r | r in Larger(keys, next)
        ensures r in Larger(keys, row)
      {
        LessIsOrder(keys[row], keys[next], keys[r]);
      }
      LessIsOrder(keys[next], keys[next], keys[next]);
      assert next in Larger(keys, row) && next !in Larger(keys, next);
      u, held := LastHolder(keys, init, s, u, next);
    }
  }

  // Validation as a whole always moves on: in every state of every run the waits
  // of a transaction that waits for a latch lead to one that holds a latch and
  // has an enabled step.
  lemma SomebodyValidates(keys: map<RowId, RowKey>, init: Store, run: seq<State>, i: nat, t: TxnId, v: TxnId) returns (u: TxnId)
    requires KeysDistinct(keys) && IsRun(keys, init, run) && i < |run| && keys.Keys == run[i].rows.Keys
    requires WaitsFor(run[i], t, v)
    ensures u in run[i].txns && exists row :: row in run[i].rows && run[i].rows[row].latch == Some(u)
    ensures Enabled(keys, run[i], NextStep(run[i], u)) && NextStep(run[i], u).t == u && !NextStep(run[i], u).GiveUp?
  {
    RunKeepsOrder(keys, init, run, i);
    hide Inv, LatchOrder, Enabled;
    var row: RowId :| Wants(run[i], t, row) && row in run[i].rows && run[i].rows[row].latch == Some(v);
    var held;
    u, held := LastHolder(keys, init, run[i], t, row);
    HolderGoesOn(keys, init, run[i], u, held);
  }
}
