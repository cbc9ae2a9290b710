// WAIT_DIE cannot deadlock: waits always lead from an older to a younger
// transaction, on every row and in every reachable state.

module WaitDieProgress {
  import opened Options
  import opened SerialRuns
  import opened RowLockSpec
  import opened TwoPhaseLocking
  import opened TwoPhaseLocks
  import opened TwoPhaseSafety

  // The waiter lists and owner lists are ordered by age, and live transactions
  // have different timestamps.
  ghost predicate AgeInv(s: State) {
    && (forall row :: row in s.locks ==> AgeOrdered(s.locks[row]))
    && DistinctTs(s.txns)
  }

  ghost predicate DistinctTs(txns: map<TxnId, Txn>) {
    forall t, u :: t in txns && u in txns && t != u && !txns[t].phase.Idle? && !txns[u].phase.Idle? ==>
      txns[t].ts != txns[u].ts
  }

  lemma ListedIsLive(s: State, row: RowId, e: Entry)
    requires LockInv(s) && row in s.locks && Listed(s.locks[row], e)
    ensures e.txn in s.txns && s.txns[e.txn].ts == e.ts && !s.txns[e.txn].phase.Idle?
    ensures e in s.locks[row].owners ==> ClaimOn(s.txns[e.txn], row) == Owns(e.lockType)
    ensures e in s.locks[row].waiters ==> ClaimOn(s.txns[e.txn], row) == Waits(e.lockType)
  {
    assert EntryMatches(ClaimBy(s.txns, row, e), s.locks[row], e);
    assert TxnOk(s.txns[e.txn]);
  }

  lemma RequestKeepsAge(s: State, t: TxnId, row: RowId, kind: AccessType)
    requires LockInv(s) && AgeInv(s) && t in s.txns && row in s.locks
    requires s.txns[t].phase.Active? && AccessKind(s.txns[t].accesses, row).None?
    ensures AgeOrdered(Get(WaitDie, s.locks[row], Entry(t, s.txns[t].ts, LockOf(kind))).0)
  {
    var lk, e := s.locks[row], Entry(t, s.txns[t].ts, LockOf(kind));
    forall x | Listed(lk, x)
      ensures x.txn != t && x.ts != e.ts
    {
      ListedIsLive(s, row, x);
      assert ClaimOn(s.txns[t], row) == NoClaim;
    }
    GetKeepsAge(lk, e);
  }

  // Steps other than Begin create no timestamps and revive no transaction.
  ghost predicate SameAges(txns: map<TxnId, Txn>, txns': map<TxnId, Txn>) {
    && txns.Keys == txns'.Keys
    && forall t :: t in txns ==> txns'[t].ts == txns[t].ts && (txns[t].phase.Idle? ==> txns'[t].phase.Idle?)
  }

  lemma SameAgesDistinct(txns: map<TxnId, Txn>, txns': map<TxnId, Txn>)
    requires DistinctTs(txns) && SameAges(txns, txns')
    ensures DistinctTs(txns')
  {
  }

  lemma OneTxnAges(txns: map<TxnId, Txn>, t: TxnId, x: Txn)
    requires t in txns && DistinctTs(txns)
    requires forall u :: u in txns && u != t && !txns[u].phase.Idle? ==> txns[u].ts != x.ts
    ensures DistinctTs(txns[t := x])
  {
  }

  lemma OneLockAges(s: State, row: RowId, lk: Lock, s': State)
    requires AgeInv(s) && row in s.locks && AgeOrdered(lk) && s'.locks == s.locks[row := lk]
    requires DistinctTs(s'.txns)
    ensures AgeInv(s')
  {
  }

  lemma NotifyAges(txns: map<TxnId, Txn>, t: TxnId, x: Txn, before: Lock, after: Lock)
    requires t in txns && x.ts == txns[t].ts && !txns[t].phase.Idle?
    ensures SameAges(txns, Notify(txns, before, after)[t := x])
  {
  }

  lemma ReleaseRowKeepsAge(s: State, t: TxnId, row: RowId, x: Txn)
    requires LockInv(s) && AgeInv(s) && t in s.txns && row in s.locks
    requires x.ts == s.txns[t].ts && !s.txns[t].phase.Idle?
    ensures AgeInv(ReleaseRow(s, t, row, x))
  {
    ReleaseKeeps(s.locks[row], t);
    var s' := ReleaseRow(s, t, row, x);
    NotifyAges(s.txns, t, x, s.locks[row], Release(s.locks[row], t));
    SameAgesDistinct(s.txns, s'.txns);
    OneLockAges(s, row, Release(s.locks[row], t), s');
  }

  lemma RequestRowKeepsAge(s: State, t: TxnId, row: RowId, kind: AccessType)
    requires LockInv(s) && AgeInv(s) && t in s.txns && row in s.locks
    requires s.txns[t].phase.Active? && AccessKind(s.txns[t].accesses, row).None?
    ensures AgeInv(RequestRow(WaitDie, s, t, row, kind))
  {
    RequestKeepsAge(s, t, row, kind);
    var s' := RequestRow(WaitDie, s, t, row, kind);
    OneTxnAges(s.txns, t, s'.txns[t]);
    OneLockAges(s, row, s'.locks[row], s');
  }

  lemma StepKeepsAge(s: State, step: Step)
    requires LockInv(s) && AgeInv(s) && Sane(s) && Enabled(WaitDie, s, step)
    ensures AgeInv(Do(WaitDie, s, step))
  {
    var s' := Do(WaitDie, s, step);
    var t := step.t;
    var x := s.txns[t];
    match step {
      case Begin(_, _) => OneTxnAges(s.txns, t, s'.txns[t]);
      case Request(_, row, kind) => RequestRowKeepsAge(s, t, row, kind);
      case GiveUp(_) =>
      case Withdraw(_) => ReleaseRowKeepsAge(s, t, x.phase.row, x.(phase := Aborting));
      case ReleaseLast(_) =>
        var mid := s.(store := Restored(s.store, x));
        SameLocks(s, mid);
        ReleaseRowKeepsAge(mid, t, x.accesses[|x.accesses| - 1].row, x.(accesses := x.accesses[..|x.accesses| - 1]));
      case _ => OneTxnAges(s.txns, t, s'.txns[t]);
    }
  }

  lemma {:induction false} RunKeepsAge(init: Store, run: seq<State>, i: nat)
    requires IsRun(WaitDie, init, run) && i < |run|
    ensures Inv(init, run[i]) && AgeInv(run[i])
  {
    hide LockInv, DataInv, Sane, Enabled, Do;
    RunKeeps(WaitDie, init, run, i);
    if i > 0 {
      RunKeepsAge(init, run, i - 1);
      assert Next(WaitDie, run[i - 1], run[i]);
      var step :| Sane(run[i - 1]) && Enabled(WaitDie, run[i - 1], step) && run[i] == Do(WaitDie, run[i - 1], step);
      StepKeepsAge(run[i - 1], step);
    }
  }

  // t is spinning: it is queued on a row and its flag is not set.
  ghost predicate Blocked(s: State, t: TxnId) {
    t in s.txns && s.txns[t].phase.Waiting? && !s.txns[t].ready
  }

  // u holds, or is queued ahead of t for, the row t is queued on.
  ghost predicate WaitsFor(s: State, t: TxnId, u: TxnId) {
    exists row: RowId, i: nat, e: Entry :: WaitsOn(s, t, row, i) && IsAhead(s.locks[row], i, e) && e.txn == u
  }

  ghost predicate WaitsOn(s: State, t: TxnId, row: RowId, i: nat) {
    row in s.locks && i < |s.locks[row].waiters| && s.locks[row].waiters[i].txn == t
  }

  ghost predicate IsAhead(lk: Lock, i: nat, e: Entry) {
    e in lk.owners || exists j :: 0 <= j < i && j < |lk.waiters| && lk.waiters[j] == e
  }

  lemma WaitsForYounger(s: State, t: TxnId, u: TxnId)
    requires LockInv(s) && AgeInv(s) && WaitsFor(s, t, u)
    ensures t in s.txns && u in s.txns && s.txns[t].ts < s.txns[u].ts
  {
    var row: RowId, i: nat, e: Entry :| WaitsOn(s, t, row, i) && IsAhead(s.locks[row], i, e) && e.txn == u;
    var w := s.locks[row].waiters[i];
    assert w in s.locks[row].waiters;
    ListedIsLive(s, row, w);
    ListedIsLive(s, row, e);
  }

  ghost predicate WaitPath(s: State, path: seq<TxnId>) {
    |path| >= 2 && forall i :: 0 <= i < |path| - 1 ==> WaitsFor(s, path[i], path[i + 1])
  }

  lemma {:induction false} PathGetsYounger(s: State, path: seq<TxnId>, k: nat)
    requires LockInv(s) && AgeInv(s) && WaitPath(s, path) && 0 < k < |path|
    ensures path[0] in s.txns && path[k] in s.txns && s.txns[path[0]].ts < s.txns[path[k]].ts
  {
    assert WaitsFor(s, path[k - 1], path[k - 1 + 1]);
    WaitsForYounger(s, path[k - 1], path[k]);
    if k > 1 {
      PathGetsYounger(s, path, k - 1);
    }
  }

  // In every state of every WAIT_DIE run the waits-for graph over all rows is
  // acyclic.
  lemma NoWaitCycle(init: Store, run: seq<State>, i: nat, path: seq<TxnId>)
    requires IsRun(WaitDie, init, run) && i < |run| && WaitPath(run[i], path)
    ensures path[0] != path[|path| - 1]
  {
    RunKeepsAge(init, run, i);
    PathGetsYounger(run[i], path, |path| - 1);
  }

  // A blocked transaction is queued on its row, and somebody owns that row:
  // no wakeup was lost. This holds for all three schemes.
  lemma BlockedHasOwner(s: State, t: TxnId) returns (row: RowId, i: nat, o: Entry)
    requires LockInv(s) && Blocked(s, t)
    ensures row == s.txns[t].phase.row && WaitsOn(s, t, row, i)
    ensures o in s.locks[row].owners && IsAhead(s.locks[row], i, o)
  {
    row := s.txns[t].phase.row;
    var x := s.txns[t];
    assert TxnOk(x);
    var e := Entry(t, x.ts, LockOf(x.phase.kind));
    assert ClaimOn(x, row) == Waits(e.lockType);
    assert EntryMatches(ClaimBy(s.txns, row, e), s.locks[row], e);
    i :| 0 <= i < |s.locks[row].waiters| && s.locks[row].waiters[i] == e;
    WellFormedFacts(s.locks[row]);
    o := s.locks[row].owners[0];
  }

  ghost function Younger(s: State, ts: nat): set<TxnId> {
    set u | u in s.txns && s.txns[u].ts > ts
  }

  // Following the waits from a blocked transaction reaches one that holds a
  // row and is not blocked, so the system as a whole can move.
  lemma {:induction false} FollowWaits(s: State, t: TxnId) returns (u: TxnId)
    requires LockInv(s) && AgeInv(s) && Blocked(s, t)
    ensures u in s.txns && !s.txns[u].phase.Idle? && !Blocked(s, u)
    ensures s.txns[t].ts < s.txns[u].ts
    decreases Younger(s, s.txns[t].ts)
  {
    var row, i, o := BlockedHasOwner(s, t);
    assert WaitsFor(s, t, o.txn);
    WaitsForYounger(s, t, o.txn);
    ListedIsLive(s, row, o);
    u := o.txn;
    if Blocked(s, u) {
      assert u in Younger(s, s.txns[t].ts) && u !in Younger(s, s.txns[u].ts);
      u := FollowWaits(s, u);
    }
  }

  lemma UnblockedMoves(s: State, u: TxnId)
    requires u in s.txns && !s.txns[u].phase.Idle? && !Blocked(s, u)
    ensures exists step: Step :: step.t == u && !step.Begin? && Enabled(WaitDie, s, step)
  {
    var x := s.txns[u];
    var step := match x.phase
      case Idle => Finish(u)
      case Active => EnterCommit(u)
      case Waiting(_, _) => Awake(u)
      case Withdrawing(_, _) => Withdraw(u)
      case Granted(_, _) => TakeImage(u)
      case Committing => if x.accesses == [] then Finish(u) else ReleaseLast(u)
      case Aborting => if x.accesses == [] then Finish(u) else ReleaseLast(u);
    assert Enabled(WaitDie, s, step);
  }

  // Hence no WAIT_DIE run ever comes to a state where everybody waits: behind
  // every blocked transaction there is one that can take its next step.
  lemma NoDeadlock(init: Store, run: seq<State>, i: nat, t: TxnId)
    requires IsRun(WaitDie, init, run) && i < |run| && Blocked(run[i], t)
    ensures exists u, step: Step :: u in run[i].txns && run[i].txns[t].ts < run[i].txns[u].ts
                                    && step.t == u && !step.Begin? && Enabled(WaitDie, run[i], step)
  {
    RunKeepsAge(init, run, i);
    var u := FollowWaits(run[i], t);
    UnblockedMoves(run[i], u);
  }
}
