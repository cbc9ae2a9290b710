// NO_WAIT, WAIT_DIE and DL_DETECT as one system: many transactions, many rows,
// one step at a time (txn.cpp, row.cpp on top of row_lock.cpp).

module TwoPhaseLocking {
  import opened Options
  import opened SerialRuns
  import opened RowLockSpec

  // SCAN locks and behaves like a read.
  datatype AccessType = RD | WR

  // image is the copy of the row taken when the lock was obtained.
  datatype Access = Access(row: RowId, kind: AccessType, image: Value)

  datatype Phase =
    | Idle
    | Active
    | Waiting(row: RowId, kind: AccessType)       // spinning in row_t::get_row
    | Withdrawing(row: RowId, kind: AccessType)   // saw lock_abort, about to release
    | Granted(row: RowId, kind: AccessType)       // has the lock, image not yet copied
    | Committing
    | Aborting

  datatype Txn = Txn(ts: nat, ready: bool, phase: Phase, accesses: seq<Access>, ops: seq<Op>)

  datatype State = State(store: Store, locks: map<RowId, Lock>, txns: map<TxnId, Txn>, log: seq<seq<Op>>)

  datatype Step =
    | Begin(t: TxnId, ts: nat)
    | Request(t: TxnId, row: RowId, kind: AccessType)
    | Awake(t: TxnId)
    | GiveUp(t: TxnId)
    | Withdraw(t: TxnId)
    | TakeImage(t: TxnId)
    | DoRead(t: TxnId, row: RowId)
    | DoWrite(t: TxnId, row: RowId, value: Value)
    | EnterCommit(t: TxnId)
    | EnterAbort(t: TxnId)
    | ReleaseLast(t: TxnId)
    | Finish(t: TxnId)

  function LockOf(kind: AccessType): LockType {
    if kind == RD then LockSh else LockEx
  }

  function AccessKind(accesses: seq<Access>, row: RowId): Option<AccessType> {
    if accesses == [] then None
    else if accesses[|accesses| - 1].row == row then Some(accesses[|accesses| - 1].kind)
    else AccessKind(accesses[..|accesses| - 1], row)
  }

  // What a transaction claims of a row lock.
  datatype Claim = NoClaim | Owns(lockType: LockType) | Waits(lockType: LockType)

  function ClaimOn(x: Txn, row: RowId): Claim {
    var k := AccessKind(x.accesses, row);
    if k.Some? then Owns(LockOf(k.value))
    else match x.phase
      case Granted(r, kind) => if r == row then Owns(LockOf(kind)) else NoClaim
      case Waiting(r, kind) => if r != row then NoClaim else if x.ready then Owns(LockOf(kind)) else Waits(LockOf(kind))
      case Withdrawing(r, kind) => if r != row then NoClaim else if x.ready then Owns(LockOf(kind)) else Waits(LockOf(kind))
      case _ => NoClaim
  }

  ghost predicate Enabled(alg: Algorithm, s: State, step: Step) {
    && step.t in s.txns
    && var x := s.txns[step.t];
       match step
       // Timestamps of live transactions are distinct.
       case Begin(t, ts) => x.phase.Idle? && forall u :: u in s.txns && u != t && !s.txns[u].phase.Idle? ==> s.txns[u].ts != ts
       // No row is accessed twice by one transaction.
       case Request(t, row, kind) => x.phase.Active? && row in s.locks && AccessKind(x.accesses, row).None?
       case Awake(t) => x.phase.Waiting? && x.ready
       case GiveUp(t) => x.phase.Waiting? && !x.ready && alg == DlDetect
       case Withdraw(t) => x.phase.Withdrawing?
       case TakeImage(t) => x.phase.Granted?
       case DoRead(t, row) => x.phase.Active? && AccessKind(x.accesses, row).Some?
       case DoWrite(t, row, value) => x.phase.Active? && AccessKind(x.accesses, row) == Some(WR)
       case EnterCommit(t) => x.phase.Active?
       case EnterAbort(t) => x.phase.Active?
       case ReleaseLast(t) => (x.phase.Committing? || x.phase.Aborting?) && x.accesses != []
       case Finish(t) => (x.phase.Committing? || x.phase.Aborting?) && x.accesses == []
  }

  // The transactions a release of t made owners learn about it.
  ghost predicate Promoted(before: Lock, after: Lock, u: TxnId) {
    exists e :: e in before.waiters && e in after.owners && e.txn == u
  }

  ghost function Notify(txns: map<TxnId, Txn>, before: Lock, after: Lock): map<TxnId, Txn> {
    map u | u in txns :: if Promoted(before, after, u) then txns[u].(ready := true) else txns[u]
  }

  // t after lock_get returned.
  function RequestedBy(alg: Algorithm, lk: Lock, t: TxnId, x: Txn, row: RowId, kind: AccessType): Txn {
    var rc := Get(alg, lk, Entry(t, x.ts, LockOf(kind))).1;
    var phase := if rc == RcOk then Granted(row, kind) else if rc == Wait then Waiting(row, kind) else Aborting;
    x.(phase := phase, ready := rc != Wait && x.ready)
  }

  function RequestRow(alg: Algorithm, s: State, t: TxnId, row: RowId, kind: AccessType): State
    requires row in s.locks && t in s.txns
  {
    var x := s.txns[t];
    s.(locks := s.locks[row := Get(alg, s.locks[row], Entry(t, x.ts, LockOf(kind))).0],
       txns := s.txns[t := RequestedBy(alg, s.locks[row], t, x, row, kind)])
  }

  ghost function ReleaseRow(s: State, t: TxnId, row: RowId, x: Txn): State
    requires row in s.locks && t in s.txns
  {
    var after := Release(s.locks[row], t);
    s.(locks := s.locks[row := after], txns := Notify(s.txns, s.locks[row], after)[t := x])
  }

  ghost predicate Sane(s: State) {
    && s.store.Keys == s.locks.Keys
    && (forall t, row :: t in s.txns && ClaimOn(s.txns[t], row) != NoClaim ==> row in s.locks)
  }

  ghost function Do(alg: Algorithm, s: State, step: Step): State
    requires Sane(s) && Enabled(alg, s, step)
  {
    var t := step.t;
    var x := s.txns[t];
    match step
    case Begin(_, ts) =>
      s.(txns := s.txns[t := Txn(ts, false, Active, [], [])])
    case Request(_, row, kind) =>
      RequestRow(alg, s, t, row, kind)
    case Awake(_) =>
      s.(txns := s.txns[t := x.(phase := Granted(x.phase.row, x.phase.kind))])
    case GiveUp(_) =>
      s.(txns := s.txns[t := x.(phase := Withdrawing(x.phase.row, x.phase.kind))])
    case Withdraw(_) =>
      assert ClaimOn(x, x.phase.row) != NoClaim;
      ReleaseRow(s, t, x.phase.row, x.(phase := Aborting))
    case TakeImage(_) =>
      assert ClaimOn(x, x.phase.row) != NoClaim;
      var a := Access(x.phase.row, x.phase.kind, s.store[x.phase.row]);
      s.(txns := s.txns[t := x.(phase := Active, accesses := x.accesses + [a])])
    case DoRead(_, row) =>
      assert ClaimOn(x, row) != NoClaim;
      s.(txns := s.txns[t := x.(ops := x.ops + [Read(row, s.store[row])])])
    case DoWrite(_, row, value) =>
      s.(store := s.store[row := value], txns := s.txns[t := x.(ops := x.ops + [Write(row, value)])])
    case EnterCommit(_) =>
      s.(txns := s.txns[t := x.(phase := Committing)], log := s.log + [x.ops])
    case EnterAbort(_) =>
      s.(txns := s.txns[t := x.(phase := Aborting)])
    case ReleaseLast(_) =>
      // cleanup walks the accesses backwards; an aborting write puts its image
      // back before the lock goes.
      var last := |x.accesses| - 1;
      var a := x.accesses[last];
      assert ClaimOn(x, a.row) != NoClaim;
      var store := if x.phase.Aborting? && a.kind == WR then s.store[a.row := a.image] else s.store;
      ReleaseRow(s.(store := store), t, a.row, x.(accesses := x.accesses[..last]))
    case Finish(_) =>
      s.(txns := s.txns[t := x.(phase := Idle, ops := [])])
  }

  ghost predicate Init(s: State, init: Store) {
    && s.store == init
    && s.locks.Keys == init.Keys
    && (forall row :: row in s.locks ==> s.locks[row] == FREE)
    && (forall t :: t in s.txns ==> s.txns[t].phase.Idle? && s.txns[t].accesses == [] && s.txns[t].ops == [])
    && s.log == []
  }

  ghost predicate Next(alg: Algorithm, s: State, s': State) {
    exists step :: Sane(s) && Enabled(alg, s, step) && s' == Do(alg, s, step)
  }

  ghost predicate IsRun(alg: Algorithm, init: Store, run: seq<State>) {
    && run != []
    && Init(run[0], init)
    && forall i :: 0 <= i < |run| - 1 ==> Next(alg, run[i], run[i + 1])
  }
}
