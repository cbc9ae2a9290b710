// MVCC and TIMESTAMP as one system: many transactions, many rows, one request
// to one row at a time (txn.cpp, row.cpp on top of row_mvcc.cpp and row_ts.cpp).

module TimestampRuns {
  import opened Options
  import opened SerialRuns
  import opened RequestQueues
  import opened TimestampRows

  // SCAN behaves like a read.
  datatype AccessType = RD | WR

  // seen is what the read returned, written at timestamp version; data is the
  // private copy.
  datatype Access = Access(row: RowId, kind: AccessType, version: nat, seen: Value, data: Value)

  datatype Phase =
    | Running
    | Announced(row: RowId)                            // prewrite accepted, not read yet
    | Waiting(row: RowId, kind: AccessType)            // spinning on ts_ready
    | Committing(left: nat)                            // the first left accesses are still to be returned
    | Aborting(left: nat, refused: Option<RowId>)      // refused by that row, or by its own choice

  // An attempt is named by its timestamp, which is never used again.
  type TxnTs = nat

  datatype Txn = Txn(phase: Phase, accesses: seq<Access>)

  // log lists the committed transactions by timestamp; floor is at most every
  // active and future timestamp.
  datatype State = State(rows: map<RowId, Row>, txns: map<TxnTs, Txn>, log: seq<TxnTs>, floor: nat)

  datatype Step =
    | Begin(t: TxnTs)
    | Announce(t: TxnTs, row: RowId)
    | Ask(t: TxnTs, row: RowId, kind: AccessType)
    | Awake(t: TxnTs, version: nat, value: Value)
    | Modify(t: TxnTs, i: nat, data: Value)
    | EnterCommit(t: TxnTs)
    | EnterAbort(t: TxnTs)
    | ReturnLast(t: TxnTs)
    | Recycle(row: RowId, bound: nat)
    | Raise(floor: nat)

  // The position of row in the accesses.
  function PlaceOf(accesses: seq<Access>, row: RowId): (i: nat)
    ensures i <= |accesses| && forall j :: 0 <= j < i ==> accesses[j].row != row
    ensures i < |accesses| ==> accesses[i].row == row
  {
    if accesses == [] || accesses[0].row == row then 0 else 1 + PlaceOf(accesses[1..], row)
  }

  predicate Opened(accesses: seq<Access>, row: RowId) {
    PlaceOf(accesses, row) < |accesses|
  }

  function ReqOf(t: TxnTs): Req {
    Req(t, t)
  }

  // Accesses whose row has not been returned.
  function Left(x: Txn): nat {
    match x.phase
    case Committing(left) => left
    case Aborting(left, _) => left
    case _ => |x.accesses|
  }

  predicate Finished(x: Txn) {
    (x.phase.Committing? || x.phase.Aborting?) && x.phase.left == 0
  }

  ghost predicate Enabled(s: State, step: Step) {
    match step
    // Timestamps are fresh, and the rows can hold them.
    case Begin(t) => t !in s.txns && 0 < t && s.floor <= t && forall row :: row in s.rows ==> t < Limit(s.rows[row])
    // No row is accessed twice; a write announces itself before it reads.
    case Announce(t, row) => t in s.txns && row in s.rows && s.txns[t].phase.Running? && !Opened(s.txns[t].accesses, row)
    case Ask(t, row, kind) =>
      && t in s.txns && row in s.rows
      && if kind == RD then s.txns[t].phase.Running? && !Opened(s.txns[t].accesses, row)
         // The read after an accepted prewrite finds the request queue not full.
         else s.txns[t].phase == Announced(row) && ReadRow(s.rows[row], ReqOf(t)).1 != Abort
    case Awake(t, version, value) =>
      && t in s.txns && s.txns[t].phase.Waiting? && s.txns[t].phase.row in s.rows
      && ServedAt(s.rows[s.txns[t].phase.row], t, version, value)
    case Modify(t, i, data) =>
      t in s.txns && s.txns[t].phase.Running? && i < |s.txns[t].accesses| && s.txns[t].accesses[i].kind == WR
    case EnterCommit(t) => t in s.txns && s.txns[t].phase.Running?
    case EnterAbort(t) => t in s.txns && s.txns[t].phase.Running?
    case ReturnLast(t) =>
      && t in s.txns && (s.txns[t].phase.Committing? || s.txns[t].phase.Aborting?)
      && 0 < s.txns[t].phase.left <= |s.txns[t].accesses| && s.txns[t].accesses[s.txns[t].phase.left - 1].row in s.rows
    case Recycle(row, bound) => row in s.rows && bound <= s.floor
    case Raise(floor) => s.floor <= floor && forall t :: t in s.txns && !Finished(s.txns[t]) ==> floor <= t
  }

  // Where t goes in the log.
  function Place(log: seq<TxnTs>, t: TxnTs): (i: nat)
    ensures i <= |log| && forall j :: 0 <= j < i ==> log[j] < t
    ensures i < |log| ==> t <= log[i]
  {
    if log == [] || t <= log[0] then 0 else 1 + Place(log[1..], t)
  }

  function Insert(log: seq<TxnTs>, t: TxnTs): seq<TxnTs> {
    log[..Place(log, t)] + [t] + log[Place(log, t)..]
  }

  function Opening(x: Txn, a: Access): Txn {
    x.(phase := Running, accesses := x.accesses + [a])
  }

  // t after its prewrite was answered.
  function Announcing(x: Txn, row: RowId, ok: bool): Txn {
    x.(phase := if ok then Announced(row) else Aborting(|x.accesses|, Some(row)))
  }

  // t after its read was answered.
  function Answering(x: Txn, row: RowId, kind: AccessType, rc: RC, newest: (nat, int)): Txn {
    if rc == RcOk then Opening(x, Access(row, kind, newest.0, newest.1, newest.1))
    else if rc == Wait then x.(phase := Waiting(row, kind))
    else x.(phase := Aborting(|x.accesses|, Some(row)))
  }

  function Modified(x: Txn, i: nat, data: Value): Txn
    requires i < |x.accesses|
  {
    x.(accesses := x.accesses[i := x.accesses[i].(data := data)])
  }

  // What returning access a does to its row.
  ghost function Returned(r: Row, t: TxnTs, a: Access, commit: bool): Row {
    if a.kind == RD then r else if commit then WriteRow(r, ReqOf(t), a.data) else CancelRow(r, ReqOf(t))
  }

  function Lowered(x: Txn): Txn
    requires (x.phase.Committing? || x.phase.Aborting?) && 0 < x.phase.left
  {
    if x.phase.Committing? then x.(phase := Committing(x.phase.left - 1))
    else x.(phase := Aborting(x.phase.left - 1, x.phase.refused))
  }

  ghost function Do(s: State, step: Step): State
    requires Enabled(s, step)
  {
    match step
    case Begin(t) => s.(txns := s.txns[t := Txn(Running, [])])
    case Announce(t, row) =>
      var (r, ok) := PrewriteRow(s.rows[row], ReqOf(t));
      s.(rows := s.rows[row := r], txns := s.txns[t := Announcing(s.txns[t], row, ok)])
    case Ask(t, row, kind) =>
      var (r, rc) := ReadRow(s.rows[row], ReqOf(t));
      s.(rows := s.rows[row := r], txns := s.txns[t := Answering(s.txns[t], row, kind, rc, Newest(s.rows[row], t))])
    case Awake(t, version, value) =>
      var x := s.txns[t];
      s.(txns := s.txns[t := Opening(x, Access(x.phase.row, x.phase.kind, version, value, value))])
    case Modify(t, i, data) =>
      s.(txns := s.txns[t := Modified(s.txns[t], i, data)])
    case EnterCommit(t) =>
      var x := s.txns[t];
      s.(txns := s.txns[t := x.(phase := Committing(|x.accesses|))], log := Insert(s.log, t))
    case EnterAbort(t) =>
      var x := s.txns[t];
      s.(txns := s.txns[t := x.(phase := Aborting(|x.accesses|, None))])
    case ReturnLast(t) =>
      var x := s.txns[t];
      var a := x.accesses[x.phase.left - 1];
      s.(rows := s.rows[a.row := Returned(s.rows[a.row], t, a, x.phase.Committing?)], txns := s.txns[t := Lowered(x)])
    case Recycle(row, bound) => s.(rows := s.rows[row := RecycleRow(s.rows[row], bound)])
    case Raise(floor) => s.(rows := map row | row in s.rows :: AdvanceRow(s.rows[row], floor), floor := floor)
  }

  // An empty row of either scheme.
  ghost predicate Fresh(r: Row, value: Value) {
    match r
    case Multi(m) => Mv.Init(m, value)
    case Single(b) => Basic.Init(b, value)
  }

  ghost predicate Init(s: State, init: Store) {
    && s.rows.Keys == init.Keys && (forall row :: row in s.rows ==> Fresh(s.rows[row], init[row]))
    && s.txns == map[] && s.log == [] && s.floor == 0
  }

  ghost predicate Next(s: State, s': State) {
    exists step :: Enabled(s, step) && s' == Do(s, step)
  }

  ghost predicate IsRun(init: Store, run: seq<State>) {
    && run != [] && Init(run[0], init)
    && forall i :: 0 <= i < |run| - 1 ==> Next(run[i], run[i + 1])
  }
}
