// Optimistic concurrency control with per-row validation as a system of
// interleaved transactions (occ.cpp, row_occ.cpp, thread.cpp).

module OptimisticRuns {
  import opened Options
  import opened SerialRuns
  import opened AccessOrder

  type TxnId = nat

  datatype AccessType = RD | WR

  // seen is the value copied on access; data the private copy.
  datatype Access = Access(row: RowId, kind: AccessType, seen: Value, data: Value)

  datatype Row = Row(value: Value, wts: nat, latch: Option<TxnId>)

  datatype Phase =
    | Idle
    | Running
    | Validating(n: nat)          // the first n accesses are latched and valid
    | Writing(n: nat, left: nat)  // n rows latched, end_ts drawn, the first left accesses still to be returned
    | Releasing(n: nat, done: nat)

  datatype Txn = Txn(startTs: nat, endTs: nat, phase: Phase, accesses: seq<Access>)

  // stamps[i] is the end_ts of the transaction whose operations are log[i].
  datatype State = State(rows: map<RowId, Row>, txns: map<TxnId, Txn>, clock: nat,
                         log: seq<seq<Op>>, stamps: seq<nat>)

  datatype Step =
    | Begin(t: TxnId)
    | DoAccess(t: TxnId, row: RowId, kind: AccessType)
    | Modify(t: TxnId, i: nat, value: Value)
    | GiveUp(t: TxnId)
    | StartValidation(t: TxnId, order: seq<Access>)
    | LatchNext(t: TxnId)
    | DrawEnd(t: TxnId)
    | ReturnNext(t: TxnId)
    | ReleaseNext(t: TxnId)
    | Finish(t: TxnId)

  ghost predicate Opened(accesses: seq<Access>, row: RowId) {
    exists a :: a in accesses && a.row == row
  }

  ghost predicate DistinctRows(accesses: seq<Access>) {
    forall i, j :: 0 <= i < j < |accesses| ==> accesses[i].row != accesses[j].row
  }

  // order is what the sort of per_row_validate makes of accesses.
  ghost predicate IsSortOf(keys: map<RowId, RowKey>, order: seq<Access>, accesses: seq<Access>) {
    && multiset(order) == multiset(accesses)
    && forall i, j :: 0 <= i < j < |order| && order[i].row in keys && order[j].row in keys ==>
         !Less(keys[order[j].row], keys[order[i].row])
  }

  // What a transaction logs when it commits.
  function OpsOf(accesses: seq<Access>): seq<Op> {
    if accesses == [] then []
    else
      var a := accesses[|accesses| - 1];
      OpsOf(accesses[..|accesses| - 1]) + [Read(a.row, a.seen)] + (if a.kind == WR then [Write(a.row, a.data)] else [])
  }

  ghost predicate Enabled(keys: map<RowId, RowKey>, s: State, step: Step) {
    && step.t in s.txns
    && var x := s.txns[step.t];
       match step
       case Begin(t) => x.phase.Idle?
       // The manager takes the latch for the copy; no row is accessed twice.
       case DoAccess(t, row, kind) => x.phase.Running? && row in s.rows && s.rows[row].latch.None? && !Opened(x.accesses, row)
       case Modify(t, i, value) => x.phase.Running? && i < |x.accesses| && x.accesses[i].kind == WR
       case GiveUp(t) => x.phase.Running?
       case StartValidation(t, order) => x.phase.Running? && IsSortOf(keys, order, x.accesses)
       case LatchNext(t) => x.phase.Validating? && x.phase.n < |x.accesses| && x.accesses[x.phase.n].row in s.rows
                            && s.rows[x.accesses[x.phase.n].row].latch.None?
       case DrawEnd(t) => x.phase == Validating(|x.accesses|)
       case ReturnNext(t) => x.phase.Writing? && 0 < x.phase.left <= |x.accesses| && x.accesses[x.phase.left - 1].row in s.rows
       case ReleaseNext(t) => x.phase.Releasing? && x.phase.done < x.phase.n <= |x.accesses| && x.accesses[x.phase.done].row in s.rows
       case Finish(t) => (x.phase.Writing? && x.phase.left == 0) || (x.phase.Releasing? && x.phase.done == x.phase.n)
  }

  function Do(s: State, step: Step): State
    requires step.t in s.txns
    requires match step
             case DoAccess(_, row, _) => row in s.rows
             case Modify(_, i, _) => i < |s.txns[step.t].accesses|
             case LatchNext(_) => s.txns[step.t].phase.Validating? && s.txns[step.t].phase.n < |s.txns[step.t].accesses|
                                  && s.txns[step.t].accesses[s.txns[step.t].phase.n].row in s.rows
             case ReturnNext(_) => s.txns[step.t].phase.Writing? && 0 < s.txns[step.t].phase.left <= |s.txns[step.t].accesses|
             case ReleaseNext(_) => s.txns[step.t].phase.Releasing? && s.txns[step.t].phase.done < |s.txns[step.t].accesses|
                                    && s.txns[step.t].accesses[s.txns[step.t].phase.done].row in s.rows
             case _ => true
  {
    var t := step.t;
    var x := s.txns[t];
    match step
    case Begin(_) =>
      s.(clock := s.clock + 1, txns := s.txns[t := Txn(s.clock, 0, Running, [])])
    case DoAccess(_, row, kind) =>
      // A row written after the start makes the transaction give up at once.
      if x.startTs < s.rows[row].wts then s.(txns := s.txns[t := x.(phase := Idle, accesses := [])])
      else s.(txns := s.txns[t := x.(accesses := x.accesses + [Access(row, kind, s.rows[row].value, s.rows[row].value)])])
    case Modify(_, i, value) =>
      s.(txns := s.txns[t := x.(accesses := x.accesses[i := x.accesses[i].(data := value)])])
    case GiveUp(_) =>
      s.(txns := s.txns[t := x.(phase := Idle, accesses := [])])
    case StartValidation(_, order) =>
      s.(txns := s.txns[t := x.(phase := Validating(0), accesses := order)])
    case LatchNext(_) =>
      var row := x.accesses[x.phase.n].row;
      var phase := if x.startTs < s.rows[row].wts then Releasing(x.phase.n + 1, 0) else Validating(x.phase.n + 1);
      s.(rows := s.rows[row := s.rows[row].(latch := Some(t))], txns := s.txns[t := x.(phase := phase)])
    case DrawEnd(_) =>
      s.(clock := s.clock + 1, log := s.log + [OpsOf(x.accesses)], stamps := s.stamps + [s.clock],
         txns := s.txns[t := x.(endTs := s.clock, phase := Writing(|x.accesses|, |x.accesses|))])
    case ReturnNext(_) =>
      var a := x.accesses[x.phase.left - 1];
      var rows := if a.kind == WR && a.row in s.rows then s.rows[a.row := s.rows[a.row].(value := a.data, wts := x.endTs)] else s.rows;
      s.(rows := rows, txns := s.txns[t := x.(phase := Writing(x.phase.n, x.phase.left - 1))])
    case ReleaseNext(_) =>
      var row := x.accesses[x.phase.done].row;
      s.(rows := s.rows[row := s.rows[row].(latch := None)], txns := s.txns[t := x.(phase := Releasing(x.phase.n, x.phase.done + 1))])
    case Finish(_) =>
      if x.phase.Writing? then s.(txns := s.txns[t := x.(phase := Releasing(x.phase.n, 0))])
      else s.(txns := s.txns[t := x.(phase := Idle, accesses := [])])
  }

  ghost predicate Init(s: State, init: Store) {
    && s.rows.Keys == init.Keys
    && (forall row :: row in s.rows ==> s.rows[row] == Row(init[row], 0, None))
    && (forall t :: t in s.txns ==> s.txns[t].phase.Idle? && s.txns[t].accesses == [])
    && s.log == [] && s.stamps == []
    && s.clock == 1
  }

  ghost predicate Next(keys: map<RowId, RowKey>, s: State, s': State) {
    exists step :: Enabled(keys, s, step) && s' == Do(s, step)
  }

  // keys gives every row its table name and primary key.
  ghost predicate IsRun(keys: map<RowId, RowKey>, init: Store, run: seq<State>) {
    && run != []
    && Init(run[0], init)
    && forall i :: 0 <= i < |run| - 1 ==> Next(keys, run[i], run[i + 1])
  }
}
