// The invariant of MVCC and TIMESTAMP over many rows.
//
// Every row matches the roles of all transactions, every access of a transaction
// was served to it from an older version, and the log lists the committed
// transactions by timestamp. All steps keep this.

module TimestampSafety {
  import opened Options
  import opened SerialRuns
  import opened RequestQueues
  import opened TimestampRows
  import opened TimestampRuns
  import opened TimestampLinks

  ghost predicate DistinctRows(accesses: seq<Access>) {
    forall i, j :: 0 <= i < j < |accesses| ==> accesses[i].row != accesses[j].row
  }

  // The value of a was served to t, from an older version.
  ghost predicate AccessOk(rows: map<RowId, Row>, t: TxnTs, a: Access) {
    a.row in rows && a.version < t && ServedAt(rows[a.row], t, a.version, a.seen)
  }

  ghost predicate AllServed(rows: map<RowId, Row>, t: TxnTs, accesses: seq<Access>) {
    forall i :: 0 <= i < |accesses| ==> AccessOk(rows, t, accesses[i])
  }

  ghost predicate Fitting(rows: map<RowId, Row>, t: TxnTs) {
    0 < t && forall row :: row in rows ==> t < Limit(rows[row])
  }

  ghost predicate ShapeOk(rows: map<RowId, Row>, x: Txn) {
    && Left(x) <= |x.accesses| && DistinctRows(x.accesses)
    && (x.phase.Announced? || x.phase.Waiting? ==> x.phase.row in rows && !Opened(x.accesses, x.phase.row))
  }

  ghost predicate TxnOk(rows: map<RowId, Row>, t: TxnTs, x: Txn, floor: nat) {
    Fitting(rows, t) && ShapeOk(rows, x) && AllServed(rows, t, x.accesses) && (!Finished(x) ==> floor <= t)
  }

  ghost predicate LogOk(log: seq<TxnTs>, txns: map<TxnTs, Txn>) {
    && (forall i, j :: 0 <= i < j < |log| ==> log[i] < log[j])
    && forall t :: t in log <==> t in txns && txns[t].phase.Committing?
  }

  ghost predicate RowInv(init: Store, s: State, row: RowId)
    requires row in init && row in s.rows
  {
    RowLinked(init[row], Roles(s.txns, row), s.rows[row], s.floor)
  }

  ghost predicate RowsInv(init: Store, s: State) {
    init.Keys == s.rows.Keys && forall row {:trigger RowInv(init, s, row)} :: row in s.rows ==> RowInv(init, s, row)
  }

  ghost predicate TxnsInv(s: State) {
    forall t {:trigger TxnOk(s.rows, t, s.txns[t], s.floor)} :: t in s.txns ==> TxnOk(s.rows, t, s.txns[t], s.floor)
  }

  ghost predicate Inv(init: Store, s: State) {
    RowsInv(init, s) && TxnsInv(s) && LogOk(s.log, s.txns)
  }

  lemma InitHolds(init: Store, s: State)
    requires Init(s, init)
    ensures Inv(init, s)
  {
    forall row | row in s.rows
      ensures RowInv(init, s, row)
    {
      FreshLinked(s.rows[row], init[row]);
      assert Roles(s.txns, row) == map[];
    }
  }

  lemma FreshLinked(r: Row, value: Value)
    requires Fresh(r, value)
    ensures RowLinked(value, map[], r, 0)
  {
    match r
    case Multi(m) => Mv.InitHolds(m, value);
    case Single(b) => Basic.InitHolds(b, value);
  }

  // ---------------------------------------------------------------------
  // Steps of one transaction at one row
  // ---------------------------------------------------------------------

  lemma RolesUpdated(txns: map<TxnTs, Txn>, t: TxnTs, x: Txn, row: RowId)
    ensures Roles(txns[t := x], row) == Roles(txns, row)[t := RoleOf(x, row)]
  {
  }

  ghost predicate SameRolesBut(x: Txn, x': Txn, row: RowId) {
    forall p :: p != row ==> RoleOf(x', p) == RoleOf(x, p)
  }

  lemma ServedStays(rows: map<RowId, Row>, rows': map<RowId, Row>, t: TxnTs, accesses: seq<Access>)
    requires rows.Keys == rows'.Keys && AllServed(rows, t, accesses)
    requires forall row :: row in rows ==> ServedGrows(rows[row], rows'[row])
    ensures AllServed(rows', t, accesses)
  {
    forall i | 0 <= i < |accesses|
      ensures AccessOk(rows', t, accesses[i])
    {
      assert AccessOk(rows, t, accesses[i]);
    }
  }

  ghost predicate RowsGrow(rows: map<RowId, Row>, rows': map<RowId, Row>) {
    && rows.Keys == rows'.Keys
    && forall row :: row in rows ==> Grows(rows[row], rows'[row])
  }

  lemma TxnStays(rows: map<RowId, Row>, rows': map<RowId, Row>, t: TxnTs, x: Txn, floor: nat)
    requires TxnOk(rows, t, x, floor) && RowsGrow(rows, rows')
    ensures TxnOk(rows', t, x, floor)
  {
    ServedStays(rows, rows', t, x.accesses);
  }

  // t moves to x and its row to r.
  ghost predicate RowMove(init: Store, s: State, t: TxnTs, x: Txn, row: RowId, r: Row)
  {
    && t in s.txns && row in s.rows && row in init
    && SameRolesBut(s.txns[t], x, row)
    && RowLinked(init[row], Roles(s.txns, row)[t := RoleOf(x, row)], r, s.floor)
    && Grows(s.rows[row], r)
  }

  lemma MovedRows(init: Store, s: State, t: TxnTs, x: Txn, row: RowId, r: Row, log: seq<TxnTs>)
    requires RowsInv(init, s) && RowMove(init, s, t, x, row, r)
    ensures RowsInv(init, s.(rows := s.rows[row := r], txns := s.txns[t := x], log := log))
  {
    hide RowLinked, RoleOf, Grows;
    var s' := s.(rows := s.rows[row := r], txns := s.txns[t := x], log := log);
    forall p | p in s'.rows
      ensures RowInv(init, s', p)
    {
      assert RowInv(init, s, p);
      RolesUpdated(s.txns, t, x, p);
      if p != row {
        assert RoleOf(x, p) == RoleOf(s.txns[t], p);
        assert Roles(s.txns, p)[t := RoleOf(x, p)] == Roles(s.txns, p);
      }
    }
  }

  lemma MovedTxns(s: State, t: TxnTs, x: Txn, row: RowId, r: Row, log: seq<TxnTs>)
    requires TxnsInv(s) && t in s.txns && row in s.rows && Grows(s.rows[row], r)
    requires TxnOk(s.rows[row := r], t, x, s.floor)
    ensures TxnsInv(s.(rows := s.rows[row := r], txns := s.txns[t := x], log := log))
  {
    var s' := s.(rows := s.rows[row := r], txns := s.txns[t := x], log := log);
    assert RowsGrow(s.rows, s'.rows);
    forall u | u in s'.txns
      ensures TxnOk(s'.rows, u, s'.txns[u], s'.floor)
    {
      if u != t {
        assert TxnOk(s.rows, u, s.txns[u], s.floor);
        TxnStays(s.rows, s'.rows, u, s.txns[u], s.floor);
      }
    }
  }

  lemma RowStepKeeps(init: Store, s: State, t: TxnTs, x: Txn, row: RowId, r: Row)
    requires Inv(init, s) && RowMove(init, s, t, x, row, r) && TxnOk(s.rows[row := r], t, x, s.floor)
    requires x.phase.Committing? == s.txns[t].phase.Committing?
    ensures Inv(init, s.(rows := s.rows[row := r], txns := s.txns[t := x]))
  {
    MovedRows(init, s, t, x, row, r, s.log);
    MovedTxns(s, t, x, row, r, s.log);
    hide RowsInv, TxnsInv, TxnOk, RowMove;
  }

  // What the invariant says of one row and of one transaction.
  lemma Facts(init: Store, s: State, t: TxnTs, row: RowId)
    requires Inv(init, s) && t in s.txns && row in s.rows
    ensures row in init && RowLinked(init[row], Roles(s.txns, row), s.rows[row], s.floor)
    ensures t in Roles(s.txns, row) && Roles(s.txns, row)[t] == RoleOf(s.txns[t], row)
    ensures TxnOk(s.rows, t, s.txns[t], s.floor)
  {
    assert RowInv(init, s, row);
    assert TxnOk(s.rows, t, s.txns[t], s.floor);
  }

  // ---------------------------------------------------------------------
  // The steps
  // ---------------------------------------------------------------------

  // A transaction that has not met row is a stranger there.
  lemma StrangerAt(x: Txn, row: RowId)
    requires x.phase.Running? && !Opened(x.accesses, row)
    ensures RoleOf(x, row) == STRANGER
  {
  }

  lemma NewcomerRow(init: Store, s: State, t: TxnTs, x: Txn, row: RowId)
    requires RowsInv(init, s) && t !in s.txns && 0 < t && x == Txn(Running, []) && row in s.rows
    ensures row in init && RowLinked(init[row], Roles(s.txns[t := x], row), s.rows[row], s.floor)
  {
    hide RowOk, Matches, RoleOf;
    assert RowInv(init, s, row);
    NewcomerMatches(init[row], Roles(s.txns, row), s.rows[row], t);
    RolesUpdated(s.txns, t, x, row);
    StrangerAt(x, row);
  }

  lemma NewcomerFits(rows: map<RowId, Row>, t: TxnTs, floor: nat)
    requires Fitting(rows, t) && floor <= t
    ensures TxnOk(rows, t, Txn(Running, []), floor)
  {
  }

  lemma BeginKeeps(init: Store, s: State, t: TxnTs)
    requires Inv(init, s) && t !in s.txns && Fitting(s.rows, t) && s.floor <= t
    ensures Inv(init, s.(txns := s.txns[t := Txn(Running, [])]))
  {
    var x := Txn(Running, []);
    var s' := s.(txns := s.txns[t := x]);
    forall row | row in s'.rows
      ensures RowInv(init, s', row)
    {
      NewcomerRow(init, s, t, x, row);
    }
    hide RowLinked, TxnOk, RoleOf;
    NewcomerFits(s.rows, t, s.floor);
    forall u | u in s'.txns
      ensures TxnOk(s'.rows, u, s'.txns[u], s'.floor)
    {
      if u != t {
        assert TxnOk(s.rows, u, s.txns[u], s.floor);
      }
    }
  }

  lemma RowGrows(rows: map<RowId, Row>, row: RowId, r: Row)
    requires row in rows && Grows(rows[row], r)
    ensures RowsGrow(rows, rows[row := r])
  {
  }

  lemma AnnouncingRoles(x: Txn, row: RowId, ok: bool)
    requires x.phase.Running? && !Opened(x.accesses, row)
    ensures RoleOf(Announcing(x, row, ok), row) == PrewriteRole(ok) && SameRolesBut(x, Announcing(x, row, ok), row)
  {
  }

  lemma AnnounceMoves(init: Store, s: State, t: TxnTs, row: RowId)
    requires Inv(init, s) && t in s.txns && row in s.rows && s.txns[t].phase.Running? && !Opened(s.txns[t].accesses, row)
    ensures var (r, ok) := PrewriteRow(s.rows[row], ReqOf(t));
            RowMove(init, s, t, Announcing(s.txns[t], row, ok), row, r)
  {
    var x, r := s.txns[t], s.rows[row];
    hide Inv, RowLinked, RoleOf, TxnOk, Grows, PrewriteRow, SameRolesBut, Roles;
    Facts(init, s, t, row);
    hide Opened;
    StrangerAt(x, row);
    TxnFits(s.rows, t, x, s.floor, row);
    PrewriteLinked(init[row], Roles(s.txns, row), r, s.floor, t);
    AnnouncingRoles(x, row, PrewriteRow(r, ReqOf(t)).1);
  }

  lemma TxnFits(rows: map<RowId, Row>, t: TxnTs, x: Txn, floor: nat, row: RowId)
    requires TxnOk(rows, t, x, floor) && row in rows
    ensures 0 < t < Limit(rows[row]) && (!Finished(x) ==> floor <= t)
  {
  }

  lemma AnnouncingFits(rows: map<RowId, Row>, t: TxnTs, x: Txn, row: RowId, ok: bool, floor: nat)
    requires TxnOk(rows, t, x, floor) && x.phase.Running? && row in rows && !Opened(x.accesses, row)
    ensures TxnOk(rows, t, Announcing(x, row, ok), floor)
  {
  }

  lemma AnnounceKeeps(init: Store, s: State, t: TxnTs, row: RowId)
    requires Inv(init, s) && t in s.txns && row in s.rows && s.txns[t].phase.Running? && !Opened(s.txns[t].accesses, row)
    ensures var (r, ok) := PrewriteRow(s.rows[row], ReqOf(t));
            Inv(init, s.(rows := s.rows[row := r], txns := s.txns[t := Announcing(s.txns[t], row, ok)]))
  {
    hide Inv, RowLinked, Grows, PrewriteRow, TxnOk, RoleOf, Roles, SameRolesBut;
    var (r, ok) := PrewriteRow(s.rows[row], ReqOf(t));
    AnnounceMoves(init, s, t, row);
    Facts(init, s, t, row);
    AnnouncingFits(s.rows, t, s.txns[t], row, ok, s.floor);
    RowGrows(s.rows, row, r);
    TxnStays(s.rows, s.rows[row := r], t, Announcing(s.txns[t], row, ok), s.floor);
    RowStepKeeps(init, s, t, Announcing(s.txns[t], row, ok), row, r);
  }
  lemma PlaceAppended(accesses: seq<Access>, a: Access, row: RowId)
    ensures PlaceOf(accesses + [a], row) ==
            if Opened(accesses, row) then PlaceOf(accesses, row) else if a.row == row then |accesses| else |accesses| + 1
  {
    var i, j := PlaceOf(accesses, row), PlaceOf(accesses + [a], row);
    assert forall k :: 0 <= k < |accesses| ==> (accesses + [a])[k] == accesses[k];
    assert (accesses + [a])[|accesses|] == a;
    assert i < |accesses| ==> (accesses + [a])[i].row == row;
  }

  lemma OpeningRoles(x: Txn, a: Access)
    requires (x.phase.Running? && a.kind == RD) || x.phase == Announced(a.row) || x.phase == Waiting(a.row, a.kind)
    requires a.kind == WR || !x.phase.Announced?
    requires !Opened(x.accesses, a.row)
    ensures SameRolesBut(x, Opening(x, a), a.row)
    ensures RoleOf(Opening(x, a), a.row) == RoleOf(x, a.row).(waits := false, held := true, asked := true, touched := true)
  {
    forall p
      ensures PlaceOf(Opening(x, a).accesses, p) ==
              if Opened(x.accesses, p) then PlaceOf(x.accesses, p) else if a.row == p then |x.accesses| else |x.accesses| + 1
    {
      PlaceAppended(x.accesses, a, p);
    }
  }

  // t may send its read to row.
  ghost predicate MayAskFor(x: Txn, r: Row, t: TxnTs, row: RowId, kind: AccessType) {
    if kind == RD then x.phase.Running? && !Opened(x.accesses, row)
    else x.phase == Announced(row) && !Opened(x.accesses, row) && ReadRow(r, ReqOf(t)).1 != Abort
  }

  lemma AnsweringRoles(x: Txn, row: RowId, kind: AccessType, rc: RC, newest: (nat, int))
    requires !Opened(x.accesses, row) && if kind == RD then x.phase.Running? else x.phase == Announced(row) && rc != Abort
    ensures var x' := Answering(x, row, kind, rc, newest);
            SameRolesBut(x, x', row) && RoleOf(x', row) == ReadRole(RoleOf(x, row), rc)
    ensures RoleOf(x, row) == STRANGER || RoleOf(x, row) == PrewriteRole(true)
  {
    if rc == RcOk {
      OpeningRoles(x, Access(row, kind, newest.0, newest.1, newest.1));
    }
  }

  lemma AskMoves(init: Store, s: State, t: TxnTs, row: RowId, kind: AccessType)
    requires Inv(init, s) && t in s.txns && row in s.rows && MayAskFor(s.txns[t], s.rows[row], t, row, kind)
    ensures var (r, rc) := ReadRow(s.rows[row], ReqOf(t));
            && RowMove(init, s, t, Answering(s.txns[t], row, kind, rc, Newest(s.rows[row], t)), row, r)
            && (rc == RcOk ==> ServedAt(r, t, Newest(s.rows[row], t).0, Newest(s.rows[row], t).1) && Newest(s.rows[row], t).0 < t)
  {
    hide Inv, RowLinked, RoleOf, TxnOk, Grows, ReadRow, SameRolesBut, Roles, Newest, Answering;
    var x, r, roles := s.txns[t], s.rows[row], Roles(s.txns, row);
    var (r', rc) := ReadRow(r, ReqOf(t));
    Facts(init, s, t, row);
    TxnFits(s.rows, t, x, s.floor, row);
    AnsweringRoles(x, row, kind, rc, Newest(r, t));
    ReadLinked(init[row], roles, r, s.floor, t);
    if rc == RcOk {
      ServedIsOlder(init[row], roles[t := ReadRole(roles[t], rc)], r', s.floor, t, Newest(r, t).0, Newest(r, t).1);
    }
  }

  lemma OpeningFits(rows: map<RowId, Row>, t: TxnTs, x: Txn, a: Access, floor: nat)
    requires TxnOk(rows, t, x, floor) && !Opened(x.accesses, a.row) && AccessOk(rows, t, a)
    requires x.phase.Running? || x.phase.Announced? || x.phase.Waiting?
    ensures TxnOk(rows, t, Opening(x, a), floor)
  {
    var x' := Opening(x, a);
    forall i | 0 <= i < |x'.accesses|
      ensures AccessOk(rows, t, x'.accesses[i]) && (i < |x.accesses| ==> x'.accesses[i].row != a.row)
    {
      if i < |x.accesses| {
        assert AccessOk(rows, t, x.accesses[i]);
      }
    }
    hide AccessOk, Fitting;
  }

  lemma WaitingFits(rows: map<RowId, Row>, t: TxnTs, x: Txn, phase: Phase, floor: nat)
    requires TxnOk(rows, t, x, floor) && (x.phase.Running? || x.phase.Announced?)
    requires phase.Waiting? || (phase.Aborting? && phase.left == |x.accesses|)
    requires phase.Waiting? ==> phase.row in rows && !Opened(x.accesses, phase.row)
    ensures TxnOk(rows, t, x.(phase := phase), floor)
  {
  }

  lemma AskKeeps(init: Store, s: State, t: TxnTs, row: RowId, kind: AccessType)
    requires Inv(init, s) && t in s.txns && row in s.rows && MayAskFor(s.txns[t], s.rows[row], t, row, kind)
    ensures var (r, rc) := ReadRow(s.rows[row], ReqOf(t));
            var x := Answering(s.txns[t], row, kind, rc, Newest(s.rows[row], t));
            Inv(init, s.(rows := s.rows[row := r], txns := s.txns[t := x]))
  {
    hide Inv, RowLinked, Grows, ReadRow, TxnOk, RoleOf, Roles, SameRolesBut, Newest, Opened;
    var (r, rc) := ReadRow(s.rows[row], ReqOf(t));
    var x := s.txns[t];
    var (version, value) := Newest(s.rows[row], t);
    AskMoves(init, s, t, row, kind);
    Facts(init, s, t, row);
    RowGrows(s.rows, row, r);
    TxnStays(s.rows, s.rows[row := r], t, x, s.floor);
    var rows := s.rows[row := r];
    if rc == RcOk {
      OpeningFits(rows, t, x, Access(row, kind, version, value, value), s.floor);
    } else if rc == Wait {
      WaitingFits(rows, t, x, Waiting(row, kind), s.floor);
    } else {
      WaitingFits(rows, t, x, Aborting(|x.accesses|, Some(row)), s.floor);
    }
    RowStepKeeps(init, s, t, Answering(x, row, kind, rc, (version, value)), row, r);
  }

  lemma AwakeKeeps(init: Store, s: State, t: TxnTs, version: nat, value: Value)
    requires Inv(init, s) && t in s.txns && s.txns[t].phase.Waiting? && s.txns[t].phase.row in s.rows
    requires ServedAt(s.rows[s.txns[t].phase.row], t, version, value)
    ensures var x := s.txns[t];
            Inv(init, s.(txns := s.txns[t := Opening(x, Access(x.phase.row, x.phase.kind, version, value, value))]))
  {
    hide Inv, RowLinked, Grows, TxnOk, RoleOf, Roles, SameRolesBut, Opened, AccessOk;
    var x, row := s.txns[t], s.txns[t].phase.row;
    var a := Access(row, x.phase.kind, version, value, value);
    AwakeMoves(init, s, t, a);
    Facts(init, s, t, row);
    WaiterIsOut(s.rows, t, x, s.floor);
    AccessFits(s.rows, t, a);
    OpeningFits(s.rows, t, x, a, s.floor);
    assert s.rows[row := s.rows[row]] == s.rows;
    RowStepKeeps(init, s, t, Opening(x, a), row, s.rows[row]);
  }

  lemma AccessFits(rows: map<RowId, Row>, t: TxnTs, a: Access)
    requires a.row in rows && a.version < t && ServedAt(rows[a.row], t, a.version, a.seen)
    ensures AccessOk(rows, t, a)
  {
  }

  lemma WaiterIsOut(rows: map<RowId, Row>, t: TxnTs, x: Txn, floor: nat)
    requires TxnOk(rows, t, x, floor) && x.phase.Waiting?
    ensures !Opened(x.accesses, x.phase.row)
  {
  }

  lemma WaiterRole(x: Txn, row: RowId)
    requires x.phase.Waiting? && x.phase.row == row && !Opened(x.accesses, row)
    ensures RoleOf(x, row).waits && RoleOf(x, row).asked && RoleOf(x, row).touched && RoleOf(x, row).wrote.None?
  {
  }

  lemma AwakeMoves(init: Store, s: State, t: TxnTs, a: Access)
    requires Inv(init, s) && t in s.txns && a.row in s.rows && s.txns[t].phase == Waiting(a.row, a.kind)
    requires ServedAt(s.rows[a.row], t, a.version, a.seen)
    ensures RowMove(init, s, t, Opening(s.txns[t], a), a.row, s.rows[a.row]) && a.version < t
  {
    hide Inv, RowLinked, TxnOk, RoleOf, SameRolesBut, Roles, Opened;
    var x, r := s.txns[t], s.rows[a.row];
    Facts(init, s, t, a.row);
    WaiterIsOut(s.rows, t, x, s.floor);
    WaiterRole(x, a.row);
    OpeningRoles(x, a);
    AwakeLinked(init[a.row], Roles(s.txns, a.row), r, s.floor, t);
    ServedIsOlder(init[a.row], Roles(s.txns, a.row), r, s.floor, t, a.version, a.seen);
  }
  // A step inside one transaction that changes what it is to no row.
  lemma LocalRows(init: Store, s: State, t: TxnTs, x: Txn, log: seq<TxnTs>)
    requires RowsInv(init, s) && t in s.txns && forall p :: RoleOf(x, p) == RoleOf(s.txns[t], p)
    ensures RowsInv(init, s.(txns := s.txns[t := x], log := log))
  {
    hide RowLinked, RoleOf;
    var s' := s.(txns := s.txns[t := x], log := log);
    forall p | p in s'.rows
      ensures RowInv(init, s', p)
    {
      assert RowInv(init, s, p);
      RolesUpdated(s.txns, t, x, p);
      assert Roles(s.txns, p)[t := RoleOf(x, p)] == Roles(s.txns, p);
    }
  }

  lemma LocalTxns(s: State, t: TxnTs, x: Txn, log: seq<TxnTs>)
    requires TxnsInv(s) && t in s.txns && TxnOk(s.rows, t, x, s.floor)
    ensures TxnsInv(s.(txns := s.txns[t := x], log := log))
  {
    hide TxnOk;
    var s' := s.(txns := s.txns[t := x], log := log);
    forall u | u in s'.txns
      ensures TxnOk(s'.rows, u, s'.txns[u], s'.floor)
    {
      if u != t {
        assert TxnOk(s.rows, u, s.txns[u], s.floor);
      }
    }
  }

  lemma LocalKeeps(init: Store, s: State, t: TxnTs, x: Txn)
    requires Inv(init, s) && t in s.txns && (forall p :: RoleOf(x, p) == RoleOf(s.txns[t], p))
    requires TxnOk(s.rows, t, x, s.floor) && x.phase.Committing? == s.txns[t].phase.Committing?
    ensures Inv(init, s.(txns := s.txns[t := x]))
  {
    LocalRows(init, s, t, x, s.log);
    LocalTxns(s, t, x, s.log);
    hide RowsInv, TxnsInv, TxnOk, RoleOf;
  }

  lemma TxnFacts(init: Store, s: State, t: TxnTs)
    requires Inv(init, s) && t in s.txns
    ensures TxnOk(s.rows, t, s.txns[t], s.floor)
  {
  }

  lemma ModifiedPlace(accesses: seq<Access>, i: nat, data: Value, row: RowId)
    requires i < |accesses|
    ensures PlaceOf(accesses[i := accesses[i].(data := data)], row) == PlaceOf(accesses, row)
  {
    var after := accesses[i := accesses[i].(data := data)];
    assert forall k :: 0 <= k < |accesses| ==> after[k].row == accesses[k].row;
    var p, q := PlaceOf(accesses, row), PlaceOf(after, row);
    assert p < |accesses| ==> after[p].row == row;
    assert q < |accesses| ==> accesses[q].row == row;
  }

  lemma ModifiedTxn(rows: map<RowId, Row>, t: TxnTs, x: Txn, i: nat, data: Value, floor: nat)
    requires TxnOk(rows, t, x, floor) && x.phase.Running? && i < |x.accesses|
    ensures TxnOk(rows, t, Modified(x, i, data), floor)
    ensures forall p :: RoleOf(Modified(x, i, data), p) == RoleOf(x, p)
  {
    var x' := Modified(x, i, data);
    forall p
      ensures RoleOf(x', p) == RoleOf(x, p)
    {
      ModifiedPlace(x.accesses, i, data, p);
    }
    forall j | 0 <= j < |x'.accesses|
      ensures AccessOk(rows, t, x'.accesses[j])
    {
      assert AccessOk(rows, t, x.accesses[j]);
    }
  }

  lemma ModifyKeeps(init: Store, s: State, t: TxnTs, i: nat, data: Value)
    requires Inv(init, s) && t in s.txns && s.txns[t].phase.Running? && i < |s.txns[t].accesses|
    ensures Inv(init, s.(txns := s.txns[t := Modified(s.txns[t], i, data)]))
  {
    hide Inv, TxnOk, RoleOf;
    TxnFacts(init, s, t);
    ModifiedTxn(s.rows, t, s.txns[t], i, data, s.floor);
    LocalKeeps(init, s, t, Modified(s.txns[t], i, data));
  }

  // A running transaction turns to commit or abort.
  lemma EndingTxn(rows: map<RowId, Row>, t: TxnTs, x: Txn, phase: Phase, floor: nat)
    requires TxnOk(rows, t, x, floor) && x.phase.Running?
    requires phase == Committing(|x.accesses|) || phase == Aborting(|x.accesses|, None)
    ensures TxnOk(rows, t, x.(phase := phase), floor)
    ensures forall p :: RoleOf(x.(phase := phase), p) == RoleOf(x, p)
  {
  }

  lemma AbortKeeps(init: Store, s: State, t: TxnTs)
    requires Inv(init, s) && t in s.txns && s.txns[t].phase.Running?
    ensures Inv(init, s.(txns := s.txns[t := s.txns[t].(phase := Aborting(|s.txns[t].accesses|, None))]))
  {
    hide Inv, TxnOk, RoleOf;
    var x := s.txns[t];
    TxnFacts(init, s, t);
    EndingTxn(s.rows, t, x, Aborting(|x.accesses|, None), s.floor);
    LocalKeeps(init, s, t, x.(phase := Aborting(|x.accesses|, None)));
  }

  lemma Spliced(log: seq<TxnTs>, t: TxnTs, k: nat, log': seq<TxnTs>)
    requires k <= |log| && log' == log[..k] + [t] + log[k..] && forall i, j :: 0 <= i < j < |log| ==> log[i] < log[j]
    requires (forall i :: 0 <= i < k ==> log[i] < t) && (forall i :: k <= i < |log| ==> t < log[i])
    ensures forall i, j :: 0 <= i < j < |log'| ==> log'[i] < log'[j]
  {
    forall i, j | 0 <= i < j < |log'|
      ensures log'[i] < log'[j]
    {
      var p, q := if i < k then i else i - 1, if j < k then j else j - 1;
      assert i != k ==> log'[i] == log[p];
      assert j != k ==> log'[j] == log[q];
    }
  }

  lemma InsertKeepsOrder(log: seq<TxnTs>, t: TxnTs)
    requires t !in log && forall i, j :: 0 <= i < j < |log| ==> log[i] < log[j]
    ensures forall i, j :: 0 <= i < j < |Insert(log, t)| ==> Insert(log, t)[i] < Insert(log, t)[j]
    ensures forall u :: u in Insert(log, t) <==> u in log || u == t
  {
    var k := Place(log, t);
    assert log == log[..k] + log[k..];
    assert k < |log| ==> log[k] in log;
    Spliced(log, t, k, Insert(log, t));
  }

  lemma CommitKeeps(init: Store, s: State, t: TxnTs)
    requires Inv(init, s) && t in s.txns && s.txns[t].phase.Running?
    ensures var x := s.txns[t];
            Inv(init, s.(txns := s.txns[t := x.(phase := Committing(|x.accesses|))], log := Insert(s.log, t)))
  {
    var x, log := s.txns[t], Insert(s.log, t);
    var x' := x.(phase := Committing(|x.accesses|));
    TxnFacts(init, s, t);
    hide RowsInv, TxnsInv, TxnOk, RoleOf;
    EndingTxn(s.rows, t, x, Committing(|x.accesses|), s.floor);
    LocalRows(init, s, t, x', log);
    LocalTxns(s, t, x', log);
    InsertKeepsOrder(s.log, t);
  }

  // ---------------------------------------------------------------------
  // Returning accesses
  // ---------------------------------------------------------------------

  predicate Ending(x: Txn) {
    (x.phase.Committing? || x.phase.Aborting?) && 0 < x.phase.left <= |x.accesses|
  }

  lemma LoweredElsewhere(x: Txn)
    requires Ending(x)
    ensures SameRolesBut(x, Lowered(x), x.accesses[x.phase.left - 1].row)
  {
  }

  lemma LoweredRoles(x: Txn)
    requires Ending(x) && DistinctRows(x.accesses)
    ensures var a := x.accesses[x.phase.left - 1];
            && RoleOf(Lowered(x), a.row) == (
                 if a.kind == RD then RoleOf(x, a.row)
                 else if x.phase.Committing? then RoleOf(x, a.row).(pending := false, wrote := Some(a.data))
                 else RoleOf(x, a.row).(pending := false))
            && RoleOf(x, a.row).held && !RoleOf(x, a.row).waits && RoleOf(x, a.row).wrote.None?
            && (a.kind == WR ==> RoleOf(x, a.row).pending)
  {
    var k := x.phase.left - 1;
    assert PlaceOf(x.accesses, x.accesses[k].row) == k;
  }

  lemma LoweredFits(rows: map<RowId, Row>, t: TxnTs, x: Txn, floor: nat)
    requires TxnOk(rows, t, x, floor) && Ending(x)
    ensures TxnOk(rows, t, Lowered(x), floor) && DistinctRows(x.accesses)
    ensures var a := x.accesses[x.phase.left - 1];
            a.row in rows && IsServed(rows[a.row], t)
  {
    var a := x.accesses[x.phase.left - 1];
    assert AccessOk(rows, t, a);
    assert ServedAt(rows[a.row], t, a.version, a.seen);
  }

  lemma ReturnMoves(init: Store, s: State, t: TxnTs)
    requires Inv(init, s) && t in s.txns && Ending(s.txns[t])
    ensures var x := s.txns[t];
            var a := x.accesses[x.phase.left - 1];
            && a.row in s.rows
            && RowMove(init, s, t, Lowered(x), a.row, Returned(s.rows[a.row], t, a, x.phase.Committing?))
  {
    hide Inv, RowLinked, TxnOk, RoleOf, SameRolesBut, Roles, Grows, WriteRow, CancelRow, DistinctRows;
    var x := s.txns[t];
    var a := x.accesses[x.phase.left - 1];
    TxnFacts(init, s, t);
    LoweredFits(s.rows, t, x, s.floor);
    LoweredElsewhere(x);
    LoweredRoles(x);
    Facts(init, s, t, a.row);
    var roles, r := Roles(s.txns, a.row), s.rows[a.row];
    if a.kind == RD {
      GrowsSelf(r);
      assert roles[t := RoleOf(x, a.row)] == roles;
    } else if x.phase.Committing? {
      WriteLinked(init[a.row], roles, r, s.floor, t, a.data);
    } else {
      CancelLinked(init[a.row], roles, r, s.floor, t);
    }
  }

  lemma GrowsSelf(r: Row)
    ensures Grows(r, r)
  {
  }

  lemma ReturnKeeps(init: Store, s: State, t: TxnTs)
    requires Inv(init, s) && t in s.txns && Ending(s.txns[t])
    ensures var x := s.txns[t];
            var a := x.accesses[x.phase.left - 1];
            && a.row in s.rows
            && Inv(init, s.(rows := s.rows[a.row := Returned(s.rows[a.row], t, a, x.phase.Committing?)], txns := s.txns[t := Lowered(x)]))
  {
    hide Inv, RowLinked, TxnOk, RoleOf, SameRolesBut, Roles, Grows, Returned;
    var x := s.txns[t];
    var a := x.accesses[x.phase.left - 1];
    ReturnMoves(init, s, t);
    var r := Returned(s.rows[a.row], t, a, x.phase.Committing?);
    TxnFacts(init, s, t);
    LoweredFits(s.rows, t, x, s.floor);
    RowGrows(s.rows, a.row, r);
    TxnStays(s.rows, s.rows[a.row := r], t, Lowered(x), s.floor);
    RowStepKeeps(init, s, t, Lowered(x), a.row, r);
  }

  // ---------------------------------------------------------------------
  // Recycling
  // ---------------------------------------------------------------------

  lemma RecycleKeeps(init: Store, s: State, row: RowId, bound: nat)
    requires Inv(init, s) && row in s.rows && bound <= s.floor
    ensures Inv(init, s.(rows := s.rows[row := RecycleRow(s.rows[row], bound)]))
  {
    var r := RecycleRow(s.rows[row], bound);
    var s' := s.(rows := s.rows[row := r]);
    hide RowLinked, TxnOk, Grows, RecycleRow, RoleOf;
    assert RowInv(init, s, row);
    RecycleLinked(init[row], Roles(s.txns, row), s.rows[row], s.floor, bound);
    RowGrows(s.rows, row, r);
    forall p | p in s'.rows
      ensures RowInv(init, s', p)
    {
      assert RowInv(init, s, p);
    }
    TxnsStay(s, s');
  }

  lemma TxnsStay(s: State, s': State)
    requires TxnsInv(s) && RowsGrow(s.rows, s'.rows) && s'.txns == s.txns && s'.floor == s.floor
    ensures TxnsInv(s')
  {
    hide TxnOk, RowsGrow;
    forall u | u in s'.txns
      ensures TxnOk(s'.rows, u, s'.txns[u], s'.floor)
    {
      assert TxnOk(s.rows, u, s.txns[u], s.floor);
      TxnStays(s.rows, s'.rows, u, s.txns[u], s.floor);
    }
  }

  lemma FinishedHasNothing(x: Txn, row: RowId)
    requires RoleOf(x, row).pending || RoleOf(x, row).waits
    ensures !Finished(x)
  {
  }

  lemma RaiseRow(init: Store, s: State, row: RowId, floor: nat)
    requires RowsInv(init, s) && row in s.rows && s.floor <= floor
    requires forall t :: t in s.txns && !Finished(s.txns[t]) ==> floor <= t
    ensures row in init && RowLinked(init[row], Roles(s.txns, row), AdvanceRow(s.rows[row], floor), floor)
    ensures Grows(s.rows[row], AdvanceRow(s.rows[row], floor))
  {
    hide RowLinked, RoleOf, Grows, AdvanceRow, Finished;
    var roles := Roles(s.txns, row);
    assert RowInv(init, s, row);
    forall t | t in roles && (roles[t].pending || roles[t].waits)
      ensures floor <= t
    {
      FinishedHasNothing(s.txns[t], row);
    }
    RaiseLinked(init[row], roles, s.rows[row], s.floor, floor);
  }

  lemma RaiseKeeps(init: Store, s: State, floor: nat)
    requires Inv(init, s) && s.floor <= floor && forall t :: t in s.txns && !Finished(s.txns[t]) ==> floor <= t
    ensures Inv(init, s.(rows := map row | row in s.rows :: AdvanceRow(s.rows[row], floor), floor := floor))
  {
    hide RowLinked, TxnOk, Grows, AdvanceRow, RoleOf;
    var rows := map row | row in s.rows :: AdvanceRow(s.rows[row], floor);
    var s' := s.(rows := rows, floor := floor);
    forall row | row in s.rows
      ensures Grows(s.rows[row], rows[row]) && row in init && RowLinked(init[row], Roles(s.txns, row), rows[row], floor)
    {
      RaiseRow(init, s, row, floor);
    }
    forall row | row in s'.rows
      ensures RowInv(init, s', row)
    {
    }
    forall t | t in s'.txns
      ensures TxnOk(s'.rows, t, s'.txns[t], s'.floor)
    {
      assert TxnOk(s.rows, t, s.txns[t], s.floor);
      TxnStays(s.rows, rows, t, s.txns[t], s.floor);
      TxnRises(rows, t, s.txns[t], s.floor, floor);
    }
  }

  lemma TxnRises(rows: map<RowId, Row>, t: TxnTs, x: Txn, floor: nat, floor': nat)
    requires TxnOk(rows, t, x, floor) && (!Finished(x) ==> floor' <= t)
    ensures TxnOk(rows, t, x, floor')
  {
  }

  // ---------------------------------------------------------------------
  // Every run
  // ---------------------------------------------------------------------

  lemma AnnouncedIsOut(init: Store, s: State, t: TxnTs)
    requires Inv(init, s) && t in s.txns && s.txns[t].phase.Announced?
    ensures !Opened(s.txns[t].accesses, s.txns[t].phase.row)
  {
    TxnFacts(init, s, t);
  }

  lemma StepKeeps(init: Store, s: State, step: Step)
    requires Inv(init, s) && Enabled(s, step)
    ensures Inv(init, Do(s, step))
  {
    hide Inv, PrewriteRow, ReadRow, RecycleRow, AdvanceRow, Returned, Newest, ServedAt;
    match step
    case Begin(t) => BeginKeeps(init, s, t);
    case Announce(t, row) => AnnounceKeeps(init, s, t, row);
    case Ask(t, row, kind) =>
      if kind == WR { AnnouncedIsOut(init, s, t); }
      AskKeeps(init, s, t, row, kind);
    case Awake(t, version, value) => AwakeKeeps(init, s, t, version, value);
    case Modify(t, i, data) => ModifyKeeps(init, s, t, i, data);
    case EnterCommit(t) => CommitKeeps(init, s, t);
    case EnterAbort(t) => AbortKeeps(init, s, t);
    case ReturnLast(t) => ReturnKeeps(init, s, t);
    case Recycle(row, bound) => RecycleKeeps(init, s, row, bound);
    case Raise(floor) => RaiseKeeps(init, s, floor);
  }

  lemma {:induction false} RunKeeps(init: Store, run: seq<State>, i: nat)
    requires IsRun(init, run) && i < |run|
    ensures Inv(init, run[i])
  {
    hide Inv, Enabled, Do;
    if i == 0 {
      InitHolds(init, run[0]);
    } else {
      RunKeeps(init, run, i - 1);
      assert Next(run[i - 1], run[i]);
      var step :| Enabled(run[i - 1], step) && run[i] == Do(run[i - 1], step);
      StepKeeps(init, run[i - 1], step);
    }
  }
}
