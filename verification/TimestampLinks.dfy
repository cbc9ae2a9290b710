// MVCC and TIMESTAMP over many rows: what every row records is what the
// transactions have done to it, in every reachable state.
//
// A transaction is something else to every row: its role there tells whether its
// prewrite is pending, whether it waits for the value or has it, and what it has
// written. Here every request is followed at its row alone.

module TimestampLinks {
  import opened Options
  import opened SerialRuns
  import opened RequestQueues
  import opened TimestampRows
  import opened TimestampRuns

  // What one transaction is to one row: its prewrite is pending, it waits for
  // the value, it has the row open, it has sent a read or any request, and what
  // it has written as part of its commit.
  datatype Role = Role(pending: bool, waits: bool, held: bool, asked: bool, touched: bool, wrote: Option<Value>)

  const STRANGER := Role(false, false, false, false, false, None)

  function RoleOf(x: Txn, row: RowId): Role {
    var i := PlaceOf(x.accesses, row);
    var held := i < |x.accesses|;
    var writes := held && x.accesses[i].kind == WR;
    var announced := x.phase == Announced(row);
    var waits := x.phase.Waiting? && x.phase.row == row;
    var refused := x.phase.Aborting? && x.phase.refused == Some(row);
    Role(announced || x.phase == Waiting(row, WR) || (writes && i < Left(x)),
         waits, held, held || waits || refused, held || waits || refused || announced,
         if writes && x.phase.Committing? && x.phase.left <= i then Some(x.accesses[i].data) else None)
  }

  ghost function Roles(txns: map<TxnTs, Txn>, row: RowId): map<TxnTs, Role> {
    map t | t in txns :: RoleOf(txns[t], row)
  }

  ghost predicate ListsMatch(roles: map<TxnTs, Role>, r: Row) {
    && (forall q :: q in Prereqs(r) ==> q.txn == q.ts && q.ts in roles && roles[q.ts].pending)
    && (forall t :: t in roles && roles[t].pending ==> ReqOf(t) in Prereqs(r))
    && (forall q :: q in Readreqs(r) ==> q.txn == q.ts && q.ts in roles && roles[q.ts].waits)
    && (forall t :: t in roles && roles[t].waits ==> ReqOf(t) in Readreqs(r) || IsServed(r, t))
  }

  ghost predicate MarksMatch(roles: map<TxnTs, Role>, r: Row) {
    && (forall t :: t in Used(r) ==> t in roles && roles[t].touched)
    && (forall t :: t in Asked(r) ==> t in roles && roles[t].asked)
    && (forall t :: t in roles && (roles[t].held || roles[t].waits) ==> t in Asked(r))
  }

  ghost predicate VersionsMatch(base: Value, roles: map<TxnTs, Role>, r: Row) {
    && (forall k :: k in Written(r) <==> k == 0 || (k in roles && roles[k].wrote.Some?))
    && Written(r)[0] == base
    && (forall k :: k in roles && roles[k].wrote.Some? ==> Written(r)[k] == roles[k].wrote.value)
  }

  ghost predicate Matches(base: Value, roles: map<TxnTs, Role>, r: Row) {
    0 !in roles && ListsMatch(roles, r) && MarksMatch(roles, r) && VersionsMatch(base, roles, r)
  }

  ghost predicate RowLinked(base: Value, roles: map<TxnTs, Role>, r: Row, floor: nat) {
    RowOk(r) && (r.Multi? ==> r.m.floor == floor) && Matches(base, roles, r)
  }

  // The record of served reads only grows.
  ghost predicate Grows(r: Row, r': Row) {
    ServedGrows(r, r') && Limit(r') == Limit(r)
  }

  // ---------------------------------------------------------------------
  // One row, one request
  // ---------------------------------------------------------------------

  lemma NewcomerMatches(base: Value, roles: map<TxnTs, Role>, r: Row, t: TxnTs)
    requires Matches(base, roles, r) && t !in roles && 0 < t
    ensures Matches(base, roles[t := STRANGER], r)
  {
    hide IsServed;
  }

  lemma SameVersionsMatch(base: Value, roles: map<TxnTs, Role>, r: Row, r': Row, t: TxnTs, role: Role)
    requires VersionsMatch(base, roles, r) && Written(r') == Written(r) && t in roles && role.wrote == roles[t].wrote
    ensures VersionsMatch(base, roles[t := role], r')
  {
  }

  function PrewriteRole(ok: bool): Role {
    if ok then STRANGER.(pending := true, touched := true) else STRANGER.(asked := true, touched := true)
  }

  lemma AnnouncedLists(roles: map<TxnTs, Role>, r: Row, r': Row, t: TxnTs, ok: bool)
    requires ListsMatch(roles, r) && t in roles && roles[t] == STRANGER && Announces(r, r', ReqOf(t), ok)
    ensures ListsMatch(roles[t := PrewriteRole(ok)], r')
  {
    SameIsServed(r, r');
  }

  lemma SameIsServed(r: Row, r': Row)
    requires SameServed(r, r')
    ensures forall t :: IsServed(r, t) <==> IsServed(r', t)
  {
    forall t
      ensures IsServed(r, t) <==> IsServed(r', t)
    {
      if IsServed(r, t) {
        var version, value :| ServedAt(r, t, version, value);
        assert ServedAt(r', t, version, value);
      }
      if IsServed(r', t) {
        var version, value :| ServedAt(r', t, version, value);
        assert ServedAt(r, t, version, value);
      }
    }
  }

  lemma AnnouncedMatches(base: Value, roles: map<TxnTs, Role>, r: Row, r': Row, t: TxnTs, ok: bool)
    requires Matches(base, roles, r) && t in roles && roles[t] == STRANGER && Announces(r, r', ReqOf(t), ok)
    ensures Matches(base, roles[t := PrewriteRole(ok)], r')
  {
    AnnouncedLists(roles, r, r', t, ok);
    SameVersionsMatch(base, roles, r, r', t, PrewriteRole(ok));
    hide ListsMatch, VersionsMatch;
  }

  lemma StrangerMayAnnounce(base: Value, roles: map<TxnTs, Role>, r: Row, t: TxnTs)
    requires Matches(base, roles, r) && t in roles && !roles[t].touched && !roles[t].pending
    ensures t !in Used(r) && forall p :: p in Prereqs(r) ==> p.txn != t
  {
  }

  lemma PrewriteLinked(base: Value, roles: map<TxnTs, Role>, r: Row, floor: nat, t: TxnTs)
    requires RowLinked(base, roles, r, floor) && t in roles && roles[t] == STRANGER && 0 < t < Limit(r) && floor <= t
    ensures var (r', ok) := PrewriteRow(r, ReqOf(t));
            RowLinked(base, roles[t := PrewriteRole(ok)], r', floor) && Grows(r, r')
  {
    hide RowOk, Matches;
    var (r', ok) := PrewriteRow(r, ReqOf(t));
    StrangerMayAnnounce(base, roles, r, t);
    PrewriteFacts(r, ReqOf(t));
    AnnouncedMatches(base, roles, r, r', t, ok);
  }

  // The role after a read: an announced transaction keeps its prewrite.
  function ReadRole(role: Role, rc: RC): Role {
    if rc == RcOk then role.(held := true, asked := true, touched := true)
    else if rc == Wait then role.(waits := true, asked := true, touched := true)
    else role.(asked := true, touched := true)
  }

  ghost predicate MayRead(roles: map<TxnTs, Role>, t: TxnTs) {
    t in roles && (roles[t] == STRANGER || roles[t] == PrewriteRole(true))
  }

  lemma AskedLists(roles: map<TxnTs, Role>, r: Row, r': Row, t: TxnTs, rc: RC)
    requires ListsMatch(roles, r) && MayRead(roles, t) && Asks(r, r', ReqOf(t), rc)
    ensures ListsMatch(roles[t := ReadRole(roles[t], rc)], r')
  {
    forall u | u in roles && roles[u].waits
      ensures ReqOf(u) in Readreqs(r') || IsServed(r', u)
    {
      if IsServed(r, u) {
        var version, value :| ServedAt(r, u, version, value);
        assert ServedAt(r', u, version, value);
      }
    }
  }

  lemma AskedMarks(roles: map<TxnTs, Role>, r: Row, r': Row, t: TxnTs, rc: RC)
    requires MarksMatch(roles, r) && MayRead(roles, t) && Asks(r, r', ReqOf(t), rc)
    ensures MarksMatch(roles[t := ReadRole(roles[t], rc)], r')
  {
  }

  lemma ReaderMayAsk(base: Value, roles: map<TxnTs, Role>, r: Row, t: TxnTs)
    requires Matches(base, roles, r) && MayRead(roles, t)
    ensures t !in Asked(r) && (t !in Used(r) || ReqOf(t) in Prereqs(r))
  {
  }

  lemma AskedMatches(base: Value, roles: map<TxnTs, Role>, r: Row, r': Row, t: TxnTs, rc: RC)
    requires Matches(base, roles, r) && MayRead(roles, t) && Asks(r, r', ReqOf(t), rc)
    ensures Matches(base, roles[t := ReadRole(roles[t], rc)], r') && SameFloor(r, r')
  {
    hide ListsMatch, MarksMatch, VersionsMatch;
    AskedLists(roles, r, r', t, rc);
    AskedMarks(roles, r, r', t, rc);
    SameVersionsMatch(base, roles, r, r', t, ReadRole(roles[t], rc));
  }

  lemma ReadLinked(base: Value, roles: map<TxnTs, Role>, r: Row, floor: nat, t: TxnTs)
    requires RowLinked(base, roles, r, floor) && MayRead(roles, t) && 0 < t < Limit(r) && floor <= t
    ensures var (r', rc) := ReadRow(r, ReqOf(t));
            RowLinked(base, roles[t := ReadRole(roles[t], rc)], r', floor) && Grows(r, r')
            && (rc == RcOk ==> ServedAt(r', t, Newest(r, t).0, Newest(r, t).1))
  {
    hide RowOk, Matches, Asks;
    var (r', rc) := ReadRow(r, ReqOf(t));
    ReaderMayAsk(base, roles, r, t);
    ReadFacts(r, ReqOf(t));
    AskedMatches(base, roles, r, r', t, rc);
  }

  lemma ServedIsOut(r: Row, t: TxnTs)
    requires RowOk(r) && IsServed(r, t)
    ensures forall q :: q in Readreqs(r) ==> q.ts != t
  {
    var version, value :| ServedAt(r, t, version, value);
    match r
    case Multi(m) => assert Spec.Served(t, Spec.Version(version, value)) in m.served;
    case Single(b) => assert Basic.ReadDone(b, t);
  }

  lemma AwokenLists(roles: map<TxnTs, Role>, r: Row, t: TxnTs, role: Role)
    requires ListsMatch(roles, r) && t in roles && roles[t].waits && IsServed(r, t)
    requires role == roles[t].(waits := false, held := true) && forall q :: q in Readreqs(r) ==> q.ts != t
    ensures ListsMatch(roles[t := role], r)
  {
    hide IsServed;
  }

  lemma AwokenMatches(base: Value, roles: map<TxnTs, Role>, r: Row, t: TxnTs)
    requires Matches(base, roles, r) && t in roles && roles[t].waits && IsServed(r, t)
    requires forall q :: q in Readreqs(r) ==> q.ts != t
    ensures Matches(base, roles[t := roles[t].(waits := false, held := true)], r)
  {
    var role := roles[t].(waits := false, held := true);
    AwokenLists(roles, r, t, role);
    SameVersionsMatch(base, roles, r, r, t, role);
    hide ListsMatch, VersionsMatch, IsServed;
  }

  lemma AwakeLinked(base: Value, roles: map<TxnTs, Role>, r: Row, floor: nat, t: TxnTs)
    requires RowLinked(base, roles, r, floor) && t in roles && roles[t].waits && IsServed(r, t)
    ensures RowLinked(base, roles[t := roles[t].(waits := false, held := true)], r, floor)
  {
    hide RowOk, Matches;
    ServedIsOut(r, t);
    AwokenMatches(base, roles, r, t);
  }

  // Only a transaction that has written has a version, so what is served to the
  // others is older than they are.
  lemma ServedIsOlder(base: Value, roles: map<TxnTs, Role>, r: Row, floor: nat, t: TxnTs, version: nat, value: Value)
    requires RowLinked(base, roles, r, floor) && t in roles && roles[t].wrote.None? && ServedAt(r, t, version, value)
    ensures version < t
  {
    ServedFacts(r, t, version, value);
    hide RowOk;
  }

  lemma SettledLists(roles: map<TxnTs, Role>, r: Row, r': Row, t: TxnTs, role: Role)
    requires ListsMatch(roles, r) && MarksMatch(roles, r) && t in roles && Settled(r, r', ReqOf(t))
    requires !roles[t].waits && role == roles[t].(pending := false, wrote := role.wrote)
    ensures ListsMatch(roles[t := role], r') && MarksMatch(roles[t := role], r')
  {
    forall u | u in roles && roles[u].waits
      ensures ReqOf(u) in Readreqs(r') || IsServed(r', u)
    {
      if IsServed(r, u) {
        var version, value :| ServedAt(r, u, version, value);
        assert ServedAt(r', u, version, value);
      } else {
        assert ReqOf(u) in Readreqs(r);
      }
    }
  }

  // t has its value and holds its prewrite.
  ghost predicate Ready(roles: map<TxnTs, Role>, r: Row, t: TxnTs) {
    t in roles && IsServed(r, t) && roles[t].pending && !roles[t].waits && roles[t].held && roles[t].wrote.None?
  }

  lemma ReadyMayEnd(base: Value, roles: map<TxnTs, Role>, r: Row, t: TxnTs)
    requires Matches(base, roles, r) && Ready(roles, r, t)
    ensures MayEnd(r, ReqOf(t))
  {
  }

  lemma WroteVersion(base: Value, roles: map<TxnTs, Role>, r: Row, r': Row, t: TxnTs, data: Value, role: Role)
    requires VersionsMatch(base, roles, r) && t in roles && 0 < t && Written(r') == Written(r)[t := data] && role.wrote == Some(data)
    ensures VersionsMatch(base, roles[t := role], r')
  {
  }

  lemma WriteLinked(base: Value, roles: map<TxnTs, Role>, r: Row, floor: nat, t: TxnTs, data: Value)
    requires RowLinked(base, roles, r, floor) && Ready(roles, r, t)
    ensures var r' := WriteRow(r, ReqOf(t), data);
            RowLinked(base, roles[t := roles[t].(pending := false, wrote := Some(data))], r', floor) && Grows(r, r')
  {
    var role, r' := roles[t].(pending := false, wrote := Some(data)), WriteRow(r, ReqOf(t), data);
    hide RowOk, ListsMatch, MarksMatch, VersionsMatch;
    ReadyMayEnd(base, roles, r, t);
    WriteFacts(r, ReqOf(t), data);
    SettledLists(roles, r, r', t, role);
    WroteVersion(base, roles, r, r', t, data, role);
  }

  lemma CancelLinked(base: Value, roles: map<TxnTs, Role>, r: Row, floor: nat, t: TxnTs)
    requires RowLinked(base, roles, r, floor) && Ready(roles, r, t)
    ensures var r' := CancelRow(r, ReqOf(t));
            RowLinked(base, roles[t := roles[t].(pending := false)], r', floor) && Grows(r, r')
  {
    var role, r' := roles[t].(pending := false), CancelRow(r, ReqOf(t));
    hide RowOk, ListsMatch, MarksMatch, VersionsMatch;
    ReadyMayEnd(base, roles, r, t);
    CancelFacts(r, ReqOf(t));
    SettledLists(roles, r, r', t, role);
    SameVersionsMatch(base, roles, r, r', t, role);
  }

  lemma SameMatches(base: Value, roles: map<TxnTs, Role>, r: Row, r': Row)
    requires Matches(base, roles, r) && SameButFloor(r, r')
    ensures Matches(base, roles, r')
  {
    SameIsServed(r, r');
  }

  lemma RecycleLinked(base: Value, roles: map<TxnTs, Role>, r: Row, floor: nat, bound: nat)
    requires RowLinked(base, roles, r, floor) && bound <= floor
    ensures RowLinked(base, roles, RecycleRow(r, bound), floor) && Grows(r, RecycleRow(r, bound))
  {
    hide RowOk, Matches;
    RecycleFacts(r, bound);
    SameMatches(base, roles, r, RecycleRow(r, bound));
  }

  lemma PendingAbove(base: Value, roles: map<TxnTs, Role>, r: Row, floor: nat)
    requires Matches(base, roles, r)
    requires forall t :: t in roles && (roles[t].pending || roles[t].waits) ==> floor <= t
    ensures forall q :: q in Prereqs(r) || q in Readreqs(r) ==> floor <= q.ts
  {
  }

  lemma RaiseLinked(base: Value, roles: map<TxnTs, Role>, r: Row, floor: nat, floor': nat)
    requires RowLinked(base, roles, r, floor) && floor <= floor'
    requires forall t :: t in roles && (roles[t].pending || roles[t].waits) ==> floor' <= t
    ensures RowLinked(base, roles, AdvanceRow(r, floor'), floor') && Grows(r, AdvanceRow(r, floor'))
  {
    hide RowOk, Matches;
    PendingAbove(base, roles, r, floor');
    AdvanceFacts(r, floor');
    SameMatches(base, roles, r, AdvanceRow(r, floor'));
  }
}
