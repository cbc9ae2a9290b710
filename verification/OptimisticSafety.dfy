// Optimistic commits are serializable in end_ts order, and validation never
// deadlocks on latches.

module OptimisticSafety {
  import opened Options
  import opened SerialRuns
  import opened AccessOrder
  import opened OptimisticRuns

  // The accesses whose latches x holds are Lo(x) .. Hi(x).
  function Lo(x: Txn): nat {
    if x.phase.Releasing? then x.phase.done else 0
  }

  function Hi(x: Txn): nat {
    if x.phase.Validating? || x.phase.Writing? || x.phase.Releasing? then x.phase.n else 0
  }

  ghost predicate Holds(x: Txn, row: RowId) {
    exists i :: Lo(x) <= i < Hi(x) && i < |x.accesses| && x.accesses[i].row == row
  }

  ghost predicate TxnOk(x: Txn, rows: set<RowId>, clock: nat) {
    && DistinctRows(x.accesses)
    && (forall a :: a in x.accesses ==> a.row in rows)
    && (x.phase.Idle? ==> x.accesses == [])
    && Lo(x) <= Hi(x) <= |x.accesses|
    && (!x.phase.Idle? ==> x.startTs < clock)
    && (x.phase.Writing? ==> x.phase.n == |x.accesses| && x.phase.left <= x.phase.n && x.endTs < clock)
  }

  ghost predicate LatchOk(txns: map<TxnId, Txn>, row: RowId, r: Row) {
    && (r.latch.Some? ==> r.latch.value in txns)
    && forall t :: t in txns ==> (r.latch == Some(t) <==> Holds(txns[t], row))
  }

  // Access i of x is a write of row that is committed but not yet stored.
  predicate PendingAt(x: Txn, i: nat, row: RowId) {
    x.phase.Writing? && i < x.phase.left && i < |x.accesses| && x.accesses[i].row == row && x.accesses[i].kind == WR
  }

  // The last committed version of a row: in place, or pending at the
  // transaction that holds the latch.
  ghost predicate VersionOk(value: Value, stamp: nat, txns: map<TxnId, Txn>, row: RowId, r: Row) {
    if r.latch.Some? && r.latch.value in txns then
      var x := txns[r.latch.value];
      && (forall i: nat :: PendingAt(x, i, row) ==> value == x.accesses[i].data && stamp == x.endTs)
      && (NothingPending(x, row) ==> value == r.value && stamp == r.wts)
    else
      value == r.value && stamp == r.wts
  }

  ghost predicate NothingPending(x: Txn, row: RowId) {
    forall i: nat :: !PendingAt(x, i, row)
  }

  // end_ts of the last logged transaction that wrote row.
  ghost function LastWrite(log: seq<seq<Op>>, stamps: seq<nat>, row: RowId): nat
    requires |log| == |stamps|
  {
    if log == [] then 0
    else if Writes(log[|log| - 1], row) then stamps[|log| - 1]
    else LastWrite(log[..|log| - 1], stamps[..|log| - 1], row)
  }

  // A value read is current unless the row was written after the start.
  ghost predicate ReadsOk(committed: Store, w: map<RowId, nat>, x: Txn) {
    && (x.phase.Running? || x.phase.Validating? ==>
          forall a :: a in x.accesses && a.row in w && a.row in committed && w[a.row] <= x.startTs ==> a.seen == committed[a.row])
    && (x.phase.Validating? ==>
          forall i :: 0 <= i < x.phase.n && i < |x.accesses| && x.accesses[i].row in w ==> w[x.accesses[i].row] <= x.startTs)
  }

  ghost predicate StampsOk(stamps: seq<nat>, clock: nat) {
    && (forall i :: 0 <= i < |stamps| ==> stamps[i] < clock)
    && (forall i, j :: 0 <= i < j < |stamps| ==> stamps[i] < stamps[j])
  }

  // committed and w summarize the log.
  ghost predicate Core(committed: Store, w: map<RowId, nat>, s: State) {
    && committed.Keys == w.Keys == s.rows.Keys
    && (forall row :: row in w ==> w[row] < s.clock)
    && (forall t :: t in s.txns ==> TxnOk(s.txns[t], s.rows.Keys, s.clock) && ReadsOk(committed, w, s.txns[t]))
    && (forall row {:trigger LatchOk(s.txns, row, s.rows[row])} :: row in s.rows ==> LatchOk(s.txns, row, s.rows[row]))
    && (forall row {:trigger VersionOk(committed[row], w[row], s.txns, row, s.rows[row])} ::
          row in s.rows ==> VersionOk(committed[row], w[row], s.txns, row, s.rows[row]))
  }

  ghost function Stamped(s: State): map<RowId, nat>
    requires |s.log| == |s.stamps|
  {
    map row | row in s.rows :: LastWrite(s.log, s.stamps, row)
  }

  ghost predicate Inv(init: Store, s: State) {
    && |s.log| == |s.stamps|
    && StampsOk(s.stamps, s.clock)
    && Replay(init, s.log).Some?
    && Core(Replay(init, s.log).value, Stamped(s), s)
  }

  // ---------------------------------------------------------------------
  // Steps that log nothing
  // ---------------------------------------------------------------------

  lemma SameVersion(value: Value, stamp: nat, txns: map<TxnId, Txn>, txns': map<TxnId, Txn>, t: TxnId, row: RowId, r: Row)
    requires VersionOk(value, stamp, txns, row, r) && t in txns && txns'.Keys == txns.Keys
    requires forall u :: u in txns && u != t ==> txns'[u] == txns[u]
    requires NothingPending(txns[t], row) && NothingPending(txns'[t], row)
    ensures VersionOk(value, stamp, txns', row, r)
  {
  }

  ghost predicate SameHolds(x: Txn, y: Txn) {
    forall row :: Holds(x, row) <==> Holds(y, row)
  }

  ghost predicate Settled(x: Txn) {
    forall row :: NothingPending(x, row)
  }

  // t keeps its latches, and no version moves.
  lemma PrivateStep(committed: Store, w: map<RowId, nat>, s: State, t: TxnId, x: Txn, clock: nat)
    requires Core(committed, w, s) && t in s.txns && s.clock <= clock
    requires TxnOk(x, s.rows.Keys, clock) && ReadsOk(committed, w, x)
    requires SameHolds(x, s.txns[t]) && Settled(x) && Settled(s.txns[t])
    ensures Core(committed, w, s.(clock := clock, txns := s.txns[t := x]))
  {
    var txns' := s.txns[t := x];
    forall row | row in s.rows
      ensures LatchOk(txns', row, s.rows[row])
      ensures VersionOk(committed[row], w[row], txns', row, s.rows[row])
    {
      assert LatchOk(s.txns, row, s.rows[row]);
      SameVersion(committed[row], w[row], s.txns, txns', t, row, s.rows[row]);
    }
  }

  ghost predicate SameHoldsBut(x: Txn, y: Txn, row: RowId) {
    forall r :: r != row ==> (Holds(x, r) <==> Holds(y, r))
  }

  ghost predicate SamePendingBut(x: Txn, y: Txn, row: RowId) {
    forall q, i: nat :: q != row ==> (PendingAt(x, i, q) <==> PendingAt(y, i, q))
  }

  // t moves to x and its row to r: it takes or gives up the latch of one row,
  // or stores a version into it.
  ghost predicate RowMove(committed: Store, w: map<RowId, nat>, s: State, t: TxnId, x: Txn, row: RowId, r: Row) {
    && t in s.txns && row in s.rows && row in committed && row in w
    && TxnOk(x, s.rows.Keys, s.clock) && ReadsOk(committed, w, x)
    && SameHoldsBut(x, s.txns[t], row) && SamePendingBut(x, s.txns[t], row)
    && x.accesses == s.txns[t].accesses && x.endTs == s.txns[t].endTs
    && (s.rows[row].latch == None || s.rows[row].latch == Some(t))
    && r.latch == (if Holds(x, row) then Some(t) else None)
    && VersionOk(committed[row], w[row], s.txns[t := x], row, r)
  }

  lemma OneRowStep(committed: Store, w: map<RowId, nat>, s: State, t: TxnId, x: Txn, row: RowId, r: Row)
    requires Core(committed, w, s) && RowMove(committed, w, s, t, x, row, r)
    ensures Core(committed, w, s.(rows := s.rows[row := r], txns := s.txns[t := x]))
  {
    hide TxnOk, ReadsOk, VersionOk;
    var txns' := s.txns[t := x];
    assert s.rows[row := r].Keys == s.rows.Keys;
    assert LatchOk(s.txns, row, s.rows[row]);
    forall q | q in s.rows && q != row
      ensures LatchOk(txns', q, s.rows[q])
      ensures VersionOk(committed[q], w[q], txns', q, s.rows[q])
    {
      ElsewhereLatch(s.txns, t, x, q, s.rows[q]);
      ElsewhereVersion(committed[q], w[q], s.txns, t, x, q, s.rows[q]);
    }
  }

  lemma ElsewhereLatch(txns: map<TxnId, Txn>, t: TxnId, x: Txn, q: RowId, r: Row)
    requires LatchOk(txns, q, r) && t in txns && (Holds(x, q) <==> Holds(txns[t], q))
    ensures LatchOk(txns[t := x], q, r)
  {
  }

  lemma ElsewhereVersion(value: Value, stamp: nat, txns: map<TxnId, Txn>, t: TxnId, x: Txn, q: RowId, r: Row)
    requires VersionOk(value, stamp, txns, q, r) && t in txns
    requires forall i: nat :: PendingAt(x, i, q) <==> PendingAt(txns[t], i, q)
    requires x.accesses == txns[t].accesses && x.endTs == txns[t].endTs
    ensures VersionOk(value, stamp, txns[t := x], q, r)
  {
  }

  lemma BeginStep(committed: Store, w: map<RowId, nat>, s: State, t: TxnId)
    requires Core(committed, w, s) && t in s.txns && s.txns[t].phase.Idle?
    ensures Core(committed, w, Do(s, Begin(t)))
  {
    PrivateStep(committed, w, s, t, Txn(s.clock, 0, Running, []), s.clock + 1);
  }

  lemma GiveUpStep(committed: Store, w: map<RowId, nat>, s: State, t: TxnId)
    requires Core(committed, w, s) && t in s.txns && s.txns[t].phase.Running?
    ensures Core(committed, w, s.(txns := s.txns[t := s.txns[t].(phase := Idle, accesses := [])]))
  {
    PrivateStep(committed, w, s, t, s.txns[t].(phase := Idle, accesses := []), s.clock);
  }

  // Nobody latches the row, so the copy is the last committed version.
  lemma AccessStep(committed: Store, w: map<RowId, nat>, s: State, t: TxnId, row: RowId, kind: AccessType)
    requires Core(committed, w, s) && t in s.txns && s.txns[t].phase.Running?
    requires row in s.rows && s.rows[row].latch.None? && !Opened(s.txns[t].accesses, row)
    ensures Core(committed, w, Do(s, DoAccess(t, row, kind)))
  {
    var x := s.txns[t];
    if x.startTs < s.rows[row].wts {
      GiveUpStep(committed, w, s, t);
    } else {
      var a := Access(row, kind, s.rows[row].value, s.rows[row].value);
      var x' := x.(accesses := x.accesses + [a]);
      assert VersionOk(committed[row], w[row], s.txns, row, s.rows[row]);
      assert forall b :: b in x.accesses ==> Opened(x.accesses, b.row);
      assert forall i :: 0 <= i < |x.accesses| ==> x.accesses[i] in x.accesses;
      PrivateStep(committed, w, s, t, x', s.clock);
    }
  }

  lemma ModifyStep(committed: Store, w: map<RowId, nat>, s: State, t: TxnId, i: nat, value: Value)
    requires Core(committed, w, s) && t in s.txns && s.txns[t].phase.Running? && i < |s.txns[t].accesses|
    ensures Core(committed, w, Do(s, Modify(t, i, value)))
  {
    var x := s.txns[t];
    var accesses := x.accesses[i := x.accesses[i].(data := value)];
    forall j | 0 <= j < |accesses|
      ensures accesses[j].row == x.accesses[j].row && accesses[j].seen == x.accesses[j].seen && x.accesses[j] in x.accesses
    {
    }
    PrivateStep(committed, w, s, t, x.(accesses := accesses), s.clock);
  }

  lemma SameMembers(s: seq<Access>, r: seq<Access>, a: Access)
    requires multiset(s) == multiset(r)
    ensures a in s <==> a in r
  {
    assert a in s <==> a in multiset(s);
    assert a in r <==> a in multiset(r);
  }

  lemma SeenTwice(s: seq<Access>, i: nat, j: nat)
    requires i < j < |s| && s[i] == s[j]
    ensures multiset(s)[s[i]] >= 2
  {
    assert s == s[..j] + [s[j]] + s[j + 1..];
    assert s[i] in s[..j];
  }

  lemma SeenOnce(s: seq<Access>, p: nat)
    requires p < |s| && DistinctRows(s)
    ensures multiset(s)[s[p]] == 1
  {
    assert s == s[..p] + [s[p]] + s[p + 1..];
    assert s[p] !in s[..p] && s[p] !in s[p + 1..];
  }

  lemma SortKeepsRows(order: seq<Access>, accesses: seq<Access>)
    requires multiset(order) == multiset(accesses) && DistinctRows(accesses)
    ensures DistinctRows(order)
    ensures forall a :: a in order <==> a in accesses
    ensures |order| == |accesses|
  {
    assert |multiset(order)| == |order| && |multiset(accesses)| == |accesses|;
    forall a
      ensures a in order <==> a in accesses
    {
      SameMembers(order, accesses, a);
    }
    forall i, j | 0 <= i < j < |order|
      ensures order[i].row != order[j].row
    {
      if order[i].row == order[j].row {
        assert order[i] in order && order[j] in order;
        var p :| 0 <= p < |accesses| && accesses[p] == order[i];
        var q :| 0 <= q < |accesses| && accesses[q] == order[j];
        SeenTwice(order, i, j);
        SeenOnce(accesses, p);
      }
    }
  }

  lemma StartStep(committed: Store, w: map<RowId, nat>, s: State, t: TxnId, order: seq<Access>)
    requires Core(committed, w, s) && t in s.txns && s.txns[t].phase.Running?
    requires multiset(order) == multiset(s.txns[t].accesses)
    ensures Core(committed, w, Do(s, StartValidation(t, order)))
  {
    var x := s.txns[t];
    SortKeepsRows(order, x.accesses);
    PrivateStep(committed, w, s, t, x.(phase := Validating(0), accesses := order), s.clock);
  }

  // A row that passes validation under its latch has not been written since
  // the transaction started.
  lemma LatchStep(committed: Store, w: map<RowId, nat>, s: State, t: TxnId)
    requires Core(committed, w, s) && t in s.txns && s.txns[t].phase.Validating?
    requires s.txns[t].phase.n < |s.txns[t].accesses| && s.txns[t].accesses[s.txns[t].phase.n].row in s.rows
    requires s.rows[s.txns[t].accesses[s.txns[t].phase.n].row].latch.None?
    ensures Core(committed, w, Do(s, LatchNext(t)))
  {
    var x', row, r := LatchMove(committed, w, s, t);
    OneRowStep(committed, w, s, t, x', row, r);
  }

  lemma LatchMove(committed: Store, w: map<RowId, nat>, s: State, t: TxnId) returns (x': Txn, row: RowId, r: Row)
    requires Core(committed, w, s) && t in s.txns && s.txns[t].phase.Validating?
    requires s.txns[t].phase.n < |s.txns[t].accesses| && s.txns[t].accesses[s.txns[t].phase.n].row in s.rows
    requires s.rows[s.txns[t].accesses[s.txns[t].phase.n].row].latch.None?
    ensures Do(s, LatchNext(t)) == s.(rows := s.rows[row := r], txns := s.txns[t := x'])
    ensures RowMove(committed, w, s, t, x', row, r)
  {
    var x := s.txns[t];
    var n := x.phase.n;
    row := x.accesses[n].row;
    x' := x.(phase := if x.startTs < s.rows[row].wts then Releasing(n + 1, 0) else Validating(n + 1));
    r := s.rows[row].(latch := Some(t));
    FreeRow(committed, w, s, t, row);
    LatchedTxn(committed, w, x, x', s.rows.Keys, s.clock);
    LatchedHolds(x, x', n);
  }

  // The versions of a row nobody latches are in place, and remain so when t
  // takes the latch.
  lemma FreeRow(committed: Store, w: map<RowId, nat>, s: State, t: TxnId, row: RowId)
    requires Core(committed, w, s) && t in s.txns && row in s.rows && s.rows[row].latch.None?
    ensures committed[row] == s.rows[row].value && w[row] == s.rows[row].wts
    ensures !Holds(s.txns[t], row)
  {
    assert VersionOk(committed[row], w[row], s.txns, row, s.rows[row]);
    assert LatchOk(s.txns, row, s.rows[row]);
  }

  lemma LatchedTxn(committed: Store, w: map<RowId, nat>, x: Txn, x': Txn, rows: set<RowId>, clock: nat)
    requires TxnOk(x, rows, clock) && ReadsOk(committed, w, x)
    requires x.phase.Validating? && x.phase.n < |x.accesses|
    requires x'.phase == Releasing(x.phase.n + 1, 0) ||
             (x'.phase == Validating(x.phase.n + 1) && (x.accesses[x.phase.n].row in w ==> w[x.accesses[x.phase.n].row] <= x.startTs))
    requires x' == x.(phase := x'.phase)
    ensures TxnOk(x', rows, clock) && ReadsOk(committed, w, x') && Settled(x') && Settled(x)
    ensures forall row :: SamePendingBut(x', x, row)
  {
  }

  lemma LatchedHolds(x: Txn, x': Txn, n: nat)
    requires DistinctRows(x.accesses) && n < |x.accesses| && x'.accesses == x.accesses
    requires Lo(x) == Lo(x') == 0 && Hi(x) == n && Hi(x') == n + 1
    ensures SameHoldsBut(x', x, x.accesses[n].row) && Holds(x', x.accesses[n].row)
  {
  }

  lemma ReleasedHolds(x: Txn, x': Txn, d: nat)
    requires DistinctRows(x.accesses) && d < |x.accesses| && x'.accesses == x.accesses
    requires Lo(x) == d && Lo(x') == d + 1 && Hi(x) == Hi(x') && d < Hi(x)
    ensures SameHoldsBut(x', x, x.accesses[d].row) && !Holds(x', x.accesses[d].row) && Holds(x, x.accesses[d].row)
  {
  }

  lemma ReleasedTxn(committed: Store, w: map<RowId, nat>, x: Txn, x': Txn, rows: set<RowId>, clock: nat)
    requires TxnOk(x, rows, clock) && x.phase.Releasing? && x.phase.done < x.phase.n
    requires x' == x.(phase := Releasing(x.phase.n, x.phase.done + 1))
    ensures TxnOk(x', rows, clock) && ReadsOk(committed, w, x') && Settled(x') && Settled(x)
    ensures forall row :: SamePendingBut(x', x, row)
  {
  }

  // Only the holder of a latch can have a version pending for the row.
  lemma HeldRow(committed: Store, w: map<RowId, nat>, s: State, t: TxnId, row: RowId)
    requires Core(committed, w, s) && t in s.txns && row in s.rows && Holds(s.txns[t], row)
    ensures s.rows[row].latch == Some(t)
    ensures NothingPending(s.txns[t], row) ==> committed[row] == s.rows[row].value && w[row] == s.rows[row].wts
    ensures forall i: nat :: PendingAt(s.txns[t], i, row) ==>
              committed[row] == s.txns[t].accesses[i].data && w[row] == s.txns[t].endTs
  {
    assert LatchOk(s.txns, row, s.rows[row]);
    assert VersionOk(committed[row], w[row], s.txns, row, s.rows[row]);
  }

  lemma ReleaseMove(committed: Store, w: map<RowId, nat>, s: State, t: TxnId) returns (x': Txn, row: RowId, r: Row)
    requires Core(committed, w, s) && t in s.txns && s.txns[t].phase.Releasing?
    requires s.txns[t].phase.done < s.txns[t].phase.n <= |s.txns[t].accesses|
    requires s.txns[t].accesses[s.txns[t].phase.done].row in s.rows
    ensures Do(s, ReleaseNext(t)) == s.(rows := s.rows[row := r], txns := s.txns[t := x'])
    ensures RowMove(committed, w, s, t, x', row, r)
  {
    var x := s.txns[t];
    row := x.accesses[x.phase.done].row;
    x' := x.(phase := Releasing(x.phase.n, x.phase.done + 1));
    r := s.rows[row].(latch := None);
    ReleasedHolds(x, x', x.phase.done);
    ReleasedTxn(committed, w, x, x', s.rows.Keys, s.clock);
    HeldRow(committed, w, s, t, row);
  }

  lemma ReleaseStep(committed: Store, w: map<RowId, nat>, s: State, t: TxnId)
    requires Core(committed, w, s) && t in s.txns && s.txns[t].phase.Releasing?
    requires s.txns[t].phase.done < s.txns[t].phase.n <= |s.txns[t].accesses|
    requires s.txns[t].accesses[s.txns[t].phase.done].row in s.rows
    ensures Core(committed, w, Do(s, ReleaseNext(t)))
  {
    hide Core, RowMove;
    var x', row, r := ReleaseMove(committed, w, s, t);
    OneRowStep(committed, w, s, t, x', row, r);
  }

  lemma FinishStep(committed: Store, w: map<RowId, nat>, s: State, t: TxnId)
    requires Core(committed, w, s) && t in s.txns
    requires var p := s.txns[t].phase; (p.Writing? && p.left == 0) || (p.Releasing? && p.done == p.n)
    ensures Core(committed, w, Do(s, Finish(t)))
  {
    var x := s.txns[t];
    if x.phase.Writing? {
      PrivateStep(committed, w, s, t, x.(phase := Releasing(x.phase.n, 0)), s.clock);
    } else {
      PrivateStep(committed, w, s, t, x.(phase := Idle, accesses := []), s.clock);
    }
  }

  lemma ReturnMove(committed: Store, w: map<RowId, nat>, s: State, t: TxnId) returns (x': Txn, row: RowId, r: Row)
    requires Core(committed, w, s) && t in s.txns && s.txns[t].phase.Writing?
    requires 0 < s.txns[t].phase.left <= |s.txns[t].accesses|
    requires s.txns[t].accesses[s.txns[t].phase.left - 1].row in s.rows
    ensures var x := s.txns[t];
            var a := x.accesses[x.phase.left - 1];
            && x' == x.(phase := Writing(x.phase.n, x.phase.left - 1)) && row == a.row
            && r == if a.kind == WR then s.rows[row].(value := a.data, wts := x.endTs) else s.rows[row]
    ensures RowMove(committed, w, s, t, x', row, r)
  {
    var x := s.txns[t];
    var i := x.phase.left - 1;
    var a := x.accesses[i];
    x', row := x.(phase := Writing(x.phase.n, i)), a.row;
    r := if a.kind == WR then s.rows[row].(value := a.data, wts := x.endTs) else s.rows[row];
    assert SameHoldsBut(x', x, row) && Holds(x', row) && Holds(x, row);
    HeldRow(committed, w, s, t, row);
    assert a.kind == WR ==> PendingAt(x, i, row);
    assert NothingPending(x', row);
    assert a.kind == RD ==> NothingPending(x, row);
  }

  // cleanup stores one pending version, with its stamp.
  lemma ReturnStep(committed: Store, w: map<RowId, nat>, s: State, t: TxnId)
    requires Core(committed, w, s) && t in s.txns && s.txns[t].phase.Writing?
    requires 0 < s.txns[t].phase.left <= |s.txns[t].accesses|
    requires s.txns[t].accesses[s.txns[t].phase.left - 1].row in s.rows
    ensures Core(committed, w, Do(s, ReturnNext(t)))
  {
    hide Core, RowMove;
    var x', row, r := ReturnMove(committed, w, s, t);
    OneRowStep(committed, w, s, t, x', row, r);
    assert s.rows[row := s.rows[row]] == s.rows;
  }

  // ---------------------------------------------------------------------
  // Drawing end_ts commits
  // ---------------------------------------------------------------------

  ghost predicate WritesRow(accesses: seq<Access>, row: RowId) {
    exists i :: 0 <= i < |accesses| && accesses[i].row == row && accesses[i].kind == WR
  }

  ghost predicate ReadsCurrent(store: Store, accesses: seq<Access>) {
    forall i :: 0 <= i < |accesses| ==> accesses[i].row in store && store[accesses[i].row] == accesses[i].seen
  }

  ghost predicate WrittenBack(store: Store, after: Store, accesses: seq<Access>) {
    && after.Keys == store.Keys
    && (forall i :: 0 <= i < |accesses| && accesses[i].kind == WR ==>
          accesses[i].row in after && after[accesses[i].row] == accesses[i].data)
    && (forall row :: row in store && !WritesRow(accesses, row) ==> after[row] == store[row])
  }

  lemma WriteBackOne(store: Store, mid: Store, accesses: seq<Access>)
    requires accesses != [] && DistinctRows(accesses) && accesses[|accesses| - 1].row in store
    requires WrittenBack(store, mid, accesses[..|accesses| - 1])
    ensures var a := accesses[|accesses| - 1];
            && mid[a.row] == store[a.row]
            && WrittenBack(store, if a.kind == WR then mid[a.row := a.data] else mid, accesses)
  {
    var n := |accesses| - 1;
    var a, rest := accesses[n], accesses[..n];
    assert !WritesRow(rest, a.row);
    assert a.kind == WR ==> WritesRow(accesses, a.row);
    forall row | WritesRow(rest, row)
      ensures WritesRow(accesses, row)
    {
      var i :| 0 <= i < |rest| && rest[i].row == row && rest[i].kind == WR;
      assert accesses[i] == rest[i];
    }
    assert forall i :: 0 <= i < n ==> accesses[i] == rest[i];
  }

  // Run alone on a store where it would read what it saw, a transaction
  // changes exactly the rows it writes, to its private copies.
  lemma {:induction false} OpsRun(store: Store, accesses: seq<Access>)
    requires DistinctRows(accesses) && ReadsCurrent(store, accesses)
    ensures Run(store, OpsOf(accesses)).Some?
    ensures WrittenBack(store, Run(store, OpsOf(accesses)).value, accesses)
  {
    if accesses != [] {
      var a, rest := accesses[|accesses| - 1], accesses[..|accesses| - 1];
      OpsRun(store, rest);
      var mid := Run(store, OpsOf(rest)).value;
      WriteBackOne(store, mid, accesses);
      RunAppend(store, OpsOf(rest), Read(a.row, a.seen));
      RunAppend(store, OpsOf(rest) + [Read(a.row, a.seen)], Write(a.row, a.data));
      assert a.kind == RD ==> OpsOf(accesses) == OpsOf(rest) + [Read(a.row, a.seen)];
    }
  }

  lemma {:induction false} OpsWrite(accesses: seq<Access>, row: RowId)
    ensures Writes(OpsOf(accesses), row) <==> WritesRow(accesses, row)
  {
    if accesses != [] {
      var n := |accesses| - 1;
      OpsWrite(accesses[..n], row);
      var a := accesses[n];
      var read := OpsOf(accesses[..n]) + [Read(a.row, a.seen)];
      assert OpsOf(accesses) == if a.kind == WR then read + [Write(a.row, a.data)] else read;
      assert a.kind == WR ==> Write(a.row, a.data) in OpsOf(accesses);
      if Writes(OpsOf(accesses[..n]), row) {
        var op :| op in OpsOf(accesses[..n]) && op.Write? && op.row == row;
        assert op in OpsOf(accesses);
      }
    }
  }

  // Every read of a transaction that validated all its rows is current.
  lemma ValidatedReads(committed: Store, w: map<RowId, nat>, s: State, t: TxnId)
    requires Core(committed, w, s) && t in s.txns && s.txns[t].phase == Validating(|s.txns[t].accesses|)
    ensures ReadsCurrent(committed, s.txns[t].accesses)
  {
    var x := s.txns[t];
    forall i | 0 <= i < |x.accesses|
      ensures x.accesses[i].row in committed && committed[x.accesses[i].row] == x.accesses[i].seen
    {
      assert x.accesses[i] in x.accesses;
    }
  }

  ghost function Restamped(w: map<RowId, nat>, accesses: seq<Access>, ts: nat): map<RowId, nat> {
    map row | row in w :: if WritesRow(accesses, row) then ts else w[row]
  }

  // Whoever still validates has no latch on a row t writes, so the new stamp
  // exceeds its start and makes no promise about what it read.
  lemma OtherReadsOk(committed: Store, w: map<RowId, nat>, s: State, t: TxnId, u: TxnId, after: Store)
    requires Core(committed, w, s) && t in s.txns && s.txns[t].phase == Validating(|s.txns[t].accesses|)
    requires u in s.txns && u != t && WrittenBack(committed, after, s.txns[t].accesses)
    ensures ReadsOk(after, Restamped(w, s.txns[t].accesses, s.clock), s.txns[u])
  {
    var y := s.txns[u];
    var x := s.txns[t];
    var accesses := x.accesses;
    if y.phase.Validating? {
      forall i | 0 <= i < y.phase.n && i < |y.accesses| && y.accesses[i].row in w
        ensures !WritesRow(accesses, y.accesses[i].row)
      {
        var row := y.accesses[i].row;
        assert y.accesses[i] in y.accesses;
        assert Holds(y, row) && LatchOk(s.txns, row, s.rows[row]);
        assert WritesRow(accesses, row) ==> Holds(x, row);
      }
    }
  }

  lemma DrawnVersion(committed: Store, w: map<RowId, nat>, s: State, t: TxnId, after: Store, row: RowId)
    requires Core(committed, w, s) && t in s.txns && s.txns[t].phase == Validating(|s.txns[t].accesses|)
    requires WrittenBack(committed, after, s.txns[t].accesses) && row in s.rows
    ensures var x := s.txns[t];
            var x' := x.(endTs := s.clock, phase := Writing(|x.accesses|, |x.accesses|));
            && VersionOk(after[row], Restamped(w, x.accesses, s.clock)[row], s.txns[t := x'], row, s.rows[row])
            && LatchOk(s.txns[t := x'], row, s.rows[row])
  {
    var x := s.txns[t];
    var x' := x.(endTs := s.clock, phase := Writing(|x.accesses|, |x.accesses|));
    assert Holds(x', row) <==> Holds(x, row);
    ElsewhereLatch(s.txns, t, x', row, s.rows[row]);
    if Holds(x, row) {
      HeldRow(committed, w, s, t, row);
      if i :| 0 <= i < |x.accesses| && x.accesses[i].row == row && x.accesses[i].kind == WR {
        assert PendingAt(x', i, row);
      }
    } else {
      assert !WritesRow(x.accesses, row);
      assert LatchOk(s.txns, row, s.rows[row]);
      assert VersionOk(committed[row], w[row], s.txns, row, s.rows[row]);
    }
  }

  lemma DrawnTxns(committed: Store, w: map<RowId, nat>, s: State, t: TxnId, after: Store, u: TxnId)
    requires Core(committed, w, s) && t in s.txns && s.txns[t].phase == Validating(|s.txns[t].accesses|)
    requires WrittenBack(committed, after, s.txns[t].accesses) && u in s.txns
    ensures var s' := Do(s, DrawEnd(t));
            TxnOk(s'.txns[u], s.rows.Keys, s'.clock) && ReadsOk(after, Restamped(w, s.txns[t].accesses, s.clock), s'.txns[u])
  {
    if u != t {
      OtherReadsOk(committed, w, s, t, u, after);
    }
  }

  lemma DrawStep(committed: Store, w: map<RowId, nat>, s: State, t: TxnId)
    requires Core(committed, w, s) && t in s.txns && s.txns[t].phase == Validating(|s.txns[t].accesses|)
    ensures Run(committed, OpsOf(s.txns[t].accesses)).Some?
    ensures Core(Run(committed, OpsOf(s.txns[t].accesses)).value, Restamped(w, s.txns[t].accesses, s.clock), Do(s, DrawEnd(t)))
  {
    ValidatedReads(committed, w, s, t);
    OpsRun(committed, s.txns[t].accesses);
    DrawnCore(committed, w, s, t, Run(committed, OpsOf(s.txns[t].accesses)).value);
  }

  lemma DrawnCore(committed: Store, w: map<RowId, nat>, s: State, t: TxnId, after: Store)
    requires Core(committed, w, s) && t in s.txns && s.txns[t].phase == Validating(|s.txns[t].accesses|)
    requires WrittenBack(committed, after, s.txns[t].accesses)
    ensures Core(after, Restamped(w, s.txns[t].accesses, s.clock), Do(s, DrawEnd(t)))
  {
    hide LatchOk, VersionOk, TxnOk, ReadsOk;
    var w' := Restamped(w, s.txns[t].accesses, s.clock);
    var s' := Do(s, DrawEnd(t));
    forall row | row in s.rows
      ensures VersionOk(after[row], w'[row], s'.txns, row, s.rows[row])
      ensures LatchOk(s'.txns, row, s.rows[row])
    {
      DrawnVersion(committed, w, s, t, after, row);
    }
    forall u | u in s.txns
      ensures TxnOk(s'.txns[u], s.rows.Keys, s'.clock) && ReadsOk(after, w', s'.txns[u])
    {
      DrawnTxns(committed, w, s, t, after, u);
    }
  }

  // ---------------------------------------------------------------------
  // Every run
  // ---------------------------------------------------------------------

  lemma DrawStamps(s: State, t: TxnId)
    requires t in s.txns && |s.log| == |s.stamps|
    ensures var s' := Do(s, DrawEnd(t));
            |s'.log| == |s'.stamps| && Stamped(s') == Restamped(Stamped(s), s.txns[t].accesses, s.clock)
  {
    var accesses := s.txns[t].accesses;
    var s' := Do(s, DrawEnd(t));
    assert s'.log[..|s.log|] == s.log && s'.stamps[..|s.log|] == s.stamps;
    forall row | row in s.rows
      ensures LastWrite(s'.log, s'.stamps, row) == if WritesRow(accesses, row) then s.clock else LastWrite(s.log, s.stamps, row)
    {
      OpsWrite(accesses, row);
    }
  }

  lemma QuietStep(committed: Store, w: map<RowId, nat>, keys: map<RowId, RowKey>, s: State, step: Step)
    requires Core(committed, w, s) && Enabled(keys, s, step) && !step.DrawEnd?
    ensures Core(committed, w, Do(s, step))
  {
    var t := step.t;
    match step
    case Begin(_) => BeginStep(committed, w, s, t);
    case DoAccess(_, row, kind) => AccessStep(committed, w, s, t, row, kind);
    case Modify(_, i, value) => ModifyStep(committed, w, s, t, i, value);
    case GiveUp(_) => GiveUpStep(committed, w, s, t);
    case StartValidation(_, order) => StartStep(committed, w, s, t, order);
    case LatchNext(_) => LatchStep(committed, w, s, t);
    case ReturnNext(_) => ReturnStep(committed, w, s, t);
    case ReleaseNext(_) => ReleaseStep(committed, w, s, t);
    case Finish(_) => FinishStep(committed, w, s, t);
  }

  lemma QuietLog(keys: map<RowId, RowKey>, s: State, step: Step)
    requires Enabled(keys, s, step) && !step.DrawEnd? && |s.log| == |s.stamps|
    ensures var s' := Do(s, step);
            s'.log == s.log && s'.stamps == s.stamps && s.clock <= s'.clock && s'.rows.Keys == s.rows.Keys && Stamped(s') == Stamped(s)
  {
  }

  lemma StepKeeps(init: Store, keys: map<RowId, RowKey>, s: State, step: Step)
    requires Inv(init, s) && Enabled(keys, s, step)
    ensures Inv(init, Do(s, step))
  {
    hide Core, Run;
    var committed, w := Replay(init, s.log).value, Stamped(s);
    if step.DrawEnd? {
      DrawStep(committed, w, s, step.t);
      DrawStamps(s, step.t);
      ReplayAppend(init, s.log, OpsOf(s.txns[step.t].accesses));
    } else {
      QuietStep(committed, w, keys, s, step);
      QuietLog(keys, s, step);
    }
  }

  lemma {:induction false} RunKeeps(keys: map<RowId, RowKey>, init: Store, run: seq<State>, i: nat)
    requires IsRun(keys, init, run) && i < |run|
    ensures Inv(init, run[i])
  {
    if i > 0 {
      RunKeeps(keys, init, run, i - 1);
      assert Next(keys, run[i - 1], run[i]);
      var step :| Enabled(keys, run[i - 1], step) && run[i] == Do(run[i - 1], step);
      StepKeeps(init, keys, run[i - 1], step);
    }
  }

  // In every state of every run the transactions that have drawn end_ts are
  // serializable in end_ts order: run one after another in that order, each
  // reads the values it read; and a row nobody latches holds the result.
  lemma Serializable(keys: map<RowId, RowKey>, init: Store, run: seq<State>, i: nat)
    requires IsRun(keys, init, run) && i < |run|
    ensures var s := run[i];
            && |s.log| == |s.stamps|
            && (forall p, q :: 0 <= p < q < |s.stamps| ==> s.stamps[p] < s.stamps[q])
            && Replay(init, s.log).Some?
            && Replay(init, s.log).value.Keys == s.rows.Keys
            && (forall row :: row in s.rows && s.rows[row].latch.None? ==>
                  && Replay(init, s.log).value[row] == s.rows[row].value
                  && LastWrite(s.log, s.stamps, row) == s.rows[row].wts)
  {
    RunKeeps(keys, init, run, i);
    var s := run[i];
    forall row | row in s.rows && s.rows[row].latch.None?
      ensures Replay(init, s.log).value[row] == s.rows[row].value
      ensures LastWrite(s.log, s.stamps, row) == s.rows[row].wts
    {
      assert VersionOk(Replay(init, s.log).value[row], Stamped(s)[row], s.txns, row, s.rows[row]);
    }
  }
}
