// Validation of one transaction when nobody interferes: the steps of the
// optimistic system add up to what the managers compute in one go.

module ValidationSteps {
  import opened Options
  import opened SerialRuns
  import opened AccessOrder
  import opened OptimisticRuns

  ghost predicate IsChain(keys: map<RowId, RowKey>, run: seq<State>) {
    forall i :: 0 <= i < |run| - 1 ==> Next(keys, run[i], run[i + 1])
  }

  ghost predicate Among(accesses: seq<Access>, lo: nat, hi: nat, row: RowId) {
    exists i :: lo <= i < hi && i < |accesses| && accesses[i].row == row
  }

  ghost predicate RowsExist(rows: map<RowId, Row>, accesses: seq<Access>) {
    DistinctRows(accesses) && forall i :: 0 <= i < |accesses| ==> accesses[i].row in rows
  }

  // The rows with the latches of accesses[lo..hi] set to latch.
  ghost function Latching(rows: map<RowId, Row>, accesses: seq<Access>, lo: nat, hi: nat, latch: Option<TxnId>): map<RowId, Row> {
    map row | row in rows :: if Among(accesses, lo, hi, row) then rows[row].(latch := latch) else rows[row]
  }

  // The rows once accesses[..left] have been returned, last first.
  ghost function Storing(rows: map<RowId, Row>, accesses: seq<Access>, left: nat, endTs: nat): map<RowId, Row> {
    map row | row in rows :: Stored(rows[row], accesses, left, endTs, row)
  }

  function Stored(r: Row, accesses: seq<Access>, left: nat, endTs: nat, row: RowId): Row {
    if left == 0 || left > |accesses| then r
    else
      var a := accesses[left - 1];
      if a.row == row && a.kind == WR then r.(value := a.data, wts := endTs) else Stored(r, accesses, left - 1, endTs, row)
  }

  lemma Prepend(keys: map<RowId, RowKey>, s: State, run: seq<State>)
    requires run != [] && IsChain(keys, run) && Next(keys, s, run[0])
    ensures IsChain(keys, [s] + run)
  {
    forall i | 0 <= i < |[s] + run| - 1
      ensures Next(keys, ([s] + run)[i], ([s] + run)[i + 1])
    {
      assert i > 0 ==> Next(keys, run[i - 1], run[i - 1 + 1]);
    }
  }

  lemma Join(keys: map<RowId, RowKey>, run: seq<State>, more: seq<State>)
    requires run != [] && more != [] && IsChain(keys, run) && IsChain(keys, more) && run[|run| - 1] == more[0]
    ensures IsChain(keys, run + more[1..])
  {
    var all := run + more[1..];
    forall i | 0 <= i < |all| - 1
      ensures Next(keys, all[i], all[i + 1])
    {
      if i < |run| - 1 {
        assert Next(keys, run[i], run[i + 1]);
      } else {
        assert Next(keys, more[i - |run| + 1], more[i - |run| + 1 + 1]);
      }
    }
  }

  // ---------------------------------------------------------------------
  // Releasing, returning, latching
  // ---------------------------------------------------------------------

  lemma LatchOneMore(rows: map<RowId, Row>, accesses: seq<Access>, lo: nat, hi: nat, latch: Option<TxnId>)
    requires lo < hi <= |accesses| && accesses[lo].row in rows
    ensures var row := accesses[lo].row;
            Latching(rows[row := rows[row].(latch := latch)], accesses, lo + 1, hi, latch) == Latching(rows, accesses, lo, hi, latch)
  {
    var row := accesses[lo].row;
    forall p
      ensures Among(accesses, lo, hi, p) <==> p == row || Among(accesses, lo + 1, hi, p)
    {
    }
  }

  lemma LatchNone(rows: map<RowId, Row>, accesses: seq<Access>, lo: nat, latch: Option<TxnId>)
    ensures Latching(rows, accesses, lo, lo, latch) == rows
  {
  }

  // All latches are given back and the transaction is over.
  lemma {:induction false} ReleaseRun(keys: map<RowId, RowKey>, s: State, t: TxnId, n: nat, done: nat) returns (run: seq<State>)
    requires t in s.txns && s.txns[t].phase == Releasing(n, done) && done <= n <= |s.txns[t].accesses|
    requires RowsExist(s.rows, s.txns[t].accesses)
    ensures run != [] && run[0] == s && IsChain(keys, run)
    ensures var x := s.txns[t];
            run[|run| - 1] == s.(rows := Latching(s.rows, x.accesses, done, n, None), txns := s.txns[t := x.(phase := Idle, accesses := [])])
    decreases n - done
  {
    var x := s.txns[t];
    if done == n {
      LatchNone(s.rows, x.accesses, n, None);
      run := [s, Do(s, Finish(t))];
      assert Enabled(keys, s, Finish(t));
    } else {
      var s' := Do(s, ReleaseNext(t));
      assert Enabled(keys, s, ReleaseNext(t));
      LatchOneMore(s.rows, x.accesses, done, n, None);
      var rest := ReleaseRun(keys, s', t, n, done + 1);
      Prepend(keys, s, rest);
      run := [s] + rest;
    }
  }

  lemma StoreOneMore(rows: map<RowId, Row>, accesses: seq<Access>, left: nat, endTs: nat)
    requires 0 < left <= |accesses| && RowsExist(rows, accesses)
    ensures var a := accesses[left - 1];
            var rows' := if a.kind == WR then rows[a.row := rows[a.row].(value := a.data, wts := endTs)] else rows;
            Storing(rows', accesses, left - 1, endTs) == Storing(rows, accesses, left, endTs)
  {
    var a := accesses[left - 1];
    StoredElsewhere(rows[a.row], accesses, left - 1, endTs, a.row);
    StoredElsewhere(rows[a.row].(value := a.data, wts := endTs), accesses, left - 1, endTs, a.row);
  }

  lemma {:induction false} StoredElsewhere(r: Row, accesses: seq<Access>, left: nat, endTs: nat, row: RowId)
    requires left <= |accesses| && !Among(accesses, 0, left, row)
    ensures Stored(r, accesses, left, endTs, row) == r
  {
    if left > 0 {
      StoredElsewhere(r, accesses, left - 1, endTs, row);
    }
  }

  // The accesses go back last first, and only writes reach their row.
  lemma {:induction false} ReturnRun(keys: map<RowId, RowKey>, s: State, t: TxnId, n: nat, left: nat) returns (run: seq<State>)
    requires t in s.txns && s.txns[t].phase == Writing(n, left) && left <= |s.txns[t].accesses|
    requires RowsExist(s.rows, s.txns[t].accesses)
    ensures run != [] && run[0] == s && IsChain(keys, run)
    ensures var x := s.txns[t];
            run[|run| - 1] == s.(rows := Storing(s.rows, x.accesses, left, x.endTs), txns := s.txns[t := x.(phase := Releasing(n, 0))])
    decreases left
  {
    var x := s.txns[t];
    if left == 0 {
      assert Storing(s.rows, x.accesses, 0, x.endTs) == s.rows;
      run := [s, Do(s, Finish(t))];
      assert Enabled(keys, s, Finish(t));
    } else {
      var s' := Do(s, ReturnNext(t));
      assert Enabled(keys, s, ReturnNext(t));
      StoreOneMore(s.rows, x.accesses, left, x.endTs);
      var rest := ReturnRun(keys, s', t, n, left - 1);
      Prepend(keys, s, rest);
      run := [s] + rest;
    }
  }

  ghost predicate CurrentFrom(rows: map<RowId, Row>, accesses: seq<Access>, n: nat, startTs: nat) {
    forall i :: n <= i < |accesses| && accesses[i].row in rows ==> rows[accesses[i].row].wts <= startTs
  }

  // What LatchRun ends in.
  ghost function Latched(s: State, t: TxnId, n: nat, m: nat, ok: bool): State
    requires t in s.txns
  {
    var x := s.txns[t];
    s.(rows := Latching(s.rows, x.accesses, n, m, Some(t)), txns := s.txns[t := x.(phase := if ok then Validating(m) else Releasing(m, 0))])
  }

  // The next row is latched and turns out to be current or not.
  lemma LatchOne(keys: map<RowId, RowKey>, s: State, t: TxnId, n: nat) returns (s': State)
    requires t in s.txns && s.txns[t].phase == Validating(n) && n < |s.txns[t].accesses| && RowsExist(s.rows, s.txns[t].accesses)
    requires s.rows[s.txns[t].accesses[n].row].latch == None
    ensures var ok := s.rows[s.txns[t].accesses[n].row].wts <= s.txns[t].startTs;
            && s' == Latched(s, t, n, n + 1, ok) && Next(keys, s, s')
            && forall m, okay :: n < m <= |s.txns[t].accesses| ==> Latched(s', t, n + 1, m, okay) == Latched(s, t, n, m, okay)
    ensures RowsExist(s'.rows, s.txns[t].accesses)
    ensures forall i :: n < i < |s.txns[t].accesses| ==> s'.rows[s.txns[t].accesses[i].row] == s.rows[s.txns[t].accesses[i].row]
  {
    var x := s.txns[t];
    s' := Do(s, LatchNext(t));
    assert Enabled(keys, s, LatchNext(t));
    LatchOneMore(s.rows, x.accesses, n, n + 1, Some(t));
    LatchNone(s'.rows, x.accesses, n + 1, Some(t));
    forall m, okay | n < m <= |x.accesses|
      ensures Latched(s', t, n + 1, m, okay) == Latched(s, t, n, m, okay)
    {
      LatchOneMore(s.rows, x.accesses, n, m, Some(t));
    }
  }

  // Rows are latched in order up to the first that has changed, if any.
  lemma {:induction false} LatchRun(keys: map<RowId, RowKey>, s: State, t: TxnId, n: nat) returns (run: seq<State>, m: nat)
    requires t in s.txns && s.txns[t].phase == Validating(n) && n <= |s.txns[t].accesses|
    requires RowsExist(s.rows, s.txns[t].accesses)
    requires forall i :: n <= i < |s.txns[t].accesses| ==> s.rows[s.txns[t].accesses[i].row].latch == None
    ensures run != [] && run[0] == s && IsChain(keys, run) && n <= m <= |s.txns[t].accesses|
    ensures var ok := CurrentFrom(s.rows, s.txns[t].accesses, n, s.txns[t].startTs);
            (ok ==> m == |s.txns[t].accesses|) && run[|run| - 1] == Latched(s, t, n, m, ok)
    decreases |s.txns[t].accesses| - n
  {
    var x := s.txns[t];
    if n == |x.accesses| {
      LatchNone(s.rows, x.accesses, n, Some(t));
      run, m := [s], n;
      assert s.txns[t := x] == s.txns;
    } else {
      hide Next, Latching;
      var s' := LatchOne(keys, s, t, n);
      if x.startTs < s.rows[x.accesses[n].row].wts {
        run, m := [s, s'], n + 1;
      } else {
        var rest;
        rest, m := LatchRun(keys, s', t, n + 1);
        assert CurrentFrom(s'.rows, x.accesses, n + 1, x.startTs) == CurrentFrom(s.rows, x.accesses, n, x.startTs);
        Prepend(keys, s, rest);
        run := [s] + rest;
      }
    }
  }

  // ---------------------------------------------------------------------
  // The whole validation
  // ---------------------------------------------------------------------

  ghost predicate Unlatched(rows: map<RowId, Row>, accesses: seq<Access>) {
    forall i :: 0 <= i < |accesses| && accesses[i].row in rows ==> rows[accesses[i].row].latch == None
  }

  lemma LatchedAndBack(rows: map<RowId, Row>, accesses: seq<Access>, m: nat, t: TxnId)
    requires Unlatched(rows, accesses)
    ensures Latching(Latching(rows, accesses, 0, m, Some(t)), accesses, 0, m, None) == rows
  {
    var latched := Latching(rows, accesses, 0, m, Some(t));
    forall row | row in rows
      ensures Latching(latched, accesses, 0, m, None)[row] == rows[row]
    {
      if Among(accesses, 0, m, row) {
        assert latched[row] == rows[row].(latch := Some(t));
      }
    }
  }

  lemma {:induction false} StoredKeepsLatch(r: Row, accesses: seq<Access>, left: nat, endTs: nat, row: RowId, latch: Option<TxnId>)
    ensures Stored(r.(latch := latch), accesses, left, endTs, row) == Stored(r, accesses, left, endTs, row).(latch := latch)
    ensures Stored(r, accesses, left, endTs, row).latch == r.latch
    decreases left
  {
    if left > 0 {
      StoredKeepsLatch(r, accesses, left - 1, endTs, row, latch);
    }
  }

  lemma StoredUnderLatch(rows: map<RowId, Row>, accesses: seq<Access>, endTs: nat, t: TxnId)
    requires Unlatched(rows, accesses)
    ensures var n := |accesses|;
            Latching(Storing(Latching(rows, accesses, 0, n, Some(t)), accesses, n, endTs), accesses, 0, n, None) == Storing(rows, accesses, n, endTs)
  {
    var n := |accesses|;
    var latched := Latching(rows, accesses, 0, n, Some(t));
    var stored := Storing(latched, accesses, n, endTs);
    forall row | row in rows
      ensures Latching(stored, accesses, 0, n, None)[row] == Storing(rows, accesses, n, endTs)[row]
    {
      StoredKeepsLatch(rows[row], accesses, n, endTs, row, Some(t));
      StoredKeepsLatch(rows[row], accesses, n, endTs, row, None);
      assert stored[row] == Stored(latched[row], accesses, n, endTs, row);
      if Among(accesses, 0, n, row) {
        assert latched[row] == rows[row].(latch := Some(t));
        assert rows[row].(latch := None) == rows[row];
      }
    }
  }

  // What a row holds after validation: the write of the transaction, stamped
  // with its end timestamp, or what it held before.
  lemma {:induction false} StoredIs(r: Row, accesses: seq<Access>, left: nat, endTs: nat, i: nat)
    requires DistinctRows(accesses) && i < left <= |accesses|
    ensures Stored(r, accesses, left, endTs, accesses[i].row) ==
            if accesses[i].kind == WR then r.(value := accesses[i].data, wts := endTs) else r
    decreases left
  {
    if i < left - 1 {
      StoredIs(r, accesses, left - 1, endTs, i);
    } else {
      StoredElsewhere(r, accesses, left - 1, endTs, accesses[i].row);
    }
  }

  // With all rows latched and valid the transaction commits.
  lemma CommitRun(keys: map<RowId, RowKey>, s: State, t: TxnId, n: nat) returns (run: seq<State>)
    requires t in s.txns && s.txns[t].phase == Validating(n) && n == |s.txns[t].accesses| && RowsExist(s.rows, s.txns[t].accesses)
    ensures run != [] && run[0] == s && IsChain(keys, run)
    ensures var x := s.txns[t];
            run[|run| - 1] == State(Latching(Storing(s.rows, x.accesses, n, s.clock), x.accesses, 0, n, None),
                                    s.txns[t := Txn(x.startTs, s.clock, Idle, [])], s.clock + 1,
                                    s.log + [OpsOf(x.accesses)], s.stamps + [s.clock])
  {
    hide IsChain, RowsExist;
    var x, s' := s.txns[t], Do(s, DrawEnd(t));
    assert Enabled(keys, s, DrawEnd(t)) && Next(keys, s, s');
    var returning := ReturnRun(keys, s', t, n, n);
    StoringExists(s.rows, x.accesses, n, s.clock);
    var releasing := ReleaseRun(keys, returning[|returning| - 1], t, n, 0);
    Join(keys, returning, releasing);
    run := [s] + (returning + releasing[1..]);
    Prepend(keys, s, returning + releasing[1..]);
  }

  // The state in which t has committed its writes, and the one in which it has
  // given up.
  ghost function Committed(s: State, t: TxnId, order: seq<Access>): State
    requires t in s.txns
  {
    State(Storing(s.rows, order, |order|, s.clock), s.txns[t := Txn(s.txns[t].startTs, s.clock, Idle, [])], s.clock + 1,
          s.log + [OpsOf(order)], s.stamps + [s.clock])
  }

  function GivenUp(s: State, t: TxnId): State
    requires t in s.txns
  {
    s.(txns := s.txns[t := s.txns[t].(phase := Idle, accesses := [])])
  }

  // Up to the end of the latching.
  lemma StartRun(keys: map<RowId, RowKey>, s: State, t: TxnId, order: seq<Access>) returns (run: seq<State>, m: nat)
    requires t in s.txns && s.txns[t].phase.Running? && IsSortOf(keys, order, s.txns[t].accesses)
    requires RowsExist(s.rows, order) && Unlatched(s.rows, order)
    ensures run != [] && run[0] == s && IsChain(keys, run) && m <= |order|
    ensures var x, ok := s.txns[t].(accesses := order), CurrentFrom(s.rows, order, 0, s.txns[t].startTs);
            && (ok ==> m == |order|)
            && run[|run| - 1] == s.(rows := Latching(s.rows, order, 0, m, Some(t)),
                                    txns := s.txns[t := x.(phase := if ok then Validating(m) else Releasing(m, 0))])
  {
    hide IsChain, CurrentFrom, Latching;
    var s' := Do(s, StartValidation(t, order));
    assert Enabled(keys, s, StartValidation(t, order)) && Next(keys, s, s');
    hide Next;
    RunsOver(s, s', order);
    var latching;
    latching, m := LatchRun(keys, s', t, 0);
    Prepend(keys, s, latching);
    run := [s] + latching;
  }

  lemma ValidationRun(keys: map<RowId, RowKey>, s: State, t: TxnId, order: seq<Access>) returns (run: seq<State>)
    requires t in s.txns && s.txns[t].phase.Running? && IsSortOf(keys, order, s.txns[t].accesses)
    requires RowsExist(s.rows, order) && Unlatched(s.rows, order)
    ensures run != [] && run[0] == s && IsChain(keys, run)
    ensures run[|run| - 1] == if CurrentFrom(s.rows, order, 0, s.txns[t].startTs) then Committed(s, t, order) else GivenUp(s, t)
  {
    hide IsChain, RowsExist, Unlatched, CurrentFrom, Storing, Latching, IsSortOf;
    var start, m := StartRun(keys, s, t, order);
    LatchingExists(s.rows, order, 0, m, Some(t));
    var ending;
    if CurrentFrom(s.rows, order, 0, s.txns[t].startTs) {
      ending := CommitRun(keys, start[|start| - 1], t, m);
      StoredUnderLatch(s.rows, order, s.clock, t);
    } else {
      ending := ReleaseRun(keys, start[|start| - 1], t, m, 0);
      LatchedAndBack(s.rows, order, m, t);
    }
    Join(keys, start, ending);
    run := start + ending[1..];
  }

  // The validation of t, started when nobody holds a latch it needs and not
  // interrupted, is a sequence of steps of the system. It commits exactly when
  // no row it accessed was written after it started; then its writes are in
  // their rows, stamped with the clock, and otherwise no row has changed. No
  // latch stays behind.
  lemma ValidationIsSteps(keys: map<RowId, RowKey>, s: State, t: TxnId, order: seq<Access>) returns (run: seq<State>)
    requires t in s.txns && s.txns[t].phase.Running? && IsSortOf(keys, order, s.txns[t].accesses)
    requires RowsExist(s.rows, order) && Unlatched(s.rows, order)
    ensures run != [] && run[0] == s && IsChain(keys, run)
    ensures var s', ok := run[|run| - 1], CurrentFrom(s.rows, order, 0, s.txns[t].startTs);
            && s'.txns.Keys == s.txns.Keys && s'.txns[t].phase.Idle? && (forall u :: u in s.txns && u != t ==> s'.txns[u] == s.txns[u])
            && s'.rows.Keys == s.rows.Keys
            && s'.log == (if ok then s.log + [OpsOf(order)] else s.log)
            && (forall row :: row in s.rows && !Among(order, 0, |order|, row) ==> s'.rows[row] == s.rows[row])
            && forall i :: 0 <= i < |order| ==>
                 var a := order[i];
                 s'.rows[a.row] == if ok && a.kind == WR then Row(a.data, s.clock, None) else s.rows[a.row]
  {
    hide IsChain, RowsExist, Unlatched, CurrentFrom, Among, IsSortOf;
    run := ValidationRun(keys, s, t, order);
    Outcome(s.rows, order, s.clock);
    hide Stored;
  }

  lemma RunsOver(s: State, s1: State, order: seq<Access>)
    requires RowsExist(s.rows, order) && Unlatched(s.rows, order) && s1.rows == s.rows
    ensures RowsExist(s1.rows, order) && forall i :: 0 <= i < |order| ==> order[i].row in s1.rows && s1.rows[order[i].row].latch == None
  {
  }

  lemma LatchingExists(rows: map<RowId, Row>, accesses: seq<Access>, lo: nat, hi: nat, latch: Option<TxnId>)
    requires RowsExist(rows, accesses)
    ensures RowsExist(Latching(rows, accesses, lo, hi, latch), accesses)
  {
  }

  lemma StoringExists(rows: map<RowId, Row>, accesses: seq<Access>, left: nat, endTs: nat)
    requires RowsExist(rows, accesses)
    ensures RowsExist(Storing(rows, accesses, left, endTs), accesses)
  {
  }

  lemma Outcome(rows: map<RowId, Row>, accesses: seq<Access>, endTs: nat)
    requires RowsExist(rows, accesses) && Unlatched(rows, accesses)
    ensures forall row :: row in rows && !Among(accesses, 0, |accesses|, row) ==> Storing(rows, accesses, |accesses|, endTs)[row] == rows[row]
    ensures forall i :: 0 <= i < |accesses| ==> accesses[i].row in rows && rows[accesses[i].row].latch == None
    ensures forall i :: 0 <= i < |accesses| ==>
              var a := accesses[i];
              Storing(rows, accesses, |accesses|, endTs)[a.row] == if a.kind == WR then Row(a.data, endTs, None) else rows[a.row]
  {
    forall row | row in rows && !Among(accesses, 0, |accesses|, row)
      ensures Storing(rows, accesses, |accesses|, endTs)[row] == rows[row]
    {
      StoredElsewhere(rows[row], accesses, |accesses|, endTs, row);
    }
    forall i | 0 <= i < |accesses|
      ensures var a := accesses[i];
              Storing(rows, accesses, |accesses|, endTs)[a.row] == if a.kind == WR then Row(a.data, endTs, None) else rows[a.row]
    {
      StoredIs(rows[accesses[i].row], accesses, |accesses|, endTs, i);
    }
  }
}
