// Strict two-phase locking is serializable with exact undo.

module TwoPhaseSafety {
  import opened Options
  import opened SerialRuns
  import opened RowLockSpec
  import opened TwoPhaseLocking
  import opened TwoPhaseLocks

  // Whatever the interleaving, the rows - seen through the before-images of
  // unfinished writers - are what the committed transactions compute one after
  // another.

  function Image(accesses: seq<Access>, row: RowId): Value
    requires AccessKind(accesses, row).Some?
  {
    if accesses[|accesses| - 1].row == row then accesses[|accesses| - 1].image
    else Image(accesses[..|accesses| - 1], row)
  }

  // x has the row open for writing and has not committed.
  predicate DirtiedBy(x: Txn, row: RowId) {
    !x.phase.Committing? && AccessKind(x.accesses, row) == Some(WR)
  }

  // committed is the store with every unfinished write undone.
  ghost predicate Undone(committed: Store, store: Store, txns: map<TxnId, Txn>, row: RowId)
    requires row in committed && row in store
  {
    && (forall t :: t in txns && DirtiedBy(txns[t], row) ==> committed[row] == Image(txns[t].accesses, row))
    && ((forall t :: t in txns ==> !DirtiedBy(txns[t], row)) ==> committed[row] == store[row])
  }

  ghost predicate AllUndone(committed: Store, store: Store, txns: map<TxnId, Txn>) {
    && committed.Keys == store.Keys
    && forall row {:trigger Undone(committed, store, txns, row)} :: row in store ==> Undone(committed, store, txns, row)
  }

  // On the rows x has open, the store is what x alone makes of the committed store.
  ghost predicate Follows(committed: Store, store: Store, x: Txn) {
    && Run(committed, x.ops).Some?
    && forall row :: AccessKind(x.accesses, row).Some? ==>
         row in store && row in Run(committed, x.ops).value && Run(committed, x.ops).value[row] == store[row]
  }

  ghost predicate DataInv(init: Store, s: State) {
    && Replay(init, s.log).Some?
    && AllUndone(Replay(init, s.log).value, s.store, s.txns)
    && forall t :: t in s.txns && !Ending(s.txns[t]) ==> Follows(Replay(init, s.log).value, s.store, s.txns[t])
  }

  ghost predicate Inv(init: Store, s: State) {
    LockInv(s) && DataInv(init, s)
  }

  // Same transaction as far as data goes.
  predicate SameData(x: Txn, y: Txn) {
    x.accesses == y.accesses && x.ops == y.ops && x.phase == y.phase
  }

  // What one transaction may do to the committed view of a row without
  // changing the committed store.
  ghost predicate Settles(committed: Store, store': Store, x: Txn, x': Txn, row: RowId)
    requires row in committed && row in store'
  {
    if DirtiedBy(x', row) then
      committed[row] == Image(x'.accesses, row)
    else
      DirtiedBy(x, row) ==> committed[row] == store'[row]
  }

  lemma RowSettled(committed: Store, store: Store, store': Store, txns: map<TxnId, Txn>, txns': map<TxnId, Txn>, t: TxnId, row: RowId)
    requires row in committed && row in store && row in store' && t in txns && txns'.Keys == txns.Keys
    requires Undone(committed, store, txns, row)
    requires forall u :: u in txns && u != t ==> SameData(txns[u], txns'[u])
    requires Settles(committed, store', txns[t], txns'[t], row)
    requires store'[row] == store[row] || DirtiedBy(txns[t], row) || DirtiedBy(txns'[t], row)
    ensures Undone(committed, store', txns', row)
  {
    if forall u :: u in txns' ==> !DirtiedBy(txns'[u], row) {
      if !DirtiedBy(txns[t], row) {
        assert forall u :: u in txns ==> !DirtiedBy(txns[u], row);
      }
    }
  }

  lemma FollowsUnchanged(committed: Store, store: Store, committed': Store, store': Store, x: Txn, x': Txn)
    requires Follows(committed, store, x) && SameData(x, x') && TxnOk(x) && !Ending(x)
    requires committed.Keys == committed'.Keys && store.Keys == store'.Keys == committed.Keys
    requires forall row :: row in store && AccessKind(x.accesses, row).Some? ==>
               committed'[row] == committed[row] && store'[row] == store[row]
    ensures Follows(committed', store', x')
  {
    forall row | row in committed && Touches(x.ops, row)
      ensures committed[row] == committed'[row]
    {
      var op :| op in x.ops && op.row == row;
    }
    RunAgrees(committed, committed', x.ops);
  }

  ghost predicate OthersSame(txns: map<TxnId, Txn>, txns': map<TxnId, Txn>, t: TxnId) {
    && txns.Keys == txns'.Keys
    && forall u :: u in txns && u != t ==> SameData(txns[u], txns'[u])
  }

  ghost predicate AllSettled(committed: Store, store': Store, x: Txn, x': Txn) {
    forall row :: row in committed && row in store' ==> Settles(committed, store', x, x', row)
  }

  // x had the row open for writing wherever the store changes.
  ghost predicate OwnChange(store: Store, store': Store, x: Txn) {
    && store.Keys == store'.Keys
    && forall row :: row in store && store'[row] != store[row] ==> DirtiedBy(x, row)
  }

  lemma SettledUndone(committed: Store, store: Store, store': Store, txns: map<TxnId, Txn>, txns': map<TxnId, Txn>, t: TxnId)
    requires t in txns && AllUndone(committed, store, txns) && OthersSame(txns, txns', t)
    requires OwnChange(store, store', txns[t]) && AllSettled(committed, store', txns[t], txns'[t])
    ensures AllUndone(committed, store', txns')
  {
    forall row | row in store
      ensures Undone(committed, store', txns', row)
    {
      assert Undone(committed, store, txns, row);
      assert Settles(committed, store', txns[t], txns'[t], row);
      RowSettled(committed, store, store', txns, txns', t, row);
    }
  }

  lemma OtherFollows(init: Store, s: State, t: TxnId, store': Store, u: TxnId, y: Txn)
    requires Inv(init, s) && t in s.txns && u in s.txns && u != t && OwnChange(s.store, store', s.txns[t])
    requires SameData(s.txns[u], y) && !Ending(y)
    ensures Follows(Replay(init, s.log).value, store', y)
  {
    var committed := Replay(init, s.log).value;
    forall row | row in s.store && AccessKind(s.txns[u].accesses, row).Some?
      ensures store'[row] == s.store[row]
    {
      if store'[row] != s.store[row] {
        Exclusive(s, t, u, row);
      }
    }
    FollowsUnchanged(committed, s.store, committed, store', s.txns[u], y);
  }

  // A step of t alone that leaves the committed store as it is.
  lemma SettledStep(init: Store, s: State, s': State, t: TxnId)
    requires Inv(init, s) && LockInv(s') && t in s.txns && s'.log == s.log
    requires OthersSame(s.txns, s'.txns, t)
    requires OwnChange(s.store, s'.store, s.txns[t])
    requires AllSettled(Replay(init, s.log).value, s'.store, s.txns[t], s'.txns[t])
    requires !Ending(s'.txns[t]) ==> Follows(Replay(init, s.log).value, s'.store, s'.txns[t])
    ensures Inv(init, s')
  {
    var committed := Replay(init, s.log).value;
    SettledUndone(committed, s.store, s'.store, s.txns, s'.txns, t);
    forall u | u in s.txns && u != t && !Ending(s'.txns[u])
      ensures Follows(committed, s'.store, s'.txns[u])
    {
      OtherFollows(init, s, t, s'.store, u, s'.txns[u]);
    }
  }

  // The open rows of a transaction and what it did to them.
  ghost predicate SameOpen(x: Txn, x': Txn) {
    && x.accesses == x'.accesses
    && (x.accesses == [] || (x.phase.Committing? <==> x'.phase.Committing?))
    && (Ending(x') || (x'.ops == x.ops && !Ending(x)) || (x'.ops == [] && x.accesses == []))
  }

  lemma SameOpenSettles(committed: Store, store: Store, txns: map<TxnId, Txn>, t: TxnId, x': Txn)
    requires t in txns && SameOpen(txns[t], x') && AllUndone(committed, store, txns)
    requires !Ending(txns[t]) ==> Follows(committed, store, txns[t])
    ensures AllSettled(committed, store, txns[t], x')
    ensures !Ending(x') ==> Follows(committed, store, x')
  {
    forall row | row in committed && row in store
      ensures Settles(committed, store, txns[t], x', row)
    {
      assert Undone(committed, store, txns, row);
    }
  }

  // A step that only moves t from phase to phase.
  lemma PhaseStep(init: Store, s: State, s': State, t: TxnId)
    requires Inv(init, s) && LockInv(s') && t in s.txns
    requires s'.log == s.log && s'.store == s.store && OthersSame(s.txns, s'.txns, t)
    requires SameOpen(s.txns[t], s'.txns[t])
    ensures Inv(init, s')
  {
    SameOpenSettles(Replay(init, s.log).value, s.store, s.txns, t, s'.txns[t]);
    SettledStep(init, s, s', t);
  }

  lemma LocalPhaseStep(init: Store, s: State, t: TxnId, x: Txn)
    requires Inv(init, s) && t in s.txns && SameOpen(s.txns[t], x)
    requires TxnOk(x) && SameClaims(s.txns[t], x) && (x.ts == s.txns[t].ts || ClaimsNothing(x))
    ensures Inv(init, s.(txns := s.txns[t := x]))
  {
    var s' := s.(txns := s.txns[t := x]);
    LocalStepKeepsLocks(s, t, x, s');
    PhaseStep(init, s, s', t);
  }

  // ---------------------------------------------------------------------
  // The steps
  // ---------------------------------------------------------------------

  lemma MovedTxn(x: Txn, x': Txn)
    requires TxnOk(x) && x'.accesses == x.accesses
    requires x.phase.Idle? ==> x'.phase.Active? && x'.ops == []
    requires x.phase.Active? ==> x' == x.(phase := Aborting)
    requires x.phase.Waiting? && x.ready ==> x' == x.(phase := Granted(x.phase.row, x.phase.kind))
    requires x.phase.Waiting? && !x.ready ==> x' == x.(phase := Withdrawing(x.phase.row, x.phase.kind))
    requires Ending(x) ==> x.accesses == [] && x'.phase.Idle? && x'.ops == []
    requires !x.phase.Withdrawing? && !x.phase.Granted?
    ensures TxnOk(x') && SameClaims(x, x') && SameOpen(x, x')
    ensures x.accesses == [] && !x.phase.Waiting? ==> ClaimsNothing(x')
  {
  }

  // Begin, Awake, GiveUp, EnterAbort and Finish.
  lemma MoveKeeps(alg: Algorithm, init: Store, s: State, step: Step)
    requires Inv(init, s) && Sane(s) && Enabled(alg, s, step)
    requires step.Begin? || step.Awake? || step.GiveUp? || step.EnterAbort? || step.Finish?
    ensures Inv(init, Do(alg, s, step))
  {
    var s' := Do(alg, s, step);
    var x, x' := s.txns[step.t], s'.txns[step.t];
    MovedTxn(x, x');
    LocalPhaseStep(init, s, step.t, x');
  }

  lemma RequestKeeps(alg: Algorithm, init: Store, s: State, t: TxnId, row: RowId, kind: AccessType)
    requires Inv(init, s) && t in s.txns && row in s.locks
    requires s.txns[t].phase.Active? && AccessKind(s.txns[t].accesses, row).None?
    ensures Inv(init, RequestRow(alg, s, t, row, kind))
  {
    var x := RequestedBy(alg, s.locks[row], t, s.txns[t], row, kind);
    RequestKeepsLocks(alg, s, t, row, kind);
    RequestedOpen(alg, s.locks[row], t, s.txns[t], row, kind);
    UpdateSame(s.txns, t, x);
    PhaseStep(init, s, RequestRow(alg, s, t, row, kind), t);
  }

  lemma UpdateSame(txns: map<TxnId, Txn>, t: TxnId, x: Txn)
    requires t in txns
    ensures OthersSame(txns, txns[t := x], t)
  {
  }

  lemma RequestedOpen(alg: Algorithm, lk: Lock, t: TxnId, x: Txn, row: RowId, kind: AccessType)
    requires x.phase.Active?
    ensures SameOpen(x, RequestedBy(alg, lk, t, x, row, kind))
  {
  }

  lemma WithdrawKeeps(init: Store, s: State, t: TxnId)
    requires Inv(init, s) && t in s.txns && s.txns[t].phase.Withdrawing? && s.txns[t].phase.row in s.locks
    ensures Inv(init, ReleaseRow(s, t, s.txns[t].phase.row, s.txns[t].(phase := Aborting)))
  {
    var x := s.txns[t];
    var x' := x.(phase := Aborting);
    WithdrawnTxn(x);
    ReleaseKeepsLocks(s, t, x.phase.row, x');
    NotifySame(s.txns, t, x', s.locks[x.phase.row], Release(s.locks[x.phase.row], t));
    PhaseStep(init, s, ReleaseRow(s, t, x.phase.row, x'), t);
  }

  lemma WithdrawnTxn(x: Txn)
    requires TxnOk(x) && x.phase.Withdrawing?
    ensures TxnOk(x.(phase := Aborting))
    ensures SameOpen(x, x.(phase := Aborting))
    ensures ClaimOn(x.(phase := Aborting), x.phase.row) == NoClaim
    ensures SameClaimsBut(x, x.(phase := Aborting), x.phase.row)
  {
  }

  lemma NotifySame(txns: map<TxnId, Txn>, t: TxnId, x: Txn, before: Lock, after: Lock)
    requires t in txns
    ensures OthersSame(txns, Notify(txns, before, after)[t := x], t)
  {
  }

  // A step of t alone on its own rows.
  lemma OwnStep(init: Store, s: State, t: TxnId, x: Txn, store': Store)
    requires Inv(init, s) && t in s.txns && OwnChange(s.store, store', s.txns[t])
    requires TxnOk(x) && SameClaims(s.txns[t], x) && x.ts == s.txns[t].ts
    requires AllSettled(Replay(init, s.log).value, store', s.txns[t], x)
    requires !Ending(x) ==> Follows(Replay(init, s.log).value, store', x)
    ensures Inv(init, s.(store := store', txns := s.txns[t := x]))
  {
    var s' := s.(store := store', txns := s.txns[t := x]);
    LocalStepKeepsLocks(s, t, x, s');
    SettledStep(init, s, s', t);
  }

  lemma TxnFacts(init: Store, s: State, t: TxnId)
    requires Inv(init, s) && t in s.txns
    ensures TxnOk(s.txns[t])
    ensures AllUndone(Replay(init, s.log).value, s.store, s.txns)
    ensures !Ending(s.txns[t]) ==> Follows(Replay(init, s.log).value, s.store, s.txns[t])
  {
  }

  // The row a transaction reads is, to it, what it alone would have made of
  // the committed store.
  lemma ReadKeeps(init: Store, s: State, t: TxnId, row: RowId)
    requires Inv(init, s) && t in s.txns && s.txns[t].phase.Active? && AccessKind(s.txns[t].accesses, row).Some?
    requires row in s.store
    ensures Inv(init, s.(txns := s.txns[t := s.txns[t].(ops := s.txns[t].ops + [Read(row, s.store[row])])]))
  {
    var x := s.txns[t];
    var op := Read(row, s.store[row]);
    var x' := x.(ops := x.ops + [op]);
    TxnFacts(init, s, t);
    AppendedOp(x, op);
    ReadFollows(Replay(init, s.log).value, s.store, x, row);
    SameAccessesSettle(Replay(init, s.log).value, s.store, s.store, s.txns, t, x');
    OwnStep(init, s, t, x', s.store);
  }

  lemma AppendedOp(x: Txn, op: Op)
    requires TxnOk(x) && x.phase.Active? && AccessKind(x.accesses, op.row).Some?
    requires op.Write? ==> AccessKind(x.accesses, op.row) == Some(WR)
    ensures TxnOk(x.(ops := x.ops + [op])) && SameClaims(x, x.(ops := x.ops + [op]))
  {
  }

  lemma ReadFollows(committed: Store, store: Store, x: Txn, row: RowId)
    requires Follows(committed, store, x) && AccessKind(x.accesses, row).Some? && row in store
    ensures Follows(committed, store, x.(ops := x.ops + [Read(row, store[row])]))
  {
    RunAppend(committed, x.ops, Read(row, store[row]));
  }

  lemma WriteFollows(committed: Store, store: Store, x: Txn, row: RowId, value: Value)
    requires Follows(committed, store, x) && AccessKind(x.accesses, row).Some? && row in store
    ensures Follows(committed, store[row := value], x.(ops := x.ops + [Write(row, value)]))
  {
    RunAppend(committed, x.ops, Write(row, value));
  }

  lemma SameAccessesSettle(committed: Store, store: Store, store': Store, txns: map<TxnId, Txn>, t: TxnId, x': Txn)
    requires t in txns && x'.accesses == txns[t].accesses && x'.phase == txns[t].phase
    requires AllUndone(committed, store, txns) && store'.Keys == store.Keys
    ensures AllSettled(committed, store', txns[t], x')
  {
    forall row | row in committed && row in store'
      ensures Settles(committed, store', txns[t], x', row)
    {
      assert Undone(committed, store, txns, row);
    }
  }

  lemma OneRowChange(store: Store, x: Txn, row: RowId, value: Value)
    requires row in store && DirtiedBy(x, row)
    ensures OwnChange(store, store[row := value], x)
  {
  }

  lemma WriteKeeps(init: Store, s: State, t: TxnId, row: RowId, value: Value)
    requires Inv(init, s) && t in s.txns && s.txns[t].phase.Active? && AccessKind(s.txns[t].accesses, row) == Some(WR)
    requires row in s.store
    ensures Inv(init, s.(store := s.store[row := value], txns := s.txns[t := s.txns[t].(ops := s.txns[t].ops + [Write(row, value)])]))
  {
    var x := s.txns[t];
    var op := Write(row, value);
    var x' := x.(ops := x.ops + [op]);
    var store' := s.store[row := value];
    TxnFacts(init, s, t);
    OneRowChange(s.store, x, row, value);
    AppendedOp(x, op);
    WriteFollows(Replay(init, s.log).value, s.store, x, row, value);
    SameAccessesSettle(Replay(init, s.log).value, s.store, store', s.txns, t, x');
    OwnStep(init, s, t, x', store');
  }

  // The image is taken while nobody else can have the row open for writing, so
  // it is the committed value.
  lemma ImageKeeps(init: Store, s: State, t: TxnId)
    requires Inv(init, s) && t in s.txns && s.txns[t].phase.Granted? && s.txns[t].phase.row in s.store
    ensures var x := s.txns[t];
            Inv(init, s.(txns := s.txns[t := x.(phase := Active,
                                                accesses := x.accesses + [Access(x.phase.row, x.phase.kind, s.store[x.phase.row])])]))
  {
    var x := s.txns[t];
    var row := x.phase.row;
    var a := Access(row, x.phase.kind, s.store[row]);
    var x' := x.(phase := Active, accesses := x.accesses + [a]);
    var committed := Replay(init, s.log).value;
    TxnFacts(init, s, t);
    OpenedTxn(x, a);
    OwnedRowIsCommitted(init, s, t, row);
    OpenedFollows(committed, s.store, x, a);
    OpenedSettles(committed, s.store, s.txns, t, a);
    OwnStep(init, s, t, x', s.store);
  }

  lemma OpenedTxn(x: Txn, a: Access)
    requires TxnOk(x) && x.phase.Granted? && a.row == x.phase.row && a.kind == x.phase.kind
    ensures var x' := x.(phase := Active, accesses := x.accesses + [a]); TxnOk(x') && SameClaims(x, x')
  {
    var x' := x.(phase := Active, accesses := x.accesses + [a]);
    forall row
      ensures AccessKind(x'.accesses, row) == if a.row == row then Some(a.kind) else AccessKind(x.accesses, row)
    {
      AccessKindAppend(x.accesses, a, row);
    }
    AccessKindIs(x.accesses, a.row);
  }

  lemma OwnedRowIsCommitted(init: Store, s: State, t: TxnId, row: RowId)
    requires Inv(init, s) && t in s.txns && row in s.store
    requires ClaimOn(s.txns[t], row).Owns? && AccessKind(s.txns[t].accesses, row).None?
    ensures Replay(init, s.log).value[row] == s.store[row]
  {
    forall u | u in s.txns
      ensures !DirtiedBy(s.txns[u], row)
    {
      if DirtiedBy(s.txns[u], row) {
        Exclusive(s, t, u, row);
      }
    }
    assert Undone(Replay(init, s.log).value, s.store, s.txns, row);
  }

  lemma OpenedFollows(committed: Store, store: Store, x: Txn, a: Access)
    requires Follows(committed, store, x) && TxnOk(x) && x.phase.Granted? && a.row == x.phase.row
    requires committed.Keys == store.Keys && a.row in store && committed[a.row] == store[a.row]
    ensures Follows(committed, store, x.(phase := Active, accesses := x.accesses + [a]))
  {
    RunKeepsRows(committed, x.ops);
    assert !Writes(x.ops, a.row);
    forall row
      ensures AccessKind(x.accesses + [a], row) == if a.row == row then Some(a.kind) else AccessKind(x.accesses, row)
    {
      AccessKindAppend(x.accesses, a, row);
    }
  }

  lemma OpenedSettles(committed: Store, store: Store, txns: map<TxnId, Txn>, t: TxnId, a: Access)
    requires t in txns && AllUndone(committed, store, txns) && !txns[t].phase.Committing?
    requires a.row in store && committed[a.row] == store[a.row] == a.image
    ensures AllSettled(committed, store, txns[t], txns[t].(phase := Active, accesses := txns[t].accesses + [a]))
  {
    var x := txns[t];
    var x' := x.(phase := Active, accesses := x.accesses + [a]);
    assert x'.accesses[..|x.accesses|] == x.accesses;
    forall row | row in committed && row in store
      ensures Settles(committed, store, x, x', row)
    {
      assert Undone(committed, store, txns, row);
      AccessKindAppend(x.accesses, a, row);
    }
  }

  // cleanup releases the last access; an aborting write is undone first.
  function Restored(store: Store, x: Txn): Store
    requires x.accesses != []
  {
    var a := x.accesses[|x.accesses| - 1];
    if x.phase.Aborting? && a.kind == WR then store[a.row := a.image] else store
  }

  lemma ReleasedTxn(x: Txn)
    requires TxnOk(x) && Ending(x) && x.accesses != []
    ensures var x' := x.(accesses := x.accesses[..|x.accesses| - 1]);
            var row := x.accesses[|x.accesses| - 1].row;
            TxnOk(x') && ClaimOn(x', row) == NoClaim && SameClaimsBut(x, x', row)
  {
    var x' := x.(accesses := x.accesses[..|x.accesses| - 1]);
    AccessKindIs(x'.accesses, x.accesses[|x.accesses| - 1].row);
  }

  lemma ReleasedSettles(committed: Store, store: Store, txns: map<TxnId, Txn>, t: TxnId)
    requires t in txns && AllUndone(committed, store, txns)
    requires Ending(txns[t]) && txns[t].accesses != [] && TxnOk(txns[t])
    requires txns[t].accesses[|txns[t].accesses| - 1].row in store
    ensures var x := txns[t];
            && OwnChange(store, Restored(store, x), x)
            && AllSettled(committed, Restored(store, x), x, x.(accesses := x.accesses[..|x.accesses| - 1]))
  {
    var x := txns[t];
    var a := x.accesses[|x.accesses| - 1];
    var x' := x.(accesses := x.accesses[..|x.accesses| - 1]);
    AccessKindIs(x'.accesses, a.row);
    forall row | row in store
      ensures Settles(committed, Restored(store, x), x, x', row)
    {
      assert Undone(committed, store, txns, row);
    }
  }

  lemma ReleaseLastKeeps(init: Store, s: State, t: TxnId, s': State)
    requires t in s.txns && Ending(s.txns[t]) && s.txns[t].accesses != []
    requires s.txns[t].accesses[|s.txns[t].accesses| - 1].row in s.locks
    requires var x := s.txns[t];
             var last := |x.accesses| - 1;
             s' == ReleaseRow(s.(store := Restored(s.store, x)), t, x.accesses[last].row, x.(accesses := x.accesses[..last]))
    requires Inv(init, s)
    ensures Inv(init, s')
  {
    var x := s.txns[t];
    var last := |x.accesses| - 1;
    var row, x' := x.accesses[last].row, x.(accesses := x.accesses[..last]);
    var mid := s.(store := Restored(s.store, x));
    ReleasedTxn(x);
    ReleasedSettles(Replay(init, s.log).value, s.store, s.txns, t);
    SameLocks(s, mid);
    ReleaseKeepsLocks(mid, t, row, x');
    NotifySame(s.txns, t, x', s.locks[row], Release(s.locks[row], t));
    SettledStep(init, s, s', t);
  }

  lemma SameLocks(s: State, s': State)
    requires LockInv(s) && s'.locks == s.locks && s'.txns == s.txns && s'.store.Keys == s.store.Keys
    ensures LockInv(s')
  {
  }

  // Entering cleanup(RCOK) is the commit point: the committed store moves by
  // exactly the operations of t, and nobody else can tell.
  lemma CommitKeeps(init: Store, s: State, t: TxnId)
    requires Inv(init, s) && t in s.txns && s.txns[t].phase.Active?
    ensures Inv(init, s.(txns := s.txns[t := s.txns[t].(phase := Committing)], log := s.log + [s.txns[t].ops]))
  {
    hide LockInv;
    var x := s.txns[t];
    var x' := x.(phase := Committing);
    var s' := s.(txns := s.txns[t := x'], log := s.log + [x.ops]);
    var before := Replay(init, s.log).value;
    TxnFacts(init, s, t);
    ReplayAppend(init, s.log, x.ops);
    var after := Run(before, x.ops).value;
    assert Replay(init, s'.log) == Some(after);
    RunKeepsRows(before, x.ops);
    CommittedTxn(x);
    LocalStepKeepsLocks(s, t, x', s');
    forall row | row in s.store
      ensures Undone(after, s.store, s'.txns, row)
    {
      CommittedUndone(init, s, t, row);
    }
    forall u | u in s.txns && u != t && !Ending(s.txns[u])
      ensures Follows(after, s.store, s.txns[u])
    {
      CommittedFollows(init, s, t, u);
    }
  }

  lemma CommittedTxn(x: Txn)
    requires TxnOk(x) && x.phase.Active?
    ensures TxnOk(x.(phase := Committing)) && SameClaims(x, x.(phase := Committing))
  {
  }

  // A row only moves on commit if t had it open for writing, so no other
  // transaction has it open.
  lemma CommitMoves(init: Store, s: State, t: TxnId, row: RowId)
    requires Inv(init, s) && t in s.txns && s.txns[t].phase.Active? && row in s.store
    ensures var before := Replay(init, s.log).value;
            && Run(before, s.txns[t].ops).Some?
            && row in before && row in Run(before, s.txns[t].ops).value
            && (Run(before, s.txns[t].ops).value[row] != before[row] ==> AccessKind(s.txns[t].accesses, row) == Some(WR))
  {
    var before := Replay(init, s.log).value;
    TxnFacts(init, s, t);
    RunKeepsRows(before, s.txns[t].ops);
    if Writes(s.txns[t].ops, row) {
      var op :| op in s.txns[t].ops && op.Write? && op.row == row;
    }
  }

  lemma CommittedUndone(init: Store, s: State, t: TxnId, row: RowId)
    requires Inv(init, s) && t in s.txns && s.txns[t].phase.Active? && row in s.store
    requires Run(Replay(init, s.log).value, s.txns[t].ops).Some?
    requires row in Run(Replay(init, s.log).value, s.txns[t].ops).value
    ensures Undone(Run(Replay(init, s.log).value, s.txns[t].ops).value, s.store, s.txns[t := s.txns[t].(phase := Committing)], row)
  {
    var before, x := Replay(init, s.log).value, s.txns[t];
    var after, txns' := Run(before, x.ops).value, s.txns[t := x.(phase := Committing)];
    TxnFacts(init, s, t);
    CommitMoves(init, s, t, row);
    if AccessKind(x.accesses, row).Some? {
      NobodyElseDirty(init, s, t, row);
      assert after[row] == s.store[row];
    } else {
      RowUnmoved(before, s.store, s.txns, t, row);
    }
  }

  lemma NobodyElseDirty(init: Store, s: State, t: TxnId, row: RowId)
    requires Inv(init, s) && t in s.txns && AccessKind(s.txns[t].accesses, row).Some?
    ensures forall u :: u in s.txns && u != t ==> !DirtiedBy(s.txns[u], row)
  {
    forall u | u in s.txns && u != t
      ensures !DirtiedBy(s.txns[u], row)
    {
      if DirtiedBy(s.txns[u], row) {
        Exclusive(s, t, u, row);
      }
    }
  }

  lemma RowUnmoved(committed: Store, store: Store, txns: map<TxnId, Txn>, t: TxnId, row: RowId)
    requires t in txns && AccessKind(txns[t].accesses, row).None?
    requires row in committed && row in store && Undone(committed, store, txns, row)
    ensures Undone(committed, store, txns[t := txns[t].(phase := Committing)], row)
  {
    var txns' := txns[t := txns[t].(phase := Committing)];
    if forall u :: u in txns' ==> !DirtiedBy(txns'[u], row) {
      forall u | u in txns
        ensures !DirtiedBy(txns[u], row)
      {
        assert u != t ==> txns'[u] == txns[u];
      }
    }
  }

  lemma CommittedFollows(init: Store, s: State, t: TxnId, u: TxnId)
    requires Inv(init, s) && t in s.txns && s.txns[t].phase.Active? && u in s.txns && u != t && !Ending(s.txns[u])
    requires Run(Replay(init, s.log).value, s.txns[t].ops).Some?
    ensures Follows(Run(Replay(init, s.log).value, s.txns[t].ops).value, s.store, s.txns[u])
  {
    var before, x, y := Replay(init, s.log).value, s.txns[t], s.txns[u];
    var after := Run(before, x.ops).value;
    RunKeepsRows(before, x.ops);
    forall row | row in s.store && AccessKind(y.accesses, row).Some?
      ensures after[row] == before[row]
    {
      CommitMoves(init, s, t, row);
      if after[row] != before[row] {
        Exclusive(s, t, u, row);
      }
    }
    TxnFacts(init, s, u);
    FollowsUnchanged(before, s.store, after, s.store, y, y);
  }

  // ---------------------------------------------------------------------
  // Every run
  // ---------------------------------------------------------------------

  lemma InitHolds(init: Store, s: State)
    requires Init(s, init)
    ensures Inv(init, s)
  {
    forall row | row in s.locks
      ensures LockMatches(s.txns, row, FREE)
    {
      forall e: Entry
        ensures EntryMatches(ClaimBy(s.txns, row, e), FREE, e)
      {
      }
    }
  }

  lemma StepKeeps(alg: Algorithm, init: Store, s: State, step: Step)
    requires Inv(init, s) && Sane(s) && Enabled(alg, s, step)
    ensures Inv(init, Do(alg, s, step))
  {
    hide Inv;
    var t := step.t;
    match step
    case Begin(_, _) => MoveKeeps(alg, init, s, step);
    case Request(_, row, kind) => RequestKeeps(alg, init, s, t, row, kind);
    case Awake(_) => MoveKeeps(alg, init, s, step);
    case GiveUp(_) => MoveKeeps(alg, init, s, step);
    case Withdraw(_) => WithdrawKeeps(init, s, t);
    case TakeImage(_) => ImageKeeps(init, s, t);
    case DoRead(_, row) => ReadKeeps(init, s, t, row);
    case DoWrite(_, row, value) => WriteKeeps(init, s, t, row, value);
    case EnterCommit(_) => CommitKeeps(init, s, t);
    case EnterAbort(_) => MoveKeeps(alg, init, s, step);
    case ReleaseLast(_) => ReleaseLastKeeps(init, s, t, Do(alg, s, step));
    case Finish(_) => MoveKeeps(alg, init, s, step);
  }

  lemma {:induction false} RunKeeps(alg: Algorithm, init: Store, run: seq<State>, i: nat)
    requires IsRun(alg, init, run) && i < |run|
    ensures Inv(init, run[i])
  {
    hide Inv;
    if i == 0 {
      InitHolds(init, run[0]);
    } else {
      RunKeeps(alg, init, run, i - 1);
      assert Next(alg, run[i - 1], run[i]);
      var step :| Sane(run[i - 1]) && Enabled(alg, run[i - 1], step) && run[i] == Do(alg, run[i - 1], step);
      StepKeeps(alg, init, run[i - 1], step);
    }
  }

  // Serializability with exact undo: in every state of every run, replaying
  // the committed transactions in the order they entered cleanup reads every
  // value they read and yields the store, except on rows an unfinished or
  // aborting writer still holds, where it yields that writer's before-image.
  lemma Serializable(alg: Algorithm, init: Store, run: seq<State>, i: nat)
    requires IsRun(alg, init, run) && i < |run|
    ensures var s := run[i];
            && Replay(init, s.log).Some?
            && Replay(init, s.log).value.Keys == s.store.Keys
            && (forall row, t :: row in s.store && t in s.txns && DirtiedBy(s.txns[t], row) ==>
                  Replay(init, s.log).value[row] == Image(s.txns[t].accesses, row))
            && (forall row :: row in s.store && (forall t :: t in s.txns ==> !DirtiedBy(s.txns[t], row)) ==>
                  Replay(init, s.log).value[row] == s.store[row])
  {
    RunKeeps(alg, init, run, i);
    var s := run[i];
    var committed := Replay(init, s.log).value;
    forall row | row in s.store
      ensures Undone(committed, s.store, s.txns, row)
    {
    }
  }

  lemma IdleDirtiesNothing(x: Txn, row: RowId)
    requires TxnOk(x) && x.phase.Idle?
    ensures !DirtiedBy(x, row)
  {
  }

  // Once nobody is running, the store is the result of the serial run.
  lemma QuietStoreIsSerial(alg: Algorithm, init: Store, run: seq<State>, i: nat)
    requires IsRun(alg, init, run) && i < |run|
    requires forall t :: t in run[i].txns ==> run[i].txns[t].phase.Idle?
    ensures Replay(init, run[i].log) == Some(run[i].store)
  {
    hide IsRun;
    Serializable(alg, init, run, i);
    RunKeeps(alg, init, run, i);
    var s := run[i];
    forall row, t | row in s.store && t in s.txns
      ensures !DirtiedBy(s.txns[t], row)
    {
      IdleDirtiesNothing(s.txns[t], row);
    }
    assert Replay(init, s.log).value == s.store;
  }
}
