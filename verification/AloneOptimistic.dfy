// An optimistic transaction that meets nobody: every row is handed out to it, it
// passes validation, and it leaves exactly what it wrote.

module AloneOptimistic {
  import opened Options
  import opened SerialRuns
  import opened Chains
  import opened Wants
  import opened AccessOrder
  import opened OptimisticRuns
  import Safety = OptimisticSafety
  import Steps = ValidationSteps

  ghost function NextOf(keys: map<RowId, RowKey>): (State, State) -> bool {
    (s, s') => Next(keys, s, s')
  }

  lemma OneStep(keys: map<RowId, RowKey>, s: State, step: Step) returns (s': State)
    requires Enabled(keys, s, step)
    ensures s' == Do(s, step) && Leads(NextOf(keys), s, s')
  {
    s' := Do(s, step);
    assert Next(keys, s, s');
    LeadsStep(NextOf(keys), s, s');
  }

  // An access is answered with a copy of the row exactly when the row was last
  // written before the transaction started; otherwise the transaction gives up.
  lemma AccessOutcome(keys: map<RowId, RowKey>, s: State, t: TxnId, row: RowId, kind: AccessType)
    requires Enabled(keys, s, DoAccess(t, row, kind))
    ensures var s', x := Do(s, DoAccess(t, row, kind)), s.txns[t];
            && s'.rows == s.rows && s'.log == s.log && s'.clock == s.clock && t in s'.txns && s'.txns == s.txns[t := s'.txns[t]]
            && (s.rows[row].wts <= x.startTs ==>
                  s'.txns[t].phase.Running? && s'.txns[t].accesses == x.accesses + [Access(row, kind, s.rows[row].value, s.rows[row].value)])
            && (s.rows[row].wts > x.startTs ==> s'.txns[t].phase.Idle? && s'.txns[t].accesses == [])
  {
  }

  // A row nobody has latched was written before now.
  lemma WrittenBefore(init: Store, s: State, row: RowId)
    requires Safety.Inv(init, s) && row in s.rows && s.rows[row].latch.None?
    ensures s.rows[row].wts < s.clock
  {
    var committed := Replay(init, s.log).value;
    assert Safety.VersionOk(committed[row], Safety.Stamped(s)[row], s.txns, row, s.rows[row]);
  }

  // So whoever starts now is given every unlatched row as it is.
  lemma FreshReader(keys: map<RowId, RowKey>, init: Store, run: seq<State>, i: nat, t: TxnId, row: RowId, kind: AccessType)
    requires IsRun(keys, init, run) && i < |run| && t in run[i].txns && run[i].txns[t].phase.Idle?
    requires row in run[i].rows && run[i].rows[row].latch.None?
    ensures Enabled(keys, run[i], Begin(t))
    ensures var s1 := Do(run[i], Begin(t));
            && Enabled(keys, s1, DoAccess(t, row, kind))
            && var x := Do(s1, DoAccess(t, row, kind)).txns[t];
               x.phase.Running? && x.accesses == [Access(row, kind, run[i].rows[row].value, run[i].rows[row].value)]
  {
    Safety.RunKeeps(keys, init, run, i);
    WrittenBefore(init, run[i], row);
    hide Safety.Inv, IsRun;
    var s1 := Do(run[i], Begin(t));
    AccessOutcome(keys, s1, t, row, kind);
  }

  // ---------------------------------------------------------------------
  // The whole transaction
  // ---------------------------------------------------------------------

  ghost predicate AllIdle(s: State) {
    forall u :: u in s.txns ==> s.txns[u].phase.Idle?
  }

  lemma NobodyLatches(init: Store, s: State, row: RowId)
    requires Safety.Inv(init, s) && AllIdle(s) && row in s.rows
    ensures s.rows[row].latch == None
  {
    assert Safety.LatchOk(s.txns, row, s.rows[row]);
  }

  ghost function Content(s: State): Store {
    map row | row in s.rows :: s.rows[row].value
  }

  function AccessFor(w: Want, value: Value): Access {
    Access(w.row, if w.write.Some? then WR else RD, value, if w.write.Some? then w.write.value else value)
  }

  // The accesses of the first n wants.
  ghost predicate Accessed(store: Store, wants: seq<Want>, n: nat, accesses: seq<Access>) {
    && |accesses| == n <= |wants|
    && forall i :: 0 <= i < n ==> wants[i].row in store && accesses[i] == AccessFor(wants[i], store[wants[i].row])
  }

  // t runs, has made the first n accesses, and nothing else has happened.
  ghost predicate Running(s0: State, s: State, t: TxnId, wants: seq<Want>, n: nat) {
    && s.rows == s0.rows && s.log == s0.log && s.clock == s0.clock + 1 && t in s0.txns && t in s.txns
    && s.txns == s0.txns[t := s.txns[t]] && s.txns[t].phase.Running? && s.txns[t].startTs == s0.clock
    && Accessed(Content(s0), wants, n, s.txns[t].accesses)
  }

  // Every row can be handed out.
  ghost predicate Open(s: State) {
    forall row :: row in s.rows ==> s.rows[row].latch.None? && s.rows[row].wts <= s.clock
  }

  lemma NotYetOpened(store: Store, wants: seq<Want>, n: nat, accesses: seq<Access>)
    requires DistinctWants(store, wants) && n < |wants| && Accessed(store, wants, n, accesses)
    ensures !OptimisticRuns.Opened(accesses, wants[n].row)
  {
  }

  lemma AccessOne(keys: map<RowId, RowKey>, s0: State, s: State, t: TxnId, wants: seq<Want>, n: nat) returns (s': State)
    requires Open(s0) && DistinctWants(Content(s0), wants) && n < |wants| && Running(s0, s, t, wants, n)
    ensures Leads(NextOf(keys), s, s') && Running(s0, s', t, wants, n + 1)
  {
    hide Leads;
    var w := wants[n];
    NotYetOpened(Content(s0), wants, n, s.txns[t].accesses);
    s' := OneStep(keys, s, DoAccess(t, w.row, if w.write.Some? then WR else RD));
    if w.write.Some? {
      var mid := s';
      s' := OneStep(keys, mid, Modify(t, n, w.write.value));
      LeadsTrans(NextOf(keys), s, mid, s');
    }
  }

  lemma {:induction false} AccessAll(keys: map<RowId, RowKey>, s0: State, s: State, t: TxnId, wants: seq<Want>, n: nat) returns (s': State)
    requires Open(s0) && DistinctWants(Content(s0), wants) && n <= |wants| && Running(s0, s, t, wants, n)
    ensures Leads(NextOf(keys), s, s') && Running(s0, s', t, wants, |wants|)
    decreases |wants| - n
  {
    hide Leads, Running;
    if n == |wants| {
      s' := s;
      LeadsSelf(NextOf(keys), s);
    } else {
      var mid := AccessOne(keys, s0, s, t, wants, n);
      s' := AccessAll(keys, s0, mid, t, wants, n + 1);
      LeadsTrans(NextOf(keys), s, mid, s');
    }
  }

  lemma ChainLeads(keys: map<RowId, RowKey>, run: seq<State>)
    requires run != [] && Steps.IsChain(keys, run)
    ensures Leads(NextOf(keys), run[0], run[|run| - 1])
  {
    forall i | 0 <= i < |run| - 1
      ensures NextOf(keys)(run[i], run[i + 1])
    {
      assert Next(keys, run[i], run[i + 1]);
    }
    assert Chains.IsChain(NextOf(keys), run);
  }

  lemma {:induction false} OpsMembers(accesses: seq<Access>, op: Op)
    ensures op in OpsOf(accesses) <==>
            exists i :: 0 <= i < |accesses| && accesses[i].row == op.row
                        && if op.Read? then accesses[i].seen == op.value else accesses[i].kind == WR && accesses[i].data == op.value
  {
    if accesses != [] {
      var last := |accesses| - 1;
      OpsMembers(accesses[..last], op);
      assert forall i :: 0 <= i < last ==> accesses[..last][i] == accesses[i];
    }
  }

  lemma SameMembers(order: seq<Access>, accesses: seq<Access>)
    requires multiset(order) == multiset(accesses)
    ensures forall a :: a in order <==> a in accesses
  {
    assert forall a :: a in order <==> a in multiset(order);
    assert forall a :: a in accesses <==> a in multiset(accesses);
  }

  // What the sorted accesses log is what was wanted.
  lemma OpsAreDone(store: Store, wants: seq<Want>, accesses: seq<Access>, order: seq<Access>)
    requires DistinctWants(store, wants) && Accessed(store, wants, |wants|, accesses) && multiset(order) == multiset(accesses)
    ensures Done(store, wants, OpsOf(order))
  {
    SameMembers(order, accesses);
    forall op
      ensures op in OpsOf(order) <==> IsWanted(store, wants, op)
    {
      OpsMembers(order, op);
      if op in OpsOf(order) {
        var i :| 0 <= i < |order| && order[i].row == op.row
                 && if op.Read? then order[i].seen == op.value else order[i].kind == WR && order[i].data == op.value;
        assert order[i] in order;
        var k :| 0 <= k < |accesses| && accesses[k] == order[i];
      }
      if IsWanted(store, wants, op) {
        var k :| && 0 <= k < |wants| && wants[k].row == op.row && op.row in store
                 && if op.Read? then op.value == store[op.row] else wants[k].write == Some(op.value);
        assert accesses[k] in order;
        var i :| 0 <= i < |order| && order[i] == accesses[k];
      }
    }
  }

  // The rows after a validation that found everything current.
  ghost predicate Committed(s: State, s': State, order: seq<Access>) {
    && s'.rows.Keys == s.rows.Keys
    && (forall row :: row in s.rows && !Steps.Among(order, 0, |order|, row) ==> s'.rows[row] == s.rows[row])
    && forall i :: 0 <= i < |order| && order[i].row in s.rows ==>
         var a := order[i];
         s'.rows[a.row] == if a.kind == WR then Row(a.data, s.clock, None) else s.rows[a.row]
  }

  lemma RowsAreFulfilled(s: State, s': State, wants: seq<Want>, accesses: seq<Access>, order: seq<Access>)
    requires DistinctWants(Content(s), wants) && Accessed(Content(s), wants, |wants|, accesses) && multiset(order) == multiset(accesses)
    requires Committed(s, s', order)
    ensures Fulfilled(Content(s), Content(s'), wants)
  {
    SameMembers(order, accesses);
    forall i | 0 <= i < |wants|
      ensures Content(s')[wants[i].row] == if wants[i].write.Some? then wants[i].write.value else Content(s)[wants[i].row]
    {
      assert accesses[i] in order;
      var k :| 0 <= k < |order| && order[k] == accesses[i];
    }
    forall row | row in s.rows && (forall i :: 0 <= i < |wants| ==> wants[i].row != row)
      ensures Content(s')[row] == Content(s)[row]
    {
      forall k | 0 <= k < |order|
        ensures order[k].row != row
      {
        assert order[k] in accesses;
        var i :| 0 <= i < |accesses| && accesses[i] == order[k];
      }
      assert !Steps.Among(order, 0, |order|, row);
    }
  }

  lemma OrderExists(s: State, wants: seq<Want>, accesses: seq<Access>, order: seq<Access>)
    requires DistinctWants(Content(s), wants) && Accessed(Content(s), wants, |wants|, accesses) && multiset(order) == multiset(accesses)
    ensures Steps.RowsExist(s.rows, order)
  {
    SameMembers(order, accesses);
    assert DistinctRows(accesses);
    Safety.SortKeepsRows(order, accesses);
    forall i | 0 <= i < |order|
      ensures order[i].row in s.rows
    {
      assert order[i] in accesses;
    }
  }

  lemma ValidateAlone(keys: map<RowId, RowKey>, s: State, t: TxnId, wants: seq<Want>, order: seq<Access>) returns (s': State)
    requires t in s.txns && s.txns[t].phase.Running? && IsSortOf(keys, order, s.txns[t].accesses)
    requires DistinctWants(Content(s), wants) && Accessed(Content(s), wants, |wants|, s.txns[t].accesses)
    requires forall row :: row in s.rows ==> s.rows[row].latch.None? && s.rows[row].wts <= s.txns[t].startTs
    ensures Leads(NextOf(keys), s, s') && s'.log == s.log + [OpsOf(order)] && Committed(s, s', order)
    ensures s'.txns.Keys == s.txns.Keys && s'.txns[t].phase.Idle? && forall u :: u in s.txns && u != t ==> s'.txns[u] == s.txns[u]
  {
    hide Leads, Next;
    OrderExists(s, wants, s.txns[t].accesses, order);
    var run := Steps.ValidationIsSteps(keys, s, t, order);
    ChainLeads(keys, run);
    s' := run[|run| - 1];
    hide Steps.IsChain, Done, Fulfilled, IsSortOf;
  }

  // From every reachable state in which all transactions are idle, and whatever
  // rows t wants to read and write, some sequence of steps brings t to its commit:
  // its log entry are the wanted reads, with the values the rows had, and the
  // wanted writes, and the rows have the wanted writes and no others. The sort
  // may put the accesses into any order that fits the keys.
  lemma CommitsAlone(keys: map<RowId, RowKey>, init: Store, run: seq<State>, i: nat, t: TxnId, wants: seq<Want>, order: seq<Access>)
    returns (s': State, ops: seq<Op>)
    requires IsRun(keys, init, run) && i < |run| && t in run[i].txns && AllIdle(run[i])
    requires DistinctWants(Content(run[i]), wants)
    requires forall accesses :: Accessed(Content(run[i]), wants, |wants|, accesses) ==> IsSortOf(keys, order, accesses)
    ensures Leads(NextOf(keys), run[i], s') && s'.log == run[i].log + [ops] && AllIdle(s') && s'.txns.Keys == run[i].txns.Keys
    ensures Done(Content(run[i]), wants, ops) && Fulfilled(Content(run[i]), Content(s'), wants)
  {
    Safety.RunKeeps(keys, init, run, i);
    var s := run[i];
    forall row | row in s.rows
      ensures s.rows[row].latch.None? && s.rows[row].wts <= s.clock
    {
      NobodyLatches(init, s, row);
      WrittenBefore(init, s, row);
    }
    hide Safety.Inv, IsRun, Leads, Next;
    var s1 := OneStep(keys, s, Begin(t));
    var s2 := AccessAll(keys, s, s1, t, wants, 0);
    LeadsTrans(NextOf(keys), s, s1, s2);
    assert Content(s2) == Content(s);
    s' := ValidateAlone(keys, s2, t, wants, order);
    LeadsTrans(NextOf(keys), s, s2, s');
    ops := OpsOf(order);
    OpsAreDone(Content(s), wants, s2.txns[t].accesses, order);
    RowsAreFulfilled(s2, s', wants, s2.txns[t].accesses, order);
  }
}
