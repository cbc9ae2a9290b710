// A transaction under MVCC or TIMESTAMP that meets nobody: all its requests are
// answered at once, it commits, and it leaves exactly what it wrote.

module AloneTimestamps {
  import opened Options
  import opened SerialRuns
  import opened Chains
  import opened Wants
  import opened RequestQueues
  import opened TimestampRows
  import opened TimestampRuns
  import opened TimestampLinks
  import opened TimestampSafety
  import opened TimestampOrder

  ghost function NextOf(): (State, State) -> bool {
    (s, s') => Next(s, s')
  }

  lemma OneStep(init: Store, s: State, step: Step) returns (s': State)
    requires Inv(init, s) && Enabled(s, step)
    ensures s' == Do(s, step) && Inv(init, s') && Leads(NextOf(), s, s')
  {
    s' := Do(s, step);
    TimestampSafety.StepKeeps(init, s, step);
    hide Inv;
    assert Next(s, s');
    LeadsStep(NextOf(), s, s');
  }

  // Everybody but t is finished, and t is the youngest.
  ghost predicate Quiet(s: State, t: TxnTs) {
    t in s.txns && s.floor <= t && forall u :: u in s.txns && u != t ==> Finished(s.txns[u]) && u < t
  }

  // What a reader at t finds in the rows.
  ghost function Content(s: State, t: TxnTs): Store {
    map row | row in s.rows :: Newest(s.rows[row], t).1
  }

  // ---------------------------------------------------------------------
  // Quiet rows
  // ---------------------------------------------------------------------

  // A row that t has not met yet has nothing pending and knows only older ones.
  lemma QuietRow(init: Store, s: State, t: TxnTs, row: RowId)
    requires Inv(init, s) && Quiet(s, t) && row in s.rows && s.txns[t].phase.Running? && !Opened(s.txns[t].accesses, row)
    ensures RowOk(s.rows[row]) && Above(s.rows[row], t) && t < Limit(s.rows[row])
    ensures Prereqs(s.rows[row]) == []
    ensures (forall u :: u in Asked(s.rows[row]) ==> u < t) && forall k :: k in Written(s.rows[row]) ==> k < t
  {
    Facts(init, s, t, row);
    TxnFits(s.rows, t, s.txns[t], s.floor, row);
    StrangerAt(s.txns[t], row);
    var r := s.rows[row];
    hide Inv, RowOk, TxnOk, RoleOf, Finished;
    forall u | u in s.txns && RoleOf(s.txns[u], row).pending
      ensures !Finished(s.txns[u])
    {
      FinishedHasNothing(s.txns[u], row);
    }
    SomeRequest(Prereqs(r));
  }

  lemma SomeRequest(reqs: seq<Req>)
    ensures reqs == [] || exists q :: q in reqs
  {
    if reqs != [] {
      assert reqs[0] in reqs;
    }
  }

  // While t waits for its own prewrite to be read, that is all there is.
  lemma OwnPrewrite(init: Store, s: State, t: TxnTs, row: RowId)
    requires Inv(init, s) && Quiet(s, t) && row in s.rows && s.txns[t].phase == Announced(row)
    ensures RowOk(s.rows[row]) && Above(s.rows[row], t) && t < Limit(s.rows[row])
    ensures (forall p :: p in Prereqs(s.rows[row]) ==> p.ts >= t) && forall k :: k in Written(s.rows[row]) ==> k <= t
  {
    Facts(init, s, t, row);
    TxnFits(s.rows, t, s.txns[t], s.floor, row);
    hide Inv, RowOk, TxnOk, RoleOf, Finished;
    forall u | u in s.txns && RoleOf(s.txns[u], row).pending
      ensures !Finished(s.txns[u])
    {
      FinishedHasNothing(s.txns[u], row);
    }
  }

  lemma WrittenIs(base: Value, roles: map<TxnTs, Role>, t: TxnTs, role: Role, r: Row, r': Row)
    requires VersionsMatch(base, roles, r) && VersionsMatch(base, roles[t := role], r') && t !in roles && 0 < t
    ensures Written(r') == if role.wrote.Some? then Written(r)[t := role.wrote.value] else Written(r)
  {
    var w, w' := Written(r), Written(r');
    assert w'.Keys == if role.wrote.Some? then w.Keys + {t} else w.Keys;
    forall k | k in w
      ensures w'[k] == w[k]
    {
    }
  }

  ghost predicate IsNewest(w: map<nat, Value>, version: nat, value: Value) {
    version in w && w[version] == value && forall k :: k in w ==> k <= version
  }

  lemma NewestOf(w: map<nat, Value>, t: TxnTs, wrote: Option<Value>, a: (nat, Value), b: (nat, Value))
    requires IsNewest(w, a.0, a.1) && (forall k :: k in w ==> k < t)
    requires IsNewest(if wrote.Some? then w[t := wrote.value] else w, b.0, b.1)
    ensures b.1 == if wrote.Some? then wrote.value else a.1
  {
    if wrote.Some? {
      assert t in w[t := wrote.value];
    }
  }

  lemma RowFacts(init: Store, s: State, row: RowId)
    requires Inv(init, s) && row in s.rows
    ensures row in init && RowOk(s.rows[row]) && VersionsMatch(init[row], Roles(s.txns, row), s.rows[row]) && 0 !in s.txns
    ensures s.rows[row].Multi? ==> s.rows[row].m.floor == s.floor
  {
    assert RowInv(init, s, row);
    hide RowOk, ListsMatch, MarksMatch, VersionsMatch;
    assert 0 !in Roles(s.txns, row);
  }

  lemma WrittenByOlder(base: Value, roles: map<TxnTs, Role>, r: Row, t: TxnTs)
    requires VersionsMatch(base, roles, r) && 0 < t && forall u :: u in roles ==> u < t
    ensures forall k :: k in Written(r) ==> k < t
  {
  }

  // The versions of a row are what the transactions have written there, so what
  // t finds changes only by what t has written itself.
  lemma ContentIs(init: Store, s0: State, s: State, t: TxnTs, row: RowId)
    requires Inv(init, s0) && Inv(init, s) && row in s0.rows && row in s.rows && s0.floor <= t && s.floor <= t
    requires t !in s0.txns && t in s.txns && s.txns == s0.txns[t := s.txns[t]] && forall u :: u in s0.txns ==> u < t
    ensures Newest(s.rows[row], t).1 ==
            if RoleOf(s.txns[t], row).wrote.Some? then RoleOf(s.txns[t], row).wrote.value else Newest(s0.rows[row], t).1
  {
    hide Inv, RowOk, VersionsMatch, Newest, RoleOf;
    var r, r', role := s0.rows[row], s.rows[row], RoleOf(s.txns[t], row);
    RowFacts(init, s0, row);
    RowFacts(init, s, row);
    RolesUpdated(s0.txns, t, s.txns[t], row);
    WrittenIs(init[row], Roles(s0.txns, row), t, role, r, r');
    WrittenByOlder(init[row], Roles(s0.txns, row), r, t);
    hide Roles;
    NewestFacts(r, t);
    NewestFacts(r', t);
    NewestOf(Written(r), t, role.wrote, Newest(r, t), Newest(r', t));
  }

  lemma NothingWritten(x: Txn, row: RowId)
    requires !x.phase.Committing?
    ensures RoleOf(x, row).wrote.None?
  {
  }

  // ---------------------------------------------------------------------
  // The accesses
  // ---------------------------------------------------------------------

  function KindOf(w: Want): AccessType {
    if w.write.Some? then WR else RD
  }

  ghost predicate Accessed(store: Store, wants: seq<Want>, n: nat, accesses: seq<Access>) {
    && |accesses| == n <= |wants|
    && forall i :: 0 <= i < n ==>
         && wants[i].row in store && accesses[i].row == wants[i].row && accesses[i].kind == KindOf(wants[i])
         && accesses[i].seen == store[wants[i].row] && (wants[i].write.Some? ==> accesses[i].data == wants[i].write.value)
  }

  // Since s0 only t has moved.
  ghost predicate OnlyT(s0: State, s: State, t: TxnTs) {
    && t !in s0.txns && t in s.txns && s.txns == s0.txns[t := s.txns[t]] && s.rows.Keys == s0.rows.Keys && s.floor == s0.floor
    && s0.floor <= t && forall u :: u in s0.txns ==> Finished(s0.txns[u]) && u < t
  }

  lemma OnlyTIsQuiet(s0: State, s: State, t: TxnTs)
    requires OnlyT(s0, s, t)
    ensures Quiet(s, t)
  {
  }

  // t runs and has made the first n accesses.
  ghost predicate Underway(s0: State, s: State, t: TxnTs, wants: seq<Want>, n: nat) {
    && OnlyT(s0, s, t) && s.log == s0.log && s.txns[t].phase.Running?
    && Accessed(Content(s0, t), wants, n, s.txns[t].accesses)
  }

  lemma NotYetOpened(store: Store, wants: seq<Want>, n: nat, accesses: seq<Access>)
    requires DistinctWants(store, wants) && n < |wants| && Accessed(store, wants, n, accesses)
    ensures !Opened(accesses, wants[n].row)
  {
  }

  lemma AnnounceOne(init: Store, s0: State, s: State, t: TxnTs, row: RowId) returns (s': State)
    requires Inv(init, s) && OnlyT(s0, s, t) && row in s.rows && s.txns[t].phase.Running? && !Opened(s.txns[t].accesses, row)
    ensures Inv(init, s') && Leads(NextOf(), s, s') && OnlyT(s0, s', t) && s'.log == s.log
    ensures s'.txns[t] == s.txns[t].(phase := Announced(row))
  {
    hide Inv, Leads, PrewriteRow, Opened, RowOk;
    OnlyTIsQuiet(s0, s, t);
    QuietRow(init, s, t, row);
    PrewriteIsAccepted(s.rows[row], ReqOf(t));
    s' := OneStep(init, s, Announce(t, row));
  }

  // The read is served, with what t finds in the row.
  lemma AskOne(init: Store, s0: State, s: State, t: TxnTs, row: RowId, kind: AccessType) returns (s': State)
    requires Inv(init, s0) && Inv(init, s) && OnlyT(s0, s, t) && row in s.rows && !Opened(s.txns[t].accesses, row)
    requires if kind == RD then s.txns[t].phase.Running? else s.txns[t].phase == Announced(row)
    ensures Inv(init, s') && Leads(NextOf(), s, s') && OnlyT(s0, s', t) && s'.log == s.log
    ensures var (version, value) := (Newest(s.rows[row], t).0, Content(s0, t)[row]);
            s'.txns[t] == Opening(s.txns[t], Access(row, kind, version, value, value))
  {
    hide Inv, Leads, ReadRow, Opened, RowOk, RoleOf, Newest;
    OnlyTIsQuiet(s0, s, t);
    if kind == RD {
      QuietRow(init, s, t, row);
    } else {
      OwnPrewrite(init, s, t, row);
    }
    ReadIsServed(s.rows[row], ReqOf(t));
    NothingWritten(s.txns[t], row);
    ContentIs(init, s0, s, t, row);
    s' := OneStep(init, s, Ask(t, row, kind));
  }

  lemma AccessOne(init: Store, s0: State, s: State, t: TxnTs, wants: seq<Want>, n: nat) returns (s': State)
    requires Inv(init, s0) && Inv(init, s) && Underway(s0, s, t, wants, n) && n < |wants| && DistinctWants(Content(s0, t), wants)
    ensures Inv(init, s') && Leads(NextOf(), s, s') && Underway(s0, s', t, wants, n + 1)
  {
    hide Inv, Leads, Opened, Newest;
    var w := wants[n];
    NotYetOpened(Content(s0, t), wants, n, s.txns[t].accesses);
    if w.write.None? {
      s' := AskOne(init, s0, s, t, w.row, RD);
    } else {
      var s1 := AnnounceOne(init, s0, s, t, w.row);
      var s2 := AskOne(init, s0, s1, t, w.row, WR);
      LeadsTrans(NextOf(), s, s1, s2);
      s' := OneStep(init, s2, Modify(t, n, w.write.value));
      LeadsTrans(NextOf(), s, s2, s');
    }
  }

  lemma {:induction false} AccessAll(init: Store, s0: State, s: State, t: TxnTs, wants: seq<Want>, n: nat) returns (s': State)
    requires Inv(init, s0) && Inv(init, s) && Underway(s0, s, t, wants, n) && DistinctWants(Content(s0, t), wants)
    ensures Inv(init, s') && Leads(NextOf(), s, s') && Underway(s0, s', t, wants, |wants|)
    decreases |wants| - n
  {
    hide Inv, Leads, OnlyT;
    if n == |wants| {
      s' := s;
      LeadsSelf(NextOf(), s);
    } else {
      var mid := AccessOne(init, s0, s, t, wants, n);
      s' := AccessAll(init, s0, mid, t, wants, n + 1);
      LeadsTrans(NextOf(), s, mid, s');
    }
  }

  // ---------------------------------------------------------------------
  // The commit
  // ---------------------------------------------------------------------

  lemma ReturnEnabled(init: Store, s: State, t: TxnTs)
    requires Inv(init, s) && t in s.txns && s.txns[t].phase.Committing? && s.txns[t].phase.left > 0
    ensures Enabled(s, ReturnLast(t))
  {
    TxnFacts(init, s, t);
    assert AccessOk(s.rows, t, s.txns[t].accesses[s.txns[t].phase.left - 1]);
  }

  lemma {:induction false} ReturnAll(init: Store, s0: State, s: State, t: TxnTs) returns (s': State)
    requires Inv(init, s) && OnlyT(s0, s, t) && s.txns[t].phase.Committing?
    ensures Inv(init, s') && Leads(NextOf(), s, s') && OnlyT(s0, s', t) && s'.log == s.log
    ensures s'.txns[t] == s.txns[t].(phase := Committing(0))
    decreases s.txns[t].phase.left
  {
    hide Inv, Leads, Returned;
    if s.txns[t].phase.left == 0 {
      s' := s;
      LeadsSelf(NextOf(), s);
    } else {
      ReturnEnabled(init, s, t);
      var mid := OneStep(init, s, ReturnLast(t));
      s' := ReturnAll(init, s0, mid, t);
      LeadsTrans(NextOf(), s, mid, s');
    }
  }

  lemma InsertLast(log: seq<TxnTs>, t: TxnTs)
    requires forall i :: 0 <= i < |log| ==> log[i] < t
    ensures Insert(log, t) == log + [t]
  {
    assert Place(log, t) == |log|;
  }

  lemma LogIsOlder(init: Store, s0: State, s: State, t: TxnTs)
    requires Inv(init, s0) && OnlyT(s0, s, t)
    ensures forall i :: 0 <= i < |s0.log| ==> s0.log[i] < t
  {
    forall i | 0 <= i < |s0.log|
      ensures s0.log[i] in s0.log && s0.log[i] in s0.txns
    {
    }
  }

  lemma CommitIt(init: Store, s0: State, s: State, t: TxnTs) returns (s': State)
    requires Inv(init, s0) && Inv(init, s) && OnlyT(s0, s, t) && s.log == s0.log && s.txns[t].phase.Running?
    ensures Inv(init, s') && Leads(NextOf(), s, s') && OnlyT(s0, s', t) && s'.log == s0.log + [t]
    ensures s'.txns[t] == s.txns[t].(phase := Committing(0))
  {
    LogIsOlder(init, s0, s, t);
    InsertLast(s0.log, t);
    hide Inv, Leads, Insert;
    var mid := OneStep(init, s, EnterCommit(t));
    s' := ReturnAll(init, s0, mid, t);
    LeadsTrans(NextOf(), s, mid, s');
  }

  // ---------------------------------------------------------------------
  // The outcome
  // ---------------------------------------------------------------------

  lemma {:induction false} ReadsMembers(accesses: seq<Access>, op: Op)
    ensures op in Reads(accesses) <==> op.Read? && exists i :: 0 <= i < |accesses| && accesses[i].row == op.row && accesses[i].seen == op.value
  {
    if accesses != [] {
      ReadsMembers(accesses[..|accesses| - 1], op);
      assert forall i :: 0 <= i < |accesses| - 1 ==> accesses[..|accesses| - 1][i] == accesses[i];
    }
  }

  lemma {:induction false} WritesMembers(accesses: seq<Access>, op: Op)
    ensures op in TimestampOrder.Writes(accesses) <==>
            op.Write? && exists i :: 0 <= i < |accesses| && accesses[i].row == op.row && accesses[i].kind == WR && accesses[i].data == op.value
  {
    if accesses != [] {
      WritesMembers(accesses[..|accesses| - 1], op);
      assert forall i :: 0 <= i < |accesses| - 1 ==> accesses[..|accesses| - 1][i] == accesses[i];
    }
  }

  lemma OpsAreDone(store: Store, wants: seq<Want>, x: Txn)
    requires DistinctWants(store, wants) && Accessed(store, wants, |wants|, x.accesses)
    ensures Done(store, wants, OpsOf(x))
  {
    forall op
      ensures op in OpsOf(x) <==> IsWanted(store, wants, op)
    {
      ReadsMembers(x.accesses, op);
      WritesMembers(x.accesses, op);
      if IsWanted(store, wants, op) {
        var i :| && 0 <= i < |wants| && wants[i].row == op.row && op.row in store
                 && if op.Read? then op.value == store[op.row] else wants[i].write == Some(op.value);
        assert x.accesses[i].row == op.row;
      }
    }
  }

  lemma WroteWanted(store: Store, wants: seq<Want>, x: Txn, row: RowId)
    requires DistinctWants(store, wants) && Accessed(store, wants, |wants|, x.accesses) && x.phase == Committing(0)
    ensures forall i :: 0 <= i < |wants| && wants[i].row == row ==> RoleOf(x, row).wrote == wants[i].write
    ensures (forall i :: 0 <= i < |wants| ==> wants[i].row != row) ==> RoleOf(x, row).wrote.None?
  {
  }

  lemma ContentIsFulfilled(init: Store, s0: State, s: State, t: TxnTs, wants: seq<Want>)
    requires Inv(init, s0) && Inv(init, s) && OnlyT(s0, s, t) && s.txns[t].phase == Committing(0)
    requires DistinctWants(Content(s0, t), wants) && Accessed(Content(s0, t), wants, |wants|, s.txns[t].accesses)
    ensures Fulfilled(Content(s0, t), Content(s, t), wants)
  {
    hide Inv, RoleOf, Newest;
    forall row | row in s.rows
      ensures Content(s, t)[row] ==
              if RoleOf(s.txns[t], row).wrote.Some? then RoleOf(s.txns[t], row).wrote.value else Content(s0, t)[row]
    {
      ContentIs(init, s0, s, t, row);
    }
    forall row
      ensures forall i :: 0 <= i < |wants| && wants[i].row == row ==> RoleOf(s.txns[t], row).wrote == wants[i].write
      ensures (forall i :: 0 <= i < |wants| ==> wants[i].row != row) ==> RoleOf(s.txns[t], row).wrote.None?
    {
      WroteWanted(Content(s0, t), wants, s.txns[t], row);
    }
  }

  lemma BeginAlone(init: Store, s: State, t: TxnTs, wants: seq<Want>) returns (s': State)
    requires Inv(init, s) && t !in s.txns && 0 < t && s.floor <= t && (forall row :: row in s.rows ==> t < Limit(s.rows[row]))
    requires forall u :: u in s.txns ==> Finished(s.txns[u]) && u < t
    ensures Inv(init, s') && Leads(NextOf(), s, s') && Underway(s, s', t, wants, 0)
  {
    hide Inv, Leads;
    s' := OneStep(init, s, Begin(t));
  }

  // From every reachable state in which all transactions are finished, and
  // whatever rows a new transaction with a larger timestamp wants to read and
  // write, some sequence of steps brings it to its commit: its operations are the
  // wanted reads, with the values the rows had, and the wanted writes, it comes
  // last in the log, and the rows have the wanted writes and no others.
  lemma CommitsAlone(init: Store, run: seq<State>, i: nat, t: TxnTs, wants: seq<Want>) returns (s': State)
    requires IsRun(init, run) && i < |run| && t !in run[i].txns && 0 < t && run[i].floor <= t
    requires forall row :: row in run[i].rows ==> t < Limit(run[i].rows[row])
    requires forall u :: u in run[i].txns ==> Finished(run[i].txns[u]) && u < t
    requires DistinctWants(Content(run[i], t), wants)
    ensures Leads(NextOf(), run[i], s') && s'.log == run[i].log + [t] && t in s'.txns && Finished(s'.txns[t])
    ensures Done(Content(run[i], t), wants, OpsOf(s'.txns[t])) && Fulfilled(Content(run[i], t), Content(s', t), wants)
  {
    RunKeeps(init, run, i);
    var s := run[i];
    hide Inv, IsRun, Leads, Newest;
    var s1 := BeginAlone(init, s, t, wants);
    var s2 := AccessAll(init, s, s1, t, wants, 0);
    LeadsTrans(NextOf(), s, s1, s2);
    s' := CommitIt(init, s, s2, t);
    LeadsTrans(NextOf(), s, s2, s');
    OpsAreDone(Content(s, t), wants, s'.txns[t]);
    ContentIsFulfilled(init, s, s', t, wants);
  }
}
