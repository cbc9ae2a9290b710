// A locking transaction that meets nobody: under NO_WAIT, WAIT_DIE and DL_DETECT
// alike it gets every lock at once, commits, and leaves exactly what it wrote.

module AloneLocking {
  import opened Options
  import opened SerialRuns
  import opened Chains
  import opened Wants
  import opened RowLockSpec
  import opened TwoPhaseLocking
  import opened TwoPhaseLocks
  import opened TwoPhaseSafety
  import opened TxnCleanup

  ghost function NextOf(alg: Algorithm): (State, State) -> bool {
    (s, s') => Next(alg, s, s')
  }

  // Everybody but t is idle.
  ghost predicate Quiet(s: State, t: TxnId) {
    t in s.txns && forall u :: u in s.txns && u != t ==> s.txns[u].phase.Idle?
  }

  // What step leads to, with the invariant.
  lemma OneStep(alg: Algorithm, init: Store, s: State, step: Step) returns (s': State)
    requires Inv(init, s) && Enabled(alg, s, step)
    ensures Sane(s) && s' == Do(alg, s, step) && Inv(init, s') && Leads(NextOf(alg), s, s')
  {
    InvIsSane(init, s);
    s' := Do(alg, s, step);
    StepKeeps(alg, init, s, step);
    hide Inv, Sane;
    assert Next(alg, s, s');
    LeadsStep(NextOf(alg), s, s');
  }

  // A row that t has not asked for has a free lock.
  lemma FreeRow(init: Store, s: State, t: TxnId, row: RowId)
    requires Inv(init, s) && Quiet(s, t) && row in s.locks && ClaimOn(s.txns[t], row) == NoClaim
    ensures s.locks[row] == FREE
  {
    var lk := s.locks[row];
    forall e: Entry
      ensures e !in lk.owners && e !in lk.waiters
    {
      assert EntryMatches(ClaimBy(s.txns, row, e), lk, e);
      assert TxnOk(s.txns[t]);
      if e.txn in s.txns && e.txn != t {
        assert TxnOk(s.txns[e.txn]);
      }
    }
    SomeMember(lk.owners);
    SomeMember(lk.waiters);
  }

  lemma SomeMember(es: seq<Entry>)
    ensures es == [] || exists e :: e in es
  {
    if es != [] {
      assert es[0] in es;
    }
  }

  // On a free lock every scheme grants every request.
  lemma FreeIsGranted(alg: Algorithm, e: Entry)
    requires e.lockType != LockNone
    ensures Get(alg, FREE, e).1 == RcOk
  {
  }

  function KindOf(w: Want): AccessType {
    if w.write.Some? then WR else RD
  }

  // t is active, has fulfilled the first n wants, and nothing else has happened.
  ghost predicate Opened(s0: State, s: State, t: TxnId, ts: nat, wants: seq<Want>, n: nat) {
    && n <= |wants| && s.log == s0.log && t in s0.txns && t in s.txns && s.txns == s0.txns[t := s.txns[t]]
    && s.txns[t].phase.Active? && s.txns[t].ts == ts
    && |s.txns[t].accesses| == n && (forall i :: 0 <= i < n ==> s.txns[t].accesses[i].row == wants[i].row)
    && Fulfilled(s0.store, s.store, wants[..n]) && Done(s0.store, wants[..n], s.txns[t].ops)
  }

  lemma NotYetOpened(accesses: seq<Access>, wants: seq<Want>, n: nat)
    requires |accesses| == n < |wants| && forall i :: 0 <= i < n ==> accesses[i].row == wants[i].row
    requires forall i, j :: 0 <= i < j < |wants| ==> wants[i].row != wants[j].row
    ensures AccessKind(accesses, wants[n].row).None?
  {
    AccessKindIs(accesses, wants[n].row);
  }

  // s' is s but for t, which has become x, and the store.
  ghost predicate OnlyMoves(s: State, s': State, t: TxnId, x: Txn) {
    t in s.txns && s'.txns == s.txns[t := x] && s'.log == s.log
  }

  lemma GrantedState(alg: Algorithm, s: State, t: TxnId, row: RowId, kind: AccessType)
    requires t in s.txns && row in s.locks && s.locks[row] == FREE
    ensures RequestRow(alg, s, t, row, kind).store == s.store
    ensures OnlyMoves(s, RequestRow(alg, s, t, row, kind), t, s.txns[t].(phase := Granted(row, kind)))
  {
    FreeIsGranted(alg, Entry(t, s.txns[t].ts, LockOf(kind)));
    hide Get;
  }

  lemma GrantRow(alg: Algorithm, init: Store, s: State, t: TxnId, row: RowId, kind: AccessType) returns (s': State)
    requires Inv(init, s) && Quiet(s, t) && s.txns[t].phase.Active? && row in s.locks && AccessKind(s.txns[t].accesses, row).None?
    ensures Inv(init, s') && Leads(NextOf(alg), s, s') && s'.store == s.store
    ensures OnlyMoves(s, s', t, s.txns[t].(phase := Granted(row, kind)))
  {
    hide Inv, RequestRow, Leads, OnlyMoves;
    FreeRow(init, s, t, row);
    GrantedState(alg, s, t, row, kind);
    s' := OneStep(alg, init, s, Request(t, row, kind));
  }

  lemma ImageRow(alg: Algorithm, init: Store, s: State, t: TxnId, row: RowId, kind: AccessType) returns (s': State)
    requires Inv(init, s) && t in s.txns && s.txns[t].phase == Granted(row, kind) && row in s.store
    ensures Inv(init, s') && Leads(NextOf(alg), s, s') && s'.store == s.store
    ensures OnlyMoves(s, s', t, s.txns[t].(phase := Active, accesses := s.txns[t].accesses + [Access(row, kind, s.store[row])]))
  {
    hide Inv;
    s' := OneStep(alg, init, s, TakeImage(t));
  }

  // The row is locked and its image taken.
  lemma LockRow(alg: Algorithm, init: Store, s: State, t: TxnId, row: RowId, kind: AccessType) returns (s': State)
    requires Inv(init, s) && Quiet(s, t) && s.txns[t].phase.Active? && row in s.store && AccessKind(s.txns[t].accesses, row).None?
    ensures Inv(init, s') && Leads(NextOf(alg), s, s') && s'.store == s.store
    ensures OnlyMoves(s, s', t, s.txns[t].(accesses := s.txns[t].accesses + [Access(row, kind, s.store[row])]))
  {
    hide Inv, Quiet;
    StoreIsLocked(init, s, row);
    var mid := GrantRow(alg, init, s, t, row, kind);
    s' := ImageRow(alg, init, mid, t, row, kind);
    LeadsTrans(NextOf(alg), s, mid, s');
  }

  lemma StoreIsLocked(init: Store, s: State, row: RowId)
    requires Inv(init, s)
    ensures row in s.store <==> row in s.locks
  {
  }

  lemma Appended(accesses: seq<Access>, a: Access)
    ensures AccessKind(accesses + [a], a.row) == Some(a.kind)
  {
    AccessKindAppend(accesses, a, a.row);
  }

  lemma ReadIt(alg: Algorithm, init: Store, s: State, t: TxnId, row: RowId) returns (s': State)
    requires Inv(init, s) && t in s.txns && s.txns[t].phase.Active? && row in s.store && AccessKind(s.txns[t].accesses, row).Some?
    ensures Inv(init, s') && Leads(NextOf(alg), s, s') && s'.store == s.store
    ensures OnlyMoves(s, s', t, s.txns[t].(ops := s.txns[t].ops + [Read(row, s.store[row])]))
  {
    hide Inv;
    s' := OneStep(alg, init, s, DoRead(t, row));
  }

  lemma WriteIt(alg: Algorithm, init: Store, s: State, t: TxnId, row: RowId, value: Value) returns (s': State)
    requires Inv(init, s) && t in s.txns && s.txns[t].phase.Active? && row in s.store && AccessKind(s.txns[t].accesses, row) == Some(WR)
    ensures Inv(init, s') && Leads(NextOf(alg), s, s') && s'.store == s.store[row := value]
    ensures OnlyMoves(s, s', t, s.txns[t].(ops := s.txns[t].ops + [Write(row, value)]))
  {
    hide Inv;
    s' := OneStep(alg, init, s, DoWrite(t, row, value));
  }

  function OpsFor(w: Want, value: Value): seq<Op> {
    [Read(w.row, value)] + if w.write.Some? then [Write(w.row, w.write.value)] else []
  }

  // Lock the row, read it, and write it if wanted.
  lemma Serve(alg: Algorithm, init: Store, s: State, t: TxnId, w: Want) returns (s': State)
    requires Inv(init, s) && Quiet(s, t) && s.txns[t].phase.Active? && w.row in s.store && AccessKind(s.txns[t].accesses, w.row).None?
    ensures Inv(init, s') && Leads(NextOf(alg), s, s')
    ensures s'.store == if w.write.Some? then s.store[w.row := w.write.value] else s.store
    ensures OnlyMoves(s, s', t, s.txns[t].(accesses := s.txns[t].accesses + [Access(w.row, KindOf(w), s.store[w.row])],
                                           ops := s.txns[t].ops + OpsFor(w, s.store[w.row])))
  {
    hide Inv, Quiet, AccessKind, Leads;
    var locked := LockRow(alg, init, s, t, w.row, KindOf(w));
    Appended(s.txns[t].accesses, Access(w.row, KindOf(w), s.store[w.row]));
    var read := ReadIt(alg, init, locked, t, w.row);
    LeadsTrans(NextOf(alg), s, locked, read);
    if w.write.Some? {
      s' := WriteIt(alg, init, read, t, w.row, w.write.value);
      LeadsTrans(NextOf(alg), s, read, s');
      assert s.txns[t].ops + OpsFor(w, s.store[w.row]) == read.txns[t].ops + [Write(w.row, w.write.value)];
    } else {
      s' := read;
      assert s.txns[t].ops + OpsFor(w, s.store[w.row]) == read.txns[t].ops;
    }
  }

  lemma FulfilledKeys(store: Store, after: Store, wants: seq<Want>)
    requires Fulfilled(store, after, wants)
    ensures after.Keys == store.Keys
  {
  }

  // One want more.
  lemma FulfilOne(alg: Algorithm, init: Store, s0: State, s: State, t: TxnId, ts: nat, wants: seq<Want>, n: nat) returns (s': State)
    requires Inv(init, s) && Quiet(s0, t) && DistinctWants(s0.store, wants) && n < |wants| && Opened(s0, s, t, ts, wants, n)
    ensures Inv(init, s') && Leads(NextOf(alg), s, s') && Opened(s0, s', t, ts, wants, n + 1)
  {
    hide Inv, Leads, Done, Fulfilled, AccessKind;
    FulfilledKeys(s0.store, s.store, wants[..n]);
    NotYetOpened(s.txns[t].accesses, wants, n);
    s' := Serve(alg, init, s, t, wants[n]);
    OneMore(s0.store, wants, n, s.store, s'.store);
    OneMoreDone(s0.store, wants, n, s.txns[t].ops, OpsFor(wants[n], s.store[wants[n].row]));
  }

  lemma {:induction false} FulfilAll(alg: Algorithm, init: Store, s0: State, s: State, t: TxnId, ts: nat, wants: seq<Want>, n: nat)
    returns (s': State)
    requires Inv(init, s) && Quiet(s0, t) && DistinctWants(s0.store, wants) && Opened(s0, s, t, ts, wants, n)
    ensures Inv(init, s') && Leads(NextOf(alg), s, s') && Opened(s0, s', t, ts, wants, |wants|)
    decreases |wants| - n
  {
    hide Inv, Opened;
    if n == |wants| {
      s' := s;
      LeadsSelf(NextOf(alg), s);
    } else {
      OpenedInRange(s0, s, t, ts, wants, n);
      var mid := FulfilOne(alg, init, s0, s, t, ts, wants, n);
      s' := FulfilAll(alg, init, s0, mid, t, ts, wants, n + 1);
      LeadsTrans(NextOf(alg), s, mid, s');
    }
  }

  lemma OpenedInRange(s0: State, s: State, t: TxnId, ts: nat, wants: seq<Want>, n: nat)
    requires Opened(s0, s, t, ts, wants, n)
    ensures n <= |wants|
  {
  }

  ghost predicate OthersKeepPhase(s: State, s': State, t: TxnId) {
    && t in s.txns && s'.txns.Keys == s.txns.Keys
    && forall u :: u in s.txns && u != t ==> s'.txns[u].phase == s.txns[u].phase
  }

  lemma GiveBackOne(alg: Algorithm, init: Store, s: State, t: TxnId) returns (s': State)
    requires Inv(init, s) && t in s.txns && Ending(s.txns[t]) && s.txns[t].accesses != []
    ensures Inv(init, s') && Leads(NextOf(alg), s, s') && (s.txns[t].phase.Committing? ==> s'.store == s.store) && s'.log == s.log
    ensures OthersKeepPhase(s, s', t) && s'.txns[t].phase == s.txns[t].phase && |s'.txns[t].accesses| < |s.txns[t].accesses|
  {
    hide Inv, Leads;
    s' := OneStep(alg, init, s, ReleaseLast(t));
  }

  // All locks are given back, last first, and the transaction is over.
  lemma {:induction false} GiveBack(alg: Algorithm, init: Store, s: State, t: TxnId) returns (s': State)
    requires Inv(init, s) && t in s.txns && Ending(s.txns[t])
    ensures Inv(init, s') && Leads(NextOf(alg), s, s') && (s.txns[t].phase.Committing? ==> s'.store == s.store) && s'.log == s.log
    ensures OthersKeepPhase(s, s', t) && s'.txns[t].phase.Idle?
    decreases |s.txns[t].accesses|
  {
    hide Inv, Leads;
    if s.txns[t].accesses == [] {
      s' := OneStep(alg, init, s, Finish(t));
    } else {
      var mid := GiveBackOne(alg, init, s, t);
      s' := GiveBack(alg, init, mid, t);
      LeadsTrans(NextOf(alg), s, mid, s');
    }
  }

  lemma BeginAlone(alg: Algorithm, init: Store, s: State, t: TxnId, ts: nat, wants: seq<Want>) returns (s': State)
    requires Inv(init, s) && Quiet(s, t) && s.txns[t].phase.Idle?
    ensures Inv(init, s') && Leads(NextOf(alg), s, s') && Opened(s, s', t, ts, wants, 0)
  {
    hide Inv;
    s' := OneStep(alg, init, s, Begin(t, ts));
    NothingYet(s.store, wants);
  }

  lemma FulfilsAlone(alg: Algorithm, init: Store, s: State, t: TxnId, ts: nat, wants: seq<Want>) returns (s': State)
    requires Inv(init, s) && Quiet(s, t) && s.txns[t].phase.Idle? && DistinctWants(s.store, wants)
    ensures Inv(init, s') && Leads(NextOf(alg), s, s') && Opened(s, s', t, ts, wants, |wants|)
  {
    hide Inv, Leads, Opened;
    var mid := BeginAlone(alg, init, s, t, ts, wants);
    s' := FulfilAll(alg, init, s, mid, t, ts, wants, 0);
    LeadsTrans(NextOf(alg), s, mid, s');
  }

  lemma EndsAlone(alg: Algorithm, init: Store, s: State, t: TxnId) returns (s': State)
    requires Inv(init, s) && t in s.txns && s.txns[t].phase.Active?
    ensures Leads(NextOf(alg), s, s') && s'.store == s.store && s'.log == s.log + [s.txns[t].ops]
    ensures OthersKeepPhase(s, s', t) && s'.txns[t].phase.Idle?
  {
    hide Inv, Leads;
    var mid := EndAlone(alg, init, s, t);
    s' := GiveBack(alg, init, mid, t);
    LeadsTrans(NextOf(alg), s, mid, s');
  }

  lemma EndAlone(alg: Algorithm, init: Store, s: State, t: TxnId) returns (s': State)
    requires Inv(init, s) && t in s.txns && s.txns[t].phase.Active?
    ensures Inv(init, s') && Leads(NextOf(alg), s, s') && s'.store == s.store && s'.log == s.log + [s.txns[t].ops]
    ensures OthersKeepPhase(s, s', t) && s'.txns[t].phase.Committing?
  {
    hide Inv, Leads;
    s' := OneStep(alg, init, s, EnterCommit(t));
  }
  // From every reachable state in which all transactions are idle, and whatever
  // rows t wants to read and write, some sequence of steps brings t to its commit:
  // its log entry are the wanted reads, with the values the store had, and the
  // wanted writes, the store has the wanted writes and no others, and all
  // transactions are idle again.
  lemma CommitsAlone(alg: Algorithm, init: Store, run: seq<State>, i: nat, t: TxnId, ts: nat, wants: seq<Want>)
    returns (s': State, ops: seq<Op>)
    requires IsRun(alg, init, run) && i < |run| && t in run[i].txns && DistinctWants(run[i].store, wants)
    requires forall u :: u in run[i].txns ==> run[i].txns[u].phase.Idle?
    ensures Leads(NextOf(alg), run[i], s') && s'.txns.Keys == run[i].txns.Keys
    ensures s'.log == run[i].log + [ops] && Done(run[i].store, wants, ops) && Fulfilled(run[i].store, s'.store, wants)
    ensures forall u :: u in s'.txns ==> s'.txns[u].phase.Idle?
  {
    RunKeeps(alg, init, run, i);
    hide Inv, IsRun, Leads;
    var mid := FulfilsAlone(alg, init, run[i], t, ts, wants);
    ops := mid.txns[t].ops;
    s' := EndsAlone(alg, init, mid, t);
    LeadsTrans(NextOf(alg), run[i], mid, s');
    assert wants[..|wants|] == wants;
    hide Done, Fulfilled;
  }
  lemma QuietStore(init: Store, s: State)
    requires Inv(init, s) && forall u :: u in s.txns ==> s.txns[u].phase.Idle?
    ensures Replay(init, s.log) == Some(s.store)
  {
    var committed := Replay(init, s.log).value;
    forall row | row in s.store
      ensures committed[row] == s.store[row]
    {
      assert Undone(committed, s.store, s.txns, row);
      forall u | u in s.txns
        ensures !DirtiedBy(s.txns[u], row)
      {
        assert TxnOk(s.txns[u]);
        IdleDirtiesNothing(s.txns[u], row);
      }
    }
    hide LockInv, Undone;
    assert committed == s.store;
  }

  lemma GivesUp(alg: Algorithm, init: Store, s: State, t: TxnId) returns (s': State)
    requires Inv(init, s) && t in s.txns && s.txns[t].phase.Active?
    ensures Inv(init, s') && Leads(NextOf(alg), s, s') && s'.log == s.log && OthersKeepPhase(s, s', t) && s'.txns[t].phase.Idle?
  {
    hide Inv, Leads;
    var mid := OneStep(alg, init, s, EnterAbort(t));
    s' := GiveBack(alg, init, mid, t);
    LeadsTrans(NextOf(alg), s, mid, s');
  }

  // It can as well abort after any of its wants: then nothing is logged and the
  // store is what it was.
  lemma AbortsAlone(alg: Algorithm, init: Store, run: seq<State>, i: nat, t: TxnId, ts: nat, wants: seq<Want>) returns (s': State)
    requires IsRun(alg, init, run) && i < |run| && t in run[i].txns && DistinctWants(run[i].store, wants)
    requires forall u :: u in run[i].txns ==> run[i].txns[u].phase.Idle?
    ensures Leads(NextOf(alg), run[i], s') && s'.txns.Keys == run[i].txns.Keys && s'.log == run[i].log && s'.store == run[i].store
    ensures forall u :: u in s'.txns ==> s'.txns[u].phase.Idle?
  {
    RunKeeps(alg, init, run, i);
    QuietStore(init, run[i]);
    hide Inv, IsRun, Leads;
    var mid := FulfilsAlone(alg, init, run[i], t, ts, wants);
    s' := GivesUp(alg, init, mid, t);
    LeadsTrans(NextOf(alg), run[i], mid, s');
    hide Done, Fulfilled;
    QuietStore(init, s');
  }
}
