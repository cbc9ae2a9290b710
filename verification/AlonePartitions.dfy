// A transaction under partition locks that meets nobody: it gets every partition
// at once, runs, and leaves exactly what it wrote.

module AlonePartitions {
  import opened Options
  import opened SerialRuns
  import opened Chains
  import opened Wants
  import opened PartLockSpec
  import opened PartitionRuns
  import opened PartitionSerial

  ghost function NextOf(home: map<RowId, nat>): (Data, Data) -> bool {
    (d, d') => NextAct(home, d, d')
  }

  lemma OneAct(home: map<RowId, nat>, d: Data, act: Act) returns (d': Data)
    requires Inv(d.locks) && Allowed(home, d, act)
    ensures d' == Acted(home, d, act) && Inv(d'.locks) && Leads(NextOf(home), d, d')
  {
    d' := Acted(home, d, act);
    if act.Move? {
      PartitionRuns.StepKeeps(d.locks, act.step);
    }
    hide Inv;
    assert NextAct(home, d, d');
    LeadsStep(NextOf(home), d, d');
  }

  // The steps that only move t on.
  lemma CanBegin(s: State, t: nat, ts: nat, parts: seq<nat>)
    requires Sane(s) && Quiet(s, t) && s.txns[t].phase.Idle?
    requires PartitionRuns.Distinct(parts) && forall k :: 0 <= k < |parts| ==> parts[k] < |s.parts|
    ensures Enabled(s, Begin(t, ts, parts)) && Do(s, Begin(t, ts, parts)) == s.(txns := s.txns[t := Txn(ts, 0, Locking(0), parts)])
  {
  }

  lemma CanStart(s: State, t: nat)
    requires Sane(s) && t in s.txns && s.txns[t].phase == Locking(|s.txns[t].want|) && s.txns[t].ready == 0
    ensures Enabled(s, Start(t)) && Do(s, Start(t)) == s.(txns := s.txns[t := s.txns[t].(phase := Running)])
  {
  }

  lemma CanFinish(s: State, t: nat)
    requires Sane(s) && t in s.txns && s.txns[t].phase.Running?
    ensures Enabled(s, Finish(t)) && Do(s, Finish(t)) == s.(txns := s.txns[t := s.txns[t].(phase := Unlocking(0))])
  {
  }

  lemma CanLeave(s: State, t: nat)
    requires Sane(s) && t in s.txns && s.txns[t].phase == Unlocking(|s.txns[t].want|)
    ensures Enabled(s, UnlockDone(t)) && Do(s, UnlockDone(t)) == s.(txns := s.txns[t := s.txns[t].(phase := Idle)])
  {
  }

  // Everybody but t is idle.
  ghost predicate Quiet(s: State, t: nat) {
    t in s.txns && forall u :: u in s.txns && u != t ==> s.txns[u].phase.Idle?
  }

  // A partition that t does not claim is free.
  lemma FreePart(s: State, t: nat, p: nat)
    requires Inv(s) && Quiet(s, t) && p < |s.parts| && !Claims(s.txns[t], p)
    ensures s.parts[p] == Part(None, [])
  {
    var part := s.parts[p];
    forall k
      ensures !Listed(part, k)
    {
      assert Matches(s.txns, p, part);
      if k.txn in s.txns && k.txn != t {
        assert To(s.txns[k.txn]) == 0;
      }
    }
    hide Matches;
    NothingListed(part);
  }

  lemma NothingListed(part: Part)
    ensures part == Part(None, []) || exists k :: Listed(part, k)
  {
    if part.owner.Some? {
      assert Listed(part, part.owner.value);
    } else if part.waiters != [] {
      assert part.waiters[0] in part.waiters;
      assert Listed(part, part.waiters[0]);
    }
  }

  lemma NotClaimedYet(x: Txn)
    requires x.phase.Locking? && x.phase.i < |x.want| && PartitionRuns.Distinct(x.want)
    ensures !Claims(x, x.want[x.phase.i])
  {
  }

  lemma TxnFacts(s: State, t: nat)
    requires Inv(s) && t in s.txns
    ensures TxnOk(s.txns[t], |s.parts|)
  {
  }

  // t is locking and has got all it asked for so far; nothing else has happened.
  ghost predicate Holding(d0: Data, d: Data, t: nat, i: nat) {
    && d.store == d0.store && d.log == d0.log && Quiet(d.locks, t) && d.locks.txns.Keys == d0.locks.txns.Keys
    && d.locks.txns[t].phase == Locking(i) && d.locks.txns[t].ready == 0
  }

  // A free partition is granted.
  lemma AskFree(s: State, t: nat, p: nat)
    requires t in s.txns && s.txns[t].phase.Locking? && p < |s.parts| && s.parts[p] == Part(None, [])
    ensures Ask(s, t, p).txns == s.txns[t := s.txns[t].(phase := Locking(s.txns[t].phase.i + 1))]
  {
  }

  lemma LockEnabled(s: State, t: nat, i: nat)
    requires t in s.txns && s.txns[t].phase == Locking(i) && i < |s.txns[t].want|
    ensures Enabled(s, LockNext(t))
  {
  }

  lemma LockOne(home: map<RowId, nat>, d0: Data, d: Data, t: nat, i: nat) returns (d': Data)
    requires Inv(d.locks) && Holding(d0, d, t, i) && i < |d.locks.txns[t].want|
    ensures Inv(d'.locks) && Leads(NextOf(home), d, d') && Holding(d0, d', t, i + 1)
    ensures d'.locks.txns[t].want == d.locks.txns[t].want
  {
    hide Inv, Leads, Claims, Enabled, Ask, Sane;
    var x := d.locks.txns[t];
    TxnFacts(d.locks, t);
    NotClaimedYet(x);
    FreePart(d.locks, t, x.want[i]);
    InvSane(d.locks);
    AskFree(d.locks, t, x.want[i]);
    LockEnabled(d.locks, t, i);
    d' := OneAct(home, d, Move(LockNext(t)));
  }

  lemma {:induction false} LockAll(home: map<RowId, nat>, d0: Data, d: Data, t: nat, i: nat) returns (d': Data)
    requires Inv(d.locks) && Holding(d0, d, t, i) && i <= |d.locks.txns[t].want|
    ensures Inv(d'.locks) && Leads(NextOf(home), d, d') && Holding(d0, d', t, |d.locks.txns[t].want|)
    ensures d'.locks.txns[t].want == d.locks.txns[t].want
    decreases |d.locks.txns[t].want| - i
  {
    hide Inv, Leads;
    if i == |d.locks.txns[t].want| {
      d' := d;
      LeadsSelf(NextOf(home), d);
    } else {
      var mid := LockOne(home, d0, d, t, i);
      d' := LockAll(home, d0, mid, t, i + 1);
      LeadsTrans(NextOf(home), d, mid, d');
    }
  }

  // ---------------------------------------------------------------------
  // Running
  // ---------------------------------------------------------------------

  // t runs and has fulfilled the first n wants.
  ghost predicate Underway(d0: Data, d: Data, t: nat, wants: seq<Want>, n: nat) {
    && n <= |wants| && d.log == d0.log && d.locks == d0.locks && t in d.ops
    && Fulfilled(d0.store, d.store, wants[..n]) && Done(d0.store, wants[..n], d.ops[t])
  }

  // The rows of the wants lie in partitions t has locked.
  ghost predicate AtHome(home: map<RowId, nat>, s: State, t: nat, wants: seq<Want>) {
    forall i :: 0 <= i < |wants| ==> wants[i].row in home && RunsOn(s, t, home[wants[i].row])
  }

  lemma FulfilledKeys(store: Store, after: Store, wants: seq<Want>)
    requires Fulfilled(store, after, wants)
    ensures after.Keys == store.Keys
  {
  }

  lemma ServeOne(home: map<RowId, nat>, d0: Data, d: Data, t: nat, wants: seq<Want>, n: nat) returns (d': Data)
    requires Inv(d.locks) && Underway(d0, d, t, wants, n) && n < |wants| && DistinctWants(d0.store, wants) && AtHome(home, d0.locks, t, wants)
    ensures Inv(d'.locks) && Leads(NextOf(home), d, d') && Underway(d0, d', t, wants, n + 1)
  {
    hide Inv, Leads, Fulfilled, Done, RunsOn;
    var w := wants[n];
    FulfilledKeys(d0.store, d.store, wants[..n]);
    var read := OneAct(home, d, DoRead(t, w.row));
    d' := read;
    var more := [Op.Read(w.row, d.store[w.row])];
    if w.write.Some? {
      d' := OneAct(home, read, DoWrite(t, w.row, w.write.value));
      LeadsTrans(NextOf(home), d, read, d');
      more := more + [Op.Write(w.row, w.write.value)];
    }
    assert d'.ops[t] == d.ops[t] + more;
    OneMore(d0.store, wants, n, d.store, d'.store);
    OneMoreDone(d0.store, wants, n, d.ops[t], more);
  }

  lemma {:induction false} ServeAll(home: map<RowId, nat>, d0: Data, d: Data, t: nat, wants: seq<Want>, n: nat) returns (d': Data)
    requires Inv(d.locks) && Underway(d0, d, t, wants, n) && DistinctWants(d0.store, wants) && AtHome(home, d0.locks, t, wants)
    ensures Inv(d'.locks) && Leads(NextOf(home), d, d') && Underway(d0, d', t, wants, |wants|)
    decreases |wants| - n
  {
    hide Inv, Leads, Fulfilled, Done;
    if n == |wants| {
      d' := d;
      LeadsSelf(NextOf(home), d);
    } else {
      var mid := ServeOne(home, d0, d, t, wants, n);
      d' := ServeAll(home, d0, mid, t, wants, n + 1);
      LeadsTrans(NextOf(home), d, mid, d');
    }
  }

  // ---------------------------------------------------------------------
  // Giving back
  // ---------------------------------------------------------------------

  ghost predicate SameButLocks(d: Data, d': Data, t: nat) {
    d'.store == d.store && d'.log == d.log && d'.locks.txns.Keys == d.locks.txns.Keys && Quiet(d'.locks, t)
  }

  lemma GivenBack(s: State, t: nat, p: nat, phase: Phase)
    requires Quiet(s, t) && p < |s.parts|
    ensures var s' := GiveBack(s, t, p, phase);
            Quiet(s', t) && s'.txns.Keys == s.txns.Keys && s'.txns[t].phase == phase && s'.txns[t].want == s.txns[t].want
  {
    var x, part := s.txns[t], s.parts[p];
    var mine := x.(phase := phase, ready := if Owns(part, t) then x.ready else x.ready - 1);
    forall u | u in s.txns
      ensures u in GiveBack(s, t, p, phase).txns && GiveBack(s, t, p, phase).txns[u].phase == s.txns[t := mine][u].phase
    {
      NotifyRuns(s.txns[t := mine], Promoted(part, t), u);
    }
    NotifyRuns(s.txns[t := mine], Promoted(part, t), t);
  }

  lemma UnlockEnabled(s: State, t: nat, j: nat)
    requires t in s.txns && s.txns[t].phase == Unlocking(j) && j < |s.txns[t].want|
    ensures Enabled(s, UnlockNext(t))
  {
  }

  lemma UnlockOne(home: map<RowId, nat>, d: Data, t: nat, j: nat) returns (d': Data)
    requires Inv(d.locks) && Quiet(d.locks, t) && d.locks.txns[t].phase == Unlocking(j) && j < |d.locks.txns[t].want|
    ensures Inv(d'.locks) && Leads(NextOf(home), d, d') && SameButLocks(d, d', t)
    ensures d'.locks.txns[t].phase == Unlocking(j + 1) && d'.locks.txns[t].want == d.locks.txns[t].want
  {
    hide Inv, Leads, Enabled, GiveBack, Sane;
    InvSane(d.locks);
    TxnFacts(d.locks, t);
    UnlockEnabled(d.locks, t, j);
    GivenBack(d.locks, t, d.locks.txns[t].want[j], Unlocking(j + 1));
    d' := OneAct(home, d, Move(UnlockNext(t)));
  }

  lemma {:induction false} UnlockAll(home: map<RowId, nat>, d: Data, t: nat, j: nat) returns (d': Data)
    requires Inv(d.locks) && Quiet(d.locks, t) && d.locks.txns[t].phase == Unlocking(j) && j <= |d.locks.txns[t].want|
    ensures Leads(NextOf(home), d, d') && SameButLocks(d, d', t) && d'.locks.txns[t].phase.Idle?
    decreases |d.locks.txns[t].want| - j
  {
    hide Inv, Leads, Sane, Enabled, Do;
    if j == |d.locks.txns[t].want| {
      InvSane(d.locks);
      CanLeave(d.locks, t);
      d' := OneAct(home, d, Move(UnlockDone(t)));
    } else {
      var mid := UnlockOne(home, d, t, j);
      d' := UnlockAll(home, mid, t, j + 1);
      LeadsTrans(NextOf(home), d, mid, d');
    }
  }

  // ---------------------------------------------------------------------
  // The whole transaction
  // ---------------------------------------------------------------------

  lemma BeginAlone(home: map<RowId, nat>, d: Data, t: nat, ts: nat, parts: seq<nat>) returns (d': Data)
    requires Inv(d.locks) && Quiet(d.locks, t) && d.locks.txns[t].phase.Idle?
    requires PartitionRuns.Distinct(parts) && forall k :: 0 <= k < |parts| ==> parts[k] < |d.locks.parts|
    ensures Inv(d'.locks) && Leads(NextOf(home), d, d') && Holding(d, d', t, 0) && d'.locks.txns[t].want == parts
  {
    hide Inv, Leads, Sane, Enabled, Do;
    InvSane(d.locks);
    CanBegin(d.locks, t, ts, parts);
    d' := OneAct(home, d, Move(Begin(t, ts, parts)));
  }

  lemma StartAlone(home: map<RowId, nat>, d0: Data, d: Data, t: nat) returns (d': Data)
    requires Inv(d.locks) && t in d.locks.txns && Holding(d0, d, t, |d.locks.txns[t].want|)
    ensures Inv(d'.locks) && Leads(NextOf(home), d, d') && SameButLocks(d, d', t) && t in d'.ops && d'.ops[t] == []
    ensures d'.locks.txns[t].phase.Running? && d'.locks.txns[t].want == d.locks.txns[t].want
  {
    hide Inv, Leads, Sane, Enabled, Do;
    InvSane(d.locks);
    CanStart(d.locks, t);
    d' := OneAct(home, d, Move(Start(t)));
  }

  // t runs on all partitions it asked for and has done nothing yet.
  lemma StartsAlone(home: map<RowId, nat>, d: Data, t: nat, ts: nat, parts: seq<nat>) returns (d': Data)
    requires Inv(d.locks) && Quiet(d.locks, t) && d.locks.txns[t].phase.Idle?
    requires PartitionRuns.Distinct(parts) && forall k :: 0 <= k < |parts| ==> parts[k] < |d.locks.parts|
    ensures Inv(d'.locks) && Leads(NextOf(home), d, d') && SameButLocks(d, d', t) && t in d'.ops && d'.ops[t] == []
    ensures d'.locks.txns[t].phase.Running? && d'.locks.txns[t].want == parts
  {
    hide Inv, Leads;
    var d1 := BeginAlone(home, d, t, ts, parts);
    var d2 := LockAll(home, d, d1, t, 0);
    LeadsTrans(NextOf(home), d, d1, d2);
    d' := StartAlone(home, d, d2, t);
    LeadsTrans(NextOf(home), d, d2, d');
  }

  lemma EndsAlone(home: map<RowId, nat>, d: Data, t: nat) returns (d': Data)
    requires Inv(d.locks) && Quiet(d.locks, t) && d.locks.txns[t].phase.Running? && t in d.ops
    ensures Leads(NextOf(home), d, d') && d'.store == d.store && d'.log == d.log + [d.ops[t]]
    ensures d'.locks.txns.Keys == d.locks.txns.Keys && forall u :: u in d'.locks.txns ==> d'.locks.txns[u].phase.Idle?
  {
    hide Inv, Leads, Sane, Enabled, Do;
    InvSane(d.locks);
    CanFinish(d.locks, t);
    var mid := OneAct(home, d, Move(Finish(t)));
    d' := UnlockAll(home, mid, t, 0);
    LeadsTrans(NextOf(home), d, mid, d');
  }

  // From every reachable state in which all transactions are idle, and whatever
  // rows of the partitions it asks for t wants to read and write, some sequence of
  // steps runs t to its end: its log entry are the wanted reads, with the values
  // the store had, and the wanted writes, and the store has the wanted writes and
  // no others.
  lemma FinishesAlone(home: map<RowId, nat>, init: Store, run: seq<Data>, i: nat, t: nat, ts: nat, parts: seq<nat>, wants: seq<Want>)
    returns (d': Data, ops: seq<Op>)
    requires IsDataRun(home, init, run) && i < |run| && t in run[i].locks.txns && DistinctWants(run[i].store, wants)
    requires forall u :: u in run[i].locks.txns ==> run[i].locks.txns[u].phase.Idle?
    requires PartitionRuns.Distinct(parts) && forall k :: 0 <= k < |parts| ==> parts[k] < |run[i].locks.parts|
    requires forall k :: 0 <= k < |wants| ==> wants[k].row in home && home[wants[k].row] in parts
    ensures Leads(NextOf(home), run[i], d') && d'.log == run[i].log + [ops]
    ensures Done(run[i].store, wants, ops) && Fulfilled(run[i].store, d'.store, wants)
    ensures d'.locks.txns.Keys == run[i].locks.txns.Keys && forall u :: u in d'.locks.txns ==> d'.locks.txns[u].phase.Idle?
  {
    DataRunKeeps(home, init, run, i);
    var d := run[i];
    hide Inv, IsDataRun, Serial, Leads, Done, Fulfilled;
    var d1 := StartsAlone(home, d, t, ts, parts);
    NothingYet(d1.store, wants);
    var d2 := ServeAll(home, d1, d1, t, wants, 0);
    LeadsTrans(NextOf(home), d, d1, d2);
    assert wants[..|wants|] == wants;
    ops := d2.ops[t];
    d' := EndsAlone(home, d2, t);
    LeadsTrans(NextOf(home), d, d2, d');
  }
}
