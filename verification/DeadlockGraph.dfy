// DL_DETECT from end to end: no real cycle of waits escapes the detector.

module DeadlockGraph {
  import opened Options
  import opened SerialRuns
  import opened RowLockSpec
  import opened TwoPhaseLocking
  import opened TwoPhaseLocks
  import opened TwoPhaseSafety
  import Detector = DlDetect

  // e is queued behind f, or behind the owner f, and cannot share the lock with it.
  ghost predicate Behind(lk: Lock, e: Entry, f: Entry) {
    Conflict(e.lockType, f.lockType) && exists k: nat :: IsAhead(lk, k, e, f)
  }

  ghost predicate IsAhead(lk: Lock, k: nat, e: Entry, f: Entry) {
    k < |lk.waiters| && lk.waiters[k] == e && (f in lk.owners || f in lk.waiters[..k])
  }

  // ---------------------------------------------------------------------
  // One lock
  // ---------------------------------------------------------------------

  // A new request waits only for what it reports, and nobody waits for it yet.
  lemma GetAddsOnlyReported(lk: Lock, e: Entry, x: Entry, f: Entry)
    requires WellFormed(lk) && Fresh(lk, e) && Behind(Get(DlDetect, lk, e).0, x, f)
    ensures Behind(lk, x, f) || (x == e && Get(DlDetect, lk, e).1 == Wait && Blocks(lk, e, f.txn))
  {
    var lk' := Get(DlDetect, lk, e).0;
    var k: nat :| IsAhead(lk', k, x, f);
    if k < |lk.waiters| {
      assert lk'.waiters[..k] == lk.waiters[..k];
      assert IsAhead(lk, k, x, f);
    } else {
      assert lk'.waiters[..k] == lk.waiters;
      assert Listed(lk, f);
    }
  }

  lemma WithoutAhead(es: seq<Entry>, i: nat, k: nat)
    requires i < |es| && k < |es| - 1
    ensures Without(es, i)[k] == es[if k < i then k else k + 1]
    ensures forall f :: f in Without(es, i)[..k] ==> f in es[..if k < i then k else k + 1]
  {
    var es' := Without(es, i);
    assert forall j :: 0 <= j < k ==> es'[j] == es[if j < i then j else j + 1];
    forall f | f in es'[..k]
      ensures f in es[..if k < i then k else k + 1]
    {
      var j :| 0 <= j < k && es'[j] == f;
      var m := if j < i then j else j + 1;
      assert es[m] == f && m < if k < i then k else k + 1;
    }
  }

  lemma DropAddsNothing(lk: Lock, txn: TxnId, x: Entry, f: Entry)
    requires Behind(Drop(lk, txn), x, f)
    ensures Behind(lk, x, f)
  {
    var lk' := Drop(lk, txn);
    var k: nat :| IsAhead(lk', k, x, f);
    var i, m := IndexOf(lk.owners, txn), IndexOf(lk.waiters, txn);
    if i < |lk.owners| {
      assert lk.owners == lk.owners[..i] + [lk.owners[i]] + lk.owners[i + 1..];
      assert IsAhead(lk, k, x, f);
    } else if m < |lk.waiters| {
      WithoutAhead(lk.waiters, m, k);
      assert IsAhead(lk, if k < m then k else k + 1, x, f);
    }
  }

  lemma PromoteHeadAddsNothing(lk: Lock, x: Entry, f: Entry)
    requires lk.waiters != [] && Behind(PromoteHead(lk), x, f)
    ensures Behind(lk, x, f)
  {
    var k: nat :| IsAhead(PromoteHead(lk), k, x, f);
    assert lk.waiters[..k + 1] == [lk.waiters[0]] + lk.waiters[1..][..k];
    assert IsAhead(lk, k + 1, x, f);
  }

  lemma {:induction false} PromoteAddsNothing(lk: Lock, x: Entry, f: Entry)
    requires Behind(Promote(lk), x, f)
    ensures Behind(lk, x, f)
    decreases |lk.waiters|
  {
    if lk.waiters != [] && !Conflict(lk.lockType, lk.waiters[0].lockType) {
      PromoteAddsNothing(PromoteHead(lk), x, f);
      PromoteHeadAddsNothing(lk, x, f);
    }
  }

  // A release makes nobody wait for more.
  lemma ReleaseAddsNothing(lk: Lock, txn: TxnId, x: Entry, f: Entry)
    requires Behind(Release(lk, txn), x, f)
    ensures Behind(lk, x, f)
  {
    PromoteAddsNothing(Drop(lk, txn), x, f);
    DropAddsNothing(lk, txn, x, f);
  }

  // ---------------------------------------------------------------------
  // All locks
  // ---------------------------------------------------------------------

  // t is queued on a row and cannot have it before u has let go of it.
  ghost predicate WaitsFor(s: State, t: TxnId, u: TxnId) {
    exists row: RowId, e: Entry, f: Entry :: row in s.locks && Behind(s.locks[row], e, f) && e.txn == t && f.txn == u
  }

  // The blockers lock_get collects for the request of t.
  ghost function Reported(lk: Lock, e: Entry): iset<TxnId> {
    iset id | Blocks(lk, e, id)
  }

  // What the queued transactions have reported.
  type Reports = map<TxnId, iset<TxnId>>

  ghost function NextReports(s: State, step: Step, reports: Reports): Reports
    requires Sane(s) && Enabled(DlDetect, s, step)
  {
    match step
    case Request(t, row, kind) =>
      var e := Entry(t, s.txns[t].ts, LockOf(kind));
      if Get(DlDetect, s.locks[row], e).1 == Wait then reports[t := Reported(s.locks[row], e)] else reports
    case _ => reports
  }

  ghost predicate AllReported(s: State, reports: Reports) {
    forall t, u :: WaitsFor(s, t, u) ==> t in reports && u in reports[t]
  }

  // An active transaction is queued nowhere.
  lemma ActiveIsNotQueued(s: State, t: TxnId, row: RowId, e: Entry)
    requires LockInv(s) && t in s.txns && s.txns[t].phase.Active? && row in s.locks && e in s.locks[row].waiters
    ensures e.txn != t
  {
    assert EntryMatches(ClaimBy(s.txns, row, e), s.locks[row], e);
  }

  lemma RequesterIsFresh(s: State, t: TxnId, row: RowId, e: Entry)
    requires LockInv(s) && t in s.txns && s.txns[t].phase.Active? && row in s.locks
    requires AccessKind(s.txns[t].accesses, row).None? && e.txn == t && e.lockType != LockNone
    ensures Fresh(s.locks[row], e) && WellFormed(s.locks[row])
  {
    forall x | Listed(s.locks[row], x)
      ensures x.txn != t
    {
      assert EntryMatches(ClaimBy(s.txns, row, x), s.locks[row], x);
    }
  }

  // The waits after the request of t: those before it, and those it reports.
  lemma RequestAddsOnlyReported(s: State, t: TxnId, row: RowId, kind: AccessType, v: TxnId, u: TxnId)
    requires LockInv(s) && t in s.txns && row in s.locks && s.txns[t].phase.Active? && AccessKind(s.txns[t].accesses, row).None?
    requires WaitsFor(RequestRow(DlDetect, s, t, row, kind), v, u)
    ensures var e := Entry(t, s.txns[t].ts, LockOf(kind));
            (v != t && WaitsFor(s, v, u)) || (v == t && Get(DlDetect, s.locks[row], e).1 == Wait && Blocks(s.locks[row], e, u))
  {
    hide LockInv, Get, Behind, Blocks;
    var e, s' := Entry(t, s.txns[t].ts, LockOf(kind)), RequestRow(DlDetect, s, t, row, kind);
    var p: RowId, x: Entry, f: Entry :| p in s'.locks && Behind(s'.locks[p], x, f) && x.txn == v && f.txn == u;
    if p == row {
      RequesterIsFresh(s, t, row, e);
      GetAddsOnlyReported(s.locks[row], e, x, f);
    }
    if Behind(s.locks[p], x, f) {
      BehindIsQueued(s.locks[p], x, f);
      ActiveIsNotQueued(s, t, p, x);
    }
  }

  lemma BehindIsQueued(lk: Lock, e: Entry, f: Entry)
    requires Behind(lk, e, f)
    ensures e in lk.waiters
  {
  }

  lemma RequestReports(s: State, reports: Reports, t: TxnId, row: RowId, kind: AccessType, v: TxnId, u: TxnId)
    requires LockInv(s) && AllReported(s, reports) && Sane(s) && Enabled(DlDetect, s, Request(t, row, kind))
    requires WaitsFor(RequestRow(DlDetect, s, t, row, kind), v, u)
    ensures var reports' := NextReports(s, Request(t, row, kind), reports);
            v in reports' && u in reports'[v]
  {
    hide LockInv, WaitsFor, Get, Blocks, RequestRow, Sane;
    RequestAddsOnlyReported(s, t, row, kind, v, u);
  }

  lemma ReleaseReports(s: State, t: TxnId, row: RowId, x: Txn, v: TxnId, u: TxnId)
    requires t in s.txns && row in s.locks && WaitsFor(ReleaseRow(s, t, row, x), v, u)
    ensures WaitsFor(s, v, u)
  {
    var s' := ReleaseRow(s, t, row, x);
    var p: RowId, e: Entry, f: Entry :| p in s'.locks && Behind(s'.locks[p], e, f) && e.txn == v && f.txn == u;
    if p == row {
      ReleaseAddsNothing(s.locks[row], t, e, f);
    }
  }

  lemma SameWaits(s: State, s': State, v: TxnId, u: TxnId)
    requires s'.locks == s.locks && WaitsFor(s', v, u)
    ensures WaitsFor(s, v, u)
  {
    var p: RowId, e: Entry, f: Entry :| p in s'.locks && Behind(s'.locks[p], e, f) && e.txn == v && f.txn == u;
    assert p in s.locks && Behind(s.locks[p], e, f);
  }

  lemma StepReports(s: State, reports: Reports, step: Step)
    requires LockInv(s) && AllReported(s, reports) && Sane(s) && Enabled(DlDetect, s, step)
    ensures AllReported(Do(DlDetect, s, step), NextReports(s, step, reports))
  {
    hide LockInv, WaitsFor, Reported;
    var s', x := Do(DlDetect, s, step), s.txns[step.t];
    forall v, u | WaitsFor(s', v, u)
      ensures v in NextReports(s, step, reports) && u in NextReports(s, step, reports)[v]
    {
      match step
      case Request(t, row, kind) => RequestReports(s, reports, t, row, kind, v, u);
      case Withdraw(t) => ReleaseReports(s, t, x.phase.row, x.(phase := Aborting), v, u);
      case ReleaseLast(t) =>
        var mid := s.(store := Restored(s.store, x));
        ReleaseReports(mid, t, x.accesses[|x.accesses| - 1].row, x.(accesses := x.accesses[..|x.accesses| - 1]), v, u);
        SameWaits(s, mid, v, u);
      case _ => SameWaits(s, s', v, u);
    }
  }

  // ---------------------------------------------------------------------
  // Every run
  // ---------------------------------------------------------------------

  ghost predicate NextBoth(s: State, reports: Reports, s': State, reports': Reports) {
    exists step :: Sane(s) && Enabled(DlDetect, s, step) && s' == Do(DlDetect, s, step) && reports' == NextReports(s, step, reports)
  }

  // A run of the system together with what has been reported.
  ghost predicate IsReportedRun(init: Store, run: seq<State>, reports: seq<Reports>) {
    && IsRun(DlDetect, init, run) && |reports| == |run| && reports[0] == map[]
    && forall i :: 0 <= i < |run| - 1 ==> NextBoth(run[i], reports[i], run[i + 1], reports[i + 1])
  }

  lemma NobodyWaits(s: State, init: Store, v: TxnId, u: TxnId)
    requires Init(s, init)
    ensures !WaitsFor(s, v, u)
  {
  }

  // In every state of every run, a transaction waits only for transactions it
  // reported when it was queued.
  lemma {:induction false} WaitsAreReported(init: Store, run: seq<State>, reports: seq<Reports>, i: nat)
    requires IsReportedRun(init, run, reports) && i < |run|
    ensures AllReported(run[i], reports[i])
  {
    if i == 0 {
      forall v, u
        ensures !WaitsFor(run[0], v, u)
      {
        NobodyWaits(run[0], init, v, u);
      }
    } else {
      hide LockInv, DataInv, Sane, Enabled, Do, NextReports, WaitsFor;
      WaitsAreReported(init, run, reports, i - 1);
      RunKeeps(DlDetect, init, run, i - 1);
      assert NextBoth(run[i - 1], reports[i - 1], run[i - 1 + 1], reports[i - 1 + 1]);
      var step :| Sane(run[i - 1]) && Enabled(DlDetect, run[i - 1], step) && run[i] == Do(DlDetect, run[i - 1], step)
                  && reports[i] == NextReports(run[i - 1], step, reports[i - 1]);
      StepReports(run[i - 1], reports[i - 1], step);
    }
  }

  // t has put what it reported into the graph with add_dep.
  ghost predicate Registered(g: seq<Detector.DepThd>, reports: Reports, t: TxnId)
    requires g != []
  {
    && t in reports && Detector.Live(g, t)
    && forall u :: u in reports[t] ==> u in g[Detector.Thd(g, t)].adj
  }

  // add_dep with the blockers that lock_get returned registers t, and leaves the
  // transactions of other threads registered.
  lemma AddDepRegisters(g: seq<Detector.DepThd>, reports: Reports, t: TxnId, txnids: seq<nat>, numLocks: int, u: TxnId)
    requires g != [] && t in reports && forall v :: v in reports[t] ==> v in txnids
    ensures var thd := Detector.Thd(g, t);
            var g' := g[thd := Detector.DepThd(t, g[thd].adj + txnids, numLocks)];
            && Registered(g', reports, t)
            && (Detector.Thd(g, u) != thd && Registered(g, reports, u) ==> Registered(g', reports, u))
  {
  }

  ghost predicate IsWaitCycle(s: State, c: seq<TxnId>) {
    c != [] && WaitsFor(s, c[|c| - 1], c[0]) && forall j :: 0 <= j < |c| - 1 ==> WaitsFor(s, c[j], c[j + 1])
  }

  function Nodes(g: seq<Detector.DepThd>, c: seq<TxnId>): (nodes: seq<nat>)
    requires g != []
    ensures |nodes| == |c| && forall j :: 0 <= j < |c| ==> nodes[j] == Detector.Thd(g, c[j])
  {
    seq(|c|, j requires 0 <= j < |c| => Detector.Thd(g, c[j]))
  }

  lemma WaitIsEdge(s: State, g: seq<Detector.DepThd>, reports: Reports, t: TxnId, u: TxnId)
    requires g != [] && AllReported(s, reports) && WaitsFor(s, t, u)
    requires Registered(g, reports, t) && Detector.Live(g, u)
    ensures Detector.Edge(g, Detector.Thd(g, t), Detector.Thd(g, u))
  {
    var adj := g[Detector.Thd(g, t)].adj;
    assert u in adj;
    var i :| 0 <= i < |adj| && adj[i] == u;
  }

  // The detector misses no deadlock: when all transactions on a real cycle of
  // waits have registered, a search from any of them finds a cycle.
  lemma RealCyclesAreFound(init: Store, run: seq<State>, reports: seq<Reports>, i: nat, g: seq<Detector.DepThd>, c: seq<TxnId>, k: nat)
    requires IsReportedRun(init, run, reports) && i < |run| && g != [] && IsWaitCycle(run[i], c) && k < |c|
    requires forall j :: 0 <= j < |c| ==> Registered(g, reports[i], c[j])
    ensures Detector.IsCycle(g, Nodes(g, c)) && Detector.Deadlocked(g, Detector.Thd(g, c[k]))
  {
    hide WaitsFor, IsRun, Detector.Edge, Detector.Thd;
    WaitsAreReported(init, run, reports, i);
    var nodes := Nodes(g, c);
    forall j | 0 <= j < |c|
      ensures Detector.Edge(g, nodes[j], nodes[if j == |c| - 1 then 0 else j + 1])
    {
      var next := if j == |c| - 1 then 0 else j + 1;
      WaitIsEdge(run[i], g, reports[i], c[j], c[next]);
    }
    CycleReachesItself(g, nodes, k);
  }

  lemma CycleReachesItself(g: seq<Detector.DepThd>, nodes: seq<nat>, k: nat)
    requires k < |nodes| && (forall j :: 0 <= j < |nodes| ==> nodes[j] < |g|)
    requires forall j :: 0 <= j < |nodes| ==> Detector.Edge(g, nodes[j], nodes[if j == |nodes| - 1 then 0 else j + 1])
    ensures Detector.IsCycle(g, nodes) && Detector.Deadlocked(g, nodes[k])
  {
    var way := nodes[k..] + [nodes[0]];
    forall j | 0 <= j < |way| - 1
      ensures Detector.Edge(g, way[j], way[j + 1])
    {
      assert Detector.Edge(g, nodes[k + j], nodes[if k + j == |nodes| - 1 then 0 else k + j + 1]);
    }
    forall j | 0 <= j < |nodes| - 1
      ensures Detector.Edge(g, nodes[j], nodes[j + 1])
    {
      assert Detector.Edge(g, nodes[j], nodes[if j == |nodes| - 1 then 0 else j + 1]);
    }
    assert Detector.IsCycle(g, nodes);
    assert Detector.Reaches(g, nodes[k], way, nodes[0]);
  }
}
