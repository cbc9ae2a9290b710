// MVCC and TIMESTAMP over many rows: the serial order, and progress.

module TimestampOrder {
  import opened Options
  import opened SerialRuns
  import opened RequestQueues
  import opened TimestampRows
  import opened TimestampRuns
  import opened TimestampLinks
  import opened TimestampSafety

  // What a transaction did: it read all its rows and then wrote some.
  function Reads(accesses: seq<Access>): seq<Op> {
    if accesses == [] then []
    else
      var a := accesses[|accesses| - 1];
      Reads(accesses[..|accesses| - 1]) + [Op.Read(a.row, a.seen)]
  }

  function Writes(accesses: seq<Access>): seq<Op> {
    if accesses == [] then []
    else
      var a := accesses[|accesses| - 1];
      Writes(accesses[..|accesses| - 1]) + if a.kind == WR then [Op.Write(a.row, a.data)] else []
  }

  function OpsOf(x: Txn): seq<Op> {
    Reads(x.accesses) + Writes(x.accesses)
  }

  function Logged(txns: map<TxnTs, Txn>, log: seq<TxnTs>): seq<seq<Op>>
    requires forall t :: t in log ==> t in txns
  {
    if log == [] then [] else Logged(txns, log[..|log| - 1]) + [OpsOf(txns[log[|log| - 1]])]
  }

  // What x leaves in row.
  function Final(accesses: seq<Access>, row: RowId): Option<Value> {
    if accesses == [] then None
    else
      var a := accesses[|accesses| - 1];
      if a.row == row && a.kind == WR then Some(a.data) else Final(accesses[..|accesses| - 1], row)
  }

  // What the last writer in the log leaves in row.
  function LastValue(base: Value, txns: map<TxnTs, Txn>, log: seq<TxnTs>, row: RowId): Value
    requires forall t :: t in log ==> t in txns
  {
    if log == [] then base
    else
      var w := Final(txns[log[|log| - 1]].accesses, row);
      if w.Some? then w.value else LastValue(base, txns, log[..|log| - 1], row)
  }

  // ---------------------------------------------------------------------
  // One transaction after another
  // ---------------------------------------------------------------------

  lemma {:induction false} RunReads(store: Store, accesses: seq<Access>)
    requires forall i :: 0 <= i < |accesses| ==> accesses[i].row in store && store[accesses[i].row] == accesses[i].seen
    ensures Run(store, Reads(accesses)) == Some(store)
  {
    if accesses != [] {
      var last := |accesses| - 1;
      RunReads(store, accesses[..last]);
      assert Reads(accesses)[..|Reads(accesses)| - 1] == Reads(accesses[..last]);
    }
  }

  ghost predicate Leaves(store: Store, after: Store, accesses: seq<Access>) {
    && after.Keys == store.Keys
    && forall row :: row in store ==> after[row] == var w := Final(accesses, row); if w.Some? then w.value else store[row]
  }

  lemma RunWrite(store: Store, ops: seq<Op>, a: Access)
    requires Run(store, ops).Some? && a.row in Run(store, ops).value
    ensures Run(store, ops + [Op.Write(a.row, a.data)]) == Some(Run(store, ops).value[a.row := a.data])
  {
    RunAppend(store, ops, Op.Write(a.row, a.data));
  }

  // What the writes leave on top of what the first ones left.
  lemma LeavesMore(store: Store, mid: Store, accesses: seq<Access>)
    requires accesses != [] && Leaves(store, mid, accesses[..|accesses| - 1]) && accesses[|accesses| - 1].row in store
    ensures var a := accesses[|accesses| - 1];
            Leaves(store, if a.kind == WR then mid[a.row := a.data] else mid, accesses)
  {
  }

  lemma {:induction false} RunWrites(store: Store, head: seq<Op>, accesses: seq<Access>)
    requires Run(store, head) == Some(store) && forall i :: 0 <= i < |accesses| ==> accesses[i].row in store
    ensures Run(store, head + Writes(accesses)).Some?
    ensures Leaves(store, Run(store, head + Writes(accesses)).value, accesses)
  {
    hide Run;
    if accesses == [] {
      assert head + Writes(accesses) == head;
    } else {
      hide Leaves;
      var last := |accesses| - 1;
      var a, before := accesses[last], Writes(accesses[..last]);
      RunWrites(store, head, accesses[..last]);
      LeavesMore(store, Run(store, head + before).value, accesses);
      LeavesKeys(store, Run(store, head + before).value, accesses[..last]);
      if a.kind == WR {
        RunWrite(store, head + before, a);
        assert head + Writes(accesses) == (head + before) + [Op.Write(a.row, a.data)];
      } else {
        assert Writes(accesses) == before;
      }
    }
  }

  lemma LeavesKeys(store: Store, after: Store, accesses: seq<Access>)
    requires Leaves(store, after, accesses)
    ensures after.Keys == store.Keys
  {
  }

  lemma RunTxn(store: Store, x: Txn)
    requires forall i :: 0 <= i < |x.accesses| ==> x.accesses[i].row in store && store[x.accesses[i].row] == x.accesses[i].seen
    ensures Run(store, OpsOf(x)).Some? && Leaves(store, Run(store, OpsOf(x)).value, x.accesses)
  {
    RunReads(store, x.accesses);
    RunWrites(store, Reads(x.accesses), x.accesses);
  }

  // ---------------------------------------------------------------------
  // Who wrote what a transaction saw
  // ---------------------------------------------------------------------

  lemma {:induction false} FinalIs(accesses: seq<Access>, row: RowId)
    requires DistinctRows(accesses)
    ensures var i := PlaceOf(accesses, row);
            Final(accesses, row) == if i < |accesses| && accesses[i].kind == WR then Some(accesses[i].data) else None
  {
    if accesses != [] {
      var last := |accesses| - 1;
      FinalIs(accesses[..last], row);
      PlaceAppended(accesses[..last], accesses[last], row);
      assert accesses == accesses[..last] + [accesses[last]];
    }
  }

  // A committed write is in the row or its prewrite is still pending.
  lemma WriterIsThere(init: Store, s: State, u: TxnTs, row: RowId)
    requires Inv(init, s) && u in s.txns && s.txns[u].phase.Committing? && row in s.rows
    ensures var w, r := Final(s.txns[u].accesses, row), s.rows[row];
            && (w.Some? ==> ReqOf(u) in Prereqs(r) || (u in Written(r) && Written(r)[u] == w.value))
            && (u in Written(r) && u != 0 ==> w.Some? && Written(r)[u] == w.value)
            && (ReqOf(u) in Prereqs(r) ==> w.Some?)
  {
    Facts(init, s, u, row);
    FinalIs(s.txns[u].accesses, row);
    hide RowOk, Fitting, AllServed, Opened;
  }

  lemma {:induction false} NobodyWrote(base: Value, txns: map<TxnTs, Txn>, log: seq<TxnTs>, row: RowId)
    requires (forall t :: t in log ==> t in txns) && forall t :: t in log ==> Final(txns[t].accesses, row).None?
    ensures LastValue(base, txns, log, row) == base
  {
    if log != [] {
      NobodyWrote(base, txns, log[..|log| - 1], row);
    }
  }

  lemma {:induction false} LastWriter(base: Value, txns: map<TxnTs, Txn>, log: seq<TxnTs>, row: RowId, m: nat)
    requires (forall t :: t in log ==> t in txns) && m < |log| && Final(txns[log[m]].accesses, row).Some?
    requires forall k :: m < k < |log| ==> Final(txns[log[k]].accesses, row).None?
    ensures LastValue(base, txns, log, row) == Final(txns[log[m]].accesses, row).value
  {
    if m < |log| - 1 {
      LastWriter(base, txns, log[..|log| - 1], row, m);
    }
  }

  // The version is the last write among the first n logged transactions, when
  // no other of them has written or will write after it.
  lemma VersionIsLast(init: Store, s: State, n: nat, row: RowId, version: nat)
    requires Inv(init, s) && n <= |s.log| && row in s.rows && version in Written(s.rows[row])
    requires version == 0 || version in s.log[..n]
    requires forall u :: u in s.log[..n] && (u in Written(s.rows[row]) || ReqOf(u) in Prereqs(s.rows[row])) ==> u <= version
    ensures row in init && forall t :: t in s.log[..n] ==> t in s.txns
    ensures LastValue(init[row], s.txns, s.log[..n], row) == Written(s.rows[row])[version]
  {
    hide Inv, RowOk;
    var log, r := s.log[..n], s.rows[row];
    BaseIsThere(init, s, row);
    forall u | u in log
      ensures u in s.txns && s.txns[u].phase.Committing? && u != 0
      ensures Final(s.txns[u].accesses, row).Some? ==> u <= version
    {
      LogMember(init, s, u);
      WriterIsThere(init, s, u, row);
    }
    if version == 0 {
      NobodyWrote(init[row], s.txns, log, row);
    } else {
      var m :| 0 <= m < n && log[m] == version;
      forall k | m < k < n
        ensures log[k] > version
      {
        LogAscends(init, s, m, k);
      }
      WriterIsThere(init, s, version, row);
      LastWriter(init[row], s.txns, log, row, m);
    }
  }

  lemma BaseIsThere(init: Store, s: State, row: RowId)
    requires Inv(init, s) && row in s.rows
    ensures row in init && RowOk(s.rows[row]) && 0 in Written(s.rows[row]) && Written(s.rows[row])[0] == init[row]
    ensures forall k :: k in Written(s.rows[row]) && k != 0 ==> k in s.log
  {
    assert RowInv(init, s, row);
    hide RowOk, ListsMatch, MarksMatch;
    forall k | k in Written(s.rows[row]) && k != 0
      ensures k in s.log
    {
      assert RoleOf(s.txns[k], row).wrote.Some?;
    }
  }

  lemma LogMember(init: Store, s: State, u: TxnTs)
    requires Inv(init, s) && u in s.log
    ensures u in s.txns && s.txns[u].phase.Committing? && 0 < u
  {
    TxnFacts(init, s, u);
  }

  lemma LogAscends(init: Store, s: State, m: nat, k: nat)
    requires Inv(init, s) && m < k < |s.log|
    ensures s.log[m] < s.log[k]
  {
  }

  lemma OlderIsBefore(init: Store, s: State, n: nat, u: TxnTs)
    requires Inv(init, s) && n < |s.log| && u in s.log && u < s.log[n]
    ensures u in s.log[..n]
  {
    var m :| 0 <= m < |s.log| && s.log[m] == u;
    forall k | n <= k < |s.log|
      ensures s.log[k] >= s.log[n]
    {
      if k > n {
        LogAscends(init, s, n, k);
      }
    }
    hide Inv;
    assert s.log[..n][m] == u;
  }

  // What a logged transaction saw is what the transactions before it in the log
  // leave.
  lemma SawLast(init: Store, s: State, n: nat, i: nat)
    requires Inv(init, s) && n < |s.log| && s.log[n] in s.txns && i < |s.txns[s.log[n]].accesses|
    ensures var a := s.txns[s.log[n]].accesses[i];
            && a.row in s.rows && a.row in init && (forall t :: t in s.log[..n] ==> t in s.txns)
            && LastValue(init[a.row], s.txns, s.log[..n], a.row) == a.seen
  {
    var t := s.log[n];
    var a := s.txns[t].accesses[i];
    TxnFacts(init, s, t);
    assert AccessOk(s.rows, t, a);
    BaseIsThere(init, s, a.row);
    hide RowOk, TxnOk;
    ServedFacts(s.rows[a.row], t, a.version, a.seen);
    forall u | u in s.log[..n]
      ensures u < t
    {
      var m :| 0 <= m < n && s.log[m] == u;
      LogAscends(init, s, m, n);
    }
    if a.version != 0 {
      OlderIsBefore(init, s, n, a.version);
    }
    VersionIsLast(init, s, n, a.row, a.version);
  }

  // The committed store after the first n logged transactions.
  ghost predicate Replayed(init: Store, s: State, n: nat)
    requires n <= |s.log| && forall t :: t in s.log[..n] ==> t in s.txns
  {
    var store := Replay(init, Logged(s.txns, s.log[..n]));
    && store.Some? && store.value.Keys == init.Keys
    && forall row :: row in init ==> store.value[row] == LastValue(init[row], s.txns, s.log[..n], row)
  }

  lemma {:induction false} ReplaysTo(init: Store, s: State, n: nat)
    requires Inv(init, s) && n <= |s.log|
    ensures (forall t :: t in s.log[..n] ==> t in s.txns) && Replayed(init, s, n)
  {
    hide Inv;
    forall t | t in s.log[..n]
      ensures t in s.txns
    {
      LogMember(init, s, t);
    }
    if n > 0 {
      ReplaysTo(init, s, n - 1);
      assert s.log[..n][..n - 1] == s.log[..n - 1] && s.log[..n][n - 1] == s.log[n - 1];
      var t := s.log[n - 1];
      var store := Replay(init, Logged(s.txns, s.log[..n - 1])).value;
      assert t in s.log[..n];
      forall i | 0 <= i < |s.txns[t].accesses|
        ensures var a := s.txns[t].accesses[i];
                a.row in store && store[a.row] == a.seen
      {
        SawLast(init, s, n - 1, i);
      }
      RunTxn(store, s.txns[t]);
      ReplayAppend(init, Logged(s.txns, s.log[..n - 1]), OpsOf(s.txns[t]));
    }
  }
  // ---------------------------------------------------------------------
  // Every run
  // ---------------------------------------------------------------------

  // No committed write of row is still to be stored.
  ghost predicate Stored(s: State, row: RowId)
    requires row in s.rows
  {
    forall u :: u in s.log ==> ReqOf(u) !in Prereqs(s.rows[row])
  }

  lemma FloorIsThere(init: Store, s: State, row: RowId)
    requires Inv(init, s) && row in s.rows
    ensures s.rows[row].Multi? ==> s.rows[row].m.floor == s.floor
  {
    hide RowOk, Matches;
    assert RowInv(init, s, row);
  }

  lemma ContentIsLast(init: Store, s: State, row: RowId, ts: nat)
    requires Inv(init, s) && row in s.rows && Stored(s, row) && s.floor <= ts && forall u :: u in s.log ==> u <= ts
    ensures row in init && forall t :: t in s.log ==> t in s.txns
    ensures LastValue(init[row], s.txns, s.log, row) == Newest(s.rows[row], ts).1
  {
    hide Inv, RowOk, Newest;
    BaseIsThere(init, s, row);
    FloorIsThere(init, s, row);
    NewestFacts(s.rows[row], ts);
    assert s.log[..|s.log|] == s.log;
    VersionIsLast(init, s, |s.log|, row, Newest(s.rows[row], ts).0);
  }

  // Timestamp order is the serial order: in every state of every run, running
  // the committed transactions one after another by timestamp lets each read
  // what it read, and leaves in every row whose committed writes are stored
  // what a new reader finds there.
  lemma Serializable(init: Store, run: seq<State>, i: nat)
    requires IsRun(init, run) && i < |run|
    ensures var s := run[i];
            && s.rows.Keys == init.Keys
            && (forall j, k :: 0 <= j < k < |s.log| ==> s.log[j] < s.log[k])
            && (forall t :: t in s.log <==> t in s.txns && s.txns[t].phase.Committing?)
            && Replay(init, Logged(s.txns, s.log)).Some?
            && Replay(init, Logged(s.txns, s.log)).value.Keys == init.Keys
            && forall row, ts :: row in s.rows && Stored(s, row) && s.floor <= ts && (forall u :: u in s.log ==> u <= ts) ==>
                 Replay(init, Logged(s.txns, s.log)).value[row] == Newest(s.rows[row], ts).1
  {
    RunKeeps(init, run, i);
    hide TxnsInv, RowInv, Newest, LastValue, Logged, Replay, Stored;
    var s := run[i];
    ReplaysTo(init, s, |s.log|);
    assert s.log[..|s.log|] == s.log;
    forall row, ts | row in s.rows && Stored(s, row) && s.floor <= ts && (forall u :: u in s.log ==> u <= ts)
      ensures Replay(init, Logged(s.txns, s.log)).value[row] == Newest(s.rows[row], ts).1
    {
      ContentIsLast(init, s, row, ts);
    }
  }

  // t spins for the value of row.
  ghost predicate Blocked(s: State, t: TxnTs) {
    t in s.txns && s.txns[t].phase.Waiting? && s.txns[t].phase.row in s.rows && !IsServed(s.rows[s.txns[t].phase.row], t)
  }

  // t waits until the older u writes or cancels.
  ghost predicate WaitsFor(s: State, t: TxnTs, u: TxnTs) {
    Blocked(s, t) && u < t && ReqOf(u) in Prereqs(s.rows[s.txns[t].phase.row])
  }

  // Whoever is blocked waits for an older transaction that is not finished.
  lemma BlockedByOlder(init: Store, run: seq<State>, i: nat, t: TxnTs) returns (u: TxnTs)
    requires IsRun(init, run) && i < |run| && Blocked(run[i], t)
    ensures WaitsFor(run[i], t, u) && u in run[i].txns && !Finished(run[i].txns[u])
  {
    RunKeeps(init, run, i);
    u := OlderPending(init, run[i], t);
  }

  lemma OlderPending(init: Store, s: State, t: TxnTs) returns (u: TxnTs)
    requires Inv(init, s) && Blocked(s, t)
    ensures WaitsFor(s, t, u) && u in s.txns && !Finished(s.txns[u])
  {
    hide Inv, RowOk, ListsMatch, RoleOf, Finished;
    var row := s.txns[t].phase.row;
    ListsAre(init, s, row);
    WaiterIsListed(s.txns, s.rows[row], t, row);
    BufferedFacts(s.rows[row], ReqOf(t));
    var p :| p in Prereqs(s.rows[row]) && p.ts < t;
    PendingIsLive(s.txns, s.rows[row], p, row);
    u := p.ts;
  }

  lemma ListsAre(init: Store, s: State, row: RowId)
    requires Inv(init, s) && row in s.rows
    ensures RowOk(s.rows[row]) && ListsMatch(Roles(s.txns, row), s.rows[row])
  {
    hide RowOk, ListsMatch;
    assert RowInv(init, s, row);
  }

  lemma WaiterIsListed(txns: map<TxnTs, Txn>, r: Row, t: TxnTs, row: RowId)
    requires ListsMatch(Roles(txns, row), r) && t in txns && txns[t].phase.Waiting? && txns[t].phase.row == row && !IsServed(r, t)
    ensures ReqOf(t) in Readreqs(r)
  {
    assert RoleOf(txns[t], row).waits;
  }

  lemma PendingIsLive(txns: map<TxnTs, Txn>, r: Row, p: Req, row: RowId)
    requires ListsMatch(Roles(txns, row), r) && p in Prereqs(r)
    ensures p == ReqOf(p.ts) && p.ts in txns && !Finished(txns[p.ts])
  {
    FinishedHasNothing(txns[p.ts], row);
  }

  ghost predicate WaitPath(s: State, path: seq<TxnTs>) {
    |path| >= 2 && forall i :: 0 <= i < |path| - 1 ==> WaitsFor(s, path[i], path[i + 1])
  }

  // So waits lead from younger to older ones, over any number of rows.
  lemma {:induction false} WaitsFall(s: State, path: seq<TxnTs>, k: nat)
    requires WaitPath(s, path) && 0 < k < |path|
    ensures path[k] < path[0]
  {
    assert WaitsFor(s, path[k - 1], path[k]);
    if k > 1 {
      WaitsFall(s, path, k - 1);
    }
  }

  // The steps of t itself.
  predicate IsBy(step: Step, t: TxnTs) {
    match step
    case Begin(u) => u == t
    case Announce(u, _) => u == t
    case Ask(u, _, _) => u == t
    case Awake(u, _, _) => u == t
    case Modify(u, _, _) => u == t
    case EnterCommit(u) => u == t
    case EnterAbort(u) => u == t
    case ReturnLast(u) => u == t
    case Recycle(_, _) => false
    case Raise(_) => false
  }

  // With room in the request queues, a transaction that is not blocked has a
  // step of its own, unless it is finished.
  lemma UnblockedProceeds(init: Store, s: State, t: TxnTs) returns (step: Step)
    requires Inv(init, s) && t in s.txns && !Finished(s.txns[t]) && !Blocked(s, t)
    requires forall row :: row in s.rows ==> |Readreqs(s.rows[row])| < Spec.MAX_READ_REQ
    ensures IsBy(step, t) && Enabled(s, step)
  {
    var x := s.txns[t];
    TxnFacts(init, s, t);
    match x.phase
    case Running => step := EnterCommit(t);
    case Announced(row) =>
      AnnouncedIsRead(init, s, t, row);
      step := Ask(t, row, WR);
    case Waiting(row, kind) =>
      assert row in s.rows;
      var version, value :| ServedAt(s.rows[row], t, version, value);
      step := Awake(t, version, value);
    case _ =>
      assert AccessOk(s.rows, t, x.accesses[x.phase.left - 1]);
      step := ReturnLast(t);
  }

  lemma AnnouncedIsRead(init: Store, s: State, t: TxnTs, row: RowId)
    requires Inv(init, s) && t in s.txns && s.txns[t].phase == Announced(row) && row in s.rows
    requires |Readreqs(s.rows[row])| < Spec.MAX_READ_REQ
    ensures ReadRow(s.rows[row], ReqOf(t)).1 != Abort
  {
    Facts(init, s, t, row);
    hide RowOk, TxnOk;
    ReadAfterPrewrite(s.rows[row], ReqOf(t));
  }

  // Nobody waits for ever for others to wait: in every state of every run with
  // room in the request queues the oldest unfinished transaction has a step.
  lemma OldestProceeds(init: Store, run: seq<State>, i: nat, t: TxnTs) returns (step: Step)
    requires IsRun(init, run) && i < |run| && t in run[i].txns && !Finished(run[i].txns[t])
    requires forall u :: u in run[i].txns && u < t ==> Finished(run[i].txns[u])
    requires forall row :: row in run[i].rows ==> |Readreqs(run[i].rows[row])| < Spec.MAX_READ_REQ
    ensures IsBy(step, t) && Enabled(run[i], step)
  {
    RunKeeps(init, run, i);
    if Blocked(run[i], t) {
      var u := OlderPending(init, run[i], t);
    }
    step := UnblockedProceeds(init, run[i], t);
  }
}
