// HSTORE: transactions lock all their partitions one by one, in any
// interleaving (Plock::lock and Plock::unlock on top of the partition locks).

module PartitionRuns {
  import opened Options
  import opened PartLockSpec

  datatype Phase =
    | Idle
    | Locking(i: nat)          // has asked for want[..i]
    | Undoing(i: nat, j: nat)  // want[i] refused; has given back want[..j]
    | Running
    | Unlocking(j: nat)        // has given back want[..j]

  datatype Txn = Txn(ts: nat, ready: int, phase: Phase, want: seq<nat>)

  datatype State = State(parts: seq<Part>, txns: map<nat, Txn>)

  datatype Step =
    | Begin(t: nat, ts: nat, want: seq<nat>)
    | LockNext(t: nat)
    | Start(t: nat)
    | UndoNext(t: nat)
    | UndoDone(t: nat)
    | Finish(t: nat)
    | UnlockNext(t: nat)
    | UnlockDone(t: nat)

  ghost predicate Distinct(want: seq<nat>) {
    forall i, j :: 0 <= i < j < |want| ==> want[i] != want[j]
  }

  ghost predicate Enabled(s: State, step: Step) {
    && step.t in s.txns
    && var x := s.txns[step.t];
       match step
       // Timestamps of live transactions differ; no partition is asked for twice.
       case Begin(t, ts, want) =>
         && x.phase.Idle? && Distinct(want) && (forall k :: 0 <= k < |want| ==> want[k] < |s.parts|)
         && forall u :: u in s.txns && u != t && !s.txns[u].phase.Idle? ==> s.txns[u].ts != ts
       case LockNext(_) => x.phase.Locking? && x.phase.i < |x.want|
       // The spin loop ends when no partition is missing.
       case Start(_) => x.phase.Locking? && x.phase.i == |x.want| && x.ready <= 0
       case UndoNext(_) => x.phase.Undoing? && x.phase.j < x.phase.i
       case UndoDone(_) => x.phase.Undoing? && x.phase.j == x.phase.i
       case Finish(_) => x.phase.Running?
       case UnlockNext(_) => x.phase.Unlocking? && x.phase.j < |x.want|
       case UnlockDone(_) => x.phase.Unlocking? && x.phase.j == |x.want|
  }

  function Tk(txns: map<nat, Txn>, t: nat): Ticket
    requires t in txns
  {
    Ticket(t, txns[t].ts)
  }

  // The promoted waiter misses one partition less.
  function Notify(txns: map<nat, Txn>, promoted: Option<Ticket>): map<nat, Txn> {
    if promoted.Some? && promoted.value.txn in txns
    then var u := promoted.value.txn; txns[u := txns[u].(ready := txns[u].ready - 1)]
    else txns
  }

  // t gives partition p back and goes to phase.
  function GiveBack(s: State, t: nat, p: nat, phase: Phase): State
    requires t in s.txns && p < |s.parts|
  {
    var part := s.parts[p];
    var x := s.txns[t];
    var mine := x.(phase := phase, ready := if Owns(part, t) then x.ready else x.ready - 1);
    State(s.parts[p := Unlock(part, t)], Notify(s.txns[t := mine], Promoted(part, t)))
  }

  function Ask(s: State, t: nat, p: nat): State
    requires t in s.txns && s.txns[t].phase.Locking? && p < |s.parts|
  {
    var x := s.txns[t];
    var (part, rc) := Lock(s.parts[p], Tk(s.txns, t));
    var phase := if rc == Abort then Undoing(x.phase.i, 0) else Locking(x.phase.i + 1);
    State(s.parts[p := part], s.txns[t := x.(phase := phase, ready := if rc == Wait then x.ready + 1 else x.ready)])
  }

  ghost predicate Sane(s: State) {
    forall t :: t in s.txns ==>
      var x := s.txns[t];
      && (forall k :: 0 <= k < |x.want| ==> x.want[k] < |s.parts|)
      && (x.phase.Undoing? ==> x.phase.j <= x.phase.i < |x.want|)
  }

  ghost function Do(s: State, step: Step): State
    requires Sane(s) && Enabled(s, step)
  {
    var t := step.t;
    var x := s.txns[t];
    match step
    case Begin(_, ts, want) => s.(txns := s.txns[t := Txn(ts, 0, Locking(0), want)])
    case LockNext(_) => Ask(s, t, x.want[x.phase.i])
    case Start(_) => s.(txns := s.txns[t := x.(phase := Running)])
    case UndoNext(_) => GiveBack(s, t, x.want[x.phase.j], Undoing(x.phase.i, x.phase.j + 1))
    case UndoDone(_) => s.(txns := s.txns[t := x.(phase := Idle)])
    case Finish(_) => s.(txns := s.txns[t := x.(phase := Unlocking(0))])
    case UnlockNext(_) => GiveBack(s, t, x.want[x.phase.j], Unlocking(x.phase.j + 1))
    case UnlockDone(_) => s.(txns := s.txns[t := x.(phase := Idle)])
  }

  // ---------------------------------------------------------------------
  // Invariant
  // ---------------------------------------------------------------------

  // The stretch of want that is asked for and not given back.
  function From(x: Txn): nat {
    match x.phase
    case Undoing(_, j) => j
    case Unlocking(j) => j
    case _ => 0
  }

  function To(x: Txn): nat {
    match x.phase
    case Idle => 0
    case Locking(i) => i
    case Undoing(i, _) => i
    case Running => |x.want|
    case Unlocking(_) => |x.want|
  }

  ghost predicate Claims(x: Txn, p: nat) {
    exists k :: From(x) <= k < To(x) && k < |x.want| && x.want[k] == p
  }

  ghost predicate TxnOk(x: Txn, parts: nat) {
    && Distinct(x.want) && (forall k :: 0 <= k < |x.want| ==> x.want[k] < parts)
    && From(x) <= To(x) <= |x.want| && (x.phase.Undoing? ==> x.phase.i < |x.want|)
  }

  // A ticket is listed on p exactly when its transaction claims p.
  ghost predicate Matches(txns: map<nat, Txn>, p: nat, part: Part) {
    forall k :: Listed(part, k) <==> k.txn in txns && k.ts == txns[k.txn].ts && Claims(txns[k.txn], p)
  }

  function Queued(parts: seq<Part>, n: nat, k: Ticket): nat
    requires n <= |parts|
  {
    if n == 0 then 0 else Queued(parts, n - 1, k) + if k in parts[n - 1].waiters then 1 else 0
  }

  ghost predicate AllParts(s: State) {
    forall p :: 0 <= p < |s.parts| ==> PartOk(s.parts[p]) && Matches(s.txns, p, s.parts[p])
  }

  ghost predicate AllTxns(s: State) {
    forall t :: t in s.txns ==>
      && TxnOk(s.txns[t], |s.parts|)
      // ready_part counts the queues the transaction is in.
      && s.txns[t].ready == Queued(s.parts, |s.parts|, Tk(s.txns, t))
      && (s.txns[t].phase.Running? || s.txns[t].phase.Unlocking? ==> s.txns[t].ready == 0)
  }

  ghost predicate TsDistinct(txns: map<nat, Txn>) {
    forall t, u :: t in txns && u in txns && t != u && !txns[t].phase.Idle? && !txns[u].phase.Idle? ==> txns[t].ts != txns[u].ts
  }

  ghost predicate Inv(s: State) {
    AllParts(s) && AllTxns(s) && TsDistinct(s.txns)
  }

  // ---------------------------------------------------------------------
  // Counting queues
  // ---------------------------------------------------------------------

  lemma {:induction false} QueuedAfter(parts: seq<Part>, p: nat, part: Part, n: nat, k: Ticket)
    requires p < |parts| && n <= |parts|
    ensures Queued(parts[p := part], n, k) == Queued(parts, n, k) +
            if p >= n || (k in part.waiters <==> k in parts[p].waiters) then 0 else if k in part.waiters then 1 else -1
  {
    if n > 0 {
      QueuedAfter(parts, p, part, n - 1, k);
    }
  }

  lemma {:induction false} QueuedZero(parts: seq<Part>, n: nat, k: Ticket)
    requires n <= |parts|
    ensures Queued(parts, n, k) == 0 <==> forall p :: 0 <= p < n ==> k !in parts[p].waiters
  {
    if n > 0 {
      QueuedZero(parts, n - 1, k);
    }
  }

  lemma InitHolds(s: State)
    requires forall p :: 0 <= p < |s.parts| ==> s.parts[p] == Part(None, [])
    requires forall t :: t in s.txns ==> s.txns[t].phase.Idle? && s.txns[t].want == [] && s.txns[t].ready == 0
    ensures Inv(s)
  {
    forall t | t in s.txns
      ensures Queued(s.parts, |s.parts|, Tk(s.txns, t)) == 0
    {
      QueuedZero(s.parts, |s.parts|, Tk(s.txns, t));
    }
  }

  // ---------------------------------------------------------------------
  // The steps
  // ---------------------------------------------------------------------

  // Steps of t that ask for nothing and give nothing back.
  ghost predicate SameClaims(x: Txn, y: Txn) {
    forall p :: Claims(x, p) <==> Claims(y, p)
  }

  lemma PrivateStep(s: State, t: nat, x: Txn)
    requires Inv(s) && t in s.txns && TxnOk(x, |s.parts|) && SameClaims(s.txns[t], x)
    requires x.ts == s.txns[t].ts || forall p :: !Claims(x, p)
    requires forall u :: u in s.txns && u != t && !s.txns[u].phase.Idle? && !x.phase.Idle? ==> s.txns[u].ts != x.ts
    requires x.ready == s.txns[t].ready
    requires x.ready == Queued(s.parts, |s.parts|, Ticket(t, x.ts)) && (x.phase.Running? || x.phase.Unlocking? ==> x.ready == 0)
    ensures Inv(s.(txns := s.txns[t := x]))
  {
    var txns' := s.txns[t := x];
    forall p | 0 <= p < |s.parts|
      ensures Matches(txns', p, s.parts[p])
    {
      assert Matches(s.txns, p, s.parts[p]);
      forall k
        ensures Listed(s.parts[p], k) <==> k.txn in txns' && k.ts == txns'[k.txn].ts && Claims(txns'[k.txn], p)
      {
        assert k.txn != t ==> k.txn in txns' ==> txns'[k.txn] == s.txns[k.txn];
      }
    }
  }

  // t moves to x, partition p to part; promoted misses one partition less.
  ghost predicate MoveOk(s: State, t: nat, x: Txn, p: nat, part: Part, promoted: Option<Ticket>) {
    && t in s.txns && p < |s.parts| && TxnOk(x, |s.parts|) && x.ts == s.txns[t].ts && x.phase.Idle? == s.txns[t].phase.Idle?
    && (forall q :: q != p ==> (Claims(x, q) <==> Claims(s.txns[t], q)))
    && PartOk(part)
    && (forall k :: Listed(part, k) <==> if k == Tk(s.txns, t) then Claims(x, p) else Listed(s.parts[p], k))
    && (forall k :: k in part.waiters <==> if k == Tk(s.txns, t) then x.ready == Wanted(s, t, p) + 1 else k in s.parts[p].waiters && promoted != Some(k))
    && (x.ready == Wanted(s, t, p) || x.ready == Wanted(s, t, p) + 1)
    && (x.phase.Running? || x.phase.Unlocking? ==> x.ready == 0)
    && (promoted.Some? ==> promoted.value != Tk(s.txns, t) && promoted.value in s.parts[p].waiters)
  }

  // The queues t is in apart from that of p.
  ghost function Wanted(s: State, t: nat, p: nat): int
    requires t in s.txns && p < |s.parts|
  {
    s.txns[t].ready - if Tk(s.txns, t) in s.parts[p].waiters then 1 else 0
  }

  lemma MoveParts(s: State, t: nat, x: Txn, p: nat, part: Part, promoted: Option<Ticket>, q: nat)
    requires Inv(s) && MoveOk(s, t, x, p, part, promoted) && q < |s.parts|
    ensures Matches(Notify(s.txns[t := x], promoted), q, if q == p then part else s.parts[q])
  {
    var txns' := Notify(s.txns[t := x], promoted);
    assert Matches(s.txns, q, s.parts[q]);
    forall k
      ensures Listed(if q == p then part else s.parts[q], k) <==> k.txn in txns' && k.ts == txns'[k.txn].ts && Claims(txns'[k.txn], q)
    {
      if k.txn in s.txns && k.txn != t {
        NotifySame(s.txns[t := x], promoted, k.txn);
        assert Claims(txns'[k.txn], q) <==> Claims(s.txns[k.txn], q);
      } else if k.txn == t {
        NotifySame(s.txns[t := x], promoted, t);
        assert Claims(txns'[t], q) <==> Claims(x, q);
      }
    }
  }

  lemma NotifySame(txns: map<nat, Txn>, promoted: Option<Ticket>, u: nat)
    requires u in txns
    ensures var y := Notify(txns, promoted)[u];
            && y == txns[u].(ready := y.ready)
            && y.ready == txns[u].ready - if promoted.Some? && promoted.value.txn == u then 1 else 0
    ensures Notify(txns, promoted).Keys == txns.Keys
    ensures forall p :: Claims(Notify(txns, promoted)[u], p) <==> Claims(txns[u], p)
  {
  }

  lemma MoveReady(s: State, t: nat, x: Txn, p: nat, part: Part, promoted: Option<Ticket>, u: nat)
    requires Inv(s) && MoveOk(s, t, x, p, part, promoted) && u in s.txns
    ensures var txns' := Notify(s.txns[t := x], promoted);
            && u in txns' && txns'[u].ready == Queued(s.parts[p := part], |s.parts|, Tk(s.txns, u))
            && (txns'[u].phase.Running? || txns'[u].phase.Unlocking? ==> txns'[u].ready == 0)
  {
    var k := Tk(s.txns, u);
    NotifySame(s.txns[t := x], promoted, u);
    QueuedAfter(s.parts, p, part, |s.parts|, k);
    assert Matches(s.txns, p, s.parts[p]);
    if promoted.Some? && promoted.value.txn == u {
      assert Listed(s.parts[p], promoted.value);
      assert promoted.value == k;
      QueuedZero(s.parts, |s.parts|, k);
    }
  }

  lemma MoveKeeps(s: State, t: nat, x: Txn, p: nat, part: Part, promoted: Option<Ticket>)
    requires Inv(s) && MoveOk(s, t, x, p, part, promoted)
    ensures Inv(State(s.parts[p := part], Notify(s.txns[t := x], promoted)))
  {
    hide Matches, PartOk, Claims, Queued;
    var s' := State(s.parts[p := part], Notify(s.txns[t := x], promoted));
    forall q | 0 <= q < |s'.parts|
      ensures PartOk(s'.parts[q]) && Matches(s'.txns, q, s'.parts[q])
    {
      MoveParts(s, t, x, p, part, promoted, q);
    }
    forall u | u in s'.txns
      ensures u in s.txns && s'.txns[u] == (if u == t then x else s.txns[u]).(ready := s'.txns[u].ready)
      ensures s'.txns[u].ready == Queued(s'.parts, |s'.parts|, Tk(s'.txns, u))
      ensures s'.txns[u].phase.Running? || s'.txns[u].phase.Unlocking? ==> s'.txns[u].ready == 0
    {
      NotifySame(s.txns[t := x], promoted, u);
      MoveReady(s, t, x, p, part, promoted, u);
    }
  }

  // ---------------------------------------------------------------------
  // Asking and giving back
  // ---------------------------------------------------------------------

  lemma ClaimGrows(x: Txn, p: nat)
    requires Distinct(x.want) && x.phase.Locking? && x.phase.i < |x.want| && x.want[x.phase.i] == p
    ensures var y := x.(phase := Locking(x.phase.i + 1));
            && !Claims(x, p) && Claims(y, p) && forall q :: q != p ==> (Claims(y, q) <==> Claims(x, q))
  {
    var y := x.(phase := Locking(x.phase.i + 1));
    assert y.want[x.phase.i] == p;
    forall q
      ensures Claims(x, q) ==> Claims(y, q)
    {
      if Claims(x, q) {
        var k :| From(x) <= k < To(x) && k < |x.want| && x.want[k] == q;
        assert y.want[k] == q;
      }
    }
  }

  lemma ClaimShrinks(x: Txn, j: nat, phase: Phase)
    requires Distinct(x.want) && j < To(x) && j < |x.want| && From(x) == j
    requires (x.phase.Undoing? && phase == Undoing(x.phase.i, j + 1)) || (x.phase.Unlocking? && phase == Unlocking(j + 1))
    ensures var y := x.(phase := phase);
            && Claims(x, x.want[j]) && !Claims(y, x.want[j]) && forall q :: q != x.want[j] ==> (Claims(y, q) <==> Claims(x, q))
  {
    var y := x.(phase := phase);
    forall q
      ensures Claims(x, q) <==> q == x.want[j] || Claims(y, q)
    {
      if Claims(x, q) {
        var k :| From(x) <= k < To(x) && k < |x.want| && x.want[k] == q;
        assert k == j || y.want[k] == q;
      }
      if Claims(y, q) {
        var k :| From(y) <= k < To(y) && k < |y.want| && y.want[k] == q;
        assert x.want[k] == q;
      }
    }
  }

  lemma ListedDiffer(s: State, t: nat, p: nat)
    requires Inv(s) && t in s.txns && !s.txns[t].phase.Idle? && p < |s.parts| && !Claims(s.txns[t], p)
    ensures forall k :: Listed(s.parts[p], k) ==> k.ts != s.txns[t].ts
  {
    assert Matches(s.txns, p, s.parts[p]);
  }

  lemma AskMove(s: State, t: nat, p: nat)
    requires Inv(s) && t in s.txns && s.txns[t].phase.Locking? && s.txns[t].phase.i < |s.txns[t].want|
    requires s.txns[t].want[s.txns[t].phase.i] == p
    ensures p < |s.parts|
    ensures var x := s.txns[t];
            var (part, rc) := Lock(s.parts[p], Tk(s.txns, t));
            rc != Abort ==> MoveOk(s, t, x.(phase := Locking(x.phase.i + 1), ready := if rc == Wait then x.ready + 1 else x.ready), p, part, None)
  {
    hide Queued, TsDistinct, Ascending, Enqueue;
    var x := s.txns[t];
    ClaimGrows(x, p);
    ListedDiffer(s, t, p);
    LockKeeps(s.parts[p], Tk(s.txns, t));
    assert !Listed(s.parts[p], Tk(s.txns, t));
    var y := x.(phase := Locking(x.phase.i + 1));
    forall n: int, q
      ensures Claims(y.(ready := n), q) <==> Claims(y, q)
    {
    }
  }

  lemma RefusedKeeps(s: State, t: nat, p: nat)
    requires Inv(s) && t in s.txns && s.txns[t].phase.Locking? && s.txns[t].phase.i < |s.txns[t].want| && p < |s.parts|
    requires Lock(s.parts[p], Tk(s.txns, t)).1 == Abort
    ensures Inv(Ask(s, t, p))
  {
    assert s.parts[p := s.parts[p]] == s.parts;
    PrivateStep(s, t, s.txns[t].(phase := Undoing(s.txns[t].phase.i, 0)));
  }

  lemma AskKeeps(s: State, t: nat, p: nat)
    requires Inv(s) && t in s.txns && s.txns[t].phase.Locking? && s.txns[t].phase.i < |s.txns[t].want|
    requires s.txns[t].want[s.txns[t].phase.i] == p
    ensures p < |s.parts| && Inv(Ask(s, t, p))
  {
    hide Inv, MoveOk, Lock;
    AskMove(s, t, p);
    if Lock(s.parts[p], Tk(s.txns, t)).1 == Abort {
      RefusedKeeps(s, t, p);
    } else {
      var x := s.txns[t];
      var (part, rc) := Lock(s.parts[p], Tk(s.txns, t));
      MoveKeeps(s, t, x.(phase := Locking(x.phase.i + 1), ready := if rc == Wait then x.ready + 1 else x.ready), p, part, None);
    }
  }

  lemma GiveMove(s: State, t: nat, j: nat, phase: Phase)
    requires Inv(s) && t in s.txns && From(s.txns[t]) == j < To(s.txns[t])
    requires var x := s.txns[t]; (x.phase.Undoing? && phase == Undoing(x.phase.i, j + 1)) || (x.phase.Unlocking? && phase == Unlocking(j + 1))
    ensures j < |s.txns[t].want| && s.txns[t].want[j] < |s.parts|
    ensures var x, p := s.txns[t], s.txns[t].want[j];
            MoveOk(s, t, x.(phase := phase, ready := if Owns(s.parts[p], t) then x.ready else x.ready - 1), p, Unlock(s.parts[p], t), Promoted(s.parts[p], t))
  {
    hide Queued, TsDistinct, Ascending;
    var x, p, tk := s.txns[t], s.txns[t].want[j], Tk(s.txns, t);
    ClaimShrinks(x, j, phase);
    assert Matches(s.txns, p, s.parts[p]);
    assert Listed(s.parts[p], tk);
    UnlockKeeps(s.parts[p], tk);
    if Owns(s.parts[p], t) {
      assert Listed(s.parts[p], s.parts[p].owner.value);
      assert tk !in s.parts[p].waiters;
    }
    QueuedZero(s.parts, |s.parts|, tk);
    forall n: int, q
      ensures Claims(x.(phase := phase, ready := n), q) <==> Claims(x.(phase := phase), q)
    {
    }
  }

  lemma GiveKeeps(s: State, t: nat, j: nat, phase: Phase)
    requires Inv(s) && t in s.txns && From(s.txns[t]) == j < To(s.txns[t])
    requires var x := s.txns[t]; (x.phase.Undoing? && phase == Undoing(x.phase.i, j + 1)) || (x.phase.Unlocking? && phase == Unlocking(j + 1))
    ensures j < |s.txns[t].want| && s.txns[t].want[j] < |s.parts|
    ensures Inv(GiveBack(s, t, s.txns[t].want[j], phase))
  {
    hide Inv, MoveOk, Unlock, Promoted, Notify;
    GiveMove(s, t, j, phase);
    var x, p := s.txns[t], s.txns[t].want[j];
    MoveKeeps(s, t, x.(phase := phase, ready := if Owns(s.parts[p], t) then x.ready else x.ready - 1), p, Unlock(s.parts[p], t), Promoted(s.parts[p], t));
  }

  // ---------------------------------------------------------------------
  // Every run
  // ---------------------------------------------------------------------

  lemma IdleIsNowhere(s: State, t: nat, ts: nat)
    requires Inv(s) && t in s.txns && forall p :: !Claims(s.txns[t], p)
    ensures forall p :: 0 <= p < |s.parts| ==> !Listed(s.parts[p], Ticket(t, ts))
    ensures Queued(s.parts, |s.parts|, Ticket(t, ts)) == 0
  {
    forall p | 0 <= p < |s.parts|
      ensures !Listed(s.parts[p], Ticket(t, ts))
    {
      assert Matches(s.txns, p, s.parts[p]);
    }
    QueuedZero(s.parts, |s.parts|, Ticket(t, ts));
  }

  lemma BeginKeeps(s: State, t: nat, ts: nat, want: seq<nat>)
    requires Inv(s) && Enabled(s, Begin(t, ts, want))
    ensures Inv(s.(txns := s.txns[t := Txn(ts, 0, Locking(0), want)]))
  {
    IdleIsNowhere(s, t, ts);
    IdleIsNowhere(s, t, s.txns[t].ts);
    PrivateStep(s, t, Txn(ts, 0, Locking(0), want));
  }

  lemma InvSane(s: State)
    requires Inv(s)
    ensures Sane(s)
  {
  }

  lemma StepKeeps(s: State, step: Step)
    requires Inv(s) && Sane(s) && Enabled(s, step)
    ensures Inv(Do(s, step))
  {
    hide Matches, Queued, PartOk;
    var t := step.t;
    var x := s.txns[t];
    match step
    case Begin(_, ts, want) => BeginKeeps(s, t, ts, want);
    case LockNext(_) => AskKeeps(s, t, x.want[x.phase.i]);
    case Start(_) => PrivateStep(s, t, x.(phase := Running));
    case UndoNext(_) => GiveKeeps(s, t, x.phase.j, Undoing(x.phase.i, x.phase.j + 1));
    case UndoDone(_) => PrivateStep(s, t, x.(phase := Idle));
    case Finish(_) => PrivateStep(s, t, x.(phase := Unlocking(0)));
    case UnlockNext(_) => GiveKeeps(s, t, x.phase.j, Unlocking(x.phase.j + 1));
    case UnlockDone(_) => PrivateStep(s, t, x.(phase := Idle));
  }

  ghost predicate Init(s: State) {
    && (forall p :: 0 <= p < |s.parts| ==> s.parts[p] == Part(None, []))
    && (forall t :: t in s.txns ==> s.txns[t].phase.Idle? && s.txns[t].want == [] && s.txns[t].ready == 0)
  }

  ghost predicate Next(s: State, s': State) {
    exists step :: Sane(s) && Enabled(s, step) && s' == Do(s, step)
  }

  ghost predicate IsRun(run: seq<State>) {
    run != [] && Init(run[0]) && forall i :: 0 <= i < |run| - 1 ==> Next(run[i], run[i + 1])
  }

  lemma {:induction false} RunKeeps(run: seq<State>, i: nat)
    requires IsRun(run) && i < |run|
    ensures Inv(run[i]) && Sane(run[i])
  {
    if i == 0 {
      InitHolds(run[0]);
    } else {
      RunKeeps(run, i - 1);
      assert Next(run[i - 1], run[i]);
      var step :| Sane(run[i - 1]) && Enabled(run[i - 1], step) && run[i] == Do(run[i - 1], step);
      StepKeeps(run[i - 1], step);
    }
    InvSane(run[i]);
  }

  lemma OwnsWanted(s: State, t: nat, k: nat)
    requires Inv(s) && t in s.txns && s.txns[t].phase.Running? && k < |s.txns[t].want|
    ensures s.txns[t].want[k] < |s.parts| && s.parts[s.txns[t].want[k]].owner == Some(Tk(s.txns, t))
  {
    var p := s.txns[t].want[k];
    assert Claims(s.txns[t], p) && Matches(s.txns, p, s.parts[p]);
    assert Listed(s.parts[p], Tk(s.txns, t));
    QueuedZero(s.parts, |s.parts|, Tk(s.txns, t));
  }

  // In every state of every run a running transaction owns all its partitions,
  // so no two of them share one.
  lemma RunsAlone(run: seq<State>, i: nat, t: nat, k: nat)
    requires IsRun(run) && i < |run| && t in run[i].txns && run[i].txns[t].phase.Running? && k < |run[i].txns[t].want|
    ensures run[i].txns[t].want[k] < |run[i].parts|
    ensures run[i].parts[run[i].txns[t].want[k]].owner == Some(Tk(run[i].txns, t))
  {
    RunKeeps(run, i);
    hide Inv;
    OwnsWanted(run[i], t, k);
  }

  // ready_part is the number of queues, and a lock that was refused has left no
  // trace once it is undone.
  lemma RefusedLeavesNoTrace(run: seq<State>, i: nat, t: nat)
    requires IsRun(run) && i < |run| && t in run[i].txns
    ensures run[i].txns[t].ready == Queued(run[i].parts, |run[i].parts|, Tk(run[i].txns, t))
    ensures Enabled(run[i], UndoDone(t)) ==>
              run[i].txns[t].ready == 0 && forall p, ts :: 0 <= p < |run[i].parts| ==> !Listed(run[i].parts[p], Ticket(t, ts))
  {
    RunKeeps(run, i);
    if Enabled(run[i], UndoDone(t)) {
      forall ts: nat
        ensures forall p :: 0 <= p < |run[i].parts| ==> !Listed(run[i].parts[p], Ticket(t, ts))
        ensures Queued(run[i].parts, |run[i].parts|, Ticket(t, ts)) == 0
      {
        IdleIsNowhere(run[i], t, ts);
      }
    }
  }

  // t is in a queue behind u.
  ghost predicate WaitsFor(s: State, t: nat, u: nat) {
    && t in s.txns && u in s.txns
    && exists p :: 0 <= p < |s.parts| && Tk(s.txns, t) in s.parts[p].waiters && s.parts[p].owner == Some(Tk(s.txns, u))
  }

  ghost predicate WaitChain(s: State, ts: seq<nat>) {
    forall i :: 0 <= i < |ts| - 1 ==> WaitsFor(s, ts[i], ts[i + 1])
  }

  // Everybody waits for an older transaction.
  lemma {:induction false} ChainAges(s: State, ts: seq<nat>, m: nat)
    requires Inv(s) && WaitChain(s, ts) && 1 <= m < |ts|
    ensures ts[0] in s.txns && ts[m] in s.txns && s.txns[ts[m]].ts < s.txns[ts[0]].ts
  {
    assert WaitsFor(s, ts[m - 1], ts[m - 1 + 1]);
    var p :| 0 <= p < |s.parts| && Tk(s.txns, ts[m - 1]) in s.parts[p].waiters && s.parts[p].owner == Some(Tk(s.txns, ts[m]));
    assert PartOk(s.parts[p]);
    if m > 1 {
      ChainAges(s, ts, m - 1);
    }
  }

  // So transactions never wait for each other in a circle.
  lemma NoWaitCycle(run: seq<State>, i: nat, ts: seq<nat>)
    requires IsRun(run) && i < |run| && WaitChain(run[i], ts) && |ts| >= 2
    ensures ts[0] != ts[|ts| - 1]
  {
    RunKeeps(run, i);
    ChainAges(run[i], ts, |ts| - 1);
  }

  // And the oldest transaction that is not idle can always take its next step.
  lemma OldestProceeds(run: seq<State>, i: nat, t: nat)
    requires IsRun(run) && i < |run| && t in run[i].txns && !run[i].txns[t].phase.Idle?
    requires forall u :: u in run[i].txns && !run[i].txns[u].phase.Idle? ==> run[i].txns[t].ts <= run[i].txns[u].ts
    ensures exists step: Step :: step.t == t && !step.Begin? && Enabled(run[i], step)
  {
    RunKeeps(run, i);
    var s := run[i];
    var x := s.txns[t];
    forall p | 0 <= p < |s.parts|
      ensures Tk(s.txns, t) !in s.parts[p].waiters
    {
      assert PartOk(s.parts[p]) && Matches(s.txns, p, s.parts[p]);
      if s.parts[p].owner.Some? {
        assert Listed(s.parts[p], s.parts[p].owner.value);
      }
    }
    QueuedZero(s.parts, |s.parts|, Tk(s.txns, t));
    var step := match x.phase
      case Locking(i) => if i < |x.want| then LockNext(t) else Start(t)
      case Undoing(i, j) => if j < i then UndoNext(t) else UndoDone(t)
      case Running => Finish(t)
      case Unlocking(j) => if j < |x.want| then UnlockNext(t) else UnlockDone(t)
      case Idle => Finish(t);
    assert Enabled(s, step);
  }
}
