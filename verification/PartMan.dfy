// The partition manager as it runs under its latch: the queue is an array
// shifted in place.

module PartMan {
  import opened Options
  import opened PartLockSpec
  import opened TxnMan

  function Tick(txn: TxnMan): Ticket {
    Ticket(txn.id, txn.ts)
  }

  function Ticks(ws: seq<TxnMan?>): (r: seq<Ticket>)
    requires forall i :: 0 <= i < |ws| ==> ws[i] != null
    ensures |r| == |ws| && forall i :: 0 <= i < |ws| ==> r[i] == Tick(ws[i])
  {
    seq(|ws|, i requires 0 <= i < |ws| => Tick(ws[i]))
  }

  lemma EnqueueIs(ws: seq<Ticket>, tk: Ticket, i: nat, r: seq<Ticket>)
    requires i <= |ws| && (i > 0 ==> tk.ts > ws[i - 1].ts) && forall j :: i <= j < |ws| ==> tk.ts <= ws[j].ts
    requires |r| == |ws| + 1 && r[i] == tk
    requires (forall j :: 0 <= j < i ==> r[j] == ws[j]) && forall j :: i < j < |r| ==> r[j] == ws[j - 1]
    ensures r == Enqueue(ws, tk)
  {
    InsertPosIs(ws, tk.ts, i);
  }

  lemma {:induction false} InsertPosIs(ws: seq<Ticket>, ts: nat, i: nat)
    requires i <= |ws| && (i > 0 ==> ts > ws[i - 1].ts) && forall j :: i <= j < |ws| ==> ts <= ws[j].ts
    ensures InsertPos(ws, ts) == i
  {
    if i < |ws| {
      InsertPosIs(ws[..|ws| - 1], ts, i);
    }
  }

  lemma LeaveIs(ws: seq<Ticket>, txn: nat, i: nat, r: seq<Ticket>)
    requires i < |ws| && ws[i].txn == txn && forall j :: 0 <= j < i ==> ws[j].txn != txn
    requires |r| == |ws| - 1
    requires (forall j :: 0 <= j < i ==> r[j] == ws[j]) && forall j :: i <= j < |r| ==> r[j] == ws[j + 1]
    ensures r == Leave(ws, txn)
  {
    assert IndexOf(ws, txn) == i;
  }

  class PartMan {
    var owner: TxnMan?
    var waiters: array<TxnMan?>
    var waiterCnt: nat

    ghost predicate Valid()
      reads this, waiters
    {
      waiterCnt <= waiters.Length && forall i :: 0 <= i < waiterCnt ==> waiters[i] != null
    }

    ghost function Queue(): seq<Ticket>
      reads this, waiters
      requires Valid()
    {
      Ticks(waiters[..waiterCnt])
    }

    ghost function Abs(): Part
      reads this, waiters
      requires Valid()
    {
      Part(if owner == null then None else Some(Tick(owner)), Queue())
    }

    constructor (threads: nat)
      ensures Valid() && Abs() == Part(None, []) && waiters.Length == threads && fresh(waiters)
    {
      owner, waiterCnt := null, 0;
      waiters := new TxnMan?[threads](_ => null);
    }

    // Shifts the larger timestamps up; txn goes to i.
    method MakeRoom(ts: nat) returns (i: nat)
      requires Valid() && waiterCnt < waiters.Length
      modifies waiters
      ensures i <= waiterCnt
      ensures forall j :: 0 <= j < i ==> waiters[j] == old(waiters[j])
      ensures forall j :: i < j <= waiterCnt ==> waiters[j] == old(waiters[j - 1])
      ensures (i > 0 ==> ts > old(waiters[i - 1]).ts) && forall j :: i <= j < waiterCnt ==> ts <= old(waiters[j]).ts
    {
      hide Ticks;
      i := waiterCnt;
      while i > 0 && ts <= waiters[i - 1].ts
        invariant 0 <= i <= waiterCnt < waiters.Length
        invariant forall j :: 0 <= j < i ==> waiters[j] == old(waiters[j])
        invariant forall j :: i < j <= waiterCnt ==> waiters[j] == old(waiters[j - 1])
        invariant forall j :: i <= j < waiterCnt ==> ts <= old(waiters[j]).ts
        modifies waiters
      {
        waiters[i] := waiters[i - 1];
        i := i - 1;
      }
    }

    // Puts txn into the queue.
    method Insert(txn: TxnMan)
      requires Valid() && waiterCnt < waiters.Length
      modifies this`waiterCnt, waiters
      ensures Valid() && Queue() == Enqueue(old(Queue()), Tick(txn)) && waiters == old(waiters)
    {
      hide Enqueue, InsertPos;
      ghost var ws := Queue();
      var i := MakeRoom(txn.ts);
      waiters[i] := txn;
      waiterCnt := waiterCnt + 1;
      EnqueueIs(ws, Tick(txn), i, Queue());
    }

    method Lock(txn: TxnMan) returns (rc: RC)
      requires Valid() && waiterCnt < waiters.Length
      modifies this`owner, this`waiterCnt, waiters, txn`readyPart
      ensures Valid() && waiters == old(waiters)
      ensures (Abs(), rc) == PartLockSpec.Lock(old(Abs()), Tick(txn))
      ensures txn.readyPart == old(txn.readyPart) + if rc == Wait then 1 else 0
    {
      if owner == null {
        owner := txn;
        rc := RcOk;
      } else if owner.ts < txn.ts {
        Insert(txn);
        txn.readyPart := txn.readyPart + 1;
        rc := Wait;
      } else {
        rc := Abort;
      }
    }

    // The pointer comparison tells transactions apart as their numbers do.
    ghost predicate Known(txn: TxnMan)
      reads this, waiters
      requires Valid()
    {
      && (owner != null && owner.id == txn.id ==> owner == txn)
      && (forall i :: 0 <= i < waiterCnt && waiters[i].id == txn.id ==> waiters[i] == txn)
      && (owner == txn || txn in waiters[..waiterCnt])
    }

    // The first waiter becomes the owner.
    method Promote()
      requires Valid() && waiterCnt > 0
      modifies this`owner, this`waiterCnt, waiters
      ensures Valid() && waiters == old(waiters) && owner == old(waiters[0])
      ensures Queue() == old(Queue())[1..]
    {
      owner := waiters[0];
      var i := 0;
      while i < waiterCnt - 1
        invariant i <= waiterCnt - 1
        invariant forall j :: 0 <= j < i ==> waiters[j] == old(waiters[j + 1])
        invariant forall j :: i <= j < waiterCnt ==> waiters[j] == old(waiters[j])
        modifies waiters
      {
        waiters[i] := waiters[i + 1];
        i := i + 1;
      }
      waiterCnt := waiterCnt - 1;
    }

    // Takes a waiting transaction out of the queue.
    method Remove(txn: TxnMan)
      requires Valid() && Known(txn) && owner != txn
      modifies this`waiterCnt, waiters
      ensures Valid() && Queue() == Leave(old(Queue()), txn.id) && waiters == old(waiters)
    {
      ghost var ws := Queue();
      ghost var at := waiterCnt;
      var find := false;
      var i := 0;
      while i < waiterCnt
        invariant 0 <= i <= waiterCnt <= waiters.Length && (find <==> at < i) && 0 <= at <= waiterCnt
        invariant find ==> old(waiters[at]) == txn
        invariant !find ==> at == waiterCnt
        invariant forall j :: 0 <= j < i && j < at ==> waiters[j] == old(waiters[j]) && waiters[j] != txn
        invariant find ==> forall j :: at <= j < i && j < waiterCnt - 1 ==> waiters[j] == old(waiters[j + 1])
        invariant forall j :: i <= j < waiterCnt ==> waiters[j] == old(waiters[j])
        modifies waiters
      {
        if waiters[i] == txn && !find {
          find := true;
          at := i;
        }
        if find && i < waiterCnt - 1 {
          waiters[i] := waiters[i + 1];
        }
        i := i + 1;
      }
      assert find by {
        var k :| 0 <= k < waiterCnt && old(waiters[..waiterCnt])[k] == txn;
      }
      waiterCnt := waiterCnt - 1;
      LeaveIs(ws, txn.id, at, Queue());
    }

    method Unlock(txn: TxnMan)
      requires Valid() && Known(txn)
      modifies this`owner, this`waiterCnt, waiters, txn`readyPart, (if waiterCnt > 0 then {waiters[0]} else {})`readyPart
      ensures Valid() && waiters == old(waiters)
      ensures Abs() == PartLockSpec.Unlock(old(Abs()), txn.id)
      ensures old(owner) == txn && old(waiterCnt) > 0 ==> owner != null && owner.readyPart == old(waiters[0].readyPart) - 1
      ensures old(owner) != txn ==> txn.readyPart == old(txn.readyPart) - 1
      ensures old(owner) == txn && (old(waiterCnt) > 0 ==> old(waiters[0]) != txn) ==> txn.readyPart == old(txn.readyPart)
    {
      if txn == owner {
        if waiterCnt == 0 {
          owner := null;
        } else {
          Promote();
          owner.readyPart := owner.readyPart - 1;
        }
      } else {
        Remove(txn);
        txn.readyPart := txn.readyPart - 1;
      }
    }
  }
}
