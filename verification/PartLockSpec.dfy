// HSTORE partition locks (plock.cpp): one partition and its sorted queue.

module PartLockSpec {
  import opened Options

  datatype RC = RcOk | Wait | Abort

  datatype Ticket = Ticket(txn: nat, ts: nat)

  datatype Part = Part(owner: Option<Ticket>, waiters: seq<Ticket>)

  // The queue is searched from the back.
  function InsertPos(ws: seq<Ticket>, ts: nat): (i: nat)
    ensures i <= |ws| && (i > 0 ==> ts > ws[i - 1].ts)
    ensures forall j :: i <= j < |ws| ==> ts <= ws[j].ts
  {
    if ws == [] || ts > ws[|ws| - 1].ts then |ws| else InsertPos(ws[..|ws| - 1], ts)
  }

  function Enqueue(ws: seq<Ticket>, tk: Ticket): seq<Ticket> {
    var i := InsertPos(ws, tk.ts);
    ws[..i] + [tk] + ws[i..]
  }

  function Lock(p: Part, tk: Ticket): (Part, RC) {
    match p.owner
    case None => (p.(owner := Some(tk)), RcOk)
    case Some(o) => if o.ts < tk.ts then (p.(waiters := Enqueue(p.waiters, tk)), Wait) else (p, Abort)
  }

  function IndexOf(ws: seq<Ticket>, txn: nat): (i: nat)
    ensures i <= |ws| && (i < |ws| ==> ws[i].txn == txn)
    ensures forall j :: 0 <= j < i ==> ws[j].txn != txn
  {
    if ws == [] || ws[0].txn == txn then 0 else 1 + IndexOf(ws[1..], txn)
  }

  function Leave(ws: seq<Ticket>, txn: nat): seq<Ticket> {
    var i := IndexOf(ws, txn);
    if i < |ws| then ws[..i] + ws[i + 1..] else ws
  }

  predicate Owns(p: Part, txn: nat) {
    p.owner.Some? && p.owner.value.txn == txn
  }

  function Unlock(p: Part, txn: nat): Part {
    if !Owns(p, txn) then p.(waiters := Leave(p.waiters, txn))
    else if p.waiters == [] then p.(owner := None)
    else Part(Some(p.waiters[0]), p.waiters[1..])
  }

  // The waiter an unlock makes owner.
  function Promoted(p: Part, txn: nat): Option<Ticket> {
    if Owns(p, txn) && p.waiters != [] then Some(p.waiters[0]) else None
  }

  ghost predicate Ascending(ws: seq<Ticket>) {
    forall i, j :: 0 <= i < j < |ws| ==> ws[i].ts < ws[j].ts
  }

  ghost predicate PartOk(p: Part) {
    && Ascending(p.waiters)
    && (p.owner.None? ==> p.waiters == [])
    && (p.owner.Some? ==> forall w :: w in p.waiters ==> p.owner.value.ts < w.ts)
  }

  ghost predicate Listed(p: Part, tk: Ticket) {
    p.owner == Some(tk) || tk in p.waiters
  }

  lemma EnqueueAscends(ws: seq<Ticket>, tk: Ticket)
    requires Ascending(ws) && forall j :: 0 <= j < |ws| ==> ws[j].ts != tk.ts
    ensures Ascending(Enqueue(ws, tk))
  {
    var i, r := InsertPos(ws, tk.ts), Enqueue(ws, tk);
    assert forall j :: i <= j < |ws| ==> tk.ts < ws[j].ts;
    forall a, b | 0 <= a < b < |r|
      ensures r[a].ts < r[b].ts
    {
      assert r[a] == if a < i then ws[a] else if a == i then tk else ws[a - 1];
      assert r[b] == if b < i then ws[b] else if b == i then tk else ws[b - 1];
      assert a < i ==> ws[a].ts <= ws[i - 1].ts;
    }
  }

  lemma EnqueueKeeps(ws: seq<Ticket>, tk: Ticket)
    requires Ascending(ws) && forall w :: w in ws ==> w.ts != tk.ts
    ensures Ascending(Enqueue(ws, tk))
    ensures forall w :: w in Enqueue(ws, tk) <==> w in ws || w == tk
  {
    EnqueueAscends(ws, tk);
    var i := InsertPos(ws, tk.ts);
    assert ws == ws[..i] + ws[i..];
  }

  lemma LeaveKeeps(ws: seq<Ticket>, tk: Ticket)
    requires Ascending(ws) && tk in ws && forall w :: w in ws && w.txn == tk.txn ==> w == tk
    ensures Ascending(Leave(ws, tk.txn))
    ensures forall w :: w in Leave(ws, tk.txn) <==> w in ws && w != tk
  {
    var i, r := IndexOf(ws, tk.txn), Leave(ws, tk.txn);
    assert i < |ws| && ws[i] in ws;
    assert ws == ws[..i] + [ws[i]] + ws[i + 1..];
    assert forall a :: 0 <= a < |r| ==> r[a] == ws[if a < i then a else a + 1];
  }

  // A lock request that does not abort lists the transaction, an aborted one
  // changes nothing.
  lemma LockKeeps(p: Part, tk: Ticket)
    requires PartOk(p) && forall k :: Listed(p, k) ==> k.ts != tk.ts
    ensures PartOk(Lock(p, tk).0)
    ensures forall k :: Listed(Lock(p, tk).0, k) <==> Listed(p, k) || (k == tk && Lock(p, tk).1 != Abort)
    ensures Lock(p, tk).1 == Wait <==> tk in Lock(p, tk).0.waiters
    ensures forall k :: k != tk ==> (k in Lock(p, tk).0.waiters <==> k in p.waiters)
    ensures Lock(p, tk).1 == Abort ==> Lock(p, tk).0 == p && p.owner.Some? && p.owner.value.ts > tk.ts
  {
    assert forall w :: w in p.waiters ==> Listed(p, w);
    if p.owner.Some? {
      assert Listed(p, p.owner.value);
    }
    EnqueueKeeps(p.waiters, tk);
  }

  lemma UnlockKeeps(p: Part, tk: Ticket)
    requires PartOk(p) && Listed(p, tk) && forall k :: Listed(p, k) && k.txn == tk.txn ==> k == tk
    ensures PartOk(Unlock(p, tk.txn))
    ensures forall k :: Listed(Unlock(p, tk.txn), k) <==> Listed(p, k) && k != tk
    ensures forall k :: k in Unlock(p, tk.txn).waiters <==> k in p.waiters && k != tk && Promoted(p, tk.txn) != Some(k)
  {
    assert forall w :: w in p.waiters ==> Listed(p, w);
    if !Owns(p, tk.txn) {
      LeaveKeeps(p.waiters, tk);
    } else {
      assert Listed(p, p.owner.value) && p.owner.value == tk;
      if p.waiters != [] {
        PromoteHead(p, tk);
      }
    }
  }

  lemma PromoteHead(p: Part, tk: Ticket)
    requires PartOk(p) && p.owner == Some(tk) && p.waiters != []
    ensures PartOk(Unlock(p, tk.txn))
    ensures forall k :: Listed(Unlock(p, tk.txn), k) <==> Listed(p, k) && k != tk
    ensures forall k :: k in Unlock(p, tk.txn).waiters <==> k in p.waiters && k != p.waiters[0]
  {
    var head, rest := p.waiters[0], p.waiters[1..];
    assert p.waiters == [head] + rest;
    assert forall j :: 0 <= j < |rest| ==> rest[j] == p.waiters[j + 1];
  }
}
