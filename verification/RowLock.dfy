// The lock manager of one row (row_lock.cpp): its lists are updated in place and
// proved equal to the lock as a value.

module RowLock {
  import opened RowLockSpec
  import opened TxnMan

  datatype LockEntry = LockEntry(lockType: LockType, txn: TxnMan)

  function Brief(e: LockEntry): Entry {
    Entry(e.txn.id, e.txn.ts, e.lockType)
  }

  function View(es: seq<LockEntry>): (r: seq<Entry>)
    ensures |r| == |es|
    ensures forall i :: 0 <= i < |es| ==> r[i] == Brief(es[i])
  {
    seq(|es|, i requires 0 <= i < |es| => Brief(es[i]))
  }

  lemma OutcomeOf(alg: Algorithm, lk: Lock, e: Entry)
    requires WellFormed(lk) && Fresh(lk, e)
    ensures alg != WaitDie ==>
              (Get(alg, lk, e).1 == RcOk <==> (forall o :: o in lk.owners ==> o.lockType == LockSh && e.lockType == LockSh)
                                              && (alg == DlDetect ==> lk.waiters == []))
    ensures alg == WaitDie && AgeOrdered(lk) ==>
              (Get(alg, lk, e).1 == RcOk <==> (forall o :: o in lk.owners ==> o.lockType == LockSh && e.lockType == LockSh)
                                              && (forall w :: w in lk.waiters ==> w.ts <= e.ts))
    ensures Get(alg, lk, e).1 == Abort ==> alg == NoWait || (alg == WaitDie && exists o :: o in lk.owners && o.ts < e.ts)
    ensures forall id :: Blocks(lk, e, id) <==>
              exists x :: (x in lk.owners || x in lk.waiters) && x.txn == id && (x.lockType == LockEx || e.lockType == LockEx)
  {
    BlocksByTypes(lk, e);
    hide WellFormed, Fresh, AgeOrdered, Blocks;
    match alg
    case NoWait => NoWaitOutcome(lk, e);
    case DlDetect => DlDetectOutcome(lk, e);
    case WaitDie => if AgeOrdered(lk) { WaitDieOutcome(lk, e); }
  }

  class RowLock {
    const alg: Algorithm
    var lockType: LockType
    var ownerCnt: nat
    var waiterCnt: nat
    var owners: seq<LockEntry>
    var waiters: seq<LockEntry>

    // The lock as a value.
    ghost function Abs(): Lock
      reads this
    {
      Lock(lockType, View(owners), View(waiters))
    }

    // Two entries of the lock with the same id are the same attempt.
    ghost predicate Valid()
      reads this
    {
      && ownerCnt == |owners|
      && waiterCnt == |waiters|
      && WellFormed(Abs())
    }

    constructor (alg: Algorithm)
      ensures Valid() && Abs() == FREE && this.alg == alg
    {
      this.alg := alg;
      lockType, ownerCnt, waiterCnt, owners, waiters := LockNone, 0, 0, [], [];
    }

    method LockGet(lt: LockType, txn: TxnMan) returns (rc: RC, txnids: seq<TxnId>)
      requires Valid() && Fresh(Abs(), Entry(txn.id, txn.ts, lt))
      modifies this, txn
      ensures Valid()
      ensures (Abs(), rc) == Get(alg, old(Abs()), Entry(txn.id, txn.ts, lt))
      ensures txn.lockReady == (rc != Wait && old(txn.lockReady))
      ensures rc == Wait && alg == DlDetect ==>
                && txnids != [] && |txnids| <= ownerCnt + waiterCnt
                && forall id :: id in txnids <==>
                     exists x :: (x in old(Abs()).owners || x in old(Abs()).waiters) && x.txn == id && (x.lockType == LockEx || lt == LockEx)
      ensures alg != WaitDie ==>
                (rc == RcOk <==> (forall o :: o in old(Abs()).owners ==> o.lockType == LockSh && lt == LockSh)
                                 && (alg == DlDetect ==> old(Abs()).waiters == []))
      ensures alg == WaitDie && AgeOrdered(old(Abs())) ==>
                (rc == RcOk <==> (forall o :: o in old(Abs()).owners ==> o.lockType == LockSh && lt == LockSh)
                                 && (forall w :: w in old(Abs()).waiters ==> w.ts <= txn.ts))
      ensures rc == Abort ==> alg == NoWait || (alg == WaitDie && exists o :: o in old(Abs()).owners && o.ts < txn.ts)
    {
      ghost var lk, e := Abs(), Entry(txn.id, txn.ts, lt);
      GetKeeps(alg, lk, e);
      OutcomeOf(alg, lk, e);
      hide Get, Fresh, AgeOrdered, Blocks, WellFormed;
      rc, txnids := Request(lt, txn);
    }

    method Request(lt: LockType, txn: TxnMan) returns (rc: RC, txnids: seq<TxnId>)
      requires Valid() && Fresh(Abs(), Entry(txn.id, txn.ts, lt))
      modifies this, txn
      ensures Valid()
      ensures (Abs(), rc) == Get(alg, old(Abs()), Entry(txn.id, txn.ts, lt))
      ensures txn.lockReady == (rc != Wait && old(txn.lockReady))
      ensures rc == Wait && alg == DlDetect ==>
                && txnids != [] && |txnids| <= ownerCnt + waiterCnt
                && forall id :: id in txnids <==> Blocks(old(Abs()), Entry(txn.id, txn.ts, lt), id)
    {
      ghost var lk, e := Abs(), Entry(txn.id, txn.ts, lt);
      GetKeeps(alg, lk, e);
      txnids := [];
      var conflict := Conflict(lockType, lt);
      if alg == WaitDie && !conflict {
        if waiters != [] && txn.ts < waiters[0].txn.ts {
          conflict := true;
        }
      }
      if alg == DlDetect && waiters != [] {
        conflict := true;
      }
      assert conflict == MustQueue(alg, lk, e);
      var entry := LockEntry(lt, txn);
      rc := Abort;
      if conflict {
        if alg == DlDetect {
          txnids := BlockerList(lt);
          assert txnids != [] by {
            BlockedBySomebody(lk, e);
            ghost var id :| Blocks(lk, e, id);
            assert id in txnids;
          }
          Enqueue(|waiters|, entry);
          assert Abs().waiters == lk.waiters + [e];
          rc := Wait;
        } else if alg == WaitDie {
          var canwait := NoOlderOwner(txn.ts);
          if canwait {
            var i := WaiterPosition(txn.ts);
            Enqueue(i, entry);
            rc := Wait;
          }
        }
      } else {
        owners := [entry] + owners;
        ownerCnt := ownerCnt + 1;
        lockType := lt;
        rc := RcOk;
        assert View(owners) == [e] + lk.owners;
      }
    }

    method NoOlderOwner(ts: nat) returns (canwait: bool)
      ensures canwait == forall o :: o in Abs().owners ==> ts <= o.ts
    {
      canwait := true;
      var n := 0;
      while n < |owners|
        invariant n <= |owners|
        invariant canwait
        invariant forall k :: 0 <= k < n ==> ts <= Abs().owners[k].ts
      {
        if owners[n].txn.ts < ts {
          assert Abs().owners[n] in Abs().owners;
          return false;
        }
        n := n + 1;
      }
    }

    // The waiter list is kept in timestamp order.
    method WaiterPosition(ts: nat) returns (i: nat)
      ensures i == InsertPos(Abs().waiters, ts)
    {
      i := 0;
      while i < |waiters| && ts < waiters[i].txn.ts
        invariant i <= |waiters|
        invariant forall k :: 0 <= k < i ==> ts < Abs().waiters[k].ts
      {
        i := i + 1;
      }
    }

    method Enqueue(i: nat, entry: LockEntry)
      requires i <= |waiters|
      modifies this, entry.txn
      ensures Abs() == old(Abs()).(waiters := old(Abs()).waiters[..i] + [Brief(entry)] + old(Abs()).waiters[i..])
      ensures waiterCnt == old(waiterCnt) + 1 && ownerCnt == old(ownerCnt)
      ensures |waiters| == |old(waiters)| + 1 && owners == old(owners)
      ensures !entry.txn.lockReady
    {
      ghost var ws := Abs().waiters;
      waiters := waiters[..i] + [entry] + waiters[i..];
      waiterCnt := waiterCnt + 1;
      entry.txn.lockReady := false;
      assert View(waiters) == ws[..i] + [Brief(entry)] + ws[i..];
    }

    // The ids a blocked DL_DETECT request reports: first the waiters ahead of
    // it, from the tail to the head, then the owners.
    method BlockerList(lt: LockType) returns (txnids: seq<TxnId>)
      requires Valid() && lt != LockNone
      ensures |txnids| <= ownerCnt + waiterCnt
      ensures forall e: Entry, id :: e.lockType == lt ==> (id in txnids <==> Blocks(Abs(), e, id))
    {
      ghost var lk := Abs();
      txnids := [];
      var i := |waiters|;
      while i > 0
        invariant 0 <= i <= |waiters| && |txnids| <= |waiters| - i
        invariant forall id :: id in txnids <==>
                    exists k :: i <= k < |waiters| && lk.waiters[k].txn == id && Conflict(lt, lk.waiters[k].lockType)
      {
        i := i - 1;
        if Conflict(lt, waiters[i].lockType) {
          txnids := txnids + [waiters[i].txn.id];
        }
      }
      ghost var ahead := txnids;
      if Conflict(lt, lockType) {
        var n := 0;
        while n < |owners|
          invariant n <= |owners| && |txnids| <= |waiters| + n
          invariant forall id :: id in txnids <==> id in ahead || exists k :: 0 <= k < n && lk.owners[k].txn == id
        {
          txnids := txnids + [owners[n].txn.id];
          n := n + 1;
        }
      }
      forall e: Entry, id | e.lockType == lt
        ensures id in txnids <==> Blocks(lk, e, id)
      {
        assert forall k :: 0 <= k < |lk.owners| ==> lk.owners[k] in lk.owners;
        if id in txnids {
          if id in ahead {
            var k :| 0 <= k < |waiters| && lk.waiters[k].txn == id && Conflict(lt, lk.waiters[k].lockType);
            assert Listed(lk, lk.waiters[k]);
          } else {
            var k :| 0 <= k < |owners| && lk.owners[k].txn == id;
            assert Listed(lk, lk.owners[k]);
          }
        }
      }
    }

    // An attempt has one entry at most, so looking it up by pointer finds
    // the entry with its id.
    lemma SoleEntry(txn: TxnMan)
      requires Valid()
      requires exists e :: e in owners + waiters && e.txn == txn
      ensures forall i :: 0 <= i < |owners| ==> (owners[i].txn == txn <==> Abs().owners[i].txn == txn.id)
      ensures forall i :: 0 <= i < |waiters| ==> (waiters[i].txn == txn <==> Abs().waiters[i].txn == txn.id)
      ensures IndexOf(Abs().owners, txn.id) < |owners| || IndexOf(Abs().waiters, txn.id) < |waiters|
    {
      var os, ws := Abs().owners, Abs().waiters;
      assert forall i :: 0 <= i < |os| ==> os[i] in os;
      assert forall i :: 0 <= i < |ws| ==> ws[i] in ws;
      if p :| 0 <= p < |owners| && owners[p].txn == txn {
        assert os[p].txn == txn.id;
      } else {
        var e :| e in owners + waiters && e.txn == txn;
        assert e in waiters;
        var p :| 0 <= p < |waiters| && waiters[p] == e;
        assert ws[p].txn == txn.id;
      }
    }

    method LockRelease(txn: TxnMan)
      requires Valid()
      requires exists e :: e in owners + waiters && e.txn == txn
      modifies this, set e | e in waiters :: e.txn
      ensures Valid() && Abs() == Release(old(Abs()), txn.id)
      ensures forall e :: e in old(waiters) && e.txn != txn ==>
                e.txn.lockReady == (old(e.txn.lockReady) || Brief(e) in Abs().owners)
    {
      ghost var lk := Abs();
      DropMembers(lk, txn.id);
      DropKeeps(lk, txn.id);
      RemoveEntry(txn);
      PromoteWaiters();
    }

    // Find the entry of txn among the owners, else among the waiters.
    method RemoveEntry(txn: TxnMan)
      requires Valid()
      requires exists e :: e in owners + waiters && e.txn == txn
      modifies this
      ensures ownerCnt == |owners| && waiterCnt == |waiters|
      ensures Abs() == Drop(old(Abs()), txn.id)
      ensures forall e :: e in waiters ==> e in old(waiters)
      ensures forall e :: e in old(waiters) && e.txn != txn ==> e in waiters
    {
      ghost var lk := Abs();
      SoleEntry(txn);
      var i := Find(owners, txn);
      if i < |owners| {
        owners := CutOut(owners, i);
        ownerCnt := ownerCnt - 1;
        if ownerCnt == 0 {
          lockType := LockNone;
        }
      } else {
        i := Find(waiters, txn);
        waiters := CutOut(waiters, i);
        waiterCnt := waiterCnt - 1;
      }
    }

    static function CutOut(es: seq<LockEntry>, i: nat): (r: seq<LockEntry>)
      requires i < |es|
      ensures |r| == |es| - 1 && View(r) == Without(View(es), i)
      ensures forall e :: e in r ==> e in es
      ensures forall e :: e in es && e.txn != es[i].txn ==> e in r
    {
      assert es == es[..i] + [es[i]] + es[i + 1..];
      es[..i] + es[i + 1..]
    }

    static method Find(es: seq<LockEntry>, txn: TxnMan) returns (i: nat)
      requires forall k :: 0 <= k < |es| ==> (es[k].txn == txn <==> View(es)[k].txn == txn.id)
      ensures i == IndexOf(View(es), txn.id)
      ensures i < |es| ==> es[i].txn == txn
    {
      i := 0;
      while i < |es| && es[i].txn != txn
        invariant i <= |es|
        invariant forall k :: 0 <= k < i ==> View(es)[k].txn != txn.id
      {
        i := i + 1;
      }
    }

    // If any waiter can join the owners, let it.
    method PromoteWaiters()
      requires ownerCnt == |owners| && waiterCnt == |waiters|
      requires Compatible(Abs()) && ListedOnce(Abs())
      modifies this, set e | e in waiters :: e.txn
      ensures Valid() && Abs() == Promote(old(Abs()))
      ensures forall e :: e in old(waiters) ==>
                e.txn.lockReady == (old(e.txn.lockReady) || Brief(e) in Abs().owners)
    {
      ghost var lk, ws := Abs(), waiters;
      DistinctAttempts(waiters);
      ghost var c := PromoteLoop();
      PromoteKeeps(lk);
      PromoteSplits(lk);
      forall e | e in ws
        ensures e.txn.lockReady == (old(e.txn.lockReady) || Brief(e) in Abs().owners)
      {
        ghost var k :| 0 <= k < |ws| && ws[k] == e;
        assert lk.waiters[k] == Brief(e);
      }
    }

    method PromoteLoop() returns (ghost c: nat)
      requires ownerCnt == |owners| && waiterCnt == |waiters|
      requires forall j, k :: 0 <= j < k < |waiters| ==> waiters[j].txn != waiters[k].txn
      modifies this, set e | e in waiters :: e.txn
      ensures ownerCnt == |owners| && waiterCnt == |waiters|
      ensures Abs() == Promote(old(Abs()))
      ensures c == |old(waiters)| - |waiters|
      ensures forall k :: 0 <= k < |old(waiters)| ==>
                old(waiters)[k].txn.lockReady == (k < c || old(waiters[k].txn.lockReady))
    {
      ghost var lk, ws := Abs(), waiters;
      c := 0;
      while waiters != [] && !Conflict(lockType, waiters[0].lockType)
        invariant ownerCnt == |owners| && waiterCnt == |waiters|
        invariant c <= |ws| && waiters == ws[c..]
        invariant Promote(Abs()) == Promote(lk)
        invariant forall k :: 0 <= k < |ws| ==> ws[k].txn.lockReady == (k < c || old(ws[k].txn.lockReady))
        decreases |waiters|
      {
        PromoteOne();
        c := c + 1;
      }
    }

    method PromoteOne()
      requires ownerCnt == |owners| && waiterCnt == |waiters| && waiters != []
      modifies this, waiters[0].txn
      ensures ownerCnt == |owners| && waiterCnt == |waiters|
      ensures waiters == old(waiters)[1..] && old(waiters)[0].txn.lockReady
      ensures Abs() == PromoteHead(old(Abs()))
    {
      var entry := waiters[0];
      waiters := waiters[1..];
      owners := [entry] + owners;
      ownerCnt := ownerCnt + 1;
      waiterCnt := waiterCnt - 1;
      entry.txn.lockReady := true;
      lockType := entry.lockType;
      assert View(owners) == [Brief(entry)] + old(Abs()).owners;
      assert View(waiters) == old(Abs()).waiters[1..];
    }
  }

  lemma DistinctAttempts(es: seq<LockEntry>)
    requires Distinct(View(es))
    ensures forall j, k :: 0 <= j < k < |es| ==> es[j].txn != es[k].txn
  {
    forall j, k | 0 <= j < k < |es|
      ensures es[j].txn != es[k].txn
    {
      assert View(es)[j].txn != View(es)[k].txn;
    }
  }
}
