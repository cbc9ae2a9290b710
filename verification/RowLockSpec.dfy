// The per-row lock of the two-phase locking schemes (row_lock.cpp) as a value:
// an owner stack, an ordered waiter list and the promotion on release.

module RowLockSpec {
  datatype LockType = LockEx | LockSh | LockNone
  datatype Algorithm = NoWait | WaitDie | DlDetect
  datatype RC = RcOk | Abort | Wait

  type TxnId = nat

  datatype Entry = Entry(txn: TxnId, ts: nat, lockType: LockType)

  // owners[0] is the top of the owner stack; waiters[0] is the head of the list.
  datatype Lock = Lock(lockType: LockType, owners: seq<Entry>, waiters: seq<Entry>)

  const FREE := Lock(LockNone, [], [])

  predicate Conflict(l1: LockType, l2: LockType) {
    if l1 == LockNone || l2 == LockNone then false
    else l1 == LockEx || l2 == LockEx
  }

  // Position of the first entry of txn, or |es| when there is none.
  function IndexOf(es: seq<Entry>, txn: TxnId): (i: nat)
    ensures i <= |es|
    ensures forall j :: 0 <= j < i ==> es[j].txn != txn
    ensures i < |es| ==> es[i].txn == txn
  {
    if es == [] || es[0].txn == txn then 0 else 1 + IndexOf(es[1..], txn)
  }

  // Position at which WAIT_DIE queues a request: before the first entry that
  // does not have a larger timestamp.
  function InsertPos(ws: seq<Entry>, ts: nat): (i: nat)
    ensures i <= |ws|
    ensures forall j :: 0 <= j < i ==> ts < ws[j].ts
    ensures i < |ws| ==> ws[i].ts <= ts
  {
    if ws == [] || ws[0].ts <= ts then 0 else 1 + InsertPos(ws[1..], ts)
  }

  predicate MustQueue(alg: Algorithm, lk: Lock, e: Entry) {
    || Conflict(lk.lockType, e.lockType)
    || (alg == WaitDie && lk.waiters != [] && e.ts < lk.waiters[0].ts)
    || (alg == DlDetect && lk.waiters != [])
  }

  predicate CanWait(lk: Lock, e: Entry) {
    forall o :: o in lk.owners ==> e.ts <= o.ts
  }

  // lock_get
  function Get(alg: Algorithm, lk: Lock, e: Entry): (Lock, RC) {
    if !MustQueue(alg, lk, e) then
      (Lock(e.lockType, [e] + lk.owners, lk.waiters), RcOk)
    else if alg == DlDetect then
      (lk.(waiters := lk.waiters + [e]), Wait)
    else if alg == WaitDie && CanWait(lk, e) then
      var i := InsertPos(lk.waiters, e.ts);
      (lk.(waiters := lk.waiters[..i] + [e] + lk.waiters[i..]), Wait)
    else
      (lk, Abort)
  }

  function Without(es: seq<Entry>, i: nat): seq<Entry>
    requires i < |es|
  {
    es[..i] + es[i + 1..]
  }

  // The owner list, or else the waiter list, loses the entry of txn.
  function Drop(lk: Lock, txn: TxnId): Lock {
    var i := IndexOf(lk.owners, txn);
    if i < |lk.owners| then
      var owners := Without(lk.owners, i);
      lk.(owners := owners, lockType := if owners == [] then LockNone else lk.lockType)
    else
      var k := IndexOf(lk.waiters, txn);
      if k < |lk.waiters| then lk.(waiters := Without(lk.waiters, k)) else lk
  }

  // One turn of the promotion loop: the head of the queue becomes an owner.
  function PromoteHead(lk: Lock): Lock
    requires lk.waiters != []
  {
    Lock(lk.waiters[0].lockType, [lk.waiters[0]] + lk.owners, lk.waiters[1..])
  }

  // The promotion loop.
  function Promote(lk: Lock): Lock
    decreases |lk.waiters|
  {
    if lk.waiters == [] || Conflict(lk.lockType, lk.waiters[0].lockType) then lk
    else Promote(PromoteHead(lk))
  }

  // lock_release
  function Release(lk: Lock, txn: TxnId): Lock {
    Promote(Drop(lk, txn))
  }

  // ---------------------------------------------------------------------
  // What every operation keeps
  // ---------------------------------------------------------------------

  ghost predicate Distinct(es: seq<Entry>) {
    forall i, j :: 0 <= i < j < |es| ==> es[i].txn != es[j].txn
  }

  ghost predicate Disjoint(a: seq<Entry>, b: seq<Entry>) {
    forall x, y :: x in a && y in b ==> x.txn != y.txn
  }

  ghost predicate Listed(lk: Lock, e: Entry) {
    e in lk.owners || e in lk.waiters
  }

  // Every owner holds the lock in the mode lock_type, and only shared owners
  // coexist.
  ghost predicate Compatible(lk: Lock) {
    && (lk.lockType == LockNone <==> lk.owners == [])
    && (forall o :: o in lk.owners ==> o.lockType == lk.lockType)
    && (lk.lockType == LockEx ==> |lk.owners| == 1)
    && (forall w :: w in lk.waiters ==> w.lockType != LockNone)
  }

  // No transaction is listed twice.
  ghost predicate ListedOnce(lk: Lock) {
    Distinct(lk.owners) && Distinct(lk.waiters) && Disjoint(lk.owners, lk.waiters)
  }

  // No lost wakeup: whoever is at the head of the queue really has to wait.
  ghost predicate HeadBlocked(lk: Lock) {
    lk.waiters != [] ==> Conflict(lk.lockType, lk.waiters[0].lockType)
  }

  ghost predicate WellFormed(lk: Lock) {
    Compatible(lk) && ListedOnce(lk) && HeadBlocked(lk)
  }

  // The WAIT_DIE order: waiters are older (smaller timestamp) than all owners
  // and than every waiter ahead of them.
  ghost predicate AgeOrdered(lk: Lock) {
    Older(lk.waiters, lk.owners) && Descending(lk.waiters)
  }

  ghost predicate Older(ws: seq<Entry>, os: seq<Entry>) {
    forall w, o :: w in ws && o in os ==> w.ts < o.ts
  }

  ghost predicate Descending(ws: seq<Entry>) {
    forall i, j :: 0 <= i < j < |ws| ==> ws[j].ts < ws[i].ts
  }

  ghost predicate Fresh(lk: Lock, e: Entry) {
    && e.lockType != LockNone
    && (forall x :: Listed(lk, x) ==> x.txn != e.txn)
  }

  // Owners never conflict with each other, and a free lock has no waiters.
  lemma WellFormedFacts(lk: Lock)
    requires WellFormed(lk)
    ensures lk.owners == [] ==> lk.waiters == []
    ensures forall o, p :: o in lk.owners && p in lk.owners && o.txn != p.txn ==> !Conflict(o.lockType, p.lockType)
  {
  }

  // Membership in a list that lost one entry.
  lemma WithoutMembers(es: seq<Entry>, i: nat)
    requires i < |es| && Distinct(es)
    ensures Distinct(Without(es, i))
    ensures forall e :: e in Without(es, i) <==> e in es && e.txn != es[i].txn
  {
    var r := Without(es, i);
    assert forall j :: 0 <= j < |r| ==> r[j] == es[if j < i then j else j + 1];
    forall e | e in es && e.txn != es[i].txn
      ensures e in r
    {
      var k :| 0 <= k < |es| && es[k] == e;
      assert r[if k < i then k else k - 1] == e;
    }
  }

  // Membership in a list that gained one entry.
  lemma InsertedMembers(es: seq<Entry>, i: nat, e: Entry)
    requires i <= |es|
    ensures forall x :: x in es[..i] + [e] + es[i..] <==> x in es || x == e
    ensures Distinct(es) && (forall x :: x in es ==> x.txn != e.txn) ==> Distinct(es[..i] + [e] + es[i..])
  {
    var r := es[..i] + [e] + es[i..];
    assert forall j :: 0 <= j < |r| ==> r[j] == if j < i then es[j] else if j == i then e else es[j - 1];
    assert forall j :: 0 <= j < |es| ==> es[j] in es;
    forall x | x in es
      ensures x in r
    {
      var k :| 0 <= k < |es| && es[k] == x;
      assert r[if k < i then k else k + 1] == x;
    }
  }

  lemma ShiftHead(os: seq<Entry>, ws: seq<Entry>)
    requires ws != [] && Distinct(os) && Distinct(ws) && Disjoint(os, ws)
    ensures Distinct([ws[0]] + os) && Distinct(ws[1..]) && Disjoint([ws[0]] + os, ws[1..])
    ensures forall e :: e in ws[1..] <==> e in ws && e.txn != ws[0].txn
    ensures forall e :: e in [ws[0]] + os <==> e in os || e == ws[0]
  {
    assert Without(ws, 0) == ws[1..];
    WithoutMembers(ws, 0);
    assert ws[0] in ws;
    assert forall i :: 0 <= i < |os| ==> os[i] in os && os[i].txn != ws[0].txn;
  }

  lemma ShiftHeadAge(os: seq<Entry>, ws: seq<Entry>)
    requires ws != [] && Older(ws, os) && Descending(ws)
    ensures Older(ws[1..], [ws[0]] + os) && Descending(ws[1..])
  {
    assert forall j :: 0 <= j < |ws| - 1 ==> ws[1..][j] == ws[j + 1];
    forall w, o | w in ws[1..] && o in [ws[0]] + os
      ensures w.ts < o.ts
    {
      var j :| 0 <= j < |ws[1..]| && ws[1..][j] == w;
      assert ws[j + 1] in ws;
    }
  }

  lemma PromoteHeadKeeps(lk: Lock)
    requires Compatible(lk) && ListedOnce(lk)
    requires lk.waiters != [] && !Conflict(lk.lockType, lk.waiters[0].lockType)
    ensures Compatible(PromoteHead(lk)) && ListedOnce(PromoteHead(lk))
    ensures AgeOrdered(lk) ==> AgeOrdered(PromoteHead(lk))
    ensures forall e :: Listed(PromoteHead(lk), e) <==> Listed(lk, e)
    ensures forall e :: e in lk.owners ==> e in PromoteHead(lk).owners
  {
    ShiftHead(lk.owners, lk.waiters);
    if AgeOrdered(lk) {
      ShiftHeadAge(lk.owners, lk.waiters);
    }
    assert lk.waiters[0] in lk.waiters;
    forall e
      ensures Listed(PromoteHead(lk), e) <==> Listed(lk, e)
    {
      if e in lk.waiters && e.txn == lk.waiters[0].txn {
        var j :| 0 <= j < |lk.waiters| && lk.waiters[j] == e;
      }
    }
  }

  lemma {:induction false} PromoteKeeps(lk: Lock)
    requires Compatible(lk) && ListedOnce(lk)
    ensures WellFormed(Promote(lk))
    ensures AgeOrdered(lk) ==> AgeOrdered(Promote(lk))
    ensures forall e :: Listed(Promote(lk), e) <==> Listed(lk, e)
    ensures forall e :: e in lk.owners ==> e in Promote(lk).owners
    decreases |lk.waiters|
  {
    if lk.waiters != [] && !Conflict(lk.lockType, lk.waiters[0].lockType) {
      PromoteHeadKeeps(lk);
      PromoteKeeps(PromoteHead(lk));
    }
  }

  // Promotion takes a prefix of the queue, in order.
  lemma {:induction false} PromoteSplits(lk: Lock)
    requires Compatible(lk) && ListedOnce(lk)
    ensures |Promote(lk).waiters| <= |lk.waiters|
    ensures Promote(lk).waiters == lk.waiters[|lk.waiters| - |Promote(lk).waiters|..]
    ensures forall k :: 0 <= k < |lk.waiters| ==>
              (lk.waiters[k] in Promote(lk).owners <==> k < |lk.waiters| - |Promote(lk).waiters|)
    decreases |lk.waiters|
  {
    if lk.waiters == [] || Conflict(lk.lockType, lk.waiters[0].lockType) {
      assert forall k :: 0 <= k < |lk.waiters| ==> lk.waiters[k] in lk.waiters;
    } else {
      var next := PromoteHead(lk);
      PromoteHeadKeeps(lk);
      PromoteKeeps(next);
      PromoteSplits(next);
      hide Compatible, ListedOnce, WellFormed, Listed;
      assert next.waiters == lk.waiters[1..] && lk.waiters[0] in next.owners;
      forall k | 0 <= k < |lk.waiters|
        ensures lk.waiters[k] in Promote(next).owners <==> k < |lk.waiters| - |Promote(next).waiters|
      {
        assert k > 0 ==> lk.waiters[k] == next.waiters[k - 1];
      }
    }
  }

  lemma WithoutAge(os: seq<Entry>, ws: seq<Entry>, k: nat)
    requires k < |ws| && Older(ws, os) && Descending(ws)
    ensures Older(Without(ws, k), os) && Descending(Without(ws, k))
  {
    var r := Without(ws, k);
    assert forall j :: 0 <= j < |r| ==> r[j] == ws[if j < k then j else j + 1];
  }

  lemma DropMembers(lk: Lock, txn: TxnId)
    requires ListedOnce(lk)
    ensures ListedOnce(Drop(lk, txn))
    ensures forall e :: e in Drop(lk, txn).owners <==> e in lk.owners && e.txn != txn
    ensures forall e :: e in Drop(lk, txn).waiters <==> e in lk.waiters && e.txn != txn
  {
    var i, k := IndexOf(lk.owners, txn), IndexOf(lk.waiters, txn);
    if i < |lk.owners| {
      WithoutMembers(lk.owners, i);
      assert lk.owners[i] in lk.owners;
    } else if k < |lk.waiters| {
      WithoutMembers(lk.waiters, k);
    }
  }

  lemma DropKeeps(lk: Lock, txn: TxnId)
    requires Compatible(lk) && ListedOnce(lk)
    ensures Compatible(Drop(lk, txn))
    ensures AgeOrdered(lk) ==> AgeOrdered(Drop(lk, txn))
  {
    var k := IndexOf(lk.waiters, txn);
    DropMembers(lk, txn);
    if AgeOrdered(lk) && k < |lk.waiters| && IndexOf(lk.owners, txn) == |lk.owners| {
      WithoutAge(lk.owners, lk.waiters, k);
    }
  }

  // lock_release keeps a lock well formed, removes exactly txn and keeps the
  // WAIT_DIE order.
  lemma ReleaseKeeps(lk: Lock, txn: TxnId)
    requires WellFormed(lk)
    ensures WellFormed(Release(lk, txn))
    ensures AgeOrdered(lk) ==> AgeOrdered(Release(lk, txn))
    ensures forall e :: Listed(Release(lk, txn), e) <==> Listed(lk, e) && e.txn != txn
    ensures forall e :: e in lk.owners && e.txn != txn ==> e in Release(lk, txn).owners
  {
    DropMembers(lk, txn);
    DropKeeps(lk, txn);
    PromoteKeeps(Drop(lk, txn));
  }

  // lock_get keeps a lock well formed; a granted request becomes an owner that
  // conflicts with no other, a waiting one a waiter, and an aborted one leaves
  // no trace.
  lemma GetKeeps(alg: Algorithm, lk: Lock, e: Entry)
    requires WellFormed(lk) && Fresh(lk, e)
    ensures WellFormed(Get(alg, lk, e).0)
    ensures forall x :: x in Get(alg, lk, e).0.owners <==> x in lk.owners || (Get(alg, lk, e).1 == RcOk && x == e)
    ensures forall x :: x in Get(alg, lk, e).0.waiters <==> x in lk.waiters || (Get(alg, lk, e).1 == Wait && x == e)
    ensures Get(alg, lk, e).1 == RcOk ==> forall o :: o in lk.owners ==> !Conflict(o.lockType, e.lockType)
    ensures Get(alg, lk, e).1 == Abort ==> Get(alg, lk, e).0 == lk
    ensures alg == NoWait ==> Get(alg, lk, e).1 != Wait
    ensures alg == DlDetect ==> Get(alg, lk, e).1 != Abort
  {
    var (r, rc) := Get(alg, lk, e);
    assert forall x :: x in lk.owners || x in lk.waiters ==> Listed(lk, x);
    if rc == RcOk {
      InsertedMembers(lk.owners, 0, e);
      assert lk.owners[..0] + [e] + lk.owners[0..] == r.owners;
    } else if rc == Wait {
      var i := if alg == DlDetect then |lk.waiters| else InsertPos(lk.waiters, e.ts);
      InsertedMembers(lk.waiters, i, e);
      assert r.waiters == lk.waiters[..i] + [e] + lk.waiters[i..];
      assert i > 0 ==> r.waiters[0] == lk.waiters[0];
    }
  }

  // NO_WAIT grants a request that shares with all owners and refuses any other.
  lemma NoWaitOutcome(lk: Lock, e: Entry)
    requires WellFormed(lk) && Fresh(lk, e)
    ensures Get(NoWait, lk, e).1 == RcOk <==> forall o :: o in lk.owners ==> o.lockType == LockSh && e.lockType == LockSh
    ensures Get(NoWait, lk, e).1 == Abort <==> exists o :: o in lk.owners && (o.lockType == LockEx || e.lockType == LockEx)
  {
    TypesOfOwners(lk, e);
  }

  // DL_DETECT queues it as well when somebody is queued already, and always at
  // the end.
  lemma DlDetectOutcome(lk: Lock, e: Entry)
    requires WellFormed(lk) && Fresh(lk, e)
    ensures Get(DlDetect, lk, e).1 == RcOk <==>
            lk.waiters == [] && forall o :: o in lk.owners ==> o.lockType == LockSh && e.lockType == LockSh
    ensures Get(DlDetect, lk, e).1 == RcOk || (Get(DlDetect, lk, e).1 == Wait && Get(DlDetect, lk, e).0 == lk.(waiters := lk.waiters + [e]))
  {
    TypesOfOwners(lk, e);
  }

  // WAIT_DIE grants it unless an owner does not share or a younger request is
  // queued; then it waits when no owner is older, and dies when one is.
  lemma WaitDieOutcome(lk: Lock, e: Entry)
    requires WellFormed(lk) && Fresh(lk, e) && AgeOrdered(lk)
    ensures Get(WaitDie, lk, e).1 == RcOk <==>
            && (forall o :: o in lk.owners ==> o.lockType == LockSh && e.lockType == LockSh)
            && (forall w :: w in lk.waiters ==> w.ts <= e.ts)
    ensures Get(WaitDie, lk, e).1 == Abort <==>
            && (exists o :: o in lk.owners && o.ts < e.ts)
            && ((exists o :: o in lk.owners && (o.lockType == LockEx || e.lockType == LockEx)) || exists w :: w in lk.waiters && w.ts > e.ts)
  {
    TypesOfOwners(lk, e);
    if lk.waiters != [] {
      HeadIsYoungest(lk.waiters);
    }
  }

  lemma TypesOfOwners(lk: Lock, e: Entry)
    requires WellFormed(lk) && e.lockType != LockNone
    ensures Conflict(lk.lockType, e.lockType) <==> exists o :: o in lk.owners && (o.lockType == LockEx || e.lockType == LockEx)
    ensures forall o :: o in lk.owners ==> o.lockType == LockEx || o.lockType == LockSh
  {
    if Conflict(lk.lockType, e.lockType) {
      assert lk.owners[0] in lk.owners;
    }
  }

  lemma InsertedAge(ws: seq<Entry>, e: Entry)
    requires Descending(ws) && (forall w :: w in ws ==> w.ts != e.ts)
    ensures var i := InsertPos(ws, e.ts); Descending(ws[..i] + [e] + ws[i..])
  {
    var i := InsertPos(ws, e.ts);
    var r := ws[..i] + [e] + ws[i..];
    forall j, k | 0 <= j < k < |r|
      ensures r[k].ts < r[j].ts
    {
      assert i < |ws| ==> ws[i] in ws;
      assert k > i ==> r[k] == ws[k - 1];
      assert j > i ==> r[j] == ws[j - 1];
      assert i <= k - 1 && i < |ws| ==> ws[k - 1].ts <= ws[i].ts;
    }
  }

  lemma HeadIsYoungest(ws: seq<Entry>)
    requires Descending(ws) && ws != []
    ensures ws[0] in ws && forall w :: w in ws ==> w.ts <= ws[0].ts
  {
    assert forall j :: 0 < j < |ws| ==> ws[0].ts > ws[j].ts;
  }

  // Under WAIT_DIE, with distinct timestamps, a request waits exactly when it
  // is older than every owner it would wait for, and it is queued behind all
  // waiters that are younger: the age order survives.
  lemma GetKeepsAge(lk: Lock, e: Entry)
    requires WellFormed(lk) && Fresh(lk, e) && AgeOrdered(lk)
    requires forall x :: Listed(lk, x) ==> x.ts != e.ts
    ensures AgeOrdered(Get(WaitDie, lk, e).0)
    ensures Get(WaitDie, lk, e).1 == Wait ==> forall o :: o in lk.owners ==> e.ts < o.ts
    ensures Get(WaitDie, lk, e).1 == Abort ==> exists o :: o in lk.owners && o.ts < e.ts
  {
    var (r, rc) := Get(WaitDie, lk, e);
    assert forall x :: x in lk.owners || x in lk.waiters ==> Listed(lk, x);
    if rc == RcOk && lk.waiters != [] {
      HeadIsYoungest(lk.waiters);
    } else if rc == Wait {
      InsertedAge(lk.waiters, e);
      InsertedMembers(lk.waiters, InsertPos(lk.waiters, e.ts), e);
    }
  }

  // The requests ahead of e that e conflicts with.
  ghost predicate Blocks(lk: Lock, e: Entry, id: TxnId) {
    exists x :: Listed(lk, x) && x.txn == id && Conflict(e.lockType, x.lockType)
  }

  // A request is blocked by the exclusive ones ahead of it and, when it is
  // exclusive itself, by all.
  lemma BlocksByTypes(lk: Lock, e: Entry)
    requires WellFormed(lk) && e.lockType != LockNone
    ensures forall id :: Blocks(lk, e, id) <==>
              exists x :: (x in lk.owners || x in lk.waiters) && x.txn == id && (x.lockType == LockEx || e.lockType == LockEx)
  {
    TypesOfOwners(lk, e);
    forall id
      ensures Blocks(lk, e, id) <==> exists x :: (x in lk.owners || x in lk.waiters) && x.txn == id && (x.lockType == LockEx || e.lockType == LockEx)
    {
      if x :| (x in lk.owners || x in lk.waiters) && x.txn == id && (x.lockType == LockEx || e.lockType == LockEx) {
        assert Listed(lk, x) && Conflict(e.lockType, x.lockType);
      }
    }
  }

  // In DL_DETECT a request that has to wait is always blocked by somebody.
  lemma BlockedBySomebody(lk: Lock, e: Entry)
    requires WellFormed(lk) && Fresh(lk, e) && Get(DlDetect, lk, e).1 == Wait
    ensures exists id :: Blocks(lk, e, id)
  {
    WellFormedFacts(lk);
    if Conflict(lk.lockType, e.lockType) {
      var o := lk.owners[0];
      assert Listed(lk, o) && Conflict(e.lockType, o.lockType);
      assert Blocks(lk, e, o.txn);
    } else {
      var w := lk.waiters[0];
      assert Listed(lk, w) && Conflict(e.lockType, w.lockType);
      assert Blocks(lk, e, w.txn);
    }
  }
}
