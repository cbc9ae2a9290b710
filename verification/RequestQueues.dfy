// The request lists that both timestamp-ordered row managers keep: entries are
// pushed at the front and taken out by transaction or by timestamp.
//
// The first half describes the lists as values; the loops of the second half are
// proved equal to them.

module RequestQueues {
  import opened TxnMan

  datatype Req = Req(txn: nat, ts: nat)

  // The smallest timestamp, or none when that is smaller.
  function MinOr(reqs: seq<Req>, none: nat): (m: nat)
    ensures forall q :: q in reqs ==> m <= q.ts
    ensures m <= none
    ensures m == none || exists q :: q in reqs && q.ts == m
  {
    if reqs == [] then none
    else
      var m := MinOr(reqs[1..], none);
      if reqs[0].ts < m then reqs[0].ts else m
  }

  function IndexOf(reqs: seq<Req>, txn: nat): (i: nat)
    ensures i <= |reqs|
    ensures forall j :: 0 <= j < i ==> reqs[j].txn != txn
    ensures i < |reqs| ==> reqs[i].txn == txn
  {
    if reqs == [] || reqs[0].txn == txn then 0 else 1 + IndexOf(reqs[1..], txn)
  }

  function DropReq(reqs: seq<Req>, txn: nat): seq<Req> {
    var i := IndexOf(reqs, txn);
    if i < |reqs| then reqs[..i] + reqs[i + 1..] else reqs
  }

  function KeepAbove(reqs: seq<Req>, bound: nat): seq<Req> {
    if reqs == [] then []
    else (if reqs[0].ts <= bound then [] else [reqs[0]]) + KeepAbove(reqs[1..], bound)
  }

  // The requests at or below bound, last first.
  function TakeUpTo(reqs: seq<Req>, bound: nat): seq<Req> {
    if reqs == [] then []
    else TakeUpTo(reqs[1..], bound) + (if reqs[0].ts <= bound then [reqs[0]] else [])
  }

  ghost predicate DistinctTs(reqs: seq<Req>) {
    forall i, j :: 0 <= i < j < |reqs| ==> reqs[i].ts != reqs[j].ts
  }

  lemma {:induction false} FilterMembers(reqs: seq<Req>, bound: nat, q: Req)
    ensures q in KeepAbove(reqs, bound) <==> q in reqs && q.ts > bound
    ensures q in TakeUpTo(reqs, bound) <==> q in reqs && q.ts <= bound
  {
    if reqs != [] {
      FilterMembers(reqs[1..], bound, q);
    }
  }

  lemma {:induction false} FilterDistinct(reqs: seq<Req>, bound: nat)
    requires DistinctTs(reqs)
    ensures DistinctTs(KeepAbove(reqs, bound)) && DistinctTs(TakeUpTo(reqs, bound))
  {
    if reqs != [] {
      FilterDistinct(reqs[1..], bound);
      forall q
        ensures q in KeepAbove(reqs[1..], bound) ==> q.ts != reqs[0].ts
        ensures q in TakeUpTo(reqs[1..], bound) ==> q.ts != reqs[0].ts
      {
        FilterMembers(reqs[1..], bound, q);
      }
      var t := TakeUpTo(reqs[1..], bound);
      assert forall i :: 0 <= i < |t| ==> t[i] in t;
    }
  }

  // One step of the loop that takes the ready reads out.
  lemma FilterStep(reqs: seq<Req>, n: nat, bound: nat)
    requires n < |reqs|
    ensures KeepAbove(reqs[n..], bound) == (if reqs[n].ts <= bound then [] else [reqs[n]]) + KeepAbove(reqs[n + 1..], bound)
    ensures TakeUpTo(reqs[n..], bound) == TakeUpTo(reqs[n + 1..], bound) + (if reqs[n].ts <= bound then [reqs[n]] else [])
  {
    assert reqs[n..][1..] == reqs[n + 1..];
  }

  lemma BufferFresh(reqs: seq<Req>, q: Req)
    requires DistinctTs(reqs) && forall r :: r in reqs ==> r.ts != q.ts
    ensures DistinctTs([q] + reqs)
  {
    assert forall i :: 0 < i < |[q] + reqs| ==> ([q] + reqs)[i] == reqs[i - 1] && reqs[i - 1] in reqs;
  }

  lemma DropReqMembers(reqs: seq<Req>, txn: nat)
    requires forall i, j :: 0 <= i < j < |reqs| ==> reqs[i].txn != reqs[j].txn
    ensures forall q :: q in DropReq(reqs, txn) <==> q in reqs && q.txn != txn
    ensures forall i, j :: 0 <= i < j < |DropReq(reqs, txn)| ==> DropReq(reqs, txn)[i].txn != DropReq(reqs, txn)[j].txn
  {
    var i, r := IndexOf(reqs, txn), DropReq(reqs, txn);
    if i < |reqs| {
      assert reqs == reqs[..i] + [reqs[i]] + reqs[i + 1..];
      assert forall j :: 0 <= j < |r| ==> r[j] == reqs[if j < i then j else j + 1];
    }
  }

  // ---------------------------------------------------------------------
  // The lists as they hang off a row
  // ---------------------------------------------------------------------

  function Brief(txn: TxnMan): Req {
    Req(txn.id, txn.ts)
  }

  function View(reqs: seq<TxnMan>): (r: seq<Req>)
    ensures |r| == |reqs|
    ensures forall i :: 0 <= i < |reqs| ==> r[i] == Brief(reqs[i])
  {
    seq(|reqs|, i requires 0 <= i < |reqs| => Brief(reqs[i]))
  }

  lemma ViewCons(txn: TxnMan, reqs: seq<TxnMan>)
    ensures View([txn] + reqs) == [Brief(txn)] + View(reqs)
  {
  }

  lemma ViewSnoc(reqs: seq<TxnMan>, txn: TxnMan)
    ensures View(reqs + [txn]) == View(reqs) + [Brief(txn)]
  {
  }

  // The first n requests are in kept or, those at or below bound, in ready.
  ghost predicate Sifted(reqs: seq<TxnMan>, n: nat, bound: nat, kept: seq<TxnMan>, ready: seq<TxnMan>)
    requires n <= |reqs|
  {
    SiftedLists(View(reqs), n, bound, View(kept), View(ready)) && SiftedMembers(reqs, n, bound, kept, ready)
  }

  ghost predicate SiftedLists(reqs: seq<Req>, n: nat, bound: nat, kept: seq<Req>, ready: seq<Req>)
    requires n <= |reqs|
  {
    kept + KeepAbove(reqs[n..], bound) == KeepAbove(reqs, bound) && TakeUpTo(reqs[n..], bound) + ready == TakeUpTo(reqs, bound)
  }

  ghost predicate SiftedMembers(reqs: seq<TxnMan>, n: nat, bound: nat, kept: seq<TxnMan>, ready: seq<TxnMan>)
    requires n <= |reqs|
  {
    && (forall t :: t in ready ==> t in reqs && t.ts <= bound)
    && (forall t :: t in kept ==> t in reqs && t.ts > bound)
    && (forall k :: 0 <= k < n ==> if reqs[k].ts <= bound then reqs[k] in ready else reqs[k] in kept)
  }

  lemma SiftOneMember(reqs: seq<TxnMan>, n: nat, bound: nat, kept: seq<TxnMan>, ready: seq<TxnMan>)
    requires n < |reqs| && SiftedMembers(reqs, n, bound, kept, ready)
    ensures if reqs[n].ts <= bound then SiftedMembers(reqs, n + 1, bound, kept, [reqs[n]] + ready)
            else SiftedMembers(reqs, n + 1, bound, kept + [reqs[n]], ready)
  {
  }

  lemma SiftOne(reqs: seq<TxnMan>, n: nat, bound: nat, kept: seq<TxnMan>, ready: seq<TxnMan>)
    requires n < |reqs| && Sifted(reqs, n, bound, kept, ready)
    ensures if reqs[n].ts <= bound then Sifted(reqs, n + 1, bound, kept, [reqs[n]] + ready)
            else Sifted(reqs, n + 1, bound, kept + [reqs[n]], ready)
  {
    SiftOneMember(reqs, n, bound, kept, ready);
    hide SiftedMembers, KeepAbove, TakeUpTo;
    FilterStep(View(reqs), n, bound);
    ViewCons(reqs[n], ready);
    ViewSnoc(kept, reqs[n]);
  }

  // debuffer_req by timestamp: what stays, and what is taken out, last first.
  method Sift(reqs: seq<TxnMan>, bound: nat) returns (kept: seq<TxnMan>, ready: seq<TxnMan>)
    ensures View(kept) == KeepAbove(View(reqs), bound) && View(ready) == TakeUpTo(View(reqs), bound)
    ensures forall t :: t in ready <==> t in reqs && t.ts <= bound
    ensures forall t :: t in kept <==> t in reqs && t.ts > bound
  {
    hide KeepAbove, TakeUpTo;
    kept, ready := [], [];
    NothingSifted(reqs, bound);
    var n := 0;
    while n < |reqs|
      invariant n <= |reqs| && Sifted(reqs, n, bound, kept, ready)
    {
      var req := reqs[n];
      SiftOne(reqs, n, bound, kept, ready);
      if req.ts <= bound {
        ready := [req] + ready;
      } else {
        kept := kept + [req];
      }
      n := n + 1;
    }
    AllSifted(reqs, bound, kept, ready);
  }

  lemma NothingSifted(reqs: seq<TxnMan>, bound: nat)
    ensures Sifted(reqs, 0, bound, [], [])
  {
    assert View(reqs)[0..] == View(reqs);
  }

  lemma AllSifted(reqs: seq<TxnMan>, bound: nat, kept: seq<TxnMan>, ready: seq<TxnMan>)
    requires Sifted(reqs, |reqs|, bound, kept, ready)
    ensures View(kept) == KeepAbove(View(reqs), bound) && View(ready) == TakeUpTo(View(reqs), bound)
    ensures forall t :: t in ready <==> t in reqs && t.ts <= bound
    ensures forall t :: t in kept <==> t in reqs && t.ts > bound
  {
    assert View(reqs)[|reqs|..] == [];
  }

  // debuffer_req by transaction.
  method TakeOut(reqs: seq<TxnMan>, txn: nat) returns (rest: seq<TxnMan>)
    ensures View(rest) == DropReq(View(reqs), txn)
    ensures (exists p :: p in reqs && p.id == txn) ==> |rest| == |reqs| - 1
  {
    var i := 0;
    while i < |reqs| && reqs[i].id != txn
      invariant i <= |reqs| && forall k :: 0 <= k < i ==> reqs[k].id != txn
    {
      i := i + 1;
    }
    assert forall k :: 0 <= k < i ==> View(reqs)[k].txn != txn;
    assert i == IndexOf(View(reqs), txn);
    if i == |reqs| {
      return reqs;
    }
    rest := reqs[..i] + reqs[i + 1..];
    assert View(rest) == View(reqs)[..i] + View(reqs)[i + 1..];
  }

  method Smallest(reqs: seq<TxnMan>, none: nat) returns (m: nat)
    ensures m == MinOr(View(reqs), none)
  {
    m := none;
    var n := 0;
    while n < |reqs|
      invariant n <= |reqs| && m <= none
      invariant m == none || exists k :: 0 <= k < n && reqs[k].ts == m
      invariant forall k :: 0 <= k < n ==> m <= reqs[k].ts
    {
      if reqs[n].ts < m {
        m := reqs[n].ts;
      }
      n := n + 1;
    }
    assert forall k :: 0 <= k < |reqs| ==> View(reqs)[k] in View(reqs);
  }
}
