// The timestamp-ordering row manager as it runs under its latch.

module RowTs {
  import opened Options
  import opened RequestQueues
  import opened TxnMan
  import opened RowTsSpec

  lemma {:induction false} WriteSplit(ws: seq<Write>, n: nat, bound: nat)
    requires n < |ws|
    ensures WritesAbove(ws[n..], bound) == (if ws[n].req.ts <= bound then [] else [ws[n]]) + WritesAbove(ws[n + 1..], bound)
    ensures WritesUpTo(ws[n..], bound) == WritesUpTo(ws[n + 1..], bound) + (if ws[n].req.ts <= bound then [ws[n]] else [])
  {
    assert ws[n..][1..] == ws[n + 1..];
  }

  // debuffer_req for the writes.
  method SiftWrites(ws: seq<Write>, bound: nat) returns (kept: seq<Write>, ready: seq<Write>)
    ensures kept == WritesAbove(ws, bound) && ready == WritesUpTo(ws, bound)
  {
    kept, ready := [], [];
    var n := 0;
    while n < |ws|
      invariant n <= |ws|
      invariant kept + WritesAbove(ws[n..], bound) == WritesAbove(ws, bound)
      invariant WritesUpTo(ws[n..], bound) + ready == WritesUpTo(ws, bound)
    {
      WriteSplit(ws, n, bound);
      if ws[n].req.ts <= bound {
        ready := [ws[n]] + ready;
      } else {
        kept := kept + [ws[n]];
      }
      n := n + 1;
    }
  }

  lemma OldestStart(ws: seq<Write>)
    requires ws != []
    ensures Oldest(ws[..1]) == ws[0]
  {
  }

  lemma OldestStep(ws: seq<Write>, n: nat)
    requires n < |ws|
    ensures var young := Oldest(ws[..if n == 0 then 1 else n]);
            Oldest(ws[..n + 1]) == if ws[n].req.ts < young.req.ts then ws[n] else young
  {
    assert ws[..n + 1][..n] == ws[..n];
  }

  lemma DropAllStep(reqs: seq<Req>, ws: seq<Write>, n: nat)
    requires n < |ws|
    ensures DropAll(reqs, ws[n..]) == DropAll(DropReq(reqs, ws[n].req.txn), ws[n + 1..])
  {
    assert ws[n..][1..] == ws[n + 1..];
  }

  lemma DropNone(reqs: seq<Req>, ws: seq<Write>)
    requires ws == []
    ensures DropAll(reqs, ws) == reqs
  {
  }

  method DropPrewrites(prereqs: seq<TxnMan>, ready: seq<Write>) returns (rest: seq<TxnMan>, young: Write)
    requires ready != []
    ensures View(rest) == DropAll(View(prereqs), ready) && young == Oldest(ready)
  {
    hide Oldest, DropAll;
    young := ready[0];
    rest := prereqs;
    OldestStart(ready);
    assert ready[0..] == ready;
    var n := 0;
    while n < |ready|
      invariant 0 <= n <= |ready| && young == Oldest(ready[..if n == 0 then 1 else n])
      invariant DropAll(View(rest), ready[n..]) == DropAll(View(prereqs), ready)
    {
      var req := ready[n];
      OldestStep(ready, n);
      DropAllStep(View(rest), ready, n);
      rest := TakeOut(rest, req.req.txn);
      if req.req.ts < young.req.ts {
        young := req;
      }
      n := n + 1;
    }
    assert ready[..|ready|] == ready;
    DropNone(View(rest), ready[n..]);
  }

  lemma NewestStep(reqs: seq<Req>, n: nat, last: nat)
    requires n < |reqs|
    ensures Newest(reqs[n..], last) == Newest(reqs[n + 1..], Max(last, reqs[n].ts))
  {
    assert reqs[n..][1..] == reqs[n + 1..];
  }

  lemma NewestOfNone(reqs: seq<Req>, last: nat)
    requires reqs == []
    ensures Newest(reqs, last) == last
  {
  }

  lemma RoundEnds(row: Row, minPts: nat)
    requires minPts == Max(row.minPts, MinOr(row.prereqs, NONE))
    requires minPts == row.minPts || TakeUpTo(row.readreqs, minPts) == []
    ensures ServeReads(row) == row.(minPts := minPts) && Ready(row) == []
  {
  }

  lemma RoundServes(row: Row, bound: nat, minRts: nat)
    requires bound == MinOr(row.prereqs, NONE) > row.minPts && TakeUpTo(row.readreqs, bound) != []
    requires minRts == Max(row.minRts, MinOr(KeepAbove(row.readreqs, bound), NONE))
    ensures Ready(row) != []
    ensures ServeReads(row) == row.(minPts := bound, readreqs := KeepAbove(row.readreqs, bound),
                                    rts := Newest(TakeUpTo(row.readreqs, bound), row.rts), minRts := minRts)
  {
  }

  function NextRound(row: Row): Row {
    if ReadyWrites(row) == [] then ServeReads(row) else ServeWrites(ServeReads(row), ReadyWrites(row))
  }

  lemma RoundsAddUp(row: Row)
    ensures RowTsSpec.UpdateBuffer(row) == if ReadyWrites(row) == [] then NextRound(row) else RowTsSpec.UpdateBuffer(NextRound(row))
    ensures ReadyWrites(row) != [] ==> |NextRound(row).readreqs| < |row.readreqs|
    ensures row.writereqs == [] ==> ReadyWrites(row) == []
  {
  }

  lemma GetsInRounds(row: Row)
    ensures forall ts :: ReadGets(row, ts) ==
              if Releases(row, ts) then Some(row.value)
              else if ReadyWrites(row) == [] then None else ReadGets(NextRound(row), ts)
  {
  }

  class RowTs {
    var value: int
    var wts: nat
    var rts: nat
    var minRts: nat
    var minPts: nat
    var prereqs: seq<TxnMan>
    var readreqs: seq<TxnMan>
    var writereqs: seq<Write>

    ghost function Abs(): Row
      reads this
    {
      Row(value, wts, rts, minRts, minPts, View(prereqs), View(readreqs), writereqs)
    }

    constructor (value: int)
      ensures Abs() == Row(value, 0, 0, NONE, NONE, [], [], [])
    {
      this.value, wts, rts, minRts, minPts := value, 0, 0, NONE, NONE;
      prereqs, readreqs, writereqs := [], [], [];
    }

    // The reads taken out get the row and are woken up.
    method ServeReady(ready: seq<TxnMan>)
      modifies this`rts, ready`curRow, ready`tsReady
      ensures rts == Newest(View(ready), old(rts)) && unchanged(`value, `wts, `minRts, `minPts, `prereqs, `readreqs, `writereqs)
      ensures forall t :: t in ready ==> t.tsReady && t.curRow == value
    {
      hide Newest;
      ghost var out := View(ready);
      assert out[0..] == out;
      var data := value;
      var last := rts;
      var n := 0;
      while n < |ready|
        invariant 0 <= n <= |ready| && Newest(out[n..], last) == Newest(out, rts)
        invariant forall k :: 0 <= k < n ==> ready[k].tsReady && ready[k].curRow == data
        modifies ready`curRow, ready`tsReady
      {
        NewestStep(out, n, last);
        ready[n].curRow := data;
        last := Max(last, ready[n].ts);
        ready[n].tsReady := true;
        n := n + 1;
      }
      NewestOfNone(out[n..], last);
      rts := last;
    }

    // Puts out the oldest of the writes taken out; their prewrites go.
    method PutOut(ready: seq<Write>)
      requires ready != []
      modifies this`value, this`wts, this`prereqs
      ensures value == Oldest(ready).data && wts == Max(old(wts), Oldest(ready).req.ts)
      ensures View(prereqs) == DropAll(View(old(prereqs)), ready) && unchanged(`rts, `minRts, `minPts, `readreqs, `writereqs)
    {
      var young;
      prereqs, young := DropPrewrites(prereqs, ready);
      value := young.data;
      if wts < young.req.ts {
        wts := young.req.ts;
      }
    }

    // Every waiting read has what update_buffer of row gives it.
    ghost predicate ReadersServed(row: Row, readers: seq<TxnMan>)
      reads readers
    {
      forall t :: t in readers && ReadGets(row, t.ts).Some? ==> t.tsReady && t.curRow == ReadGets(row, t.ts).value
    }

    // The next round of row serves the reads it releases and leaves the others.
    ghost predicate RoundServed(row: Row, readers: seq<TxnMan>)
      reads this`readreqs, readers
    {
      && (forall t :: t in readreqs ==> t in readers && !Releases(row, t.ts))
      && forall t :: t in readers ==> if Releases(row, t.ts) then t.tsReady && t.curRow == row.value else t in readreqs
    }

    // Takes out the reads at or below bound and serves them.
    method TakeReady(bound: nat) returns (none: bool)
      modifies this`rts, this`readreqs, readreqs`curRow, readreqs`tsReady
      ensures none == (TakeUpTo(View(old(readreqs)), bound) == [])
      ensures if none then unchanged(this)
              else View(readreqs) == KeepAbove(View(old(readreqs)), bound) && rts == Newest(TakeUpTo(View(old(readreqs)), bound), old(rts))
      ensures forall t :: t in readreqs ==> t in old(readreqs) && t.ts > bound
      ensures forall t :: t in old(readreqs) ==> if t.ts <= bound then t.tsReady && t.curRow == value else t in readreqs
    {
      hide Newest, KeepAbove, TakeUpTo;
      var kept, ready := Sift(readreqs, bound);
      none := ready == [];
      if !none {
        readreqs := kept;
        ServeReady(ready);
      }
    }

    // A round of update_buffer up to its reads; go tells whether it continues.
    method ReadRound() returns (go: bool)
      modifies this`minPts, this`minRts, this`rts, this`readreqs, readreqs`curRow, readreqs`tsReady
      ensures Abs() == ServeReads(old(Abs()))
      ensures go == (Ready(old(Abs())) != [] && minRts > old(minRts))
      ensures RoundServed(old(Abs()), old(readreqs))
    {
      hide Newest, KeepAbove, TakeUpTo, ServeReads, Ready, DistinctTs, MinOr;
      ghost var row := Abs();
      var newMinPts := Smallest(prereqs, NONE);
      if newMinPts > minPts {
        minPts := newMinPts;
      } else {
        RoundEnds(row, minPts);
        return false;
      }
      var none := TakeReady(minPts);
      if none {
        RoundEnds(row, minPts);
        return false;
      }
      var newMinRts := Smallest(readreqs, NONE);
      if newMinRts > minRts {
        minRts := newMinRts;
        go := true;
      } else {
        go := false;
      }
      RoundServes(row, newMinPts, minRts);
    }

    // One round of the loop of update_buffer.
    method Round() returns (more: bool)
      modifies this, readreqs`curRow, readreqs`tsReady
      ensures more == (ReadyWrites(old(Abs())) != [])
      ensures Abs() == NextRound(old(Abs()))
      ensures RoundServed(old(Abs()), old(readreqs))
    {
      var go := ReadRound();
      if !go {
        return false;
      }
      var kept, ready := SiftWrites(writereqs, minRts);
      if ready == [] {
        return false;
      }
      writereqs := kept;
      PutOut(ready);
      return true;
    }

    // update_buffer.
    method UpdateBuffer()
      modifies this, readreqs`curRow, readreqs`tsReady
      ensures Abs() == RowTsSpec.UpdateBuffer(old(Abs()))
      ensures ReadersServed(old(Abs()), old(readreqs))
    {
      hide NextRound, ReadyWrites, RowTsSpec.UpdateBuffer, ReadGets, Releases;
      ghost var row := Abs();
      RoundsAddUp(row);
      GetsInRounds(row);
      var more := Round();
      while more
        invariant forall t :: t in readreqs ==> t in old(readreqs)
        invariant if more then RowTsSpec.UpdateBuffer(Abs()) == RowTsSpec.UpdateBuffer(row) else Abs() == RowTsSpec.UpdateBuffer(row)
        invariant forall t :: t in readreqs ==> ReadGets(row, t.ts) == if more then ReadGets(Abs(), t.ts) else None
        invariant forall t :: t in old(readreqs) && t !in readreqs ==> t.tsReady && ReadGets(row, t.ts) == Some(t.curRow)
        decreases more, |readreqs|
      {
        ghost var before := Abs();
        RoundsAddUp(before);
        GetsInRounds(before);
        assert forall i :: 0 <= i < |readreqs| ==> readreqs[i] in readreqs && readreqs[i] in old(readreqs);
        more := Round();
        assert |Abs().readreqs| == |readreqs|;
      }
    }

    method BufferRead(txn: TxnMan)
      modifies this`readreqs, this`minRts, txn`tsReady
      ensures View(readreqs) == [Brief(txn)] + View(old(readreqs)) && minRts == Min(old(minRts), txn.ts) && !txn.tsReady
    {
      ViewCons(txn, readreqs);
      readreqs := [txn] + readreqs;
      if txn.ts < minRts {
        minRts := txn.ts;
      }
      txn.tsReady := false;
    }

    method BufferPrewrite(txn: TxnMan)
      modifies this`prereqs, this`minPts
      ensures View(prereqs) == [Brief(txn)] + View(old(prereqs)) && minPts == Min(old(minPts), txn.ts)
    {
      ViewCons(txn, prereqs);
      prereqs := [txn] + prereqs;
      if txn.ts < minPts {
        minPts := txn.ts;
      }
    }

    // The R_REQ branch of access().
    method ReadRequest(txn: TxnMan) returns (rc: RC)
      modifies this`readreqs, this`minRts, this`rts, txn`curRow, txn`tsReady
      ensures (Abs(), rc) == ReadReq(old(Abs()), Brief(txn))
      ensures rc == RcOk ==> txn.curRow == value
      ensures rc == Wait ==> !txn.tsReady
    {
      if txn.ts < wts {
        rc := Abort;
      } else if txn.ts > minPts {
        BufferRead(txn);
        rc := Wait;
      } else {
        txn.curRow := value;
        if rts < txn.ts {
          rts := txn.ts;
        }
        rc := RcOk;
      }
    }

    // The P_REQ branch.
    method PrewriteRequest(txn: TxnMan) returns (rc: RC)
      modifies this`prereqs, this`minPts
      ensures (Abs(), rc) == PrewriteReq(old(Abs()), Brief(txn))
    {
      if txn.ts < rts || txn.ts < wts {
        rc := Abort;
      } else {
        BufferPrewrite(txn);
        rc := RcOk;
      }
    }

    // The W_REQ branch: the write is put out unless an older prewrite or read
    // is pending.
    method WriteRequest(txn: TxnMan, data: int)
      modifies this, readreqs`curRow, readreqs`tsReady
      ensures Abs() == WriteReq(old(Abs()), Brief(txn), data)
      ensures !MustBuffer(old(Abs()), Brief(txn)) ==> ReadersServed(Stored(old(Abs()), Brief(txn), data), old(readreqs))
    {
      hide ServeReads, ReadyWrites, RowTsSpec.UpdateBuffer;
      if txn.ts > minPts || txn.ts > minRts {
        writereqs := [Write(Brief(txn), data)] + writereqs;
      } else {
        value := data;
        if wts < txn.ts {
          wts := txn.ts;
        }
        prereqs := TakeOut(prereqs, txn.id);
        UpdateBuffer();
      }
    }

    // The XP_REQ branch.
    method CancelRequest(txn: TxnMan)
      modifies this, readreqs`curRow, readreqs`tsReady
      ensures Abs() == CancelReq(old(Abs()), Brief(txn))
      ensures ReadersServed(Withdrawn(old(Abs()), Brief(txn)), old(readreqs))
    {
      prereqs := TakeOut(prereqs, txn.id);
      UpdateBuffer();
    }

    method Access(txn: TxnMan, kind: TsType, data: int) returns (rc: RC)
      requires kind.WReq? || kind.XpReq? ==> txn in prereqs
      modifies this, readreqs`curRow, readreqs`tsReady, txn`curRow, txn`tsReady
      ensures (Abs(), rc) == Answer(old(Abs()), kind, Brief(txn), data)
      ensures kind.RReq? && rc == RcOk ==> txn.curRow == old(value)
      ensures rc == Wait ==> !txn.tsReady
      ensures kind.WReq? && !MustBuffer(old(Abs()), Brief(txn)) ==>
                ReadersServed(Stored(old(Abs()), Brief(txn), data), old(readreqs))
      ensures kind.XpReq? ==> ReadersServed(Withdrawn(old(Abs()), Brief(txn)), old(readreqs))
    {
      match kind {
        case RReq => rc := ReadRequest(txn);
        case PReq => rc := PrewriteRequest(txn);
        case WReq => WriteRequest(txn, data); rc := RcOk;
        case XpReq => CancelRequest(txn); rc := RcOk;
      }
    }
  }
}
