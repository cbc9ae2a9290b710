// The multiversion row manager as it runs under its latch: request stacks and
// sorted histories updated in place, with their length counters.

module RowMvcc {
  import opened RequestQueues
  import opened TxnMan
  import opened RowMvccSpec

  // The readers at or below every prewrite pending in row have their version.
  ghost predicate ReadersServed(row: Row, readers: seq<TxnMan>)
    reads readers
  {
    forall t :: t in readers && t.ts <= MinTs(row.prereqs) ==> t.tsReady && t.curRow == Lookup(row, t.ts).data
  }

  lemma ReadyFacts(row: Row)
    requires ReadersFresh(row)
    ensures var out := TakeUpTo(row.readreqs, MinTs(row.prereqs));
            DistinctTs(out) && forall q :: q in out ==> q.ts !in row.readhis
  {
    FilterDistinct(row.readreqs, MinTs(row.prereqs));
    forall q | q in TakeUpTo(row.readreqs, MinTs(row.prereqs))
      ensures q in row.readreqs
    {
      FilterMembers(row.readreqs, MinTs(row.prereqs), q);
    }
  }

  lemma InsertReadsStep(readhis: seq<nat>, reqs: seq<Req>, n: nat)
    requires n < |reqs|
    ensures InsertReads(readhis, reqs[n..]) == InsertReads(InsertRead(readhis, reqs[n].ts), reqs[n + 1..])
  {
    assert reqs[n..][1..] == reqs[n + 1..];
  }

  lemma InsertNoReads(readhis: seq<nat>, reqs: seq<Req>)
    requires reqs == []
    ensures InsertReads(readhis, reqs) == readhis
  {
  }

  lemma ReleaseIs(row: Row, row': Row)
    requires row'.base == row.base && row'.writehis == row.writehis && row'.prereqs == row.prereqs
    requires row'.readreqs == KeepAbove(row.readreqs, MinTs(row.prereqs))
    requires row'.readhis == InsertReads(row.readhis, TakeUpTo(row.readreqs, MinTs(row.prereqs)))
    ensures row' == Release(row)
  {
  }

  class RowMvcc {
    var base: Value
    var prereqs: seq<TxnMan>
    var readreqs: seq<TxnMan>
    var readhis: seq<nat>
    var writehis: seq<Version>
    var preqLen: nat
    var rreqLen: nat
    var rhisLen: nat
    var whisLen: nat

    ghost function Abs(): Row
      reads this
    {
      Row(base, View(prereqs), View(readreqs), readhis, writehis)
    }

    ghost predicate Counted()
      reads this
    {
      preqLen == |prereqs| && rreqLen == |readreqs| && rhisLen == |readhis| && whisLen == |writehis|
    }

    ghost predicate Sorted()
      reads this
    {
      Counted() && Descending(readhis) && Descending(Stamps(writehis))
    }

    ghost predicate Valid()
      reads this
    {
      Sorted() && ReadersFresh(Abs())
    }

    constructor (base: Value)
      ensures Valid() && Abs() == Row(base, [], [], [], [])
    {
      this.base := base;
      prereqs, readreqs, readhis, writehis := [], [], [], [];
      preqLen, rreqLen, rhisLen, whisLen := 0, 0, 0, 0;
    }

    // conflict() for a read request.
    method ConflictRead(ts: nat) returns (b: bool)
      requires Sorted()
      ensures b == ReadConflict(Abs(), ts)
    {
      var pts, n := 0, 0;
      while n < |prereqs|
        invariant n <= |prereqs|
        invariant pts == 0 || exists k :: 0 <= k < n && prereqs[k].ts == pts && pts < ts
        invariant forall k :: 0 <= k < n && prereqs[k].ts < ts ==> prereqs[k].ts <= pts
      {
        if prereqs[n].ts < ts && prereqs[n].ts > pts {
          pts := prereqs[n].ts;
        }
        n := n + 1;
      }
      assert pts == MaxBelow(View(prereqs), ts) by {
        assert forall k :: 0 <= k < |prereqs| ==> View(prereqs)[k] in View(prereqs);
      }
      if pts == 0 {
        return false;
      }
      b := NoVersionBetween(pts, ts);
    }

    // conflict() for a prewrite.
    method ConflictPrewrite(ts: nat) returns (b: bool)
      requires Sorted()
      ensures b == PreConflict(Abs(), ts)
    {
      var rts, i := 0, 0;
      while i < |readhis| && readhis[i] > ts
        invariant i <= |readhis|
        invariant forall k :: 0 <= k < i ==> readhis[k] > ts
        invariant rts == if i == 0 then 0 else readhis[i - 1]
      {
        rts := readhis[i];
        i := i + 1;
      }
      assert i == FirstAtMost(readhis, ts);
      if rts == 0 {
        return false;
      }
      b := NoVersionBetween(ts, rts);
    }

    method NoVersionBetween(pts: nat, rts: nat) returns (b: bool)
      requires Sorted()
      ensures b == !VersionBetween(writehis, pts, rts)
    {
      var i := 0;
      while i < |writehis| && writehis[i].ts > pts
        invariant i <= |writehis|
        invariant forall k :: 0 <= k < i ==> writehis[k].ts >= rts
      {
        if writehis[i].ts < rts {
          return false;
        }
        i := i + 1;
      }
      assert i < |writehis| ==> forall k :: i <= k < |writehis| ==> Stamps(writehis)[k] <= Stamps(writehis)[i];
      return true;
    }

    // The version a read at ts gets.
    method FindVersion(ts: nat) returns (data: Value)
      ensures data == FindIn(base, writehis, ts).data
    {
      var i := 0;
      while i < |writehis| && writehis[i].ts > ts
        invariant i <= |writehis|
        invariant forall k :: 0 <= k < i ==> writehis[k].ts > ts
      {
        i := i + 1;
      }
      assert i == FirstAtMost(Stamps(writehis), ts);
      data := if i == |writehis| then base else writehis[i].data;
    }

    method InsertReadHistory(ts: nat)
      requires Sorted() && ts !in readhis
      modifies this`readhis, this`rhisLen
      ensures Sorted() && readhis == InsertRead(old(readhis), ts)
    {
      rhisLen := rhisLen + 1;
      var i := 0;
      while i < |readhis| && ts < readhis[i]
        invariant i <= |readhis|
        invariant forall k :: 0 <= k < i ==> ts < readhis[k]
      {
        i := i + 1;
      }
      assert i == FirstAtMost(readhis, ts);
      InsertReadKeeps(readhis, ts);
      readhis := readhis[..i] + [ts] + readhis[i..];
    }

    method InsertWriteHistory(ts: nat, data: Value)
      requires Sorted() && ts !in Stamps(writehis)
      modifies this`writehis, this`whisLen
      ensures Sorted() && writehis == InsertVersion(old(writehis), Version(ts, data))
    {
      whisLen := whisLen + 1;
      var i := 0;
      while i < |writehis| && ts < writehis[i].ts
        invariant i <= |writehis|
        invariant forall k :: 0 <= k < i ==> ts < writehis[k].ts
      {
        i := i + 1;
      }
      assert i == FirstAtMost(Stamps(writehis), ts);
      InsertVersionKeeps(writehis, Version(ts, data));
      writehis := writehis[..i] + [Version(ts, data)] + writehis[i..];
    }

    // clear_history for the reads.
    method ClearReads(bound: nat)
      requires Sorted()
      modifies this`readhis, this`rhisLen
      ensures Sorted() && readhis == old(readhis)[..KeepLen(old(readhis), bound)]
    {
      ghost var all := readhis;
      while |readhis| >= 2 && readhis[|readhis| - 2] < bound
        invariant |readhis| <= |all| && readhis == all[..|readhis|] && rhisLen == |readhis|
        invariant KeepLen(readhis, bound) == KeepLen(all, bound)
        decreases |readhis|
      {
        readhis := readhis[..|readhis| - 1];
        rhisLen := rhisLen - 1;
      }
    }

    // clear_history for the versions; latest is the newest one removed.
    method ClearWrites(bound: nat) returns (latest: seq<Value>)
      requires Sorted()
      modifies this`writehis, this`whisLen
      ensures Sorted() && writehis == old(writehis)[..KeepLen(Stamps(old(writehis)), bound)]
      ensures latest == if |writehis| < |old(writehis)| then [old(writehis)[|writehis|].data] else []
    {
      ghost var all := writehis;
      latest := [];
      assert all[..|all|] == all;
      while |writehis| >= 2 && writehis[|writehis| - 2].ts < bound
        invariant |writehis| <= |all| && writehis == all[..|writehis|] && whisLen == |writehis|
        invariant KeepLen(Stamps(writehis), bound) == KeepLen(Stamps(all), bound)
        invariant latest == if |writehis| < |all| then [all[|writehis|].data] else []
        decreases |writehis|
      {
        ghost var tss := Stamps(writehis);
        latest := [writehis[|writehis| - 1].data];
        writehis := writehis[..|writehis| - 1];
        whisLen := whisLen - 1;
        assert Stamps(writehis) == tss[..|tss| - 1];
      }
    }

    // The recycling at the end of a successful request; minTs is the smallest
    // timestamp of an active transaction.
    method RecycleHistory(minTs: nat)
      requires Sorted()
      modifies this
      ensures Sorted() && Abs() == Recycle(old(Abs()), minTs)
      ensures prereqs == old(prereqs) && readreqs == old(readreqs)
    {
      ghost var row := Abs();
      assert readhis[..|readhis|] == readhis && writehis[..|writehis|] == writehis;
      if whisLen > HIS_RECYCLE_LEN || rhisLen > HIS_RECYCLE_LEN {
        if readhis != [] && readhis[|readhis| - 1] < minTs {
          ClearReads(minTs);
        } else {
          assert KeepLen(readhis, minTs) == |readhis|;
        }
        assert readhis == row.readhis[..KeepReads(row, minTs)];
        if whisLen > 1 && writehis[|writehis| - 2].ts < minTs {
          var latest := ClearWrites(minTs);
          if latest != [] {
            base := latest[0];
          }
        } else {
          assert KeepLen(Stamps(writehis), minTs) == |writehis|;
        }
      }
    }

    method BufferRead(txn: TxnMan)
      modifies this`readreqs, this`rreqLen, txn`tsReady
      ensures rreqLen == old(rreqLen) + 1 && |readreqs| == |old(readreqs)| + 1
      ensures View(readreqs) == [Brief(txn)] + View(old(readreqs)) && !txn.tsReady
    {
      rreqLen := rreqLen + 1;
      readreqs := [txn] + readreqs;
      txn.tsReady := false;
    }

    method BufferPrewrite(txn: TxnMan)
      modifies this`prereqs, this`preqLen
      ensures preqLen == old(preqLen) + 1 && |prereqs| == |old(prereqs)| + 1
      ensures View(prereqs) == [Brief(txn)] + View(old(prereqs))
    {
      preqLen := preqLen + 1;
      prereqs := [txn] + prereqs;
    }

    // debuffer_req for the prewrite of txn.
    method DebufferPrewrite(txn: TxnMan)
      requires Counted() && Pending(txn)
      modifies this`prereqs, this`preqLen
      ensures Counted() && View(prereqs) == DropReq(View(old(prereqs)), txn.id)
    {
      prereqs := TakeOut(prereqs, txn.id);
      preqLen := preqLen - 1;
    }

    // debuffer_req for the reads: takes out those at or below the smallest
    // pending prewrite.
    method DebufferReads() returns (ready: seq<TxnMan>)
      requires Counted()
      modifies this`readreqs, this`rreqLen
      ensures Counted() && unchanged(`base, `prereqs, `readhis, `writehis)
      ensures var bound := MinTs(View(prereqs));
              && View(readreqs) == KeepAbove(View(old(readreqs)), bound)
              && View(ready) == TakeUpTo(View(old(readreqs)), bound)
      ensures forall t :: t in ready ==> t in old(readreqs) && t.ts <= MinTs(View(prereqs))
      ensures forall t :: t in old(readreqs) && t.ts <= MinTs(View(prereqs)) ==> t in ready
    {
      var minPts := Smallest(prereqs, NO_PREWRITE);
      var kept;
      kept, ready := Sift(readreqs, minPts);
      readreqs := kept;
      rreqLen := |kept|;
    }

    // update_buffer: every reader taken out gets its version and is woken up.
    method UpdateBuffer()
      requires Valid()
      modifies this`readreqs, this`rreqLen, this`readhis, this`rhisLen, readreqs`curRow, readreqs`tsReady
      ensures Valid() && Abs() == Release(old(Abs()))
      ensures prereqs == old(prereqs)
      ensures ReadersServed(old(Abs()), old(readreqs))
      ensures forall t :: t in old(readreqs) && t.ts > MinTs(View(prereqs)) ==> unchanged(t)
    {
      hide Descending, DistinctTs, KeepAbove, TakeUpTo, InsertReads, FindIn;
      ReleaseFresh(Abs());
      ReadyFacts(Abs());
      ghost var row := Abs();
      var ready := DebufferReads();
      ServeReads(ready);
      ReleaseIs(row, Abs());
    }

    // The discipline of row.cpp: no timestamp reads the row twice, and only a
    // transaction with a pending prewrite writes or cancels.
    ghost predicate Fits(txn: TxnMan, kind: TsType)
      reads this
    {
      match kind
      case RReq => txn.ts !in readhis && forall r :: r in readreqs ==> r.ts != txn.ts
      case PReq => true
      case WReq => Pending(txn) && txn.ts !in Stamps(writehis)
      case XpReq => Pending(txn)
    }

    ghost predicate Pending(txn: TxnMan)
      reads this
    {
      txn in prereqs
    }

    // The R_REQ branch of access().
    method ReadRequest(txn: TxnMan) returns (rc: RC)
      requires Valid() && Fits(txn, RReq)
      modifies this`readreqs, this`rreqLen, this`readhis, this`rhisLen, txn`curRow, txn`tsReady
      ensures Sorted() && (Abs(), rc) == ReadReq(old(Abs()), Brief(txn))
      ensures rc == RcOk ==> txn.curRow == Lookup(old(Abs()), txn.ts).data
      ensures rc == Wait ==> !txn.tsReady
    {
      var conf := ConflictRead(txn.ts);
      if conf && rreqLen < MAX_READ_REQ {
        rc := Wait;
        BufferRead(txn);
      } else if conf {
        rc := Abort;
      } else {
        rc := RcOk;
        var version := FindVersion(txn.ts);
        txn.curRow := version;
        InsertReadHistory(txn.ts);
      }
    }

    // The P_REQ branch.
    method PrewriteRequest(txn: TxnMan) returns (rc: RC)
      requires Valid()
      modifies this`prereqs, this`preqLen
      ensures Sorted() && (Abs(), rc) == PrewriteReq(old(Abs()), Brief(txn))
    {
      var conf := ConflictPrewrite(txn.ts);
      if conf {
        rc := Abort;
      } else if preqLen < MAX_PRE_REQ {
        BufferPrewrite(txn);
        rc := RcOk;
      } else {
        rc := Abort;
      }
    }

    // The W_REQ branch.
    method WriteRequest(txn: TxnMan, data: Value)
      requires Valid() && Fits(txn, WReq)
      modifies this, readreqs`curRow, readreqs`tsReady
      ensures Sorted() && Abs() == WriteReq(old(Abs()), Brief(txn), data)
      ensures ReadersServed(Overwritten(old(Abs()), Brief(txn), data), old(readreqs))
    {
      InsertWriteHistory(txn.ts, data);
      DebufferPrewrite(txn);
      UpdateBuffer();
    }

    // The XP_REQ branch.
    method CancelRequest(txn: TxnMan)
      requires Valid() && Fits(txn, XpReq)
      modifies this, readreqs`curRow, readreqs`tsReady
      ensures Sorted() && Abs() == CancelReq(old(Abs()), Brief(txn))
      ensures ReadersServed(Withdrawn(old(Abs()), Brief(txn)), old(readreqs))
    {
      DebufferPrewrite(txn);
      UpdateBuffer();
    }

    // access(): minTs is the smallest timestamp of an active transaction.
    method Access(txn: TxnMan, kind: TsType, data: Value, minTs: nat) returns (rc: RC)
      requires Valid() && Fits(txn, kind)
      modifies this, readreqs`curRow, readreqs`tsReady, txn`curRow, txn`tsReady
      ensures Valid()
      ensures var (row, code) := Answer(old(Abs()), kind, Brief(txn), data);
              rc == code && Abs() == if code == RcOk then Recycle(row, minTs) else row
      ensures kind.RReq? && rc == RcOk ==> txn.curRow == Lookup(old(Abs()), txn.ts).data
      ensures rc == Wait ==> !txn.tsReady
      ensures kind.WReq? ==> ReadersServed(Overwritten(old(Abs()), Brief(txn), data), old(readreqs))
      ensures kind.XpReq? ==> ReadersServed(Withdrawn(old(Abs()), Brief(txn)), old(readreqs))
    {
      ghost var row := Abs();
      AnswerFresh(row, kind, Brief(txn), data);
      match kind {
        case RReq => rc := ReadRequest(txn);
        case PReq => rc := PrewriteRequest(txn);
        case WReq =>
          rc := RcOk;
          WriteRequest(txn, data);
        case XpReq =>
          rc := RcOk;
          CancelRequest(txn);
      }
      RecycleFresh(Abs(), minTs);
      if rc == RcOk {
        RecycleHistory(minTs);
      }
    }

    // The loop of update_buffer over the reads taken out.
    method ServeReads(ready: seq<TxnMan>)
      requires Sorted() && DistinctTs(View(ready)) && forall q :: q in View(ready) ==> q.ts !in readhis
      modifies this`readhis, this`rhisLen, ready`curRow, ready`tsReady
      ensures Sorted() && readhis == InsertReads(old(readhis), View(ready))
      ensures unchanged(`base, `prereqs, `readreqs, `writehis)
      ensures forall t :: t in ready ==> t.tsReady && t.curRow == FindIn(base, writehis, t.ts).data
    {
      hide InsertReads, FindIn, Descending;
      ghost var out := View(ready);
      assert out[0..] == out;
      var n := 0;
      while n < |ready|
        invariant 0 <= n <= |ready| && Sorted()
        invariant InsertReads(readhis, out[n..]) == InsertReads(old(readhis), out)
        invariant forall k :: n <= k < |out| ==> out[k].ts !in readhis
        invariant forall k :: 0 <= k < n ==> ready[k].tsReady && ready[k].curRow == FindIn(base, writehis, ready[k].ts).data
      {
        var txn := ready[n];
        InsertReadsStep(readhis, out, n);
        var version := FindVersion(txn.ts);
        txn.curRow := version;
        InsertReadKeeps(readhis, txn.ts);
        InsertReadHistory(txn.ts);
        txn.tsReady := true;
        n := n + 1;
      }
      InsertNoReads(readhis, out[n..]);
    }
  }
}
