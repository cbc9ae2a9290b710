// Basic timestamp ordering under the prewrite-read-write discipline of
// row.cpp: what holds in every run of requests on a row.

module TimestampReads {
  import opened RequestQueues
  import opened RowTsSpec

  // A read at reader that got the version written at version.
  datatype Served = Served(reader: nat, version: nat, value: int)

  // served, written (by timestamp, with the initial row at 0), used and asked
  // record what happened.
  datatype State = State(row: Row, served: set<Served>, written: map<nat, int>, used: set<nat>, asked: set<nat>)

  datatype Step =
    | DoPrewrite(q: Req)
    | DoRead(q: Req)
    | DoWrite(q: Req, data: int)
    | DoCancel(q: Req)

  ghost predicate ReadDone(s: State, ts: nat) {
    exists sv :: sv in s.served && sv.reader == ts
  }

  // A transaction reads the row once, or prewrites it, reads it, waits for the
  // value and then writes or cancels. Timestamps identify transactions.
  ghost predicate Enabled(s: State, step: Step) {
    match step
    case DoPrewrite(q) => 0 < q.ts < NONE && q.ts !in s.used && forall p :: p in s.row.prereqs ==> p.txn != q.txn
    case DoRead(q) => 0 < q.ts < NONE && q.ts !in s.asked && (q.ts !in s.used || q in s.row.prereqs)
    case DoWrite(q, _) => q in s.row.prereqs && ReadDone(s, q.ts)
    case DoCancel(q) => q in s.row.prereqs && ReadDone(s, q.ts)
  }

  function Serve(row: Row, q: Req): Served {
    Served(q.ts, row.wts, row.value)
  }

  // The reads update_buffer serves, all its rounds taken together.
  ghost function ServedBy(row: Row): set<Served>
    decreases |row.readreqs|
  {
    var now := set q | q in Ready(row) :: Serve(row, q);
    if ReadyWrites(row) == [] then now
    else now + ServedBy(ServeWrites(ServeReads(row), ReadyWrites(row)))
  }

  ghost function Updated(s: State): State {
    s.(row := UpdateBuffer(s.row), served := s.served + ServedBy(s.row))
  }

  ghost function Do(s: State, step: Step): State {
    match step
    case DoPrewrite(q) =>
      s.(row := PrewriteReq(s.row, q).0, used := s.used + {q.ts})
    case DoRead(q) =>
      var (row, rc) := ReadReq(s.row, q);
      s.(row := row, used := s.used + {q.ts}, asked := s.asked + {q.ts},
         served := if rc == RcOk then s.served + {Serve(s.row, q)} else s.served)
    case DoWrite(q, data) =>
      if MustBuffer(s.row, q) then s.(row := WriteReq(s.row, q, data))
      else Updated(s.(row := Stored(s.row, q, data), written := s.written[q.ts := data]))
    case DoCancel(q) =>
      Updated(s.(row := Withdrawn(s.row, q)))
  }

  function StepOf(kind: TsType, q: Req, data: int): Step {
    match kind
    case RReq => DoRead(q)
    case PReq => DoPrewrite(q)
    case WReq => DoWrite(q, data)
    case XpReq => DoCancel(q)
  }

  // The row in which a write or cancellation looks for reads it releases.
  function Settled(row: Row, kind: TsType, q: Req, data: int): Row {
    if kind.WReq? then Stored(row, q, data) else Withdrawn(row, q)
  }

  // One call of the row manager is one step of this system: same row and, where
  // no write waits, same values for the reads released.
  lemma AccessIsSteps(s: State, kind: TsType, q: Req, data: int)
    ensures Do(s, StepOf(kind, q, data)).row == Answer(s.row, kind, q, data).0
    ensures (kind.WReq? && !MustBuffer(s.row, q)) || kind.XpReq? ==> s.row.writereqs == [] ==>
              Do(s, StepOf(kind, q, data)).served == s.served + ReleasedFrom(Settled(s.row, kind, q, data))
  {
    hide UpdateBuffer, ServedBy, ReleasedFrom, MinOr;
    if (kind.WReq? || kind.XpReq?) && s.row.writereqs == [] {
      RoundServed(Settled(s.row, kind, q, data));
    }
  }

  // The reads waiting in row that no pending prewrite is older than, with the
  // value of the row.
  ghost function ReleasedFrom(row: Row): set<Served> {
    set r | r in row.readreqs && Releases(row, r.ts) :: Serve(row, r)
  }

  lemma RoundServed(row: Row)
    requires row.writereqs == []
    ensures ServedBy(row) == ReleasedFrom(row)
  {
    var bound := MinOr(row.prereqs, NONE);
    forall r
      ensures r in TakeUpTo(row.readreqs, bound) <==> r in row.readreqs && r.ts <= bound
    {
      FilterMembers(row.readreqs, bound, r);
    }
  }

  // ---------------------------------------------------------------------
  // Invariant
  // ---------------------------------------------------------------------

  ghost predicate PrereqsOk(s: State) {
    && (forall i, j :: 0 <= i < j < |s.row.prereqs| ==> s.row.prereqs[i].txn != s.row.prereqs[j].txn)
    && (forall p, q :: p in s.row.prereqs && q in s.row.prereqs && p.ts == q.ts ==> p == q)
    && (forall p :: p in s.row.prereqs ==> 0 < p.ts < NONE && p.ts in s.used && p.ts !in s.written)
    // Nobody may write below what was read or written.
    && (forall p :: p in s.row.prereqs ==> s.row.rts <= p.ts && s.row.wts <= p.ts)
  }

  ghost predicate ReadreqsOk(s: State) {
    && DistinctTs(s.row.readreqs)
    && (forall r :: r in s.row.readreqs ==> r.ts in s.asked && r.ts < NONE && !ReadDone(s, r.ts))
    // A buffered read waits for an older prewrite.
    && (forall r :: r in s.row.readreqs ==> r.ts > s.row.minPts)
  }

  // The cached minima are exact and no write ever waits.
  ghost predicate CachesOk(s: State) {
    && s.row.minPts == MinOr(s.row.prereqs, NONE)
    && s.row.minRts == MinOr(s.row.readreqs, NONE)
    && s.row.writereqs == []
  }

  ghost predicate WrittenOk(s: State) {
    && s.row.wts in s.written && s.written[s.row.wts] == s.row.value
    && (forall k :: k in s.written ==> k <= s.row.wts)
    && (forall k :: k in s.written ==> k in s.used || k == 0)
  }

  // The read of sv got the newest version below it, and no older writer is left.
  ghost predicate ServedOk(s: State, sv: Served) {
    && sv.version in s.written && s.written[sv.version] == sv.value && sv.version <= sv.reader <= s.row.rts
    && (forall k :: k in s.written ==> !(sv.version < k < sv.reader))
  }

  ghost predicate AllServedOk(s: State) {
    forall sv :: sv in s.served ==> ServedOk(s, sv) && sv.reader in s.asked
  }

  ghost predicate Base(s: State) {
    PrereqsOk(s) && ReadreqsOk(s) && CachesOk(s) && WrittenOk(s) && AllServedOk(s) && s.asked <= s.used
  }

  ghost predicate Init(s: State, value: int) {
    s == State(Row(value, 0, 0, NONE, NONE, [], [], []), {}, map[0 := value], {}, {})
  }

  lemma InitHolds(s: State, value: int)
    requires Init(s, value)
    ensures Inv(s)
  {
  }

  // ---------------------------------------------------------------------
  // Who can be between its read and its write
  // ---------------------------------------------------------------------

  // A writer that has its value is the oldest one pending.
  lemma ReaderIsOldest(s: State, p: Req)
    requires Base(s) && p in s.row.prereqs && ReadDone(s, p.ts)
    ensures p.ts == s.row.minPts
  {
    var sv :| sv in s.served && sv.reader == p.ts;
    assert ServedOk(s, sv);
  }

  lemma OneWriter(s: State, p: Req, q: Req)
    requires Base(s) && p in s.row.prereqs && q in s.row.prereqs && ReadDone(s, p.ts) && ReadDone(s, q.ts)
    ensures p == q
  {
    ReaderIsOldest(s, p);
    ReaderIsOldest(s, q);
  }

  // Its write goes through at once.
  lemma WriteIsNotBuffered(s: State, q: Req)
    requires Base(s) && q in s.row.prereqs && ReadDone(s, q.ts)
    ensures !MustBuffer(s.row, q) && s.row.wts < q.ts
  {
    ReaderIsOldest(s, q);
    assert s.row.wts in s.written && q.ts !in s.written;
  }

  lemma ReadAfterPrewrite(s: State, q: Req)
    requires Base(s) && q in s.row.prereqs
    ensures ReadReq(s.row, q).1 != Abort
  {
  }

  // ---------------------------------------------------------------------
  // The steps
  // ---------------------------------------------------------------------

  lemma PrewritePrereqs(s: State, q: Req)
    requires PrereqsOk(s) && Enabled(s, DoPrewrite(q)) && (forall k :: k in s.written ==> k in s.used || k == 0)
    ensures PrereqsOk(Do(s, DoPrewrite(q)))
  {
    var s' := Do(s, DoPrewrite(q));
    if s'.row != s.row {
      forall i, j | 0 <= i < j < |s'.row.prereqs|
        ensures s'.row.prereqs[i].txn != s'.row.prereqs[j].txn
      {
        assert s'.row.prereqs[j] == s.row.prereqs[j - 1] && s.row.prereqs[j - 1] in s.row.prereqs;
      }
    }
  }

  lemma PrewriteReads(s: State, q: Req)
    requires ReadreqsOk(s) && CachesOk(s)
    ensures ReadreqsOk(Do(s, DoPrewrite(q))) && CachesOk(Do(s, DoPrewrite(q)))
  {
    var s' := Do(s, DoPrewrite(q));
    if s'.row != s.row {
      assert s'.row.prereqs[1..] == s.row.prereqs;
    }
    assert forall ts :: ReadDone(s', ts) <==> ReadDone(s, ts);
  }

  lemma PrewriteServed(s: State, s': State)
    requires AllServedOk(s) && WrittenOk(s) && s'.served == s.served && s'.written == s.written && s'.asked == s.asked
    requires s.used <= s'.used && s'.row.rts == s.row.rts && s'.row.wts == s.row.wts && s'.row.value == s.row.value
    ensures AllServedOk(s') && WrittenOk(s')
  {
    forall sv | sv in s'.served
      ensures ServedOk(s', sv)
    {
      assert ServedOk(s, sv);
    }
  }

  lemma PrewriteKeeps(s: State, q: Req)
    requires Base(s) && Enabled(s, DoPrewrite(q))
    ensures Base(Do(s, DoPrewrite(q)))
  {
    PrewritePrereqs(s, q);
    PrewriteReads(s, q);
    hide PrereqsOk, ReadreqsOk, CachesOk, WrittenOk, AllServedOk, DistinctTs;
    PrewriteServed(s, Do(s, DoPrewrite(q)));
  }

  // A read that is served at once.
  lemma ServeReadreqs(s: State, q: Req)
    requires ReadreqsOk(s) && q.ts !in s.asked && ReadReq(s.row, q).1 == RcOk
    ensures ReadreqsOk(Do(s, DoRead(q)))
  {
    var s' := Do(s, DoRead(q));
    forall ts | ts != q.ts
      ensures ReadDone(s', ts) <==> ReadDone(s, ts)
    {
    }
  }

  lemma ServeServed(s: State, q: Req)
    requires WrittenOk(s) && AllServedOk(s) && ReadReq(s.row, q).1 == RcOk
    ensures AllServedOk(Do(s, DoRead(q)))
  {
    var s' := Do(s, DoRead(q));
    forall sv | sv in s'.served
      ensures ServedOk(s', sv) && sv.reader in s'.asked
    {
      if sv in s.served {
        assert ServedOk(s, sv);
      }
    }
  }

  lemma ServeKeeps(s: State, q: Req)
    requires Base(s) && Enabled(s, DoRead(q)) && ReadReq(s.row, q).1 == RcOk
    ensures Base(Do(s, DoRead(q)))
  {
    ServeReadreqs(s, q);
    ServeServed(s, q);
    hide ReadreqsOk, AllServedOk, DistinctTs;
  }

  // A read that is buffered.
  lemma BufferReadreqs(s: State, q: Req)
    requires ReadreqsOk(s) && CachesOk(s) && AllServedOk(s) && Enabled(s, DoRead(q)) && ReadReq(s.row, q).1 == Wait
    ensures ReadreqsOk(Do(s, DoRead(q))) && CachesOk(Do(s, DoRead(q)))
  {
    var s' := Do(s, DoRead(q));
    BufferFresh(s.row.readreqs, q);
    assert s'.row.readreqs[1..] == s.row.readreqs;
    assert forall ts :: ReadDone(s', ts) <==> ReadDone(s, ts);
  }

  lemma SameVersions(s: State, s': State)
    requires s'.row.value == s.row.value && s'.row.wts == s.row.wts && s'.row.rts == s.row.rts
    requires s'.written == s.written && s'.served == s.served && s.used <= s'.used && s.asked <= s'.asked
    requires WrittenOk(s) && AllServedOk(s)
    ensures WrittenOk(s') && AllServedOk(s')
  {
    forall sv | sv in s'.served
      ensures ServedOk(s', sv)
    {
      assert ServedOk(s, sv);
    }
  }

  // The last read moves up, but not beyond a pending prewrite.
  lemma SamePrereqs(s: State, s': State)
    requires PrereqsOk(s) && s'.row.prereqs == s.row.prereqs && s'.row.wts == s.row.wts
    requires s'.written == s.written && s.used <= s'.used
    requires s'.row.rts <= Max(s.row.rts, MinOr(s.row.prereqs, NONE))
    ensures PrereqsOk(s')
  {
  }

  lemma BufferKeeps(s: State, q: Req)
    requires Base(s) && Enabled(s, DoRead(q)) && ReadReq(s.row, q).1 == Wait
    ensures Base(Do(s, DoRead(q)))
  {
    hide ReadreqsOk, CachesOk, PrereqsOk, WrittenOk, AllServedOk;
    BufferReadreqs(s, q);
    SameVersions(s, Do(s, DoRead(q)));
    SamePrereqs(s, Do(s, DoRead(q)));
  }

  // Between the removal of the oldest prewrite and update_buffer.
  ghost predicate MidInv(s: State) {
    && PrereqsOk(s) && WrittenOk(s) && AllServedOk(s) && s.asked <= s.used && ReadreqsOk(s)
    && s.row.wts <= s.row.minPts < MinOr(s.row.prereqs, NONE)
    && s.row.minRts == MinOr(s.row.readreqs, NONE) && s.row.writereqs == []
  }

  // With no write waiting update_buffer ends after its first reads.
  lemma UpdateIsOneRound(s: State)
    requires s.row.writereqs == []
    ensures Updated(s).row == ServeReads(s.row)
    ensures Updated(s).served == s.served + set q | q in Ready(s.row) :: Serve(s.row, q)
  {
  }

  lemma UpdateRow(s: State)
    requires MidInv(s)
    ensures var r, bound := ServeReads(s.row), MinOr(s.row.prereqs, NONE);
            && Ready(s.row) == TakeUpTo(s.row.readreqs, bound)
            && r == s.row.(minPts := bound, readreqs := KeepAbove(s.row.readreqs, bound), rts := r.rts, minRts := MinOr(KeepAbove(s.row.readreqs, bound), NONE))
            && s.row.rts <= r.rts <= Max(s.row.rts, bound)
            && forall q :: q in Ready(s.row) ==> q.ts <= r.rts
  {
    var bound := MinOr(s.row.prereqs, NONE);
    LeftIsLater(s.row.readreqs, bound);
    assert Max(s.row.minPts, bound) == bound;
    if Ready(s.row) == [] {
      NothingTaken(s.row.readreqs, bound);
    }
    hide ReadreqsOk, PrereqsOk, WrittenOk, AllServedOk;
  }

  lemma LeftIsLater(reqs: seq<Req>, bound: nat)
    ensures MinOr(reqs, NONE) <= MinOr(KeepAbove(reqs, bound), NONE)
    ensures forall q :: q in TakeUpTo(reqs, bound) ==> q.ts <= bound
  {
    forall q
      ensures q in KeepAbove(reqs, bound) ==> q in reqs
      ensures q in TakeUpTo(reqs, bound) ==> q.ts <= bound
    {
      FilterMembers(reqs, bound, q);
    }
  }

  lemma {:induction false} NothingTaken(reqs: seq<Req>, bound: nat)
    requires TakeUpTo(reqs, bound) == []
    ensures KeepAbove(reqs, bound) == reqs
  {
    if reqs != [] {
      NothingTaken(reqs[1..], bound);
    }
  }

  lemma UpdateReadreqs(s: State)
    requires MidInv(s)
    ensures ReadreqsOk(Updated(s)) && CachesOk(Updated(s))
  {
    var s', bound := Updated(s), MinOr(s.row.prereqs, NONE);
    UpdateIsOneRound(s);
    UpdateRow(s);
    FilterDistinct(s.row.readreqs, bound);
    forall r | r in s'.row.readreqs
      ensures r in s.row.readreqs && r.ts > bound && !ReadDone(s', r.ts)
    {
      FilterMembers(s.row.readreqs, bound, r);
      forall sv | sv in s'.served
        ensures sv.reader != r.ts
      {
        if sv !in s.served {
          var q :| q in Ready(s.row) && sv == Serve(s.row, q);
          FilterMembers(s.row.readreqs, bound, q);
        }
      }
    }
  }

  lemma UpdateServed(s: State, sv: Served)
    requires MidInv(s) && sv in Updated(s).served
    ensures ServedOk(Updated(s), sv) && sv.reader in s.asked
  {
    UpdateIsOneRound(s);
    UpdateRow(s);
    if sv in s.served {
      assert ServedOk(s, sv);
    } else {
      var q :| q in Ready(s.row) && sv == Serve(s.row, q);
      FilterMembers(s.row.readreqs, MinOr(s.row.prereqs, NONE), q);
    }
  }

  lemma UpdatePrereqs(s: State)
    requires MidInv(s)
    ensures PrereqsOk(Updated(s)) && WrittenOk(Updated(s)) && Updated(s).asked <= Updated(s).used
  {
    UpdateIsOneRound(s);
    UpdateRow(s);
    SamePrereqs(s, Updated(s));
    hide PrereqsOk, ReadreqsOk, ServedOk, Ready, ServeReads, UpdateBuffer, ServedBy;
  }

  lemma UpdateKeeps(s: State)
    requires MidInv(s)
    ensures Base(Updated(s))
  {
    hide PrereqsOk, ReadreqsOk, CachesOk, WrittenOk, ServedOk, UpdateBuffer, ServedBy, ServeReads;
    UpdatePrereqs(s);
    UpdateReadreqs(s);
    var s' := Updated(s);
    forall sv | sv in s'.served
      ensures ServedOk(s', sv) && sv.reader in s'.asked
    {
      UpdateServed(s, sv);
    }
  }

  // The oldest prewrite goes; nothing else changes in the lists.
  lemma DropOldest(s: State, q: Req)
    requires PrereqsOk(s) && CachesOk(s) && q in s.row.prereqs && q.ts == s.row.minPts
    ensures var rest := DropReq(s.row.prereqs, q.txn);
            && (forall p :: p in rest <==> p in s.row.prereqs && p != q)
            && (forall i, j :: 0 <= i < j < |rest| ==> rest[i].txn != rest[j].txn)
            && s.row.minPts < MinOr(rest, NONE)
  {
    DropReqMembers(s.row.prereqs, q.txn);
    forall p | p in s.row.prereqs && p.txn == q.txn
      ensures p == q
    {
      var i :| 0 <= i < |s.row.prereqs| && s.row.prereqs[i] == p;
      var j :| 0 <= j < |s.row.prereqs| && s.row.prereqs[j] == q;
    }
  }

  lemma DroppedPrereqs(s: State, q: Req, mid: State)
    requires PrereqsOk(s) && CachesOk(s) && q in s.row.prereqs && q.ts == s.row.minPts
    requires mid.row.prereqs == DropReq(s.row.prereqs, q.txn) && mid.row.rts == s.row.rts && mid.row.wts <= s.row.minPts
    requires mid.used == s.used && forall k :: k in mid.written ==> k in s.written || k == q.ts
    ensures PrereqsOk(mid) && s.row.minPts < MinOr(mid.row.prereqs, NONE)
  {
    DropOldest(s, q);
  }

  lemma WithdrawnMid(s: State, q: Req) returns (mid: State)
    requires Base(s) && q in s.row.prereqs && ReadDone(s, q.ts)
    ensures mid == s.(row := Withdrawn(s.row, q)) && MidInv(mid)
  {
    mid := s.(row := Withdrawn(s.row, q));
    ReaderIsOldest(s, q);
    DroppedPrereqs(s, q, mid);
    MidReads(s, mid);
    SameVersions(s, mid);
    hide ReadreqsOk, PrereqsOk, WrittenOk, AllServedOk;
  }

  lemma CancelKeeps(s: State, q: Req)
    requires Base(s) && q in s.row.prereqs && ReadDone(s, q.ts)
    ensures Base(Updated(s.(row := Withdrawn(s.row, q))))
  {
    hide Base, MidInv;
    var mid := WithdrawnMid(s, q);
    UpdateKeeps(mid);
  }

  lemma MidReads(s: State, mid: State)
    requires ReadreqsOk(s) && mid.row.readreqs == s.row.readreqs && mid.row.minPts == s.row.minPts
    requires mid.served == s.served && s.asked <= mid.asked
    ensures ReadreqsOk(mid)
  {
    assert forall ts :: ReadDone(mid, ts) <==> ReadDone(s, ts);
  }

  lemma StoredServed(s: State, q: Req, data: int, mid: State)
    requires WrittenOk(s) && AllServedOk(s) && q.ts in s.used && s.row.wts < q.ts && s.row.rts <= q.ts
    requires mid.row.wts == q.ts && mid.row.value == data && mid.row.rts == s.row.rts
    requires mid.written == s.written[q.ts := data] && mid.served == s.served && mid.used == s.used && mid.asked == s.asked
    ensures WrittenOk(mid) && AllServedOk(mid)
  {
    forall sv | sv in s.served
      ensures ServedOk(mid, sv)
    {
      assert ServedOk(s, sv);
    }
  }

  lemma StoredMid(s: State, q: Req, data: int) returns (mid: State)
    requires Base(s) && q in s.row.prereqs && ReadDone(s, q.ts)
    ensures mid == s.(row := Stored(s.row, q, data), written := s.written[q.ts := data]) && MidInv(mid)
  {
    mid := s.(row := Stored(s.row, q, data), written := s.written[q.ts := data]);
    ReaderIsOldest(s, q);
    WriteIsNotBuffered(s, q);
    DroppedPrereqs(s, q, mid);
    StoredServed(s, q, data, mid);
    MidReads(s, mid);
    hide ReadreqsOk, PrereqsOk, WrittenOk, AllServedOk;
  }

  lemma WriteKeeps(s: State, q: Req, data: int)
    requires Base(s) && q in s.row.prereqs && ReadDone(s, q.ts)
    ensures Base(Updated(s.(row := Stored(s.row, q, data), written := s.written[q.ts := data])))
  {
    hide Base, MidInv;
    var mid := StoredMid(s, q, data);
    UpdateKeeps(mid);
  }

  // rts is the timestamp of a read that was served.
  ghost predicate RtsIsServed(s: State) {
    s.row.rts == 0 || ReadDone(s, s.row.rts)
  }

  lemma DoneStays(s: State, s': State, ts: nat)
    requires s.served <= s'.served && ReadDone(s, ts)
    ensures ReadDone(s', ts)
  {
    var sv :| sv in s.served && sv.reader == ts;
    assert sv in s'.served;
  }

  lemma UpdateServesRts(s: State)
    requires RtsIsServed(s) && s.row.writereqs == []
    ensures RtsIsServed(Updated(s))
  {
    UpdateIsOneRound(s);
    var s' := Updated(s);
    if s'.row.rts == s.row.rts {
      if s.row.rts != 0 {
        DoneStays(s, s', s.row.rts);
      }
    } else {
      var q :| q in Ready(s.row) && q.ts == s'.row.rts;
      assert Serve(s.row, q) in s'.served;
    }
  }

  lemma StepServesRts(s: State, step: Step)
    requires Base(s) && RtsIsServed(s) && Enabled(s, step)
    ensures RtsIsServed(Do(s, step))
  {
    var s' := Do(s, step);
    match step
    case DoPrewrite(q) => if s.row.rts != 0 { DoneStays(s, s', s.row.rts); }
    case DoRead(q) =>
      if s.row.rts != 0 { DoneStays(s, s', s.row.rts); }
      if s'.row.rts != s.row.rts {
        assert Serve(s.row, q) in s'.served;
      }
    case DoWrite(q, data) =>
      WriteIsNotBuffered(s, q);
      StoredServesRts(s, s.(row := Stored(s.row, q, data), written := s.written[q.ts := data]));
    case DoCancel(q) => StoredServesRts(s, s.(row := Withdrawn(s.row, q)));
  }

  lemma StoredServesRts(s: State, mid: State)
    requires RtsIsServed(s) && mid.row.rts == s.row.rts && mid.served == s.served && mid.row.writereqs == []
    ensures RtsIsServed(Updated(mid))
  {
    if s.row.rts != 0 {
      DoneStays(s, mid, s.row.rts);
    }
    UpdateServesRts(mid);
  }

  // ---------------------------------------------------------------------
  // Every run
  // ---------------------------------------------------------------------

  lemma StepKeepsBase(s: State, step: Step)
    requires Base(s) && Enabled(s, step)
    ensures Base(Do(s, step))
  {
    hide Base;
    match step
    case DoPrewrite(q) => PrewriteKeeps(s, q);
    case DoRead(q) =>
      match ReadReq(s.row, q).1 {
        case RcOk => ServeKeeps(s, q);
        case Wait => BufferKeeps(s, q);
        case Abort => AbortKeeps(s, q);
      }
    case DoWrite(q, data) => WriteIsNotBuffered(s, q); WriteKeeps(s, q, data);
    case DoCancel(q) => CancelKeeps(s, q);
  }

  ghost predicate Inv(s: State) {
    Base(s) && RtsIsServed(s)
  }

  lemma StepKeeps(s: State, step: Step)
    requires Inv(s) && Enabled(s, step)
    ensures Inv(Do(s, step))
  {
    hide Base, RtsIsServed;
    StepKeepsBase(s, step);
    StepServesRts(s, step);
  }

  lemma AbortKeeps(s: State, q: Req)
    requires Base(s) && ReadReq(s.row, q).1 == Abort
    ensures Base(Do(s, DoRead(q)))
  {
    hide PrereqsOk, WrittenOk, AllServedOk, ReadreqsOk;
    var s' := Do(s, DoRead(q));
    MidReads(s, s');
    SameVersions(s, s');
    SamePrereqs(s, s');
  }

  ghost predicate Next(s: State, s': State) {
    exists step :: Enabled(s, step) && s' == Do(s, step)
  }

  ghost predicate IsRun(value: int, run: seq<State>) {
    && run != [] && Init(run[0], value)
    && forall i :: 0 <= i < |run| - 1 ==> Next(run[i], run[i + 1])
  }

  lemma {:induction false} RunKeeps(value: int, run: seq<State>, i: nat)
    requires IsRun(value, run) && i < |run|
    ensures Inv(run[i])
  {
    hide Base, RtsIsServed;
    if i == 0 {
      InitHolds(run[0], value);
    } else {
      RunKeeps(value, run, i - 1);
      assert Next(run[i - 1], run[i]);
      var step :| Enabled(run[i - 1], step) && run[i] == Do(run[i - 1], step);
      StepKeeps(run[i - 1], step);
    }
  }

  // In every state of every run, of the transactions with a pending prewrite
  // at most one has its value: the others wait for it to write or cancel.
  lemma OneWriterAtATime(value: int, run: seq<State>, i: nat, p: Req, q: Req)
    requires IsRun(value, run) && i < |run| && p in run[i].row.prereqs && q in run[i].row.prereqs
    requires ReadDone(run[i], p.ts) && ReadDone(run[i], q.ts)
    ensures p == q
  {
    RunKeeps(value, run, i);
    OneWriter(run[i], p, q);
  }

  // So a write is never buffered: it is stored at once, and the stored
  // timestamps only grow.
  lemma WritesGoThrough(value: int, run: seq<State>, i: nat, q: Req, data: int)
    requires IsRun(value, run) && i < |run| && Enabled(run[i], DoWrite(q, data))
    ensures var s' := Do(run[i], DoWrite(q, data));
            && s'.row.value == data && s'.row.wts == q.ts && s'.row.writereqs == []
            && s'.written == run[i].written[q.ts := data]
            && forall k :: k in run[i].written ==> k < q.ts
  {
    RunKeeps(value, run, i);
    WriteIsNotBuffered(run[i], q);
    UpdateIsOneRound(run[i].(row := Stored(run[i].row, q, data), written := run[i].written[q.ts := data]));
  }

  // The read after an accepted prewrite is never refused.
  lemma AcceptedPrewriteReads(value: int, run: seq<State>, i: nat, q: Req)
    requires IsRun(value, run) && i < |run| && q in run[i].row.prereqs
    ensures ReadReq(run[i].row, q).1 != Abort
  {
    RunKeeps(value, run, i);
    ReadAfterPrewrite(run[i], q);
  }

  lemma ServedStays(s: State, step: Step)
    ensures s.served <= Do(s, step).served
  {
  }

  lemma {:induction false} ServedForever(value: int, run: seq<State>, i: nat, j: nat)
    requires IsRun(value, run) && i <= j < |run|
    ensures run[i].served <= run[j].served
  {
    if i < j {
      ServedForever(value, run, i, j - 1);
      assert Next(run[j - 1], run[j]);
      var step :| Enabled(run[j - 1], step) && run[j] == Do(run[j - 1], step);
      ServedStays(run[j - 1], step);
    }
  }

  // A read served at any time i of a run got the newest version below it among
  // all that are written until any later time j, and no pending prewrite can
  // still change that.
  lemma ReadsSeeNewest(value: int, run: seq<State>, i: nat, j: nat, sv: Served)
    requires IsRun(value, run) && i <= j < |run| && sv in run[i].served
    ensures sv.version in run[j].written && run[j].written[sv.version] == sv.value && sv.version <= sv.reader
    ensures forall k :: k in run[j].written ==> !(sv.version < k < sv.reader)
    ensures forall p :: p in run[j].row.prereqs ==> p.ts >= sv.reader
  {
    RunKeeps(value, run, j);
    ServedForever(value, run, i, j);
    assert ServedOk(run[j], sv);
  }

  // No buffered read is forgotten: an older prewrite is pending, and the cached
  // minimum update_buffer compares with is that prewrite.
  lemma BufferedReadsHaveCause(value: int, run: seq<State>, i: nat, r: Req)
    requires IsRun(value, run) && i < |run| && r in run[i].row.readreqs
    ensures exists p :: p in run[i].row.prereqs && p.ts == run[i].row.minPts < r.ts
  {
    RunKeeps(value, run, i);
  }
  // ---------------------------------------------------------------------
  // When requests are granted, buffered and refused
  // ---------------------------------------------------------------------

  lemma ReadAnswer(s: State, q: Req)
    requires Inv(s) && q.ts < NONE
    ensures ReadReq(s.row, q).1 == Abort <==> exists k :: k in s.written && k > q.ts
    ensures ReadReq(s.row, q).1 == Wait <==>
            (forall k :: k in s.written ==> k <= q.ts) && exists p :: p in s.row.prereqs && p.ts < q.ts
  {
    assert s.row.wts in s.written;
  }

  lemma PrewriteAnswer(s: State, q: Req)
    requires Inv(s)
    ensures PrewriteReq(s.row, q).1 == Abort <==>
            (exists k :: k in s.written && k > q.ts) || exists sv :: sv in s.served && sv.reader > q.ts
    ensures PrewriteReq(s.row, q).1 != Wait
  {
    assert s.row.wts in s.written;
    if sv :| sv in s.served && sv.reader > q.ts {
      assert ServedOk(s, sv);
    }
  }

  // A read is refused exactly when it is too late, that is when a write with a
  // larger timestamp has been applied, and buffered exactly when it is not and a
  // prewrite with a smaller timestamp is pending. Any other read is served.
  lemma ReadOutcome(value: int, run: seq<State>, i: nat, q: Req)
    requires IsRun(value, run) && i < |run| && q.ts < NONE
    ensures ReadReq(run[i].row, q).1 == Abort <==> exists k :: k in run[i].written && k > q.ts
    ensures ReadReq(run[i].row, q).1 == Wait <==>
            (forall k :: k in run[i].written ==> k <= q.ts) && exists p :: p in run[i].row.prereqs && p.ts < q.ts
  {
    hide Inv;
    RunKeeps(value, run, i);
    ReadAnswer(run[i], q);
  }

  // A prewrite is refused exactly when a write with a larger timestamp has been
  // applied or a read with a larger timestamp has been served.
  lemma PrewriteOutcome(value: int, run: seq<State>, i: nat, q: Req)
    requires IsRun(value, run) && i < |run|
    ensures PrewriteReq(run[i].row, q).1 == Abort <==>
            (exists k :: k in run[i].written && k > q.ts) || exists sv :: sv in run[i].served && sv.reader > q.ts
    ensures PrewriteReq(run[i].row, q).1 != Wait
  {
    hide Inv;
    RunKeeps(value, run, i);
    PrewriteAnswer(run[i], q);
  }
}
