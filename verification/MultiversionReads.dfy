// Multiversion reads never go stale, over every run of requests on a row.

module MultiversionReads {
  import opened RequestQueues
  import opened RowMvccSpec

  // served, written (by timestamp, with the initial row at 0), used and asked
  // record what happened; floor is a lower bound of the timestamps of active
  // and future transactions.
  datatype State = State(row: Row, served: set<Served>, written: map<nat, Value>, used: set<nat>, asked: set<nat>, floor: nat)

  datatype Step =
    | DoPrewrite(q: Req)
    | DoRead(q: Req)
    | DoWrite(q: Req, data: Value)
    | DoCancel(q: Req)
    | DoRecycle(bound: nat)
    | Advance(floor: nat)

  // The discipline of row.cpp: a transaction reads the row once, or prewrites
  // it, reads it and then writes or cancels. Timestamps identify transactions.
  ghost predicate Enabled(s: State, step: Step) {
    match step
    case DoPrewrite(q) => s.floor <= q.ts < NO_PREWRITE && 0 < q.ts && q.ts !in s.used
                          && forall p :: p in s.row.prereqs ==> p.txn != q.txn
    case DoRead(q) => s.floor <= q.ts < NO_PREWRITE && 0 < q.ts && q.ts !in s.asked
                      && (q.ts !in s.used || q in s.row.prereqs)
    case DoWrite(q, _) => q in s.row.prereqs && q.ts in s.asked && q !in s.row.readreqs
    case DoCancel(q) => q in s.row.prereqs && q !in s.row.readreqs
    // The threshold of the recycling is the smallest active timestamp.
    case DoRecycle(bound) => bound <= s.floor
    case Advance(floor) => s.floor <= floor && (forall p :: p in s.row.prereqs ==> floor <= p.ts)
                           && (forall r :: r in s.row.readreqs ==> floor <= r.ts)
  }

  ghost function ServedNow(row: Row): set<Served> {
    set q | q in TakeUpTo(row.readreqs, MinTs(row.prereqs)) :: Served(q.ts, Lookup(row, q.ts))
  }

  // Release and the record of what it serves.
  ghost function Released(s: State): State {
    s.(row := Release(s.row), served := s.served + ServedNow(s.row))
  }

  function Dropped(s: State, q: Req): State {
    s.(row := s.row.(prereqs := DropReq(s.row.prereqs, q.txn)))
  }

  function Stored(s: State, v: Version): State {
    s.(written := s.written[v.ts := v.data], row := s.row.(writehis := InsertVersion(s.row.writehis, v)))
  }

  ghost function Do(s: State, step: Step): State {
    match step
    case DoPrewrite(q) =>
      s.(row := PrewriteReq(s.row, q).0, used := s.used + {q.ts})
    case DoRead(q) =>
      var (row, rc) := ReadReq(s.row, q);
      s.(row := row, used := s.used + {q.ts}, asked := s.asked + {q.ts},
         served := if rc == RcOk then s.served + {Served(q.ts, Lookup(s.row, q.ts))} else s.served)
    case DoWrite(q, data) =>
      Released(Stored(Dropped(s, q), Version(q.ts, data)))
    case DoCancel(q) =>
      Released(Dropped(s, q))
    case DoRecycle(bound) => s.(row := Recycle(s.row, bound))
    case Advance(floor) => s.(floor := floor)
  }

  function StepOf(kind: TsType, q: Req, data: Value): Step {
    match kind
    case RReq => DoRead(q)
    case PReq => DoPrewrite(q)
    case WReq => DoWrite(q, data)
    case XpReq => DoCancel(q)
  }

  // The row in which a write or cancellation looks for reads it releases.
  function Settled(row: Row, kind: TsType, q: Req, data: Value): Row {
    if kind.WReq? then Overwritten(row, q, data) else Withdrawn(row, q)
  }

  // One call of the row manager is one step of this system, and one more for
  // the recycling: same row, same versions for the reads released.
  lemma AccessIsSteps(s: State, kind: TsType, q: Req, data: Value, bound: nat)
    ensures var s' := Do(s, StepOf(kind, q, data));
            && s'.row == Answer(s.row, kind, q, data).0
            && Do(s', DoRecycle(bound)).row == Recycle(Answer(s.row, kind, q, data).0, bound)
    ensures kind.WReq? || kind.XpReq? ==>
              Do(s, StepOf(kind, q, data)).served == s.served + ReleasedFrom(Settled(s.row, kind, q, data))
  {
    if kind.WReq? || kind.XpReq? {
      ReleaseServes(Settled(s.row, kind, q, data));
    }
    hide ServedNow, ReleasedFrom, ReadConflict, PreConflict, InsertReads, MinTs, FindIn, KeepLen;
  }

  // The reads waiting in row that no pending prewrite is older than, with their
  // versions.
  ghost function ReleasedFrom(row: Row): set<Served> {
    set r | r in row.readreqs && r.ts <= MinTs(row.prereqs) :: Served(r.ts, Lookup(row, r.ts))
  }

  lemma ReleaseServes(row: Row)
    ensures ServedNow(row) == ReleasedFrom(row)
  {
    forall r
      ensures r in TakeUpTo(row.readreqs, MinTs(row.prereqs)) <==> r in row.readreqs && r.ts <= MinTs(row.prereqs)
    {
      FilterMembers(row.readreqs, MinTs(row.prereqs), r);
    }
  }

  // ---------------------------------------------------------------------
  // Invariant
  // ---------------------------------------------------------------------

  // v is the newest of all written versions at or below ts.
  ghost predicate Newest(written: map<nat, Value>, ts: nat, v: Version) {
    && v.ts in written && written[v.ts] == v.data && v.ts <= ts
    && forall k :: k in written && k <= ts ==> k <= v.ts
  }

  // The read of sv is not stale and cannot become so.
  ghost predicate ServedOk(written: map<nat, Value>, prereqs: seq<Req>, sv: Served) {
    && sv.version.ts in written && written[sv.version.ts] == sv.version.data && sv.version.ts <= sv.reader
    && (forall k :: k in written ==> !(sv.version.ts < k < sv.reader))
    && (forall p :: p in prereqs ==> !(sv.version.ts < p.ts < sv.reader))
  }

  ghost predicate PrereqsOk(s: State) {
    && (forall i, j :: 0 <= i < j < |s.row.prereqs| ==> s.row.prereqs[i].txn != s.row.prereqs[j].txn)
    && (forall p, q :: p in s.row.prereqs && q in s.row.prereqs && p.ts == q.ts ==> p == q)
    && (forall p :: p in s.row.prereqs ==> p.ts in s.used && 0 < p.ts && s.floor <= p.ts && p.ts !in s.written)
  }

  ghost predicate ReadreqsOk(s: State) {
    && DistinctTs(s.row.readreqs)
    && (forall r :: r in s.row.readreqs ==> r.ts in s.asked && s.floor <= r.ts && r.ts < NO_PREWRITE)
    // No buffered read waits for nothing.
    && (forall r :: r in s.row.readreqs ==> exists p :: p in s.row.prereqs && p.ts < r.ts)
  }

  ghost predicate ReadhisOk(s: State) {
    && Descending(s.row.readhis)
    && (forall r :: r in s.row.readhis ==> r in s.asked && forall q :: q in s.row.readreqs ==> q.ts != r)
    && (forall sv :: sv in s.served ==> sv.reader in s.row.readhis || sv.reader < s.floor)
  }

  ghost predicate WritehisOk(s: State) {
    && Descending(Stamps(s.row.writehis))
    && (forall v :: v in s.row.writehis ==> v.ts in s.written)
    && (forall k :: k in s.written ==> k in s.used || k == 0)
    && (forall ts: nat :: s.floor <= ts ==> Newest(s.written, ts, Lookup(s.row, ts)))
  }

  ghost predicate AllServedOk(s: State) {
    forall sv :: sv in s.served ==> ServedOk(s.written, s.row.prereqs, sv)
  }

  ghost predicate Inv(s: State) {
    PrereqsOk(s) && ReadreqsOk(s) && ReadhisOk(s) && WritehisOk(s) && AllServedOk(s) && s.asked <= s.used
  }

  ghost predicate Init(s: State, base: Value) {
    s == State(Row(base, [], [], [], []), {}, map[0 := base], {}, {}, 0)
  }

  lemma InitHolds(s: State, base: Value)
    requires Init(s, base)
    ensures Inv(s)
  {
  }

  // ---------------------------------------------------------------------
  // The conflict tests
  // ---------------------------------------------------------------------

  // A read that does not conflict gets a version no pending prewrite can follow.
  lemma ReadSeesNewest(s: State, ts: nat)
    requires WritehisOk(s) && s.floor <= ts && !ReadConflict(s.row, ts)
    ensures ServedOk(s.written, s.row.prereqs, Served(ts, Lookup(s.row, ts)))
  {
    var v := Lookup(s.row, ts);
    assert Newest(s.written, ts, v);
    LookupIsNewest(s.row, ts);
    var pts := MaxBelow(s.row.prereqs, ts);
    if pts != 0 {
      var i :| 0 <= i < |s.row.writehis| && pts < s.row.writehis[i].ts < ts;
      assert s.row.writehis[i] in s.row.writehis;
    }
  }

  // A prewrite that does not conflict falls between no served read and its version.
  lemma PrewriteMissesReads(s: State, ts: nat, sv: Served)
    requires WritehisOk(s) && ReadhisOk(s) && AllServedOk(s) && s.floor <= ts && sv in s.served
    requires !PreConflict(s.row, ts)
    ensures !(sv.version.ts < ts < sv.reader)
  {
    assert ServedOk(s.written, s.row.prereqs, sv);
    if ts < sv.reader && sv.reader in s.row.readhis {
      MinAboveIsLeast(s.row.readhis, ts, sv.reader);
      var rts := MinAbove(s.row.readhis, ts);
      var j :| 0 <= j < |s.row.writehis| && ts < s.row.writehis[j].ts < rts;
      assert s.row.writehis[j] in s.row.writehis;
    }
  }

  // ---------------------------------------------------------------------
  // The steps
  // ---------------------------------------------------------------------

  // Steps that store no version.
  lemma SameVersions(s: State, s': State)
    requires WritehisOk(s) && s'.row.writehis == s.row.writehis && s'.row.base == s.row.base
    requires s'.written == s.written && s.used <= s'.used && s.floor <= s'.floor
    ensures WritehisOk(s')
  {
    forall ts: nat | s'.floor <= ts
      ensures Newest(s'.written, ts, Lookup(s'.row, ts))
    {
      assert Newest(s.written, ts, Lookup(s.row, ts));
    }
  }

  lemma PrewriteServed(s: State, q: Req)
    requires Inv(s) && s.floor <= q.ts && !PreConflict(s.row, q.ts)
    ensures forall sv :: sv in s.served ==> ServedOk(s.written, [q] + s.row.prereqs, sv)
  {
    forall sv | sv in s.served
      ensures ServedOk(s.written, [q] + s.row.prereqs, sv)
    {
      assert ServedOk(s.written, s.row.prereqs, sv);
      PrewriteMissesReads(s, q.ts, sv);
    }
  }

  lemma PrewriteKeeps(s: State, q: Req)
    requires Inv(s) && Enabled(s, DoPrewrite(q))
    ensures Inv(Do(s, DoPrewrite(q)))
  {
    var s' := Do(s, DoPrewrite(q));
    SameVersions(s, s');
    if s'.row != s.row {
      PrewriteServed(s, q);
      assert forall p :: p in s.row.prereqs ==> p in s'.row.prereqs;
    }
    hide ServedOk, Newest, Descending, PreConflict, DistinctTs;
  }

  lemma ServeReadhis(s: State, q: Req)
    requires ReadhisOk(s) && ReadreqsOk(s) && q.ts !in s.asked && !ReadConflict(s.row, q.ts)
    ensures ReadhisOk(Do(s, DoRead(q))) && ReadreqsOk(Do(s, DoRead(q)))
  {
    InsertReadKeeps(s.row.readhis, q.ts);
  }

  lemma ServeKeeps(s: State, q: Req)
    requires Inv(s) && Enabled(s, DoRead(q)) && !ReadConflict(s.row, q.ts)
    ensures Inv(Do(s, DoRead(q)))
  {
    ServeReadhis(s, q);
    ReadSeesNewest(s, q.ts);
    SameVersions(s, Do(s, DoRead(q)));
  }

  // A read is only buffered behind a pending older prewrite.
  lemma BufferReadreqs(s: State, q: Req)
    requires ReadhisOk(s) && ReadreqsOk(s) && Enabled(s, DoRead(q)) && ReadConflict(s.row, q.ts)
    ensures ReadhisOk(Do(s, DoRead(q))) && ReadreqsOk(Do(s, DoRead(q)))
  {
    var pts := MaxBelow(s.row.prereqs, q.ts);
    assert exists p :: p in s.row.prereqs && p.ts == pts && pts < q.ts;
    assert q.ts !in s.row.readhis;
    BufferFresh(s.row.readreqs, q);
    hide DistinctTs, ReadConflict, MaxBelow;
  }

  lemma BufferKeeps(s: State, q: Req)
    requires Inv(s) && Enabled(s, DoRead(q)) && ReadConflict(s.row, q.ts)
    ensures Inv(Do(s, DoRead(q)))
  {
    BufferReadreqs(s, q);
    SameVersions(s, Do(s, DoRead(q)));
  }

  // Every buffered read that update_buffer serves is older than all pending
  // prewrites, so the version it gets is the newest for good.
  lemma ReleasedServed(s: State, sv: Served)
    requires WritehisOk(s) && (forall r :: r in s.row.readreqs ==> s.floor <= r.ts)
    requires sv in ServedNow(s.row)
    ensures ServedOk(s.written, s.row.prereqs, sv)
  {
    var bound := MinTs(s.row.prereqs);
    var q :| q in TakeUpTo(s.row.readreqs, bound) && sv == Served(q.ts, Lookup(s.row, q.ts));
    FilterMembers(s.row.readreqs, bound, q);
    assert Newest(s.written, q.ts, Lookup(s.row, q.ts));
  }

  // The readers before the release: buffered or recorded.
  ghost predicate BufferedOk(s: State) {
    && DistinctTs(s.row.readreqs)
    && (forall r :: r in s.row.readreqs ==> r.ts in s.asked && s.floor <= r.ts && r.ts < NO_PREWRITE)
  }

  lemma ReleaseReadreqs(s: State)
    requires BufferedOk(s)
    ensures ReadreqsOk(Released(s))
  {
    var bound := MinTs(s.row.prereqs);
    FilterDistinct(s.row.readreqs, bound);
    forall r | r in KeepAbove(s.row.readreqs, bound)
      ensures r in s.row.readreqs && exists p :: p in s.row.prereqs && p.ts < r.ts
    {
      FilterMembers(s.row.readreqs, bound, r);
    }
  }

  lemma ReleaseReadhis(s: State)
    requires BufferedOk(s) && ReadhisOk(s)
    ensures ReadhisOk(Released(s))
  {
    var bound := MinTs(s.row.prereqs);
    var out := TakeUpTo(s.row.readreqs, bound);
    FilterDistinct(s.row.readreqs, bound);
    forall q
      ensures q in out <==> q in s.row.readreqs && q.ts <= bound
      ensures q in KeepAbove(s.row.readreqs, bound) <==> q in s.row.readreqs && q.ts > bound
    {
      FilterMembers(s.row.readreqs, bound, q);
    }
    InsertReadsKeeps(s.row.readhis, out);
  }

  // The state between a change of the prewrites and update_buffer.
  ghost predicate MidInv(s: State) {
    PrereqsOk(s) && BufferedOk(s) && ReadhisOk(s) && WritehisOk(s) && AllServedOk(s) && s.asked <= s.used
  }

  lemma ReleaseKeeps(s: State)
    requires MidInv(s)
    ensures Inv(Released(s))
  {
    var s' := Released(s);
    ReleaseReadreqs(s);
    ReleaseReadhis(s);
    SameVersions(s, s');
    forall sv | sv in s'.served
      ensures ServedOk(s'.written, s'.row.prereqs, sv)
    {
      if sv !in s.served {
        ReleasedServed(s, sv);
      }
    }
  }

  lemma DropsOnlyOne(s: State, q: Req)
    requires PrereqsOk(s) && q in s.row.prereqs
    ensures PrereqsOk(Dropped(s, q))
    ensures forall p :: p in Dropped(s, q).row.prereqs <==> p in s.row.prereqs && p != q
  {
    DropReqMembers(s.row.prereqs, q.txn);
    forall p | p in s.row.prereqs && p.txn == q.txn
      ensures p == q
    {
      var i :| 0 <= i < |s.row.prereqs| && s.row.prereqs[i] == p;
      var j :| 0 <= j < |s.row.prereqs| && s.row.prereqs[j] == q;
    }
  }

  lemma DropKeeps(s: State, q: Req) returns (s': State)
    requires Inv(s) && q in s.row.prereqs
    ensures s' == Dropped(s, q) && MidInv(s')
  {
    s' := Dropped(s, q);
    DropsOnlyOne(s, q);
    SameVersions(s, s');
    forall sv | sv in s.served
      ensures ServedOk(s.written, s'.row.prereqs, sv)
    {
      assert ServedOk(s.written, s.row.prereqs, sv);
    }
  }

  lemma CancelKeeps(s: State, q: Req)
    requires Inv(s) && q in s.row.prereqs
    ensures Inv(Released(Dropped(s, q)))
  {
    var mid := DropKeeps(s, q);
    ReleaseKeeps(mid);
  }

  lemma StoreVersion(s: State, v: Version)
    requires WritehisOk(s) && v.ts !in s.written && 0 < v.ts && v.ts in s.used
    ensures WritehisOk(s.(written := s.written[v.ts := v.data], row := s.row.(writehis := InsertVersion(s.row.writehis, v))))
  {
    var s' := s.(written := s.written[v.ts := v.data], row := s.row.(writehis := InsertVersion(s.row.writehis, v)));
    forall k | k in Stamps(s.row.writehis)
      ensures k in s.written
    {
      var i :| 0 <= i < |s.row.writehis| && Stamps(s.row.writehis)[i] == k;
      assert s.row.writehis[i] in s.row.writehis;
    }
    InsertVersionKeeps(s.row.writehis, v);
    forall ts: nat | s.floor <= ts
      ensures Newest(s'.written, ts, Lookup(s'.row, ts))
    {
      assert Newest(s.written, ts, Lookup(s.row, ts));
      LookupAfterInsert(s.row, v, ts);
    }
  }

  lemma StoreKeeps(s: State, q: Req, data: Value) returns (s': State)
    requires Inv(s) && q in s.row.prereqs
    ensures s' == Stored(Dropped(s, q), Version(q.ts, data)) && MidInv(s')
  {
    var mid := DropKeeps(s, q);
    s' := Stored(mid, Version(q.ts, data));
    DropsOnlyOne(s, q);
    StoreVersion(mid, Version(q.ts, data));
    forall sv | sv in s.served
      ensures ServedOk(s'.written, s'.row.prereqs, sv)
    {
      assert ServedOk(s.written, s.row.prereqs, sv);
    }
  }

  lemma WriteKeeps(s: State, q: Req, data: Value)
    requires Inv(s) && q in s.row.prereqs
    ensures Inv(Do(s, DoWrite(q, data)))
  {
    var mid := StoreKeeps(s, q, data);
    ReleaseKeeps(mid);
  }

  // ---------------------------------------------------------------------
  // Recycling
  // ---------------------------------------------------------------------

  ghost predicate CutBelow(tss: seq<nat>, k: nat, bound: nat) {
    k <= |tss| && (k < |tss| ==> k > 0 && tss[k - 1] < bound)
  }

  lemma CutLookup(tss: seq<nat>, k: nat, bound: nat, ts: nat)
    requires Descending(tss) && CutBelow(tss, k, bound) && bound <= ts
    ensures FirstAtMost(tss[..k], ts) == FirstAtMost(tss, ts)
    ensures k < |tss| ==> FirstAtMost(tss, ts) < k
  {
    if k == |tss| {
      assert tss[..k] == tss;
    } else {
      assert tss[k - 1] <= ts;
    }
  }

  lemma CutBetween(whis: seq<Version>, k: nat, bound: nat, lo: nat, hi: nat)
    requires Descending(Stamps(whis)) && CutBelow(Stamps(whis), k, bound) && bound <= hi
    ensures VersionBetween(whis[..k], lo, hi) <==> VersionBetween(whis, lo, hi)
  {
    if j :| k <= j < |whis| && lo < whis[j].ts < hi {
      assert Stamps(whis)[k - 1] > Stamps(whis)[j];
      assert lo < whis[..k][k - 1].ts < hi;
    }
    if i :| 0 <= i < k && lo < whis[i].ts < hi {
      assert whis[..k][i] == whis[i];
    }
  }

  lemma RecycleCuts(row: Row, bound: nat)
    requires Descending(row.readhis) && Descending(Stamps(row.writehis))
    ensures CutBelow(row.readhis, KeepReads(row, bound), bound)
    ensures forall j :: KeepReads(row, bound) <= j < |row.readhis| ==> row.readhis[j] < bound
    ensures CutBelow(Stamps(row.writehis), KeepWrites(row, bound), bound)
    ensures Stamps(Recycle(row, bound).writehis) == Stamps(row.writehis)[..KeepWrites(row, bound)]
  {
    KeepLenCuts(row.readhis, bound);
    KeepLenCuts(Stamps(row.writehis), bound);
  }

  // Recycling is invisible: no version lookup and no conflict test at or above
  // the threshold changes.
  lemma RecycleIsInvisible(row: Row, bound: nat, ts: nat)
    requires Descending(row.readhis) && Descending(Stamps(row.writehis)) && bound <= ts
    ensures Lookup(Recycle(row, bound), ts) == Lookup(row, ts)
    ensures PreConflict(Recycle(row, bound), ts) <==> PreConflict(row, ts)
    ensures ReadConflict(Recycle(row, bound), ts) <==> ReadConflict(row, ts)
  {
    var kr, kw := KeepReads(row, bound), KeepWrites(row, bound);
    RecycleCuts(row, bound);
    CutLookup(Stamps(row.writehis), kw, bound, ts);
    CutLookup(row.readhis, kr, bound, ts);
    CutBetween(row.writehis, kw, bound, MaxBelow(row.prereqs, ts), ts);
    if MinAbove(row.readhis, ts) != 0 {
      CutBetween(row.writehis, kw, bound, ts, MinAbove(row.readhis, ts));
    }
  }

  lemma {:induction false} KeepLenTight(tss: seq<nat>, bound: nat)
    requires Descending(tss)
    ensures forall j :: 0 <= j < KeepLen(tss, bound) - 1 ==> tss[j] >= bound
    ensures tss != [] ==> KeepLen(tss, bound) > 0
  {
    if |tss| >= 2 && tss[|tss| - 2] < bound {
      KeepLenTight(tss[..|tss| - 1], bound);
    }
  }

  // Recycling starts when a history has more than ten entries, and then leaves
  // one entry below the threshold at most; the row keeps the newest version that
  // went, so reads at or above that version still find the same value.
  lemma RecycleOutcome(row: Row, bound: nat)
    requires Descending(row.readhis) && Descending(Stamps(row.writehis))
    ensures var r := Recycle(row, bound);
            && (|row.readhis| <= 10 && |row.writehis| <= 10 ==> r == row)
            && (|row.readhis| > 10 || |row.writehis| > 10 ==>
                  && (forall j :: 0 <= j < |r.readhis| - 1 ==> r.readhis[j] >= bound)
                  && (forall j :: 0 <= j < |r.writehis| - 1 ==> r.writehis[j].ts >= bound))
            && r.readhis <= row.readhis && r.writehis <= row.writehis
            && r.prereqs == row.prereqs && r.readreqs == row.readreqs
    ensures var r := Recycle(row, bound);
            forall ts :: |r.writehis| < |row.writehis| && row.writehis[|r.writehis|].ts <= ts ==> Lookup(r, ts).data == Lookup(row, ts).data
  {
    KeepLenTight(row.readhis, bound);
    KeepLenTight(Stamps(row.writehis), bound);
    var r, k := Recycle(row, bound), KeepWrites(row, bound);
    if k < |row.writehis| {
      forall ts | row.writehis[k].ts <= ts
        ensures Lookup(r, ts).data == Lookup(row, ts).data
      {
        RecycledLookup(row.base, row.writehis, k, ts);
      }
    }
  }

  lemma RecycledLookup(base: Value, whis: seq<Version>, k: nat, ts: nat)
    requires k < |whis| && Descending(Stamps(whis)) && whis[k].ts <= ts
    ensures FindIn(whis[k].data, whis[..k], ts).data == FindIn(base, whis, ts).data
  {
    var i, j := FirstAtMost(Stamps(whis), ts), FirstAtMost(Stamps(whis[..k]), ts);
    assert Stamps(whis)[k] <= ts;
    assert Stamps(whis[..k]) == Stamps(whis)[..k];
    assert j < k ==> Stamps(whis)[j] <= ts;
  }

  lemma RecycleReadhis(s: State, bound: nat)
    requires ReadhisOk(s) && WritehisOk(s) && bound <= s.floor
    ensures ReadhisOk(Do(s, DoRecycle(bound)))
  {
    var s' := Do(s, DoRecycle(bound));
    var kr := KeepReads(s.row, bound);
    RecycleCuts(s.row, bound);
    assert forall r :: r in s'.row.readhis ==> r in s.row.readhis;
    forall sv | sv in s.served
      ensures sv.reader in s'.row.readhis || sv.reader < s.floor
    {
      if sv.reader in s.row.readhis {
        var i :| 0 <= i < |s.row.readhis| && s.row.readhis[i] == sv.reader;
        assert i < kr ==> s'.row.readhis[i] == sv.reader;
      }
    }
  }

  lemma RecycleWritehis(s: State, bound: nat)
    requires WritehisOk(s) && Descending(s.row.readhis) && bound <= s.floor
    ensures WritehisOk(Do(s, DoRecycle(bound)))
  {
    var s' := Do(s, DoRecycle(bound));
    RecycleCuts(s.row, bound);
    forall ts: nat | s.floor <= ts
      ensures Newest(s'.written, ts, Lookup(s'.row, ts))
    {
      RecycleIsInvisible(s.row, bound, ts);
      assert Newest(s.written, ts, Lookup(s.row, ts));
    }
  }

  lemma RecycleKeeps(s: State, bound: nat)
    requires Inv(s) && bound <= s.floor
    ensures Inv(Do(s, DoRecycle(bound)))
  {
    RecycleReadhis(s, bound);
    RecycleWritehis(s, bound);
    assert Recycle(s.row, bound).prereqs == s.row.prereqs && Recycle(s.row, bound).readreqs == s.row.readreqs;
  }

  // ---------------------------------------------------------------------
  // Every run
  // ---------------------------------------------------------------------

  lemma StepKeeps(s: State, step: Step)
    requires Inv(s) && Enabled(s, step)
    ensures Inv(Do(s, step))
  {
    match step
    case DoPrewrite(q) => PrewriteKeeps(s, q);
    case DoRead(q) => if ReadConflict(s.row, q.ts) { BufferKeeps(s, q); } else { ServeKeeps(s, q); }
    case DoWrite(q, data) => WriteKeeps(s, q, data);
    case DoCancel(q) => CancelKeeps(s, q);
    case DoRecycle(bound) => RecycleKeeps(s, bound);
    case Advance(floor) => SameVersions(s, Do(s, step));
  }

  ghost predicate Next(s: State, s': State) {
    exists step :: Enabled(s, step) && s' == Do(s, step)
  }

  ghost predicate IsRun(base: Value, run: seq<State>) {
    && run != [] && Init(run[0], base)
    && forall i :: 0 <= i < |run| - 1 ==> Next(run[i], run[i + 1])
  }

  lemma {:induction false} RunKeeps(base: Value, run: seq<State>, i: nat)
    requires IsRun(base, run) && i < |run|
    ensures Inv(run[i])
  {
    if i == 0 {
      InitHolds(run[0], base);
    } else {
      RunKeeps(base, run, i - 1);
      assert Next(run[i - 1], run[i]);
      var step :| Enabled(run[i - 1], step) && run[i] == Do(run[i - 1], step);
      StepKeeps(run[i - 1], step);
    }
  }

  lemma ServedStays(s: State, step: Step)
    ensures s.served <= Do(s, step).served
  {
  }

  lemma {:induction false} ServedForever(base: Value, run: seq<State>, i: nat, j: nat)
    requires IsRun(base, run) && i <= j < |run|
    ensures run[i].served <= run[j].served
  {
    if i < j {
      ServedForever(base, run, i, j - 1);
      assert Next(run[j - 1], run[j]);
      var step :| Enabled(run[j - 1], step) && run[j] == Do(run[j - 1], step);
      ServedStays(run[j - 1], step);
    }
  }

  // A read served at any time i of a run, at once or from the buffer, is never
  // stale: at every later time j it got the newest version at or below its
  // timestamp among all versions written until then, and no prewrite is
  // pending in between.
  lemma ReadsNeverStale(base: Value, run: seq<State>, i: nat, j: nat, sv: Served)
    requires IsRun(base, run) && i <= j < |run| && sv in run[i].served
    ensures sv.version.ts in run[j].written && run[j].written[sv.version.ts] == sv.version.data
    ensures sv.version.ts <= sv.reader
    ensures forall k :: k in run[j].written ==> !(sv.version.ts < k < sv.reader)
    ensures forall p :: p in run[j].row.prereqs ==> !(sv.version.ts < p.ts < sv.reader)
  {
    RunKeeps(base, run, j);
    ServedForever(base, run, i, j);
    assert ServedOk(run[j].written, run[j].row.prereqs, sv);
  }

  // Recycling never frees or overwrites the version an active transaction
  // reads: as long as the reader is at or above the floor, looking up its
  // timestamp still finds that version - unless it has since written itself.
  lemma ReadVersionStays(base: Value, run: seq<State>, i: nat, j: nat, sv: Served)
    requires IsRun(base, run) && i <= j < |run| && sv in run[i].served
    requires run[j].floor <= sv.reader && sv.reader !in run[j].written
    ensures Lookup(run[j].row, sv.reader) == sv.version
  {
    ReadsNeverStale(base, run, i, j, sv);
    RunKeeps(base, run, j);
    assert Newest(run[j].written, sv.reader, Lookup(run[j].row, sv.reader));
  }

  // No read waits for ever: a buffered read always has an older prewrite
  // pending, whose write or cancellation will release it.
  lemma BufferedReadsHaveCause(base: Value, run: seq<State>, i: nat, r: Req)
    requires IsRun(base, run) && i < |run| && r in run[i].row.readreqs
    ensures exists p :: p in run[i].row.prereqs && p.ts < r.ts
  {
    RunKeeps(base, run, i);
  }
  // ---------------------------------------------------------------------
  // When requests are granted, buffered and refused
  // ---------------------------------------------------------------------

  ghost predicate ReadDone(s: State, ts: nat) {
    exists sv :: sv in s.served && sv.reader == ts
  }

  // Every recorded read was served.
  ghost predicate HistoryIsServed(s: State) {
    forall r :: r in s.row.readhis ==> ReadDone(s, r)
  }

  lemma DoneStays(s: State, s': State, ts: nat)
    requires s.served <= s'.served && ReadDone(s, ts)
    ensures ReadDone(s', ts)
  {
    var sv :| sv in s.served && sv.reader == ts;
    assert sv in s'.served;
  }

  // A buffered reader has not written, so what it is served is older than it.
  ghost predicate ReadersOpen(s: State) {
    && (forall r :: r in s.row.readreqs ==> r.ts !in s.written && forall p :: p in s.row.prereqs && p.ts == r.ts ==> p == r)
    && (forall sv :: sv in s.served ==> sv.version.ts < sv.reader)
  }

  lemma ReleaseKeepsOpen(s: State)
    requires BufferedOk(s) && WritehisOk(s) && ReadersOpen(s)
    ensures ReadersOpen(Released(s))
  {
    var bound := MinTs(s.row.prereqs);
    forall q
      ensures q in TakeUpTo(s.row.readreqs, bound) <==> q in s.row.readreqs && q.ts <= bound
      ensures q in KeepAbove(s.row.readreqs, bound) <==> q in s.row.readreqs && q.ts > bound
    {
      FilterMembers(s.row.readreqs, bound, q);
    }
    forall q | q in s.row.readreqs
      ensures Lookup(s.row, q.ts).ts < q.ts
    {
      assert Newest(s.written, q.ts, Lookup(s.row, q.ts));
    }
  }

  lemma ReaderIsOpen(s: State, q: Req)
    requires Inv(s) && Enabled(s, DoRead(q))
    ensures q.ts !in s.written && Lookup(s.row, q.ts).ts < q.ts && forall p :: p in s.row.prereqs && p.ts == q.ts ==> p == q
  {
    assert Newest(s.written, q.ts, Lookup(s.row, q.ts));
  }

  lemma ReadKeepsOpen(s: State, q: Req)
    requires ReadersOpen(s) && q.ts !in s.written && Lookup(s.row, q.ts).ts < q.ts
    requires forall p :: p in s.row.prereqs && p.ts == q.ts ==> p == q
    ensures ReadersOpen(Do(s, DoRead(q)))
  {
    hide ReadConflict, FindIn, InsertRead;
  }

  lemma StepKeepsOpen(s: State, step: Step)
    requires Inv(s) && ReadersOpen(s) && Enabled(s, step)
    ensures ReadersOpen(Do(s, step))
  {
    match step
    case DoPrewrite(q) =>
    case DoRead(q) => ReaderIsOpen(s, q); ReadKeepsOpen(s, q);
    case DoWrite(q, data) =>
      var mid := StoreKeeps(s, q, data);
      DropsOnlyOne(s, q);
      assert ReadersOpen(mid);
      ReleaseKeepsOpen(mid);
    case DoCancel(q) =>
      var mid := DropKeeps(s, q);
      DropsOnlyOne(s, q);
      assert ReadersOpen(mid);
      ReleaseKeepsOpen(mid);
    case _ =>
  }

  lemma ReleaseServesHistory(s: State)
    requires BufferedOk(s) && ReadhisOk(s) && HistoryIsServed(s)
    ensures HistoryIsServed(Released(s))
  {
    var s', bound := Released(s), MinTs(s.row.prereqs);
    var out := TakeUpTo(s.row.readreqs, bound);
    FilterDistinct(s.row.readreqs, bound);
    forall q | q in out
      ensures q in s.row.readreqs
    {
      FilterMembers(s.row.readreqs, bound, q);
    }
    InsertReadsKeeps(s.row.readhis, out);
    forall r | r in s'.row.readhis
      ensures ReadDone(s', r)
    {
      if r in s.row.readhis {
        DoneStays(s, s', r);
      } else {
        var q :| q in out && q.ts == r;
        assert Served(q.ts, Lookup(s.row, q.ts)) in s'.served;
      }
    }
  }

  lemma ReadServesHistory(s: State, q: Req)
    requires ReadhisOk(s) && HistoryIsServed(s) && q.ts !in s.asked
    ensures HistoryIsServed(Do(s, DoRead(q)))
  {
    var s' := Do(s, DoRead(q));
    if s'.row.readhis != s.row.readhis {
      InsertReadKeeps(s.row.readhis, q.ts);
      assert Served(q.ts, Lookup(s.row, q.ts)) in s'.served;
    }
    forall r | r in s.row.readhis
      ensures ReadDone(s', r)
    {
      DoneStays(s, s', r);
    }
  }

  lemma StepServesHistory(s: State, step: Step)
    requires Inv(s) && HistoryIsServed(s) && Enabled(s, step)
    ensures HistoryIsServed(Do(s, step))
  {
    match step
    case DoRead(q) => ReadServesHistory(s, q);
    case DoWrite(q, data) =>
      var mid := StoreKeeps(s, q, data);
      assert HistoryIsServed(mid);
      ReleaseServesHistory(mid);
    case DoCancel(q) =>
      var mid := DropKeeps(s, q);
      assert HistoryIsServed(mid);
      ReleaseServesHistory(mid);
    case _ =>
      var s' := Do(s, step);
      forall r | r in s'.row.readhis
        ensures ReadDone(s', r)
      {
        assert r in s.row.readhis;
        DoneStays(s, s', r);
      }
  }

  lemma {:induction false} RunServesHistory(base: Value, run: seq<State>, i: nat)
    requires IsRun(base, run) && i < |run|
    ensures Inv(run[i]) && HistoryIsServed(run[i]) && ReadersOpen(run[i])
  {
    hide Inv, Enabled, Do;
    RunKeeps(base, run, i);
    if i > 0 {
      RunServesHistory(base, run, i - 1);
      assert Next(run[i - 1], run[i]);
      var step :| Enabled(run[i - 1], step) && run[i] == Do(run[i - 1], step);
      StepServesHistory(run[i - 1], step);
      StepKeepsOpen(run[i - 1], step);
    }
  }

  // Above the floor the history has a version in a stretch exactly when one was
  // ever written there.
  lemma HistoryIsComplete(s: State, lo: nat, hi: nat)
    requires WritehisOk(s) && s.floor <= lo
    ensures VersionBetween(s.row.writehis, lo, hi) <==> exists k :: k in s.written && lo < k < hi
  {
    if i :| 0 <= i < |s.row.writehis| && lo < s.row.writehis[i].ts < hi {
      assert s.row.writehis[i] in s.row.writehis;
    }
    if k :| k in s.written && lo < k < hi {
      var v := Lookup(s.row, hi - 1);
      assert Newest(s.written, hi - 1, v);
      LookupIsNewest(s.row, hi - 1);
      var i :| 0 <= i < |s.row.writehis| && s.row.writehis[i] == v;
    }
  }

  // A read is served exactly when between every older pending prewrite and it a
  // version has been written; otherwise it is buffered while there is room.
  lemma ReadOutcome(base: Value, run: seq<State>, i: nat, q: Req)
    requires IsRun(base, run) && i < |run| && run[i].floor <= q.ts
    ensures ReadReq(run[i].row, q).1 == RcOk <==>
            forall p :: p in run[i].row.prereqs && p.ts < q.ts ==> exists k :: k in run[i].written && p.ts < k < q.ts
    ensures ReadReq(run[i].row, q).1 == Abort <==> ReadReq(run[i].row, q).1 != RcOk && |run[i].row.readreqs| >= 1024
  {
    RunKeeps(base, run, i);
    ReadConflictIs(run[i], q.ts);
  }

  lemma ReadConflictIs(s: State, ts: nat)
    requires Inv(s) && s.floor <= ts
    ensures !ReadConflict(s.row, ts) <==> forall p :: p in s.row.prereqs && p.ts < ts ==> exists k :: k in s.written && p.ts < k < ts
  {
    var pts := MaxBelow(s.row.prereqs, ts);
    if pts != 0 {
      HistoryIsComplete(s, pts, ts);
    }
    hide Newest, ReadhisOk, ServedOk;
    if !ReadConflict(s.row, ts) {
      forall p | p in s.row.prereqs && p.ts < ts
        ensures exists k :: k in s.written && p.ts < k < ts
      {
        var k :| k in s.written && pts < k < ts;
        assert p.ts < k;
      }
    }
  }

  // A prewrite is refused exactly when it falls between a served read and the
  // version that read got, or when there is no room.
  lemma PrewriteOutcome(base: Value, run: seq<State>, i: nat, q: Req)
    requires IsRun(base, run) && i < |run| && run[i].floor <= q.ts && q.ts !in run[i].written
    ensures PrewriteReq(run[i].row, q).1 == Abort <==>
            |run[i].row.prereqs| >= 1024 || exists sv :: sv in run[i].served && sv.version.ts < q.ts < sv.reader
    ensures PrewriteReq(run[i].row, q).1 != Wait
  {
    RunServesHistory(base, run, i);
    PreConflictIs(run[i], q.ts);
  }

  lemma PreConflictIs(s: State, ts: nat)
    requires Inv(s) && HistoryIsServed(s) && ReadersOpen(s) && s.floor <= ts && ts !in s.written
    ensures PreConflict(s.row, ts) <==> exists sv :: sv in s.served && sv.version.ts < ts < sv.reader
  {
    var rts := MinAbove(s.row.readhis, ts);
    if rts != 0 {
      HistoryIsComplete(s, ts, rts);
    }
    if PreConflict(s.row, ts) {
      var j := FirstAtMost(s.row.readhis, ts);
      assert s.row.readhis[j - 1] in s.row.readhis;
      var sv :| sv in s.served && sv.reader == rts;
      assert ServedOk(s.written, s.row.prereqs, sv);
      NewestBelow(s, ts, sv);
    }
    if sv :| sv in s.served && sv.version.ts < ts < sv.reader {
      assert ServedOk(s.written, s.row.prereqs, sv);
      MinAboveIsLeast(s.row.readhis, ts, sv.reader);
    }
  }

  // A version with nothing written between it and ts lies below ts.
  lemma NewestBelow(s: State, ts: nat, sv: Served)
    requires ServedOk(s.written, s.row.prereqs, sv) && ts < sv.reader && ts !in s.written
    requires !exists k :: k in s.written && ts < k < sv.reader
    requires sv.version.ts != sv.reader
    ensures sv.version.ts < ts
  {
  }
}
