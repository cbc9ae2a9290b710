// A row under either timestamp scheme, as a transaction meets it: the pending
// prewrites, the buffered reads, the reads served and the versions written.
//
// What the requests do is stated once for both schemes and proved for each from
// the system of its row.

module TimestampRows {
  import opened RequestQueues
  import Spec = RowMvccSpec
  import Mv = MultiversionReads
  import BasicSpec = RowTsSpec
  import Basic = TimestampReads

  datatype Row = Multi(m: Mv.State) | Single(b: Basic.State)

  datatype RC = RcOk | Wait | Abort

  ghost predicate RowOk(r: Row) {
    match r
    case Multi(m) => Mv.Inv(m)
    case Single(b) => Basic.Inv(b)
  }

  function Prereqs(r: Row): seq<Req> {
    match r
    case Multi(m) => m.row.prereqs
    case Single(b) => b.row.prereqs
  }

  function Readreqs(r: Row): seq<Req> {
    match r
    case Multi(m) => m.row.readreqs
    case Single(b) => b.row.readreqs
  }

  function Written(r: Row): map<nat, int> {
    match r
    case Multi(m) => m.written
    case Single(b) => b.written
  }

  function Used(r: Row): set<nat> {
    match r
    case Multi(m) => m.used
    case Single(b) => b.used
  }

  function Asked(r: Row): set<nat> {
    match r
    case Multi(m) => m.asked
    case Single(b) => b.asked
  }

  // The read at reader got this value, written at version.
  predicate ServedAt(r: Row, reader: nat, version: nat, value: int) {
    match r
    case Multi(m) => Spec.Served(reader, Spec.Version(version, value)) in m.served
    case Single(b) => Basic.Served(reader, version, value) in b.served
  }

  ghost predicate IsServed(r: Row, reader: nat) {
    exists version, value :: ServedAt(r, reader, version, value)
  }

  // Timestamps stay below this.
  function Limit(r: Row): nat {
    if r.Multi? then Spec.NO_PREWRITE else BasicSpec.NONE
  }

  // Only the multiversion scheme recycles, and so has a floor.
  predicate Above(r: Row, ts: nat) {
    r.Multi? ==> r.m.floor <= ts
  }

  // ---------------------------------------------------------------------
  // The requests
  // ---------------------------------------------------------------------

  ghost function PrewriteRow(r: Row, q: Req): (Row, bool) {
    match r
    case Multi(m) => (Multi(Mv.Do(m, Mv.DoPrewrite(q))), Spec.PrewriteReq(m.row, q).1.RcOk?)
    case Single(b) => (Single(Basic.Do(b, Basic.DoPrewrite(q))), BasicSpec.PrewriteReq(b.row, q).1.RcOk?)
  }

  ghost function ReadRow(r: Row, q: Req): (Row, RC) {
    match r
    case Multi(m) =>
      var rc := Spec.ReadReq(m.row, q).1;
      (Multi(Mv.Do(m, Mv.DoRead(q))), if rc.RcOk? then RcOk else if rc.Wait? then Wait else Abort)
    case Single(b) =>
      var rc := BasicSpec.ReadReq(b.row, q).1;
      (Single(Basic.Do(b, Basic.DoRead(q))), if rc.RcOk? then RcOk else if rc.Wait? then Wait else Abort)
  }

  // What a read that is served at once gets.
  function Newest(r: Row, ts: nat): (nat, int) {
    match r
    case Multi(m) => (Spec.Lookup(m.row, ts).ts, Spec.Lookup(m.row, ts).data)
    case Single(b) => (b.row.wts, b.row.value)
  }

  ghost function WriteRow(r: Row, q: Req, data: int): Row {
    match r
    case Multi(m) => Multi(Mv.Do(m, Mv.DoWrite(q, data)))
    case Single(b) => Single(Basic.Do(b, Basic.DoWrite(q, data)))
  }

  ghost function CancelRow(r: Row, q: Req): Row {
    match r
    case Multi(m) => Multi(Mv.Do(m, Mv.DoCancel(q)))
    case Single(b) => Single(Basic.Do(b, Basic.DoCancel(q)))
  }

  ghost function RecycleRow(r: Row, bound: nat): Row {
    match r
    case Multi(m) => Multi(Mv.Do(m, Mv.DoRecycle(bound)))
    case Single(b) => r
  }

  ghost function AdvanceRow(r: Row, floor: nat): Row {
    match r
    case Multi(m) => Multi(Mv.Do(m, Mv.Advance(floor)))
    case Single(b) => r
  }

  // ---------------------------------------------------------------------
  // What the requests do, whatever the scheme
  // ---------------------------------------------------------------------

  ghost predicate SameServed(r: Row, r': Row) {
    forall reader, version, value :: ServedAt(r', reader, version, value) <==> ServedAt(r, reader, version, value)
  }

  ghost predicate ServedGrows(r: Row, r': Row) {
    forall reader, version, value :: ServedAt(r, reader, version, value) ==> ServedAt(r', reader, version, value)
  }

  predicate SameFloor(r: Row, r': Row) {
    r.Multi? == r'.Multi? && (r.Multi? ==> r'.m.floor == r.m.floor)
  }

  // A prewrite is recorded, and announced when it is accepted.
  ghost predicate Announces(r: Row, r': Row, q: Req, ok: bool) {
    && SameFloor(r, r') && SameServed(r, r')
    && Written(r') == Written(r) && Readreqs(r') == Readreqs(r) && Asked(r') == Asked(r) && Used(r') == Used(r) + {q.ts}
    && forall p :: p in Prereqs(r') <==> p in Prereqs(r) || (ok && p == q)
  }

  ghost predicate MayAnnounce(r: Row, q: Req) {
    0 < q.ts < Limit(r) && Above(r, q.ts) && q.ts !in Used(r) && forall p :: p in Prereqs(r) ==> p.txn != q.txn
  }

  lemma RowAnnounces(r: Row, q: Req)
    ensures Announces(r, PrewriteRow(r, q).0, q, PrewriteRow(r, q).1)
  {
    hide Spec.PreConflict;
  }

  lemma PrewriteFacts(r: Row, q: Req)
    requires RowOk(r) && MayAnnounce(r, q)
    ensures RowOk(PrewriteRow(r, q).0) && Announces(r, PrewriteRow(r, q).0, q, PrewriteRow(r, q).1)
  {
    RowAnnounces(r, q);
    hide Announces;
    match r
    case Multi(m) => Mv.StepKeeps(m, Mv.DoPrewrite(q));
    case Single(b) => Basic.StepKeeps(b, Basic.DoPrewrite(q));
  }

  // A read request is recorded, and served, buffered or refused.
  ghost predicate Asks(r: Row, r': Row, q: Req, rc: RC) {
    && SameFloor(r, r') && Prereqs(r') == Prereqs(r) && Written(r') == Written(r)
    && Used(r') == Used(r) + {q.ts} && Asked(r') == Asked(r) + {q.ts}
    && (forall p :: p in Readreqs(r') <==> p in Readreqs(r) || (rc == Wait && p == q))
    && if rc == RcOk then ServedMore(r, r', q.ts, Newest(r, q.ts)) else SameServed(r, r')
  }

  ghost predicate ServedMore(r: Row, r': Row, ts: nat, newest: (nat, int)) {
    forall reader, version, value :: ServedAt(r', reader, version, value) <==>
      ServedAt(r, reader, version, value) || (reader == ts && version == newest.0 && value == newest.1)
  }

  ghost predicate MayAsk(r: Row, q: Req) {
    0 < q.ts < Limit(r) && Above(r, q.ts) && q.ts !in Asked(r) && (q.ts !in Used(r) || q in Prereqs(r))
  }

  lemma MultiAsks(m: Mv.State, q: Req)
    ensures Asks(Multi(m), ReadRow(Multi(m), q).0, q, ReadRow(Multi(m), q).1)
  {
    hide Spec.ReadConflict, Spec.FindIn, Spec.InsertRead;
  }

  lemma SingleAsks(b: Basic.State, q: Req)
    ensures Asks(Single(b), ReadRow(Single(b), q).0, q, ReadRow(Single(b), q).1)
  {
  }

  lemma ReadFacts(r: Row, q: Req)
    requires RowOk(r) && MayAsk(r, q)
    ensures RowOk(ReadRow(r, q).0) && Asks(r, ReadRow(r, q).0, q, ReadRow(r, q).1)
  {
    hide Asks;
    match r
    case Multi(m) =>
      MultiAsks(m, q);
      Mv.StepKeeps(m, Mv.DoRead(q));
    case Single(b) =>
      SingleAsks(b, q);
      Basic.StepKeeps(b, Basic.DoRead(q));
  }

  // A write or cancellation takes the prewrite away and may release reads.
  ghost predicate Settled(r: Row, r': Row, q: Req) {
    && SameFloor(r, r') && Used(r') == Used(r) && Asked(r') == Asked(r) && ServedGrows(r, r')
    && (forall p :: p in Prereqs(r') <==> p in Prereqs(r) && p != q)
    && (forall p :: p in Readreqs(r') ==> p in Readreqs(r))
    && (forall p :: p in Readreqs(r) ==> p in Readreqs(r') || IsServed(r', p.ts))
  }

  lemma DroppedPrereqs(reqs: seq<Req>, q: Req)
    requires q in reqs && forall i, j :: 0 <= i < j < |reqs| ==> reqs[i].txn != reqs[j].txn
    ensures forall p :: p in DropReq(reqs, q.txn) <==> p in reqs && p != q
  {
    DropReqMembers(reqs, q.txn);
    forall p | p in reqs && p.txn == q.txn
      ensures p == q
    {
      var i :| 0 <= i < |reqs| && reqs[i] == p;
      var j :| 0 <= j < |reqs| && reqs[j] == q;
    }
  }

  // Releasing serves what it takes out of the buffer.
  lemma MultiReleases(mid: Mv.State, p: Req)
    requires p in mid.row.readreqs
    ensures var m' := Mv.Released(mid);
            p in m'.row.readreqs || Spec.Served(p.ts, Spec.Lookup(mid.row, p.ts)) in m'.served
    ensures mid.served <= Mv.Released(mid).served && Mv.Released(mid).row.prereqs == mid.row.prereqs
  {
    FilterMembers(mid.row.readreqs, Spec.MinTs(mid.row.prereqs), p);
  }

  lemma MultiSettles(m: Mv.State, mid: Mv.State, q: Req)
    requires Mv.PrereqsOk(m) && q in m.row.prereqs && mid.served == m.served && mid.row.readreqs == m.row.readreqs
    requires mid.row.prereqs == DropReq(m.row.prereqs, q.txn) && mid.used == m.used && mid.asked == m.asked && mid.floor == m.floor
    ensures Settled(Multi(m), Multi(Mv.Released(mid)), q) && Mv.Released(mid).written == mid.written
  {
    var r, r' := Multi(m), Multi(Mv.Released(mid));
    DroppedPrereqs(m.row.prereqs, q);
    forall p | p in Readreqs(r)
      ensures p in Readreqs(r') || IsServed(r', p.ts)
    {
      MultiReleases(mid, p);
      if p !in Readreqs(r') {
        var v := Spec.Lookup(mid.row, p.ts);
        assert v == Spec.Version(v.ts, v.data);
        assert ServedAt(r', p.ts, v.ts, v.data);
      }
    }
    forall p | p in Readreqs(r')
      ensures p in Readreqs(r)
    {
      FilterMembers(mid.row.readreqs, Spec.MinTs(mid.row.prereqs), p);
    }
  }

  lemma SingleSettles(b: Basic.State, mid: Basic.State, q: Req)
    requires Basic.PrereqsOk(b) && q in b.row.prereqs && mid.served == b.served && mid.row.readreqs == b.row.readreqs
    requires mid.row.prereqs == DropReq(b.row.prereqs, q.txn) && mid.used == b.used && mid.asked == b.asked
    requires mid.row.writereqs == []
    ensures Settled(Single(b), Single(Basic.Updated(mid)), q) && Basic.Updated(mid).written == mid.written
  {
    var r, r' := Single(b), Single(Basic.Updated(mid));
    var bound := MinOr(mid.row.prereqs, BasicSpec.NONE);
    DroppedPrereqs(b.row.prereqs, q);
    Basic.UpdateIsOneRound(mid);
    assert Basic.Updated(mid).row.prereqs == mid.row.prereqs;
    forall p
      ensures p in Readreqs(r') ==> p in Readreqs(r)
      ensures p in Readreqs(r) ==> p in Readreqs(r') || IsServed(r', p.ts)
    {
      SingleReleases(mid, p);
      if p in Readreqs(r) && p !in Readreqs(r') {
        assert ServedAt(r', p.ts, mid.row.wts, mid.row.value);
      }
    }
  }

  lemma SingleReleases(mid: Basic.State, p: Req)
    requires mid.row.writereqs == []
    ensures p in BasicSpec.ServeReads(mid.row).readreqs ==> p in mid.row.readreqs
    ensures p in mid.row.readreqs ==>
              p in BasicSpec.ServeReads(mid.row).readreqs || Basic.Serve(mid.row, p) in Basic.Updated(mid).served
  {
    var bound := MinOr(mid.row.prereqs, BasicSpec.NONE);
    FilterMembers(mid.row.readreqs, bound, p);
    Basic.UpdateIsOneRound(mid);
  }

  ghost predicate MayEnd(r: Row, q: Req) {
    q in Prereqs(r) && q.ts in Asked(r) && q !in Readreqs(r) && IsServed(r, q.ts)
  }

  lemma ServedIsDone(b: Basic.State, ts: nat)
    requires IsServed(Single(b), ts)
    ensures Basic.ReadDone(b, ts)
  {
    var version, value :| ServedAt(Single(b), ts, version, value);
  }

  lemma WriteFacts(r: Row, q: Req, data: int)
    requires RowOk(r) && MayEnd(r, q)
    ensures RowOk(WriteRow(r, q, data)) && Settled(r, WriteRow(r, q, data), q) && Written(WriteRow(r, q, data)) == Written(r)[q.ts := data]
  {
    hide Settled;
    match r
    case Multi(m) =>
      Mv.StepKeeps(m, Mv.DoWrite(q, data));
      MultiSettles(m, Mv.Stored(Mv.Dropped(m, q), Spec.Version(q.ts, data)), q);
    case Single(b) =>
      ServedIsDone(b, q.ts);
      Basic.StepKeeps(b, Basic.DoWrite(q, data));
      Basic.WriteIsNotBuffered(b, q);
      SingleSettles(b, b.(row := BasicSpec.Stored(b.row, q, data), written := b.written[q.ts := data]), q);
  }

  lemma CancelFacts(r: Row, q: Req)
    requires RowOk(r) && MayEnd(r, q)
    ensures RowOk(CancelRow(r, q)) && Settled(r, CancelRow(r, q), q) && Written(CancelRow(r, q)) == Written(r)
  {
    hide Settled;
    match r
    case Multi(m) =>
      Mv.StepKeeps(m, Mv.DoCancel(q));
      MultiSettles(m, Mv.Dropped(m, q), q);
    case Single(b) =>
      ServedIsDone(b, q.ts);
      Basic.StepKeeps(b, Basic.DoCancel(q));
      SingleSettles(b, b.(row := BasicSpec.Withdrawn(b.row, q)), q);
  }

  ghost predicate SameButFloor(r: Row, r': Row) {
    && r'.Multi? == r.Multi? && Prereqs(r') == Prereqs(r) && Readreqs(r') == Readreqs(r) && Written(r') == Written(r)
    && Used(r') == Used(r) && Asked(r') == Asked(r) && SameServed(r, r')
  }

  lemma RecycleFacts(r: Row, bound: nat)
    requires RowOk(r) && (r.Multi? ==> bound <= r.m.floor)
    ensures RowOk(RecycleRow(r, bound)) && SameFloor(r, RecycleRow(r, bound)) && SameButFloor(r, RecycleRow(r, bound))
  {
    if r.Multi? {
      Mv.StepKeeps(r.m, Mv.DoRecycle(bound));
    }
  }

  lemma AdvanceFacts(r: Row, floor: nat)
    requires RowOk(r) && (r.Multi? ==> r.m.floor <= floor)
    requires forall q :: q in Prereqs(r) || q in Readreqs(r) ==> floor <= q.ts
    ensures RowOk(AdvanceRow(r, floor)) && SameButFloor(r, AdvanceRow(r, floor)) && (r.Multi? ==> AdvanceRow(r, floor).m.floor == floor)
  {
    if r.Multi? {
      Mv.StepKeeps(r.m, Mv.Advance(floor));
    }
  }

  // ---------------------------------------------------------------------
  // What a row guarantees
  // ---------------------------------------------------------------------

  // A served read has the newest version below it, and no pending prewrite can
  // change that.
  lemma ServedFacts(r: Row, reader: nat, version: nat, value: int)
    requires RowOk(r) && ServedAt(r, reader, version, value)
    ensures version in Written(r) && Written(r)[version] == value && version <= reader
    ensures forall k :: k in Written(r) ==> !(version < k < reader)
    ensures forall p :: p in Prereqs(r) ==> !(version < p.ts < reader)
  {
    match r
    case Multi(m) => assert Mv.ServedOk(m.written, m.row.prereqs, Spec.Served(reader, Spec.Version(version, value)));
    case Single(b) => assert Basic.ServedOk(b, Basic.Served(reader, version, value));
  }

  lemma BufferedFacts(r: Row, q: Req)
    requires RowOk(r) && q in Readreqs(r)
    ensures exists p :: p in Prereqs(r) && p.ts < q.ts
  {
    if r.Single? {
      var m := MinOr(r.b.row.prereqs, BasicSpec.NONE);
      assert m == r.b.row.minPts && m < q.ts < BasicSpec.NONE;
    }
  }

  // A read that follows its own prewrite is refused only when the buffer is full.
  lemma ReadAfterPrewrite(r: Row, q: Req)
    requires RowOk(r) && q in Prereqs(r) && |Readreqs(r)| < Spec.MAX_READ_REQ
    ensures ReadRow(r, q).1 != Abort
  {
    if r.Single? {
      Basic.ReadAfterPrewrite(r.b, q);
    } else {
      RoomToWait(r.m, q);
    }
    hide Mv.Inv, Basic.Inv, Spec.ReadReq, BasicSpec.ReadReq;
  }

  lemma RoomToWait(m: Mv.State, q: Req)
    requires |m.row.readreqs| < Spec.MAX_READ_REQ
    ensures Spec.ReadReq(m.row, q).1 != Spec.Abort
  {
    hide Spec.ReadConflict;
  }

  // Newest finds the newest version at or below ts.
  lemma NewestFacts(r: Row, ts: nat)
    requires RowOk(r) && Above(r, ts) && forall k :: k in Written(r) ==> k <= ts
    ensures var (version, value) := Newest(r, ts);
            version in Written(r) && Written(r)[version] == value && forall k :: k in Written(r) ==> k <= version
  {
    if r.Multi? {
      assert Mv.Newest(r.m.written, ts, Spec.Lookup(r.m.row, ts));
    }
  }
  // A read that nobody's prewrite precedes and no write follows is served.
  lemma ReadIsServed(r: Row, q: Req)
    requires RowOk(r) && Above(r, q.ts) && q.ts < Limit(r)
    requires (forall p :: p in Prereqs(r) ==> p.ts >= q.ts) && forall k :: k in Written(r) ==> k <= q.ts
    ensures ReadRow(r, q).1 == RcOk
  {
    hide Mv.Inv, Basic.Inv, Spec.ReadConflict;
    match r
    case Multi(m) =>
      assert Prereqs(r) == m.row.prereqs;
      Mv.ReadConflictIs(m, q.ts);
    case Single(b) =>
      assert Prereqs(r) == b.row.prereqs && Written(r) == b.written;
      Basic.ReadAnswer(b, q);
  }

  // A prewrite that neither a read nor a write follows is accepted, if there is
  // room.
  lemma PrewriteIsAccepted(r: Row, q: Req)
    requires RowOk(r) && |Prereqs(r)| < Spec.MAX_PRE_REQ
    requires (forall t :: t in Asked(r) ==> t < q.ts) && forall k :: k in Written(r) ==> k <= q.ts
    ensures PrewriteRow(r, q).1
  {
    hide Mv.Inv, Basic.Inv;
    match r
    case Multi(m) =>
      assert Asked(r) == m.asked;
      NoReadAbove(m, q.ts);
    case Single(b) =>
      assert Asked(r) == b.asked && Written(r) == b.written;
      NoReaderAbove(b, q);
  }

  lemma NoReadAbove(m: Mv.State, ts: nat)
    requires Mv.Inv(m) && forall t :: t in m.asked ==> t < ts
    ensures !Spec.PreConflict(m.row, ts)
  {
    if m.row.readhis != [] {
      assert m.row.readhis[0] in m.row.readhis;
    }
  }

  lemma NoReaderAbove(b: Basic.State, q: Req)
    requires Basic.Inv(b) && (forall t :: t in b.asked ==> t < q.ts) && forall k :: k in b.written ==> k <= q.ts
    ensures BasicSpec.PrewriteReq(b.row, q).1 == BasicSpec.RcOk
  {
    Basic.PrewriteAnswer(b, q);
    assert forall sv :: sv in b.served ==> sv.reader in b.asked;
    hide Basic.PrereqsOk, Basic.ReadreqsOk, Basic.CachesOk, Basic.WrittenOk, BasicSpec.PrewriteReq;
  }
}
