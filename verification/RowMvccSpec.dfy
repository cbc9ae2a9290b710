// One row under multiversion timestamp ordering (row_mvcc.cpp): what each
// request does to the prewrites, buffered reads and histories of the row.

module RowMvccSpec {
  import opened RequestQueues

  type Value = int

  const HIS_RECYCLE_LEN := 10
  const MAX_PRE_REQ := 1024
  const MAX_READ_REQ := 1024

  // debuffer_req uses this bound when no prewrite is pending.
  const NO_PREWRITE := 0x1_0000_0000

  datatype RC = RcOk | Abort | Wait

  datatype Version = Version(ts: nat, data: Value)

  // Both histories are in descending timestamp order; base is the row itself.
  datatype Row = Row(base: Value, prereqs: seq<Req>, readreqs: seq<Req>, readhis: seq<nat>, writehis: seq<Version>)

  // A read that got version (ts, data).
  datatype Served = Served(reader: nat, version: Version)

  function Stamps(whis: seq<Version>): (r: seq<nat>)
    ensures |r| == |whis|
    ensures forall i :: 0 <= i < |whis| ==> r[i] == whis[i].ts
  {
    seq(|whis|, i requires 0 <= i < |whis| => whis[i].ts)
  }

  // The position both searches of a history stop at.
  function FirstAtMost(tss: seq<nat>, ts: nat): (i: nat)
    ensures i <= |tss|
    ensures forall j :: 0 <= j < i ==> tss[j] > ts
    ensures i < |tss| ==> tss[i] <= ts
  {
    if tss == [] || tss[0] <= ts then 0 else 1 + FirstAtMost(tss[1..], ts)
  }

  ghost predicate Descending(tss: seq<nat>) {
    forall i, j :: 0 <= i < j < |tss| ==> tss[i] > tss[j]
  }

  // The largest pending prewrite below ts; 0 when there is none.
  function MaxBelow(reqs: seq<Req>, ts: nat): (m: nat)
    ensures m == 0 || exists q :: q in reqs && q.ts == m && m < ts
    ensures forall q :: q in reqs && q.ts < ts ==> q.ts <= m
  {
    if reqs == [] then 0
    else
      var m := MaxBelow(reqs[1..], ts);
      if reqs[0].ts < ts && reqs[0].ts > m then reqs[0].ts else m
  }

  // The smallest pending prewrite, or NO_PREWRITE.
  function MinTs(reqs: seq<Req>): (m: nat)
    ensures forall q :: q in reqs ==> m <= q.ts
    ensures m == NO_PREWRITE || exists q :: q in reqs && q.ts == m
  {
    MinOr(reqs, NO_PREWRITE)
  }

  // The smallest recorded read above ts; 0 when there is none.
  function MinAbove(readhis: seq<nat>, ts: nat): nat {
    var i := FirstAtMost(readhis, ts);
    if i == 0 then 0 else readhis[i - 1]
  }

  ghost predicate VersionBetween(whis: seq<Version>, lo: nat, hi: nat) {
    exists i :: 0 <= i < |whis| && lo < whis[i].ts < hi
  }

  // conflict(): a prewrite-read couple with no version between them.
  ghost predicate ReadConflict(row: Row, ts: nat) {
    var pts := MaxBelow(row.prereqs, ts);
    pts != 0 && !VersionBetween(row.writehis, pts, ts)
  }

  ghost predicate PreConflict(row: Row, ts: nat) {
    var rts := MinAbove(row.readhis, ts);
    rts != 0 && !VersionBetween(row.writehis, ts, rts)
  }

  // The newest version at or below ts.
  function Lookup(row: Row, ts: nat): Version {
    FindIn(row.base, row.writehis, ts)
  }

  function FindIn(base: Value, whis: seq<Version>, ts: nat): Version {
    var i := FirstAtMost(Stamps(whis), ts);
    if i < |whis| then whis[i] else Version(0, base)
  }

  function InsertRead(readhis: seq<nat>, ts: nat): seq<nat> {
    var i := FirstAtMost(readhis, ts);
    readhis[..i] + [ts] + readhis[i..]
  }

  function InsertVersion(whis: seq<Version>, v: Version): seq<Version> {
    var i := FirstAtMost(Stamps(whis), v.ts);
    whis[..i] + [v] + whis[i..]
  }

  function InsertReads(readhis: seq<nat>, reqs: seq<Req>): seq<nat>
    decreases |reqs|
  {
    if reqs == [] then readhis else InsertReads(InsertRead(readhis, reqs[0].ts), reqs[1..])
  }

  // update_buffer: serve every buffered read no pending prewrite can affect.
  function Release(row: Row): Row {
    var bound := MinTs(row.prereqs);
    row.(readreqs := KeepAbove(row.readreqs, bound),
         readhis := InsertReads(row.readhis, TakeUpTo(row.readreqs, bound)))
  }

  // Number of entries clear_history leaves.
  function KeepLen(tss: seq<nat>, bound: nat): (k: nat)
    ensures k <= |tss|
  {
    if |tss| >= 2 && tss[|tss| - 2] < bound then KeepLen(tss[..|tss| - 1], bound) else |tss|
  }

  // Histories are recycled once one of them is long.
  predicate Long(row: Row) {
    |row.writehis| > HIS_RECYCLE_LEN || |row.readhis| > HIS_RECYCLE_LEN
  }

  function KeepReads(row: Row, bound: nat): (k: nat)
    ensures k <= |row.readhis|
  {
    if Long(row) then KeepLen(row.readhis, bound) else |row.readhis|
  }

  function KeepWrites(row: Row, bound: nat): (k: nat)
    ensures k <= |row.writehis|
  {
    if Long(row) then KeepLen(Stamps(row.writehis), bound) else |row.writehis|
  }

  // The newest version that goes becomes the row itself.
  function Recycle(row: Row, bound: nat): Row {
    var kr, kw := KeepReads(row, bound), KeepWrites(row, bound);
    row.(readhis := row.readhis[..kr], writehis := row.writehis[..kw],
         base := if kw < |row.writehis| then row.writehis[kw].data else row.base)
  }

  // The four requests, without the recycling that follows a successful one.
  ghost function ReadReq(row: Row, q: Req): (Row, RC) {
    if !ReadConflict(row, q.ts) then (row.(readhis := InsertRead(row.readhis, q.ts)), RcOk)
    else if |row.readreqs| < MAX_READ_REQ then (row.(readreqs := [q] + row.readreqs), Wait)
    else (row, Abort)
  }

  ghost function PrewriteReq(row: Row, q: Req): (Row, RC) {
    if PreConflict(row, q.ts) || |row.prereqs| >= MAX_PRE_REQ then (row, Abort)
    else (row.(prereqs := [q] + row.prereqs), RcOk)
  }

  function Withdrawn(row: Row, q: Req): Row {
    row.(prereqs := DropReq(row.prereqs, q.txn))
  }

  function Overwritten(row: Row, q: Req, data: Value): Row {
    Withdrawn(row, q).(writehis := InsertVersion(row.writehis, Version(q.ts, data)))
  }

  function WriteReq(row: Row, q: Req, data: Value): Row {
    Release(Overwritten(row, q, data))
  }

  function CancelReq(row: Row, q: Req): Row {
    Release(Withdrawn(row, q))
  }

  datatype TsType = RReq | PReq | WReq | XpReq

  // access() up to the recycling that ends a successful request.
  ghost function Answer(row: Row, kind: TsType, q: Req, data: Value): (Row, RC) {
    match kind
    case RReq => ReadReq(row, q)
    case PReq => PrewriteReq(row, q)
    case WReq => (WriteReq(row, q, data), RcOk)
    case XpReq => (CancelReq(row, q), RcOk)
  }

  // No timestamp reads the row twice.
  ghost predicate ReadersFresh(row: Row) {
    DistinctTs(row.readreqs) && forall r :: r in row.readreqs ==> r.ts !in row.readhis
  }

  // ---------------------------------------------------------------------
  // Facts about the lists
  // ---------------------------------------------------------------------

  lemma SpliceMembers<T>(s: seq<T>, i: nat, x: T)
    requires i <= |s|
    ensures forall u :: u in s[..i] + [x] + s[i..] <==> u in s || u == x
  {
    assert s == s[..i] + s[i..];
  }

  lemma InsertReadSorted(readhis: seq<nat>, ts: nat)
    requires Descending(readhis) && ts !in readhis
    ensures Descending(InsertRead(readhis, ts))
  {
    var i, r := FirstAtMost(readhis, ts), InsertRead(readhis, ts);
    assert i < |readhis| ==> readhis[i] in readhis && ts > readhis[i];
    forall a, b | 0 <= a < b < |r|
      ensures r[a] > r[b]
    {
      assert r[a] == if a < i then readhis[a] else if a == i then ts else readhis[a - 1];
      assert r[b] == if b < i then readhis[b] else if b == i then ts else readhis[b - 1];
    }
  }

  lemma InsertReadKeeps(readhis: seq<nat>, ts: nat)
    requires Descending(readhis) && ts !in readhis
    ensures Descending(InsertRead(readhis, ts))
    ensures forall r :: r in InsertRead(readhis, ts) <==> r in readhis || r == ts
  {
    InsertReadSorted(readhis, ts);
    SpliceMembers(readhis, FirstAtMost(readhis, ts), ts);
  }

  lemma MinAboveIsLeast(readhis: seq<nat>, ts: nat, r: nat)
    requires Descending(readhis) && r in readhis && ts < r
    ensures ts < MinAbove(readhis, ts) <= r
  {
    var k :| 0 <= k < |readhis| && readhis[k] == r;
    var i := FirstAtMost(readhis, ts);
    assert i < |readhis| ==> readhis[i] < readhis[k];
    assert k < i;
  }

  lemma InsertVersionKeeps(whis: seq<Version>, v: Version)
    requires Descending(Stamps(whis)) && v.ts !in Stamps(whis)
    ensures Descending(Stamps(InsertVersion(whis, v)))
    ensures forall u :: u in InsertVersion(whis, v) <==> u in whis || u == v
  {
    SpliceMembers(whis, FirstAtMost(Stamps(whis), v.ts), v);
    InsertReadSorted(Stamps(whis), v.ts);
    assert Stamps(InsertVersion(whis, v)) == InsertRead(Stamps(whis), v.ts);
  }

  lemma {:induction false} KeepLenCuts(tss: seq<nat>, bound: nat)
    requires Descending(tss)
    ensures KeepLen(tss, bound) < |tss| ==> KeepLen(tss, bound) > 0 && tss[KeepLen(tss, bound) - 1] < bound
    ensures forall j :: KeepLen(tss, bound) <= j < |tss| ==> tss[j] < bound
  {
    if |tss| >= 2 && tss[|tss| - 2] < bound {
      KeepLenCuts(tss[..|tss| - 1], bound);
    }
  }

  lemma {:induction false} InsertReadsKeeps(readhis: seq<nat>, reqs: seq<Req>)
    requires Descending(readhis) && DistinctTs(reqs) && forall q :: q in reqs ==> q.ts !in readhis
    ensures Descending(InsertReads(readhis, reqs))
    ensures forall r :: r in InsertReads(readhis, reqs) <==> r in readhis || exists q :: q in reqs && q.ts == r
    decreases |reqs|
  {
    if reqs != [] {
      InsertReadKeeps(readhis, reqs[0].ts);
      assert forall q :: q in reqs[1..] ==> q.ts != reqs[0].ts;
      InsertReadsKeeps(InsertRead(readhis, reqs[0].ts), reqs[1..]);
      assert forall q :: q in reqs <==> q == reqs[0] || q in reqs[1..];
    }
  }

  lemma ReleaseFresh(row: Row)
    requires ReadersFresh(row) && Descending(row.readhis)
    ensures ReadersFresh(Release(row)) && Descending(Release(row).readhis)
  {
    var bound := MinTs(row.prereqs);
    FilterDistinct(row.readreqs, bound);
    forall q
      ensures q in KeepAbove(row.readreqs, bound) <==> q in row.readreqs && q.ts > bound
      ensures q in TakeUpTo(row.readreqs, bound) <==> q in row.readreqs && q.ts <= bound
    {
      FilterMembers(row.readreqs, bound, q);
    }
    InsertReadsKeeps(row.readhis, TakeUpTo(row.readreqs, bound));
  }

  // What every request keeps, recycling included.
  lemma AnswerFresh(row: Row, kind: TsType, q: Req, data: Value)
    requires ReadersFresh(row) && Descending(row.readhis) && Descending(Stamps(row.writehis))
    requires kind.RReq? ==> q.ts !in row.readhis && forall r :: r in row.readreqs ==> r.ts != q.ts
    requires kind.WReq? ==> q.ts !in Stamps(row.writehis)
    ensures var row' := Answer(row, kind, q, data).0;
            ReadersFresh(row') && Descending(row'.readhis) && Descending(Stamps(row'.writehis))
  {
    match kind
    case RReq => InsertReadKeeps(row.readhis, q.ts); BufferFresh(row.readreqs, q);
    case PReq =>
    case WReq =>
      InsertVersionKeeps(row.writehis, Version(q.ts, data));
      ReleaseFresh(Overwritten(row, q, data));
    case XpReq => ReleaseFresh(Withdrawn(row, q));
  }

  lemma RecycleFresh(row: Row, bound: nat)
    requires ReadersFresh(row)
    ensures ReadersFresh(Recycle(row, bound))
  {
  }

  // Lookup returns the newest stored version at or below ts.
  lemma LookupIsNewest(row: Row, ts: nat)
    requires Descending(Stamps(row.writehis))
    ensures Lookup(row, ts).ts <= ts
    ensures Lookup(row, ts) in row.writehis || Lookup(row, ts) == Version(0, row.base)
    ensures forall v :: v in row.writehis && v.ts <= ts ==> v.ts <= Lookup(row, ts).ts
    ensures Lookup(row, ts) !in row.writehis ==> forall v :: v in row.writehis ==> v.ts > ts
  {
    var tss := Stamps(row.writehis);
    var i := FirstAtMost(tss, ts);
    forall v | v in row.writehis && v.ts <= ts
      ensures i < |tss| && v.ts <= tss[i]
    {
      var j :| 0 <= j < |row.writehis| && row.writehis[j] == v;
    }
  }

  lemma LookupIs(row: Row, ts: nat, v: Version)
    requires Descending(Stamps(row.writehis)) && v in row.writehis && v.ts <= ts
    requires forall u :: u in row.writehis && u.ts <= ts ==> u.ts <= v.ts
    ensures Lookup(row, ts) == v
  {
    var j :| 0 <= j < |row.writehis| && row.writehis[j] == v;
    var i := FirstAtMost(Stamps(row.writehis), ts);
    assert i <= j;
    assert row.writehis[i] in row.writehis;
  }

  // Storing a version changes the lookups at or above it that found an older
  // one, and no other.
  lemma LookupAfterInsert(row: Row, v: Version, ts: nat)
    requires Descending(Stamps(row.writehis)) && v.ts !in Stamps(row.writehis) && 0 < v.ts
    ensures var row' := row.(writehis := InsertVersion(row.writehis, v));
            Lookup(row', ts) == if Lookup(row, ts).ts < v.ts <= ts then v else Lookup(row, ts)
  {
    var row' := row.(writehis := InsertVersion(row.writehis, v));
    InsertVersionKeeps(row.writehis, v);
    LookupIsNewest(row, ts);
    if Lookup(row, ts).ts < v.ts <= ts {
      LookupIs(row', ts, v);
    } else if Lookup(row, ts) in row.writehis {
      LookupIs(row', ts, Lookup(row, ts));
    } else {
      LookupIsNewest(row', ts);
    }
  }
}
