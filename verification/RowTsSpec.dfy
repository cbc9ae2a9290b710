// One row under basic timestamp ordering (row_ts.cpp, without the Thomas write
// rule): what each request does to it.

module RowTsSpec {
  import opened Options
  import opened RequestQueues

  // UINT64_MAX, the minimum of an empty list.
  const NONE: nat := 0xFFFF_FFFF_FFFF_FFFF

  datatype RC = RcOk | Abort | Wait

  datatype TsType = RReq | PReq | WReq | XpReq

  // A write waiting with its data.
  datatype Write = Write(req: Req, data: int)

  datatype Row = Row(value: int, wts: nat, rts: nat, minRts: nat, minPts: nat,
                     prereqs: seq<Req>, readreqs: seq<Req>, writereqs: seq<Write>)

  function Max(a: nat, b: nat): nat { if a < b then b else a }

  function Min(a: nat, b: nat): nat { if a < b then a else b }

  function Newest(reqs: seq<Req>, rts: nat): (m: nat)
    ensures rts <= m && forall q :: q in reqs ==> q.ts <= m
    ensures m == rts || exists q :: q in reqs && q.ts == m
    decreases |reqs|
  {
    if reqs == [] then rts else Newest(reqs[1..], Max(rts, reqs[0].ts))
  }

  function WritesAbove(ws: seq<Write>, bound: nat): seq<Write> {
    if ws == [] then []
    else (if ws[0].req.ts <= bound then [] else [ws[0]]) + WritesAbove(ws[1..], bound)
  }

  function WritesUpTo(ws: seq<Write>, bound: nat): seq<Write> {
    if ws == [] then []
    else WritesUpTo(ws[1..], bound) + (if ws[0].req.ts <= bound then [ws[0]] else [])
  }

  // The first of the writes with the smallest timestamp.
  function Oldest(ws: seq<Write>): (w: Write)
    requires ws != []
    ensures w in ws && forall v :: v in ws ==> w.req.ts <= v.req.ts
  {
    if |ws| == 1 then ws[0]
    else
      var w := Oldest(ws[..|ws| - 1]);
      if ws[|ws| - 1].req.ts < w.req.ts then ws[|ws| - 1] else w
  }

  function DropAll(reqs: seq<Req>, ws: seq<Write>): seq<Req>
    decreases |ws|
  {
    if ws == [] then reqs else DropAll(DropReq(reqs, ws[0].req.txn), ws[1..])
  }

  // The reads update_buffer serves in its next round.
  function Ready(row: Row): seq<Req> {
    if MinOr(row.prereqs, NONE) <= row.minPts then [] else TakeUpTo(row.readreqs, MinOr(row.prereqs, NONE))
  }

  // A round of update_buffer up to the reads.
  function ServeReads(row: Row): (r: Row)
    ensures Ready(row) != [] ==> |r.readreqs| < |row.readreqs|
  {
    var minPts := Max(row.minPts, MinOr(row.prereqs, NONE));
    if Ready(row) == [] then row.(minPts := minPts)
    else
      FewerLeft(row.readreqs, minPts);
      var left := KeepAbove(row.readreqs, minPts);
      row.(minPts := minPts, readreqs := left, rts := Newest(Ready(row), row.rts), minRts := Max(row.minRts, MinOr(left, NONE)))
  }

  lemma {:induction false} FewerLeft(reqs: seq<Req>, bound: nat)
    ensures |KeepAbove(reqs, bound)| + |TakeUpTo(reqs, bound)| == |reqs|
  {
    if reqs != [] {
      FewerLeft(reqs[1..], bound);
    }
  }

  // The writes that the same round puts out; nothing when it stops earlier.
  function ReadyWrites(row: Row): seq<Write> {
    var r := ServeReads(row);
    if Ready(row) == [] || r.minRts <= row.minRts then [] else WritesUpTo(row.writereqs, r.minRts)
  }

  // The rest of a round: the oldest write counts, the others are lost.
  function ServeWrites(row: Row, ws: seq<Write>): Row
    requires ws != []
  {
    row.(value := Oldest(ws).data, wts := Max(row.wts, Oldest(ws).req.ts),
         prereqs := DropAll(row.prereqs, ws), writereqs := WritesAbove(row.writereqs, row.minRts))
  }

  // update_buffer.
  function UpdateBuffer(row: Row): Row
    decreases |row.readreqs|
  {
    if ReadyWrites(row) == [] then ServeReads(row)
    else UpdateBuffer(ServeWrites(ServeReads(row), ReadyWrites(row)))
  }

  // A waiting read at ts is served in the next round.
  predicate Releases(row: Row, ts: nat) {
    row.minPts < MinOr(row.prereqs, NONE) && ts <= MinOr(row.prereqs, NONE)
  }

  // What update_buffer gives to a waiting read at ts: the value of the row in the
  // round that serves it.
  function ReadGets(row: Row, ts: nat): Option<int>
    decreases |row.readreqs|
  {
    if Releases(row, ts) then Some(row.value)
    else if ReadyWrites(row) == [] then None
    else ReadGets(ServeWrites(ServeReads(row), ReadyWrites(row)), ts)
  }

  // The four requests.
  ghost function ReadReq(row: Row, q: Req): (Row, RC) {
    if q.ts < row.wts then (row, Abort)
    else if q.ts > row.minPts then (row.(readreqs := [q] + row.readreqs, minRts := Min(row.minRts, q.ts)), Wait)
    else (row.(rts := Max(row.rts, q.ts)), RcOk)
  }

  ghost function PrewriteReq(row: Row, q: Req): (Row, RC) {
    if q.ts < row.rts || q.ts < row.wts then (row, Abort)
    else (row.(prereqs := [q] + row.prereqs, minPts := Min(row.minPts, q.ts)), RcOk)
  }

  // The write itself, before update_buffer.
  function Stored(row: Row, q: Req, data: int): Row {
    row.(value := data, wts := Max(row.wts, q.ts), prereqs := DropReq(row.prereqs, q.txn))
  }

  function Withdrawn(row: Row, q: Req): Row {
    row.(prereqs := DropReq(row.prereqs, q.txn))
  }

  predicate MustBuffer(row: Row, q: Req) {
    q.ts > row.minPts || q.ts > row.minRts
  }

  ghost function WriteReq(row: Row, q: Req, data: int): Row {
    if MustBuffer(row, q) then row.(writereqs := [Write(q, data)] + row.writereqs)
    else UpdateBuffer(Stored(row, q, data))
  }

  ghost function CancelReq(row: Row, q: Req): Row {
    UpdateBuffer(Withdrawn(row, q))
  }

  // access().
  ghost function Answer(row: Row, kind: TsType, q: Req, data: int): (Row, RC) {
    match kind
    case RReq => ReadReq(row, q)
    case PReq => PrewriteReq(row, q)
    case WReq => (WriteReq(row, q, data), RcOk)
    case XpReq => (CancelReq(row, q), RcOk)
  }
}
