// What a serial execution of logged transactions computes. Every scheme is
// judged against these functions.
//
// A transaction is the sequence of the reads and writes it made, with the values
// it saw; running it on a store fails as soon as a read would see another value.

module SerialRuns {
  import opened Options

  type RowId = nat
  type Value = int
  type Store = map<RowId, Value>

  // A logged operation carries the value it read or wrote.
  datatype Op = Read(row: RowId, value: Value) | Write(row: RowId, value: Value)

  function Apply(store: Store, op: Op): Option<Store> {
    if op.row !in store then None
    else if op.Write? then Some(store[op.row := op.value])
    else if store[op.row] == op.value then Some(store)
    else None
  }

  // One transaction alone; None when some read would return another value.
  function Run(store: Store, ops: seq<Op>): Option<Store> {
    if ops == [] then Some(store)
    else
      var s := Run(store, ops[..|ops| - 1]);
      if s.None? then None else Apply(s.value, ops[|ops| - 1])
  }

  // The transactions one after another.
  function Replay(store: Store, log: seq<seq<Op>>): Option<Store> {
    if log == [] then Some(store)
    else
      var s := Replay(store, log[..|log| - 1]);
      if s.None? then None else Run(s.value, log[|log| - 1])
  }

  ghost predicate Touches(ops: seq<Op>, row: RowId) {
    exists op :: op in ops && op.row == row
  }

  ghost predicate Writes(ops: seq<Op>, row: RowId) {
    exists op :: op in ops && op.Write? && op.row == row
  }

  lemma {:induction false} RunKeepsRows(store: Store, ops: seq<Op>)
    requires Run(store, ops).Some?
    ensures Run(store, ops).value.Keys == store.Keys
    ensures forall row :: row in store && !Writes(ops, row) ==> Run(store, ops).value[row] == store[row]
  {
    if ops != [] {
      var last := |ops| - 1;
      RunKeepsRows(store, ops[..last]);
      assert forall row :: Writes(ops[..last], row) ==> Writes(ops, row);
      assert ops[last] in ops;
    }
  }

  // A transaction cannot tell two stores apart that agree on the rows it
  // touches.
  lemma {:induction false} RunAgrees(s1: Store, s2: Store, ops: seq<Op>)
    requires s1.Keys == s2.Keys
    requires forall row :: row in s1 && Touches(ops, row) ==> s1[row] == s2[row]
    ensures Run(s1, ops).Some? <==> Run(s2, ops).Some?
    ensures Run(s1, ops).Some? ==> Run(s1, ops).value.Keys == Run(s2, ops).value.Keys == s1.Keys
    ensures Run(s1, ops).Some? ==>
              forall row :: row in s1 && s1[row] == s2[row] ==> Run(s1, ops).value[row] == Run(s2, ops).value[row]
  {
    if ops != [] {
      var last := |ops| - 1;
      assert forall row :: Touches(ops[..last], row) ==> Touches(ops, row);
      assert ops[last] in ops && Touches(ops, ops[last].row);
      RunAgrees(s1, s2, ops[..last]);
    }
  }

  lemma RunAppend(store: Store, ops: seq<Op>, op: Op)
    ensures Run(store, ops + [op]) == (var s := Run(store, ops); if s.None? then None else Apply(s.value, op))
  {
    assert (ops + [op])[..|ops|] == ops;
  }

  lemma ReplayAppend(store: Store, log: seq<seq<Op>>, ops: seq<Op>)
    ensures Replay(store, log + [ops]) == (var s := Replay(store, log); if s.None? then None else Run(s.value, ops))
  {
    assert (log + [ops])[..|log|] == log;
  }
}
