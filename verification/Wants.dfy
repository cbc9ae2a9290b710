// What a transaction that meets nobody should do: it reads the rows it wants, and
// writes what it wants into some of them.

module Wants {
  import opened Options
  import opened SerialRuns

  datatype Want = Want(row: RowId, write: Option<Value>)

  ghost predicate DistinctWants(store: Store, wants: seq<Want>) {
    && (forall i :: 0 <= i < |wants| ==> wants[i].row in store)
    && forall i, j :: 0 <= i < j < |wants| ==> wants[i].row != wants[j].row
  }

  // after is store with the wanted writes, and nothing else.
  ghost predicate Fulfilled(store: Store, after: Store, wants: seq<Want>) {
    && after.Keys == store.Keys
    && (forall i :: 0 <= i < |wants| && wants[i].row in store ==>
          after[wants[i].row] == if wants[i].write.Some? then wants[i].write.value else store[wants[i].row])
    && (forall row :: row in store && (forall i :: 0 <= i < |wants| ==> wants[i].row != row) ==> after[row] == store[row])
  }

  // op is one of the wanted operations on store.
  ghost predicate IsWanted(store: Store, wants: seq<Want>, op: Op) {
    exists i :: && 0 <= i < |wants| && wants[i].row == op.row && op.row in store
                && if op.Read? then op.value == store[op.row] else wants[i].write == Some(op.value)
  }

  // ops are the wanted reads, with the values of store, and the wanted writes.
  ghost predicate Done(store: Store, wants: seq<Want>, ops: seq<Op>) {
    forall op :: op in ops <==> IsWanted(store, wants, op)
  }

  // One want more.
  lemma OneMore(store: Store, wants: seq<Want>, n: nat, mid: Store, after: Store)
    requires n < |wants| && DistinctWants(store, wants) && Fulfilled(store, mid, wants[..n])
    requires after == if wants[n].write.Some? then mid[wants[n].row := wants[n].write.value] else mid
    ensures Fulfilled(store, after, wants[..n + 1]) && mid[wants[n].row] == store[wants[n].row]
  {
    var w := wants[n];
    assert forall i :: 0 <= i < n ==> wants[..n][i] == wants[..n + 1][i] == wants[i];
    assert wants[..n + 1][n] == w;
    assert mid[w.row] == store[w.row];
    var all := wants[..n + 1];
    forall row | row in store && (forall i :: 0 <= i < |all| ==> all[i].row != row)
      ensures after[row] == store[row]
    {
      assert forall i :: 0 <= i < n ==> all[i].row != row;
    }
  }

  lemma OneMoreDone(store: Store, wants: seq<Want>, n: nat, ops: seq<Op>, more: seq<Op>)
    requires n < |wants| && DistinctWants(store, wants) && Done(store, wants[..n], ops)
    requires forall op :: op in more <==> op == Read(wants[n].row, store[wants[n].row])
                                          || (wants[n].write.Some? && op == Write(wants[n].row, wants[n].write.value))
    ensures Done(store, wants[..n + 1], ops + more)
  {
    forall op
      ensures IsWanted(store, wants[..n + 1], op) <==> IsWanted(store, wants[..n], op) || op in more
    {
      assert forall i :: 0 <= i < n ==> wants[..n][i] == wants[..n + 1][i];
      assert wants[..n + 1][n] == wants[n];
      if IsWanted(store, wants[..n + 1], op) {
        var i :| 0 <= i < n + 1 && wants[..n + 1][i].row == op.row && op.row in store
                 && if op.Read? then op.value == store[op.row] else wants[..n + 1][i].write == Some(op.value);
        if i < n {
          assert wants[..n][i].row == op.row;
        }
      }
    }
  }

  lemma NothingYet(store: Store, wants: seq<Want>)
    ensures Fulfilled(store, store, wants[..0]) && Done(store, wants[..0], [])
  {
  }
}
