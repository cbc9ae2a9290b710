// The access list of a locking transaction (txn.cpp): filled by get_row, walked
// backwards by cleanup.

module TxnCleanup {
  import opened Options
  import opened SerialRuns
  import opened RowLockSpec
  import opened TwoPhaseLocking
  import opened TwoPhaseLocks
  import opened TwoPhaseSafety

  // ---------------------------------------------------------------------
  // What a whole cleanup does when nothing interleaves
  // ---------------------------------------------------------------------

  // Images of aborted writes go back, last access first.
  function RestoreAll(store: Store, accesses: seq<Access>, aborting: bool): Store
    decreases |accesses|
  {
    if accesses == [] then store
    else
      var a := accesses[|accesses| - 1];
      RestoreAll(if aborting && a.kind == WR then store[a.row := a.image] else store, accesses[..|accesses| - 1], aborting)
  }

  function ReleaseAll(locks: map<RowId, Lock>, accesses: seq<Access>, t: TxnId): map<RowId, Lock>
    decreases |accesses|
  {
    if accesses == [] then locks
    else
      var row := accesses[|accesses| - 1].row;
      ReleaseAll(if row in locks then locks[row := Release(locks[row], t)] else locks, accesses[..|accesses| - 1], t)
  }

  lemma InvIsSane(init: Store, s: State)
    requires Inv(init, s)
    ensures Sane(s)
  {
  }

  lemma ReleaseFacts(alg: Algorithm, s: State, t: TxnId) returns (next: State)
    requires Sane(s) && t in s.txns && Ending(s.txns[t]) && s.txns[t].accesses != []
    ensures Enabled(alg, s, ReleaseLast(t)) && next == Do(alg, s, ReleaseLast(t)) && t in next.txns
    ensures var x := s.txns[t];
            var a := x.accesses[|x.accesses| - 1];
            && next.txns[t] == x.(accesses := x.accesses[..|x.accesses| - 1])
            && next.store == (if x.phase.Aborting? && a.kind == WR then s.store[a.row := a.image] else s.store)
            && a.row in s.locks && next.locks == s.locks[a.row := Release(s.locks[a.row], t)]
  {
    next := Do(alg, s, ReleaseLast(t));
    var x := s.txns[t];
    assert ClaimOn(x, x.accesses[|x.accesses| - 1].row) != NoClaim;
  }

  // One round of the loop of cleanup as a step of the system.
  lemma ReleaseOne(alg: Algorithm, init: Store, s: State, t: TxnId) returns (next: State)
    requires Inv(init, s) && t in s.txns && Ending(s.txns[t]) && s.txns[t].accesses != []
    ensures Next(alg, s, next) && Inv(init, next) && t in next.txns
    ensures var x := s.txns[t];
            var a := x.accesses[|x.accesses| - 1];
            && next.txns[t] == x.(accesses := x.accesses[..|x.accesses| - 1])
            && next.store == (if x.phase.Aborting? && a.kind == WR then s.store[a.row := a.image] else s.store)
            && a.row in s.locks && next.locks == s.locks[a.row := Release(s.locks[a.row], t)]
  {
    hide Inv, Sane, Enabled, Do;
    InvIsSane(init, s);
    next := ReleaseFacts(alg, s, t);
    StepKeeps(alg, init, s, ReleaseLast(t));
  }

  // cleanup is a run of single releases: the steps of the system, one for each
  // access.
  lemma {:induction false} CleanupIsSteps(alg: Algorithm, init: Store, s: State, t: TxnId) returns (run: seq<State>)
    requires Inv(init, s) && t in s.txns && Ending(s.txns[t])
    ensures run != [] && run[0] == s && forall i :: 0 <= i < |run| - 1 ==> Next(alg, run[i], run[i + 1])
    ensures var s' := run[|run| - 1];
            && t in s'.txns && s'.txns[t] == s.txns[t].(accesses := [])
            && s'.store == RestoreAll(s.store, s.txns[t].accesses, s.txns[t].phase.Aborting?)
            && s'.locks == ReleaseAll(s.locks, s.txns[t].accesses, t)
    decreases |s.txns[t].accesses|
  {
    hide Inv, Next;
    if s.txns[t].accesses == [] {
      run := [s];
    } else {
      var next := ReleaseOne(alg, init, s, t);
      var rest := CleanupIsSteps(alg, init, next, t);
      run := [s] + rest;
    }
  }

  // ---------------------------------------------------------------------
  // The access list
  // ---------------------------------------------------------------------

  // The rows and their locks.
  class Table {
    var store: Store
    var locks: map<RowId, Lock>

    constructor (store: Store)
      ensures this.store == store && locks == map row | row in store :: FREE
    {
      this.store, locks := store, map row | row in store :: FREE;
    }

    // return_row of the locking schemes: an undone write gets its image back
    // before the lock goes.
    method ReturnRow(row: RowId, undo: bool, image: Value, t: TxnId)
      requires row in locks
      modifies this
      ensures store == if undo then old(store)[row := image] else old(store)
      ensures locks == old(locks)[row := Release(old(locks)[row], t)]
    {
      if undo {
        store := store[row := image];
      }
      locks := locks[row := Release(locks[row], t)];
    }
  }

  class AccessList {
    const id: TxnId
    var accesses: array<Access>
    var rowCnt: nat
    var wrCnt: nat

    ghost predicate Valid()
      reads this, accesses
    {
      rowCnt <= accesses.Length && wrCnt == Writes(accesses[..rowCnt])
    }

    static function Writes(accesses: seq<Access>): nat {
      if accesses == [] then 0
      else Writes(accesses[..|accesses| - 1]) + if accesses[|accesses| - 1].kind == WR then 1 else 0
    }

    ghost function List(): seq<Access>
      reads this, accesses
      requires rowCnt <= accesses.Length
    {
      accesses[..rowCnt]
    }

    constructor (id: TxnId, maxRows: nat)
      ensures Valid() && List() == [] && this.id == id && accesses.Length == maxRows && fresh(accesses)
    {
      this.id, rowCnt, wrCnt := id, 0, 0;
      accesses := new Access[maxRows](_ => Access(0, RD, 0));
    }

    // get_row once the lock is granted: the row is noted with the image that
    // cleanup would put back.
    method GetRow(table: Table, row: RowId, kind: AccessType) returns (data: Value)
      requires Valid() && rowCnt < accesses.Length && row in table.store
      modifies this`rowCnt, this`wrCnt, accesses
      ensures Valid() && accesses == old(accesses)
      ensures List() == old(List()) + [Access(row, kind, table.store[row])] && data == table.store[row]
    {
      data := table.store[row];
      ghost var list := List();
      accesses[rowCnt] := Access(row, kind, data);
      rowCnt := rowCnt + 1;
      if kind == WR {
        wrCnt := wrCnt + 1;
      }
      assert List()[..|list|] == list;
    }

    method Cleanup(abort: bool, table: Table)
      requires Valid() && forall i :: 0 <= i < rowCnt ==> accesses[i].row in table.locks
      modifies this`rowCnt, this`wrCnt, table
      ensures Valid() && List() == []
      ensures table.store == RestoreAll(old(table.store), old(List()), abort)
      ensures table.locks == ReleaseAll(old(table.locks), old(List()), id)
    {
      ghost var list := List();
      var rid := rowCnt - 1;
      assert list[..rid + 1] == list;
      while rid >= 0
        invariant -1 <= rid < rowCnt <= accesses.Length && List() == list && rowCnt == old(rowCnt)
        invariant table.locks.Keys == old(table.locks.Keys)
        invariant RestoreAll(table.store, list[..rid + 1], abort) == RestoreAll(old(table.store), list, abort)
        invariant ReleaseAll(table.locks, list[..rid + 1], id) == ReleaseAll(old(table.locks), list, id)
      {
        var a := accesses[rid];
        assert list[..rid + 1][rid] == a && list[..rid + 1][..rid] == list[..rid];
        table.ReturnRow(a.row, abort && a.kind == WR, a.image, id);
        rid := rid - 1;
      }
      rowCnt, wrCnt := 0, 0;
    }
  }
}
