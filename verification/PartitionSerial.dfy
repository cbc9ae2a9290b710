// HSTORE executes transactions serially, by its partition locks alone.

module PartitionSerial {
  import opened Options
  import opened SerialRuns
  import opened PartLockSpec
  import opened PartitionRuns

  // ops is what each running transaction has done; log lists the finished ones.
  datatype Data = Data(locks: State, store: Store, ops: map<nat, seq<Op>>, log: seq<seq<Op>>)

  datatype Act =
    | Move(step: Step)
    | DoRead(t: nat, row: RowId)
    | DoWrite(t: nat, row: RowId, value: Value)

  // t runs and has locked partition p.
  predicate RunsOn(s: State, t: nat, p: nat) {
    t in s.txns && s.txns[t].phase.Running? && p in s.txns[t].want
  }

  // A transaction accesses rows of the partitions it asked for.
  ghost predicate Allowed(home: map<RowId, nat>, d: Data, act: Act) {
    match act
    case Move(step) => Sane(d.locks) && Enabled(d.locks, step)
    case DoRead(t, row) => row in d.store && row in home && RunsOn(d.locks, t, home[row]) && t in d.ops
    case DoWrite(t, row, _) => row in d.store && row in home && RunsOn(d.locks, t, home[row]) && t in d.ops
  }

  ghost function Acted(home: map<RowId, nat>, d: Data, act: Act): Data
    requires Allowed(home, d, act)
  {
    match act
    case Move(step) =>
      var locks := Do(d.locks, step);
      if step.Start? then d.(locks := locks, ops := d.ops[step.t := []])
      else if step.Finish? && step.t in d.ops then d.(locks := locks, log := d.log + [d.ops[step.t]])
      else d.(locks := locks)
    case DoRead(t, row) => d.(ops := d.ops[t := d.ops[t] + [Op.Read(row, d.store[row])]])
    case DoWrite(t, row, value) => d.(store := d.store[row := value], ops := d.ops[t := d.ops[t] + [Op.Write(row, value)]])
  }

  // ---------------------------------------------------------------------
  // Invariant
  // ---------------------------------------------------------------------

  ghost predicate Inside(home: map<RowId, nat>, want: seq<nat>, ops: seq<Op>) {
    forall op :: op in ops ==> op.row in home && home[op.row] in want
  }

  // On its partitions the store is what the transaction alone makes of the
  // committed store.
  ghost predicate Follows(home: map<RowId, nat>, committed: Store, store: Store, want: seq<nat>, ops: seq<Op>) {
    && Run(committed, ops).Some? && Run(committed, ops).value.Keys == store.Keys
    && Inside(home, want, ops)
    && forall row :: row in store && row in home && home[row] in want ==> Run(committed, ops).value[row] == store[row]
  }

  ghost predicate AllFollow(home: map<RowId, nat>, committed: Store, d: Data) {
    forall t :: t in d.locks.txns && d.locks.txns[t].phase.Running? ==>
      t in d.ops && Follows(home, committed, d.store, d.locks.txns[t].want, d.ops[t])
  }

  // Where nobody runs the store is the committed one.
  ghost predicate Rest(home: map<RowId, nat>, committed: Store, d: Data) {
    forall row :: row in d.store && row in home && row in committed && (forall t :: !RunsOn(d.locks, t, home[row])) ==> committed[row] == d.store[row]
  }

  ghost predicate Serial(home: map<RowId, nat>, committed: Store, d: Data) {
    committed.Keys == d.store.Keys == home.Keys && AllFollow(home, committed, d) && Rest(home, committed, d)
  }

  ghost predicate DataInv(home: map<RowId, nat>, init: Store, d: Data) {
    Inv(d.locks) && Replay(init, d.log).Some? && Serial(home, Replay(init, d.log).value, d)
  }

  // No two running transactions share a partition.
  lemma Alone(s: State, t: nat, u: nat, p: nat)
    requires Inv(s) && RunsOn(s, t, p) && RunsOn(s, u, p)
    ensures t == u
  {
    var k :| 0 <= k < |s.txns[t].want| && s.txns[t].want[k] == p;
    var m :| 0 <= m < |s.txns[u].want| && s.txns[u].want[m] == p;
    OwnsWanted(s, t, k);
    OwnsWanted(s, u, m);
  }

  // ---------------------------------------------------------------------
  // The steps
  // ---------------------------------------------------------------------

  // Lock traffic changes nothing for those that run.
  ghost predicate SameRunning(s: State, s': State) {
    forall t :: (t in s.txns && s.txns[t].phase.Running? <==> t in s'.txns && s'.txns[t].phase.Running?)
                && (t in s.txns && s.txns[t].phase.Running? ==> s'.txns[t].want == s.txns[t].want)
  }

  lemma TrafficKeeps(home: map<RowId, nat>, committed: Store, d: Data, locks: State)
    requires Serial(home, committed, d) && SameRunning(d.locks, locks)
    ensures Serial(home, committed, d.(locks := locks))
  {
    forall t, p
      ensures RunsOn(locks, t, p) <==> RunsOn(d.locks, t, p)
    {
    }
  }

  lemma NotifyRuns(txns: map<nat, Txn>, promoted: Option<Ticket>, u: nat)
    requires u in txns
    ensures u in Notify(txns, promoted) && Notify(txns, promoted)[u].phase == txns[u].phase && Notify(txns, promoted)[u].want == txns[u].want
  {
  }

  lemma TrafficOnly(s: State, step: Step)
    requires Sane(s) && Enabled(s, step) && !step.Start? && !step.Finish?
    ensures SameRunning(s, Do(s, step))
  {
    var s' := Do(s, step);
    forall u | u in s.txns && u != step.t
      ensures u in s'.txns && s'.txns[u].phase == s.txns[u].phase && s'.txns[u].want == s.txns[u].want
    {
      if step.UndoNext? || step.UnlockNext? {
        var x := s.txns[step.t];
        var p := x.want[x.phase.j];
        var phase := if step.UndoNext? then Undoing(x.phase.i, x.phase.j + 1) else Unlocking(x.phase.j + 1);
        var mine := x.(phase := phase, ready := if Owns(s.parts[p], step.t) then x.ready else x.ready - 1);
        NotifyRuns(s.txns[step.t := mine], Promoted(s.parts[p], step.t), u);
      }
    }
  }

  lemma StartKeeps(home: map<RowId, nat>, committed: Store, d: Data, t: nat, locks: State)
    requires Serial(home, committed, d) && Inv(locks) && t in d.locks.txns && !d.locks.txns[t].phase.Running?
    requires locks == d.locks.(txns := d.locks.txns[t := d.locks.txns[t].(phase := Running)])
    ensures Serial(home, committed, d.(locks := locks, ops := d.ops[t := []]))
  {
    var d' := d.(locks := locks, ops := d.ops[t := []]);
    forall u, p
      ensures RunsOn(locks, u, p) <==> RunsOn(d.locks, u, p) || (u == t && p in locks.txns[t].want)
    {
    }
    forall row | row in d.store && row in home && home[row] in locks.txns[t].want
      ensures committed[row] == d.store[row]
    {
      forall u
        ensures !RunsOn(d.locks, u, home[row])
      {
        if RunsOn(d.locks, u, home[row]) {
          Alone(locks, t, u, home[row]);
        }
      }
    }
    hide Inv;
    assert Follows(home, committed, d.store, locks.txns[t].want, []);
  }

  lemma ReadFollows(home: map<RowId, nat>, committed: Store, store: Store, want: seq<nat>, ops: seq<Op>, row: RowId)
    requires Follows(home, committed, store, want, ops) && row in store && row in home && home[row] in want
    ensures Follows(home, committed, store, want, ops + [Op.Read(row, store[row])])
  {
    RunAppend(committed, ops, Op.Read(row, store[row]));
  }

  lemma WriteFollows(home: map<RowId, nat>, committed: Store, store: Store, want: seq<nat>, ops: seq<Op>, row: RowId, value: Value)
    requires Follows(home, committed, store, want, ops) && row in store && row in home && home[row] in want
    ensures Follows(home, committed, store[row := value], want, ops + [Op.Write(row, value)])
  {
    RunAppend(committed, ops, Op.Write(row, value));
  }

  lemma OtherFollows(home: map<RowId, nat>, committed: Store, store: Store, want: seq<nat>, ops: seq<Op>, row: RowId, value: Value)
    requires Follows(home, committed, store, want, ops) && row in store && row in home && home[row] !in want
    ensures Follows(home, committed, store[row := value], want, ops)
  {
  }

  lemma ReadKeeps(home: map<RowId, nat>, committed: Store, d: Data, t: nat, row: RowId)
    requires Serial(home, committed, d) && Allowed(home, d, DoRead(t, row))
    ensures Serial(home, committed, Acted(home, d, DoRead(t, row)))
  {
    ReadFollows(home, committed, d.store, d.locks.txns[t].want, d.ops[t], row);
    hide Follows;
  }

  lemma WriteKeeps(home: map<RowId, nat>, committed: Store, d: Data, t: nat, row: RowId, value: Value)
    requires Inv(d.locks) && Serial(home, committed, d) && Allowed(home, d, DoWrite(t, row, value))
    ensures Serial(home, committed, Acted(home, d, DoWrite(t, row, value)))
  {
    hide Inv, Follows;
    var d' := Acted(home, d, DoWrite(t, row, value));
    forall u | u in d.locks.txns && d.locks.txns[u].phase.Running?
      ensures u in d'.ops && Follows(home, committed, d'.store, d.locks.txns[u].want, d'.ops[u])
    {
      if u == t {
        WriteFollows(home, committed, d.store, d.locks.txns[t].want, d.ops[t], row, value);
      } else {
        if home[row] in d.locks.txns[u].want {
          Alone(d.locks, t, u, home[row]);
        }
        OtherFollows(home, committed, d.store, d.locks.txns[u].want, d.ops[u], row, value);
      }
    }
    assert RunsOn(d.locks, t, home[row]);
  }

  // What a transaction changes lies in its partitions.
  lemma ChangesInside(home: map<RowId, nat>, committed: Store, want: seq<nat>, ops: seq<Op>, row: RowId)
    requires Run(committed, ops).Some? && Inside(home, want, ops) && row in committed && row in home && home[row] !in want
    ensures row in Run(committed, ops).value && Run(committed, ops).value[row] == committed[row]
  {
    assert forall op :: op in ops ==> op.row != row;
    RunKeepsRows(committed, ops);
  }

  // u does not notice that t's changes are committed now.
  lemma OtherStays(home: map<RowId, nat>, committed: Store, store: Store, want: seq<nat>, ops: seq<Op>, more: Store)
    requires Follows(home, committed, store, want, ops) && more.Keys == committed.Keys == home.Keys == store.Keys
    requires forall row :: row in home && home[row] in want ==> more[row] == committed[row]
    ensures Follows(home, more, store, want, ops)
  {
    forall row | row in committed && Touches(ops, row)
      ensures committed[row] == more[row]
    {
      var op :| op in ops && op.row == row;
    }
    RunAgrees(committed, more, ops);
  }

  lemma FinishKeeps(home: map<RowId, nat>, committed: Store, d: Data, t: nat, locks: State)
    requires Serial(home, committed, d) && Inv(d.locks) && t in d.locks.txns && d.locks.txns[t].phase.Running? && t in d.ops
    requires locks == d.locks.(txns := d.locks.txns[t := d.locks.txns[t].(phase := Unlocking(0))])
    ensures Run(committed, d.ops[t]).Some?
    ensures Serial(home, Run(committed, d.ops[t]).value, d.(locks := locks, log := d.log + [d.ops[t]]))
  {
    hide Inv;
    var want, ops := d.locks.txns[t].want, d.ops[t];
    assert Follows(home, committed, d.store, want, ops);
    var after := Run(committed, ops).value;
    var d' := d.(locks := locks, log := d.log + [ops]);
    forall row | row in home && home[row] !in want
      ensures after[row] == committed[row]
    {
      ChangesInside(home, committed, want, ops, row);
    }
    forall u | u in locks.txns && locks.txns[u].phase.Running?
      ensures u in d.ops && Follows(home, after, d.store, locks.txns[u].want, d.ops[u])
    {
      forall row | row in home && home[row] in locks.txns[u].want
        ensures after[row] == committed[row]
      {
        if home[row] in want {
          Alone(d.locks, t, u, home[row]);
        }
      }
      OtherStays(home, committed, d.store, locks.txns[u].want, d.ops[u], after);
    }
    forall row | row in d.store && row in home && (forall u :: !RunsOn(locks, u, home[row]))
      ensures after[row] == d.store[row]
    {
      if home[row] !in want {
        forall u
          ensures !RunsOn(d.locks, u, home[row])
        {
          assert !RunsOn(locks, u, home[row]);
        }
      }
    }
  }
  // ---------------------------------------------------------------------
  // Every run
  // ---------------------------------------------------------------------

  lemma MoveKeeps(home: map<RowId, nat>, init: Store, d: Data, step: Step)
    requires DataInv(home, init, d) && Sane(d.locks) && Enabled(d.locks, step)
    ensures DataInv(home, init, Acted(home, d, Move(step)))
  {
    var committed, locks := Replay(init, d.log).value, Do(d.locks, step);
    PartitionRuns.StepKeeps(d.locks, step);
    hide Inv, Follows, Rest;
    if step.Start? {
      StartKeeps(home, committed, d, step.t, locks);
    } else if step.Finish? {
      FinishKeeps(home, committed, d, step.t, locks);
      ReplayAppend(init, d.log, d.ops[step.t]);
    } else {
      TrafficOnly(d.locks, step);
      TrafficKeeps(home, committed, d, locks);
    }
  }

  lemma ActKeeps(home: map<RowId, nat>, init: Store, d: Data, act: Act)
    requires DataInv(home, init, d) && Allowed(home, d, act)
    ensures DataInv(home, init, Acted(home, d, act))
  {
    var committed := Replay(init, d.log).value;
    match act
    case Move(step) => MoveKeeps(home, init, d, step);
    case DoRead(t, row) =>
      ReadKeeps(home, committed, d, t, row);
      hide Inv, Serial;
    case DoWrite(t, row, value) =>
      WriteKeeps(home, committed, d, t, row, value);
      hide Inv, Serial;
  }

  ghost predicate Starts(home: map<RowId, nat>, init: Store, d: Data) {
    Init(d.locks) && d.store == init && d.log == [] && init.Keys == home.Keys
  }

  ghost predicate NextAct(home: map<RowId, nat>, d: Data, d': Data) {
    exists act :: Allowed(home, d, act) && d' == Acted(home, d, act)
  }

  ghost predicate IsDataRun(home: map<RowId, nat>, init: Store, run: seq<Data>) {
    run != [] && Starts(home, init, run[0]) && forall i :: 0 <= i < |run| - 1 ==> NextAct(home, run[i], run[i + 1])
  }

  lemma {:induction false} DataRunKeeps(home: map<RowId, nat>, init: Store, run: seq<Data>, i: nat)
    requires IsDataRun(home, init, run) && i < |run|
    ensures DataInv(home, init, run[i])
  {
    if i == 0 {
      InitHolds(run[0].locks);
    } else {
      DataRunKeeps(home, init, run, i - 1);
      assert NextAct(home, run[i - 1], run[i - 1 + 1]);
      var act :| Allowed(home, run[i - 1], act) && run[i] == Acted(home, run[i - 1], act);
      ActKeeps(home, init, run[i - 1], act);
    }
  }

  // In every state of every run, running the finished transactions one after
  // another in the order they finished lets each read what it read, and gives
  // the store on all partitions where nobody runs; where somebody runs, it gives
  // the store once his own operations are added.
  lemma Serializable(home: map<RowId, nat>, init: Store, run: seq<Data>, i: nat)
    requires IsDataRun(home, init, run) && i < |run|
    ensures var d := run[i];
            && Replay(init, d.log).Some? && Replay(init, d.log).value.Keys == d.store.Keys == home.Keys
            && (forall row :: row in d.store && (forall t :: !RunsOn(d.locks, t, home[row])) ==>
                  Replay(init, d.log).value[row] == d.store[row])
            && forall row, t :: row in d.store && RunsOn(d.locks, t, home[row]) ==>
                 && t in d.ops && Run(Replay(init, d.log).value, d.ops[t]).Some?
                 && row in Run(Replay(init, d.log).value, d.ops[t]).value
                 && Run(Replay(init, d.log).value, d.ops[t]).value[row] == d.store[row]
  {
    DataRunKeeps(home, init, run, i);
    hide Inv;
  }
}
