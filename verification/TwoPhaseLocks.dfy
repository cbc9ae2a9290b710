// The lock half of the two-phase locking invariant: on every row, in every
// reachable state, the owner and waiter lists are exactly the claims of the
// transactions - what each has locked, is granted or waits for, as its own
// fields tell.

module TwoPhaseLocks {
  import opened Options
  import opened SerialRuns
  import opened RowLockSpec
  import opened TwoPhaseLocking

  // What the attempt named by e claims; stale entries claim nothing.
  ghost function ClaimBy(txns: map<TxnId, Txn>, row: RowId, e: Entry): Claim {
    if e.txn in txns && e.ts == txns[e.txn].ts then ClaimOn(txns[e.txn], row) else NoClaim
  }

  ghost predicate EntryMatches(c: Claim, lk: Lock, e: Entry) {
    && (e in lk.owners <==> c == Owns(e.lockType))
    && (e in lk.waiters <==> c == Waits(e.lockType))
  }

  ghost predicate LockMatches(txns: map<TxnId, Txn>, row: RowId, lk: Lock) {
    forall e: Entry :: EntryMatches(ClaimBy(txns, row, e), lk, e)
  }

  predicate Ending(x: Txn) {
    x.phase.Committing? || x.phase.Aborting?
  }

  predicate AtLock(x: Txn) {
    x.phase.Granted? || x.phase.Waiting? || x.phase.Withdrawing?
  }

  ghost predicate TxnOk(x: Txn) {
    && (forall i, j :: 0 <= i < j < |x.accesses| ==> x.accesses[i].row != x.accesses[j].row)
    && (AtLock(x) ==> AccessKind(x.accesses, x.phase.row).None?)
    && (x.phase.Idle? ==> x.accesses == [] && x.ops == [])
    && (!Ending(x) ==> forall op :: op in x.ops ==>
          AccessKind(x.accesses, op.row).Some? && (op.Write? ==> AccessKind(x.accesses, op.row) == Some(WR)))
  }

  ghost predicate LockInv(s: State) {
    && s.store.Keys == s.locks.Keys
    && (forall t, row :: t in s.txns && ClaimOn(s.txns[t], row) != NoClaim ==> row in s.locks)
    && (forall row :: row in s.locks ==> WellFormed(s.locks[row]) && LockMatches(s.txns, row, s.locks[row]))
    && (forall t :: t in s.txns ==> TxnOk(s.txns[t]))
  }

  lemma {:induction false} AccessKindIs(accesses: seq<Access>, row: RowId)
    ensures AccessKind(accesses, row).None? <==> forall i :: 0 <= i < |accesses| ==> accesses[i].row != row
    ensures AccessKind(accesses, row).Some? ==>
              exists i :: 0 <= i < |accesses| && accesses[i].row == row && accesses[i].kind == AccessKind(accesses, row).value
  {
    if accesses != [] && accesses[|accesses| - 1].row != row {
      AccessKindIs(accesses[..|accesses| - 1], row);
    }
  }

  lemma AccessKindAppend(accesses: seq<Access>, a: Access, row: RowId)
    ensures AccessKind(accesses + [a], row) == if a.row == row then Some(a.kind) else AccessKind(accesses, row)
  {
    assert (accesses + [a])[..|accesses|] == accesses;
  }

  // Two transactions that own the same row both hold it shared.
  lemma Exclusive(s: State, t: TxnId, u: TxnId, row: RowId)
    requires LockInv(s) && t in s.txns && u in s.txns && t != u
    requires ClaimOn(s.txns[t], row).Owns? && ClaimOn(s.txns[u], row).Owns?
    ensures ClaimOn(s.txns[t], row) == ClaimOn(s.txns[u], row) == Owns(LockSh)
  {
    var lk := s.locks[row];
    var e := Entry(t, s.txns[t].ts, ClaimOn(s.txns[t], row).lockType);
    var f := Entry(u, s.txns[u].ts, ClaimOn(s.txns[u], row).lockType);
    assert EntryMatches(ClaimBy(s.txns, row, e), lk, e);
    assert EntryMatches(ClaimBy(s.txns, row, f), lk, f);
    WellFormedFacts(lk);
  }

  lemma SameClaimsMatch(txns: map<TxnId, Txn>, txns': map<TxnId, Txn>, row: RowId, lk: Lock)
    requires LockMatches(txns, row, lk)
    requires forall e :: ClaimBy(txns', row, e) == ClaimBy(txns, row, e)
    ensures LockMatches(txns', row, lk)
  {
    forall e: Entry
      ensures EntryMatches(ClaimBy(txns', row, e), lk, e)
    {
      assert EntryMatches(ClaimBy(txns, row, e), lk, e);
    }
  }

  lemma ClaimElsewhere(txns: map<TxnId, Txn>, t: TxnId, x: Txn, row: RowId, e: Entry)
    requires t in txns && ClaimOn(x, row) == ClaimOn(txns[t], row)
    requires x.ts == txns[t].ts || ClaimOn(x, row) == NoClaim
    ensures ClaimBy(txns[t := x], row, e) == ClaimBy(txns, row, e)
  {
  }

  ghost predicate SameClaims(x: Txn, y: Txn) {
    forall row :: ClaimOn(y, row) == ClaimOn(x, row)
  }

  ghost predicate ClaimsNothing(x: Txn) {
    forall row :: ClaimOn(x, row) == NoClaim
  }

  ghost predicate SameClaimsBut(x: Txn, y: Txn, row: RowId) {
    forall r :: r != row ==> ClaimOn(y, r) == ClaimOn(x, r)
  }

  // A step inside one transaction that changes none of its claims.
  lemma LocalStepKeepsLocks(s: State, t: TxnId, x: Txn, s': State)
    requires LockInv(s) && t in s.txns
    requires s'.locks == s.locks && s'.store.Keys == s.store.Keys && s'.txns == s.txns[t := x]
    requires TxnOk(x)
    requires SameClaims(s.txns[t], x)
    requires x.ts == s.txns[t].ts || ClaimsNothing(x)
    ensures LockInv(s')
  {
    forall row | row in s.locks
      ensures LockMatches(s'.txns, row, s.locks[row])
    {
      forall e
        ensures ClaimBy(s'.txns, row, e) == ClaimBy(s.txns, row, e)
      {
        ClaimElsewhere(s.txns, t, x, row, e);
      }
      SameClaimsMatch(s.txns, s'.txns, row, s.locks[row]);
    }
  }

  lemma GrantedMatches(alg: Algorithm, txns: map<TxnId, Txn>, t: TxnId, x: Txn, row: RowId, lk: Lock, lt: LockType)
    requires t in txns && ClaimOn(txns[t], row) == NoClaim && x.ts == txns[t].ts && lt != LockNone
    requires LockMatches(txns, row, lk) && WellFormed(lk)
    requires var rc := Get(alg, lk, Entry(t, x.ts, lt)).1;
             ClaimOn(x, row) == if rc == RcOk then Owns(lt) else if rc == Wait then Waits(lt) else NoClaim
    ensures WellFormed(Get(alg, lk, Entry(t, x.ts, lt)).0)
    ensures LockMatches(txns[t := x], row, Get(alg, lk, Entry(t, x.ts, lt)).0)
  {
    var e, lk' := Entry(t, x.ts, lt), Get(alg, lk, Entry(t, x.ts, lt)).0;
    forall y | Listed(lk, y)
      ensures y.txn != t
    {
      assert EntryMatches(ClaimBy(txns, row, y), lk, y);
    }
    GetKeeps(alg, lk, e);
    var txns' := txns[t := x];
    forall y: Entry
      ensures EntryMatches(ClaimBy(txns', row, y), lk', y)
    {
      assert EntryMatches(ClaimBy(txns, row, y), lk, y);
    }
  }

  lemma OtherRowsMatch(txns: map<TxnId, Txn>, t: TxnId, x: Txn, r: RowId, lk: Lock)
    requires t in txns && x.ts == txns[t].ts && ClaimOn(x, r) == ClaimOn(txns[t], r)
    requires LockMatches(txns, r, lk)
    ensures LockMatches(txns[t := x], r, lk)
  {
    var txns' := txns[t := x];
    forall e
      ensures ClaimBy(txns', r, e) == ClaimBy(txns, r, e)
    {
      ClaimElsewhere(txns, t, x, r, e);
    }
    SameClaimsMatch(txns, txns', r, lk);
  }

  lemma RequestedTxn(x: Txn, phase: Phase, ready: bool, row: RowId)
    requires TxnOk(x) && x.phase.Active? && AccessKind(x.accesses, row).None?
    requires phase.Aborting? || ((phase.Granted? || phase.Waiting?) && phase.row == row)
    ensures TxnOk(x.(phase := phase, ready := ready))
    ensures ClaimOn(x, row) == NoClaim
    ensures SameClaimsBut(x, x.(phase := phase, ready := ready), row)
  {
  }

  // A step of t that changes one lock and the claim of t on it.
  lemma OneLockStep(s: State, t: TxnId, x: Txn, row: RowId, lk: Lock, s': State)
    requires LockInv(s) && t in s.txns && row in s.locks
    requires s' == s.(locks := s.locks[row := lk], txns := s.txns[t := x])
    requires WellFormed(lk) && LockMatches(s'.txns, row, lk)
    requires TxnOk(x) && x.ts == s.txns[t].ts
    requires SameClaimsBut(s.txns[t], x, row)
    ensures LockInv(s')
  {
    hide LockMatches, WellFormed, TxnOk, ClaimOn;
    forall r | r in s.locks && r != row
      ensures LockMatches(s'.txns, r, s.locks[r])
    {
      OtherRowsMatch(s.txns, t, x, r, s.locks[r]);
    }
  }

  lemma RequestMatches(alg: Algorithm, txns: map<TxnId, Txn>, t: TxnId, row: RowId, kind: AccessType, lk: Lock, x: Txn)
    requires t in txns && TxnOk(txns[t]) && WellFormed(lk) && LockMatches(txns, row, lk)
    requires txns[t].phase.Active? && AccessKind(txns[t].accesses, row).None?
    requires x == RequestedBy(alg, lk, t, txns[t], row, kind)
    ensures TxnOk(x) && x.ts == txns[t].ts && SameClaimsBut(txns[t], x, row)
    ensures WellFormed(Get(alg, lk, Entry(t, x.ts, LockOf(kind))).0)
    ensures LockMatches(txns[t := x], row, Get(alg, lk, Entry(t, x.ts, LockOf(kind))).0)
  {
    RequestedTxn(txns[t], x.phase, x.ready, row);
    GrantedMatches(alg, txns, t, x, row, lk, LockOf(kind));
  }

  lemma RequestKeepsLocks(alg: Algorithm, s: State, t: TxnId, row: RowId, kind: AccessType)
    requires LockInv(s) && t in s.txns && row in s.locks
    requires s.txns[t].phase.Active? && AccessKind(s.txns[t].accesses, row).None?
    ensures LockInv(RequestRow(alg, s, t, row, kind))
  {
    var x := RequestedBy(alg, s.locks[row], t, s.txns[t], row, kind);
    RequestMatches(alg, s.txns, t, row, kind, s.locks[row], x);
    OneLockStep(s, t, x, row, Get(alg, s.locks[row], Entry(t, s.txns[t].ts, LockOf(kind))).0, RequestRow(alg, s, t, row, kind));
  }

  // Where the entries of a lock go when t releases it.
  lemma ReleaseSplits(before: Lock, t: TxnId, e: Entry)
    requires WellFormed(before)
    ensures var after := Release(before, t);
            && (e in after.owners <==> e.txn != t && (e in before.owners || (e in before.waiters && Promoted(before, after, e.txn))))
            && (e in after.waiters <==> e.txn != t && e in before.waiters && !Promoted(before, after, e.txn))
  {
    ReleaseKeeps(before, t);
    var after := Release(before, t);
    assert Listed(after, e) <==> Listed(before, e) && e.txn != t;
    if f :| f in before.waiters && f in after.owners && f.txn == e.txn {
      assert Listed(after, f) <==> Listed(before, f) && f.txn != t;
    }
  }

  // Setting the flag of a waiter turns what it waits for into what it owns.
  lemma NotifiedClaim(x: Txn, row: RowId, r: RowId)
    requires ClaimOn(x, row).Waits?
    ensures ClaimOn(x.(ready := true), r) == if r == row then Owns(ClaimOn(x, row).lockType) else ClaimOn(x, r)
  {
  }

  lemma NotifiedClaimBy(txns: map<TxnId, Txn>, t: TxnId, x: Txn, row: RowId, before: Lock, after: Lock, r: RowId, e: Entry)
    requires t in txns && x.ts == txns[t].ts && LockMatches(txns, row, before)
    requires ClaimOn(x, r) == if r == row then NoClaim else ClaimOn(txns[t], r)
    ensures var c := ClaimBy(txns, r, e);
            ClaimBy(Notify(txns, before, after)[t := x], r, e) ==
            if r != row then c else if e.txn == t then NoClaim
            else if c.Waits? && Promoted(before, after, e.txn) then Owns(c.lockType) else c
  {
    if e.txn != t && e.txn in txns && Promoted(before, after, e.txn) {
      var f :| f in before.waiters && f in after.owners && f.txn == e.txn;
      assert EntryMatches(ClaimBy(txns, row, f), before, f);
      NotifiedClaim(txns[e.txn], row, r);
    }
  }

  lemma ReleasedMatches(txns: map<TxnId, Txn>, t: TxnId, x: Txn, row: RowId, before: Lock)
    requires t in txns && x.ts == txns[t].ts && ClaimOn(x, row) == NoClaim
    requires LockMatches(txns, row, before) && WellFormed(before)
    ensures WellFormed(Release(before, t))
    ensures LockMatches(Notify(txns, before, Release(before, t))[t := x], row, Release(before, t))
  {
    var after := Release(before, t);
    ReleaseKeeps(before, t);
    var txns' := Notify(txns, before, after)[t := x];
    forall e: Entry
      ensures EntryMatches(ClaimBy(txns', row, e), after, e)
    {
      assert EntryMatches(ClaimBy(txns, row, e), before, e);
      ReleaseSplits(before, t, e);
      NotifiedClaimBy(txns, t, x, row, before, after, row, e);
    }
  }

  lemma NotifiedTxn(txns: map<TxnId, Txn>, row: RowId, before: Lock, after: Lock, u: TxnId)
    requires u in txns && TxnOk(txns[u]) && LockMatches(txns, row, before)
    ensures TxnOk(Notify(txns, before, after)[u])
    ensures forall r :: ClaimOn(Notify(txns, before, after)[u], r) != NoClaim ==> ClaimOn(txns[u], r) != NoClaim
  {
    if Promoted(before, after, u) {
      var f :| f in before.waiters && f in after.owners && f.txn == u;
      assert EntryMatches(ClaimBy(txns, row, f), before, f);
      forall r
        ensures ClaimOn(txns[u].(ready := true), r) != NoClaim ==> ClaimOn(txns[u], r) != NoClaim
      {
        NotifiedClaim(txns[u], row, r);
      }
    }
  }

  lemma UnreleasedMatches(txns: map<TxnId, Txn>, t: TxnId, x: Txn, row: RowId, before: Lock, after: Lock, r: RowId, lk: Lock)
    requires t in txns && x.ts == txns[t].ts && LockMatches(txns, row, before) && r != row
    requires ClaimOn(x, r) == ClaimOn(txns[t], r) && LockMatches(txns, r, lk)
    ensures LockMatches(Notify(txns, before, after)[t := x], r, lk)
  {
    var txns' := Notify(txns, before, after)[t := x];
    forall e
      ensures ClaimBy(txns', r, e) == ClaimBy(txns, r, e)
    {
      NotifiedClaimBy(txns, t, x, row, before, after, r, e);
    }
    SameClaimsMatch(txns, txns', r, lk);
  }

  lemma OneReleaseStep(s: State, t: TxnId, x: Txn, row: RowId, after: Lock, s': State)
    requires LockInv(s) && t in s.txns && row in s.locks
    requires s' == s.(locks := s.locks[row := after], txns := Notify(s.txns, s.locks[row], after)[t := x])
    requires WellFormed(after) && LockMatches(s'.txns, row, after)
    requires TxnOk(x) && x.ts == s.txns[t].ts
    requires ClaimOn(x, row) == NoClaim && SameClaimsBut(s.txns[t], x, row)
    ensures LockInv(s')
  {
    hide LockMatches, WellFormed, TxnOk, ClaimOn;
    var before := s.locks[row];
    forall r | r in s.locks && r != row
      ensures LockMatches(s'.txns, r, s.locks[r])
    {
      UnreleasedMatches(s.txns, t, x, row, before, after, r, s.locks[r]);
    }
    forall u | u in s.txns && u != t
      ensures TxnOk(s'.txns[u])
      ensures forall r :: ClaimOn(s'.txns[u], r) != NoClaim ==> r in s.locks
    {
      NotifiedTxn(s.txns, row, before, after, u);
    }
  }

  // lock_release by t of the row it claims: the other claims on the row are
  // unchanged except that promoted waiters have become owners.
  lemma ReleaseKeepsLocks(s: State, t: TxnId, row: RowId, x: Txn)
    requires LockInv(s) && row in s.locks && t in s.txns && TxnOk(x) && x.ts == s.txns[t].ts
    requires ClaimOn(x, row) == NoClaim && SameClaimsBut(s.txns[t], x, row)
    ensures LockInv(ReleaseRow(s, t, row, x))
  {
    ReleasedMatches(s.txns, t, x, row, s.locks[row]);
    OneReleaseStep(s, t, x, row, Release(s.locks[row], t), ReleaseRow(s, t, row, x));
  }
}
