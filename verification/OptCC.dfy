// per_row_validate as one transaction runs it: sort, latch and validate in
// order, write under the latches, release.

module OptCC {
  import opened OccRow
  import opened AccessOrder

  datatype Access<Data> = Access(row: RowOcc<Data>, isWrite: bool, data: Data)

  type Accesses<Data> = seq<Keyed<Access<Data>>>

  // The rows of a transaction are distinct.
  ghost predicate DistinctRows<Data>(s: Accesses<Data>) {
    forall i, j :: 0 <= i < j < |s| ==> s[i].item.row != s[j].item.row
  }

  function Rows<Data>(s: Accesses<Data>): (r: set<RowOcc<Data>>)
    ensures forall i :: 0 <= i < |s| ==> s[i].item.row in r
    ensures forall row :: row in r ==> exists i :: 0 <= i < |s| && s[i].item.row == row
  {
    if s == [] then {} else Rows(s[..|s| - 1]) + {s[|s| - 1].item.row}
  }

  // The first n rows, and no others of s, are latched.
  ghost predicate LatchedUpTo<Data>(s: Accesses<Data>, n: nat)
    reads Rows(s)
  {
    forall i :: 0 <= i < |s| ==> (s[i].item.row.latched <==> i < n)
  }

  method LatchAndValidate<Data>(s: Accesses<Data>, startTs: nat) returns (ok: bool, lockCnt: nat)
    requires DistinctRows(s) && LatchedUpTo(s, 0)
    modifies (Rows(s))`latched
    ensures lockCnt <= |s| && LatchedUpTo(s, lockCnt)
    ensures ok <==> forall i :: 0 <= i < |s| ==> s[i].item.row.wts <= startTs
  {
    ok, lockCnt := true, 0;
    while lockCnt < |s| && ok
      invariant lockCnt <= |s| && LatchedUpTo(s, lockCnt)
      invariant ok ==> forall i :: 0 <= i < lockCnt ==> s[i].item.row.wts <= startTs
      invariant !ok ==> exists i :: 0 <= i < |s| && s[i].item.row.wts > startTs
    {
      var row := s[lockCnt].item.row;
      lockCnt := lockCnt + 1;
      row.Latch();
      ok := row.Validate(startTs);
    }
  }

  // cleanup: the accesses are returned last first; only writes of a committed
  // transaction reach their row.
  method ReturnRows<Data>(s: Accesses<Data>, commit: bool, endTs: nat)
    requires DistinctRows(s) && (commit ==> forall i :: 0 <= i < |s| ==> s[i].item.row.wts < endTs)
    modifies (Rows(s))`value, (Rows(s))`wts
    ensures forall i :: 0 <= i < |s| ==>
              var a := s[i].item;
              if commit && a.isWrite then a.row.value == a.data && a.row.wts == endTs
              else a.row.value == old(a.row.value) && a.row.wts == old(a.row.wts)
  {
    var rid := |s| - 1;
    while rid >= 0
      invariant -1 <= rid < |s|
      invariant forall i :: 0 <= i <= rid ==> s[i].item.row.value == old(s[i].item.row.value) && s[i].item.row.wts == old(s[i].item.row.wts)
      invariant forall i :: rid < i < |s| ==>
                  var a := s[i].item;
                  if commit && a.isWrite then a.row.value == a.data && a.row.wts == endTs
                  else a.row.value == old(a.row.value) && a.row.wts == old(a.row.wts)
    {
      var a := s[rid].item;
      if commit && a.isWrite {
        a.row.Write(a.data, endTs);
      }
      rid := rid - 1;
    }
  }

  method ReleaseLatches<Data>(s: Accesses<Data>, lockCnt: nat)
    requires DistinctRows(s) && lockCnt <= |s| && LatchedUpTo(s, lockCnt)
    modifies (Rows(s))`latched
    ensures LatchedUpTo(s, 0)
  {
    var i := 0;
    while i < lockCnt
      invariant 0 <= i <= lockCnt
      invariant forall j :: 0 <= j < |s| ==> (s[j].item.row.latched <==> i <= j < lockCnt)
    {
      s[i].item.row.Release();
      i := i + 1;
    }
  }

  // Validation of the sorted accesses.
  method ValidateSorted<Data>(s: Accesses<Data>, startTs: nat, endTs: nat) returns (ok: bool)
    requires DistinctRows(s) && startTs < endTs
    requires forall a :: a in s ==> !a.item.row.latched && a.item.row.wts < endTs
    modifies Rows(s)
    ensures ok <==> forall a :: a in s ==> old(a.item.row.wts) <= startTs
    ensures forall a :: a in s ==>
              && !a.item.row.latched
              && if ok && a.item.isWrite then a.item.row.value == a.item.data && a.item.row.wts == endTs
                 else a.item.row.value == old(a.item.row.value) && a.item.row.wts == old(a.item.row.wts)
  {
    var lockCnt;
    ok, lockCnt := LatchAndValidate(s, startTs);
    ReturnRows(s, ok, endTs);
    ReleaseLatches(s, lockCnt);
  }

  // The transaction commits exactly when no row it accessed was written after
  // it started; then its writes are in their rows, stamped endTs, and otherwise
  // no row has changed. No latch stays behind.
  method PerRowValidate<Data>(accesses: array<Keyed<Access<Data>>>, startTs: nat, endTs: nat) returns (ok: bool)
    requires DistinctRows(accesses[..]) && startTs < endTs
    requires forall a :: a in accesses[..] ==> !a.item.row.latched && a.item.row.wts < endTs
    modifies accesses, Rows(accesses[..])
    ensures Sorted(accesses[..]) && multiset(accesses[..]) == multiset(old(accesses[..]))
    ensures ok <==> forall a :: a in old(accesses[..]) ==> old(a.item.row.wts) <= startTs
    ensures forall a :: a in old(accesses[..]) ==>
              && !a.item.row.latched
              && if ok && a.item.isWrite then a.item.row.value == a.item.data && a.item.row.wts == endTs
                 else a.item.row.value == old(a.item.row.value) && a.item.row.wts == old(a.item.row.wts)
  {
    hide Sorted, SortedFrom;
    ghost var before := accesses[..];
    SortAccesses(accesses);
    var s := accesses[..];
    PermutedRows(before, s);
    ok := ValidateSorted(s, startTs, endTs);
  }

  lemma SameMembers<Data>(s: Accesses<Data>, t: Accesses<Data>)
    requires multiset(s) == multiset(t)
    ensures |s| == |t| && forall a :: a in t <==> a in s
  {
    assert |s| == |multiset(s)| && |t| == |multiset(t)|;
    assert forall a :: a in t <==> a in multiset(t);
  }

  lemma RowsGrow<Data>(s: Accesses<Data>, t: Accesses<Data>)
    requires forall a :: a in s ==> a in t
    ensures Rows(s) <= Rows(t)
  {
    forall row | row in Rows(s)
      ensures row in Rows(t)
    {
      var i :| 0 <= i < |s| && s[i].item.row == row;
      assert s[i] in t;
      var j :| 0 <= j < |t| && t[j] == s[i];
    }
  }

  lemma PermutedRows<Data>(s: Accesses<Data>, t: Accesses<Data>)
    requires multiset(s) == multiset(t) && DistinctRows(s)
    ensures |s| == |t| && DistinctRows(t) && Rows(t) == Rows(s)
    ensures forall a :: a in t <==> a in s
  {
    SameMembers(s, t);
    RowsGrow(s, t);
    RowsGrow(t, s);
    forall i, j | 0 <= i < j < |t|
      ensures t[i].item.row != t[j].item.row
    {
      PermutedPair(s, t, i, j);
    }
  }

  lemma OnlyOnce<Data>(s: Accesses<Data>, p: nat)
    requires DistinctRows(s) && p < |s|
    ensures multiset(s)[s[p]] == 1
  {
    assert s == s[..p] + [s[p]] + s[p + 1..];
    var tail := s[p + 1..];
    assert forall i :: 0 <= i < |tail| ==> tail[i] == s[p + 1 + i];
    assert s[p] !in s[..p] && s[p] !in tail;
  }

  lemma Twice<Data>(t: Accesses<Data>, i: nat, j: nat)
    requires i < j < |t| && t[i] == t[j]
    ensures multiset(t)[t[i]] >= 2
  {
    assert t == t[..j] + [t[j]] + t[j + 1..];
    assert t[..j][i] == t[i];
  }

  lemma PermutedPair<Data>(s: Accesses<Data>, t: Accesses<Data>, i: nat, j: nat)
    requires multiset(s) == multiset(t) && DistinctRows(s) && i < j < |t|
    ensures t[i].item.row != t[j].item.row
  {
    assert t[i] in multiset(s) && t[j] in multiset(s);
    var p :| 0 <= p < |s| && s[p] == t[i];
    var q :| 0 <= q < |s| && s[q] == t[j];
    OnlyOnce(s, p);
    if t[i] == t[j] {
      Twice(t, i, j);
    }
  }
}
