// The sort of a transaction's accesses before validation (occ.cpp).

module AccessOrder {
  // Tables are compared by name, as strcmp does, then rows by primary key.
  datatype RowKey = RowKey(table: string, key: nat)

  function StrCmp(a: string, b: string): int {
    if a == [] then (if b == [] then 0 else -1)
    else if b == [] then 1
    else if a[0] < b[0] then -1
    else if a[0] > b[0] then 1
    else StrCmp(a[1..], b[1..])
  }

  predicate Less(a: RowKey, b: RowKey) {
    StrCmp(a.table, b.table) < 0 || (StrCmp(a.table, b.table) == 0 && a.key < b.key)
  }

  // The test of the sort: a has to move behind b.
  predicate After(a: RowKey, b: RowKey) {
    StrCmp(a.table, b.table) > 0 || (StrCmp(a.table, b.table) == 0 && a.key > b.key)
  }

  lemma {:induction false} StrCmpFlips(a: string, b: string)
    ensures StrCmp(a, b) == -StrCmp(b, a)
    ensures StrCmp(a, b) == 0 <==> a == b
  {
    if a != [] && b != [] && a[0] == b[0] {
      StrCmpFlips(a[1..], b[1..]);
      assert a == [a[0]] + a[1..] && b == [b[0]] + b[1..];
    }
  }

  lemma {:induction false} StrCmpTransitive(a: string, b: string, c: string)
    requires StrCmp(a, b) <= 0 && StrCmp(b, c) <= 0
    ensures StrCmp(a, c) <= 0
    ensures StrCmp(a, b) < 0 || StrCmp(b, c) < 0 ==> StrCmp(a, c) < 0
  {
    if a != [] && b != [] && c != [] && a[0] == b[0] == c[0] {
      StrCmpTransitive(a[1..], b[1..], c[1..]);
    }
  }

  // Less is a strict total order, and After is its converse.
  lemma LessIsOrder(a: RowKey, b: RowKey, c: RowKey)
    ensures !Less(a, a)
    ensures Less(a, b) && Less(b, c) ==> Less(a, c)
    ensures Less(a, b) || Less(b, a) || a == b
    ensures After(a, b) <==> Less(b, a)
    ensures !Less(b, a) && !Less(c, b) ==> !Less(c, a)
  {
    StrCmpFlips(a.table, b.table);
    StrCmpFlips(a.table, a.table);
    StrCmpFlips(b.table, c.table);
    StrCmpFlips(a.table, c.table);
    if StrCmp(a.table, b.table) <= 0 && StrCmp(b.table, c.table) <= 0 {
      StrCmpTransitive(a.table, b.table, c.table);
    }
    if StrCmp(c.table, b.table) <= 0 && StrCmp(b.table, a.table) <= 0 {
      StrCmpTransitive(c.table, b.table, a.table);
    }
  }

  // a and b agree on their first k characters and a is first at the next
  // one: it ends there, or its character is the smaller one.
  ghost predicate FirstAt(a: string, b: string, k: nat) {
    k <= |a| && k < |b| && a[..k] == b[..k] && (k < |a| ==> a[k] < b[k])
  }

  lemma {:induction false} StrCmpIsLexicographic(a: string, b: string)
    ensures StrCmp(a, b) < 0 <==> exists k: nat :: FirstAt(a, b, k)
  {
    if a == [] && b != [] {
      assert FirstAt(a, b, 0);
    } else if a != [] && b != [] && a[0] < b[0] {
      assert FirstAt(a, b, 0);
    } else if a != [] && b != [] && a[0] == b[0] {
      StrCmpIsLexicographic(a[1..], b[1..]);
      if k: nat :| FirstAt(a[1..], b[1..], k) {
        assert a[..k + 1] == [a[0]] + a[1..][..k] && b[..k + 1] == [b[0]] + b[1..][..k];
        assert FirstAt(a, b, k + 1);
      }
      if k: nat :| FirstAt(a, b, k) {
        assert a[1..][..k - 1] == a[..k][1..] && b[1..][..k - 1] == b[..k][1..];
        assert FirstAt(a[1..], b[1..], k - 1);
      }
    } else {
      assert forall k: nat :: FirstAt(a, b, k) && k > 0 ==> a[..k][0] == b[..k][0];
    }
  }

  // Rows of different tables are ordered by the names of the tables alone,
  // rows of one table by their keys.
  lemma LessByTable(a: RowKey, b: RowKey)
    ensures a.table == b.table ==> (Less(a, b) <==> a.key < b.key)
    ensures a.table != b.table ==> (Less(a, b) <==> exists k: nat :: FirstAt(a.table, b.table, k))
  {
    StrCmpFlips(a.table, b.table);
    StrCmpIsLexicographic(a.table, b.table);
  }

  datatype Keyed<T> = Keyed(key: RowKey, item: T)

  ghost predicate SortedFrom<T>(s: seq<Keyed<T>>, lo: nat) {
    forall i, j :: lo <= i < j < |s| ==> !Less(s[j].key, s[i].key)
  }

  ghost predicate Sorted<T>(s: seq<Keyed<T>>) {
    SortedFrom(s, 0)
  }

  // Everything before position m is no larger than everything from m on.
  ghost predicate SplitAt<T>(s: seq<Keyed<T>>, m: nat) {
    forall i, j :: 0 <= i < m <= j < |s| ==> !Less(s[j].key, s[i].key)
  }

  // The element at position j is no smaller than the ones before it.
  ghost predicate TopAt<T>(s: seq<Keyed<T>>, j: nat) {
    j < |s| && forall i :: 0 <= i < j ==> !Less(s[j].key, s[i].key)
  }

  function Swapped<T>(s: seq<T>, j: nat): seq<T>
    requires j + 1 < |s|
  {
    s[j := s[j + 1]][j + 1 := s[j]]
  }

  lemma SwapIsPermutation<T>(s: seq<T>, j: nat)
    requires j + 1 < |s|
    ensures multiset(Swapped(s, j)) == multiset(s)
  {
    assert s == s[..j] + [s[j], s[j + 1]] + s[j + 2..];
    assert Swapped(s, j) == s[..j] + [s[j + 1], s[j]] + s[j + 2..];
  }

  // One comparison of the inner loop.
  function Compared<T>(s: seq<Keyed<T>>, j: nat): seq<Keyed<T>>
    requires j + 1 < |s|
  {
    if After(s[j].key, s[j + 1].key) then Swapped(s, j) else s
  }

  lemma ComparedKeeps<T>(s: seq<Keyed<T>>, j: nat, m: nat)
    requires j + 1 < m <= |s| && TopAt(s, j) && SplitAt(s, m) && SortedFrom(s, m)
    ensures multiset(Compared(s, j)) == multiset(s) && |Compared(s, j)| == |s|
    ensures TopAt(Compared(s, j), j + 1) && SplitAt(Compared(s, j), m) && SortedFrom(Compared(s, j), m)
  {
    SwapIsPermutation(s, j);
    var r := Compared(s, j);
    LessIsOrder(s[j].key, s[j + 1].key, s[j].key);
    forall i | 0 <= i < j + 1
      ensures !Less(r[j + 1].key, r[i].key)
    {
      LessIsOrder(r[i].key, s[j].key, s[j + 1].key);
    }
  }

  lemma PassDone<T>(s: seq<Keyed<T>>, m: nat)
    requires 0 < m <= |s| && TopAt(s, m - 1) && SplitAt(s, m) && SortedFrom(s, m)
    ensures SplitAt(s, m - 1) && SortedFrom(s, m - 1)
  {
  }

  // The bubble sort of per_row_validate. It yields a permutation in
  // (table, key) order.
  method SortAccesses<T>(a: array<Keyed<T>>)
    modifies a
    ensures multiset(a[..]) == multiset(old(a[..]))
    ensures Sorted(a[..])
  {
    var i := a.Length - 1;
    while i > 0
      invariant a.Length == 0 || 0 <= i < a.Length
      invariant multiset(a[..]) == multiset(old(a[..]))
      invariant a.Length > 0 ==> SplitAt(a[..], i + 1) && SortedFrom(a[..], i + 1)
      decreases i
    {
      var j := 0;
      while j < i
        invariant 0 <= j <= i < a.Length
        invariant multiset(a[..]) == multiset(old(a[..]))
        invariant SplitAt(a[..], i + 1) && SortedFrom(a[..], i + 1)
        invariant TopAt(a[..], j)
      {
        ghost var s := a[..];
        ComparedKeeps(s, j, i + 1);
        if After(a[j].key, a[j + 1].key) {
          var tmp := a[j];
          a[j] := a[j + 1];
          a[j + 1] := tmp;
        }
        assert a[..] == Compared(s, j);
        j := j + 1;
      }
      PassDone(a[..], i + 1);
      i := i - 1;
    }
    if a.Length > 0 {
      assert SplitAt(a[..], 1) && SortedFrom(a[..], 1);
    }
  }
}
