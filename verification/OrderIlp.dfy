// The integer program for statement orders (generate_ilp.cpp): the rows it
// emits, and which ranks they allow.

module OrderIlp {
  // The constant that switches a row off.
  const M: int := 10000

  datatype Indicator = NoIndicator | E(k: nat) | C(k: nat)

  // q[plus] - q[minus] + coef * indicator >= bound
  datatype Row = Row(plus: nat, minus: nat, coef: int, ind: Indicator, bound: int)

  // Def-use pairs (def, use) and triples (def, use, other def).
  datatype Problem = Problem(n: nat, deps: seq<(nat, nat)>, rds: seq<(nat, nat, nat)>)

  ghost predicate WellFormed(p: Problem) {
    && (forall i :: 0 <= i < |p.deps| ==> p.deps[i].0 < p.n && p.deps[i].1 < p.n)
    && (forall i :: 0 <= i < |p.rds| ==> p.rds[i].0 < p.n && p.rds[i].1 < p.n && p.rds[i].2 < p.n)
  }

  // ---------------------------------------------------------------------
  // The rows
  // ---------------------------------------------------------------------

  // Of any two ranks one is larger: e says which.
  function HelperRows(n: nat, i: nat, j: nat): seq<Row> {
    [Row(i, j, M, E(i * n + j), 1), Row(j, i, -M, E(i * n + j), 1 - M)]
  }

  function DepRow(d: (nat, nat)): Row {
    Row(d.1, d.0, 0, NoIndicator, 1)
  }

  // The other def comes before the def or after the use: c says which.
  function RdRows(i: nat, rd: (nat, nat, nat)): seq<Row> {
    [Row(rd.0, rd.2, M, C(i), 1), Row(rd.2, rd.1, -M, C(i), 1 - M)]
  }

  function HelpersOf(n: nat, i: nat, j: nat): seq<Row> {
    if j == 0 then [] else HelpersOf(n, i, j - 1) + HelperRows(n, i, j - 1)
  }

  function Helpers(n: nat, i: nat): seq<Row> {
    if i == 0 then [] else Helpers(n, i - 1) + HelpersOf(n, i - 1, i - 1)
  }

  function Deps(deps: seq<(nat, nat)>, k: nat): seq<Row>
    requires k <= |deps|
  {
    if k == 0 then [] else Deps(deps, k - 1) + [DepRow(deps[k - 1])]
  }

  function Rds(rds: seq<(nat, nat, nat)>, k: nat): seq<Row>
    requires k <= |rds|
  {
    if k == 0 then [] else Rds(rds, k - 1) + RdRows(k - 1, rds[k - 1])
  }

  function Rows(p: Problem): seq<Row> {
    Helpers(p.n, p.n) + Deps(p.deps, |p.deps|) + Rds(p.rds, |p.rds|)
  }

  // The loops that print the program.
  method EmitRows(p: Problem) returns (rows: seq<Row>)
    ensures rows == Rows(p)
  {
    rows := [];
    var i := 0;
    while i < p.n
      invariant i <= p.n && rows == Helpers(p.n, i)
    {
      var j := 0;
      while j < i
        invariant j <= i && rows == Helpers(p.n, i) + HelpersOf(p.n, i, j)
      {
        var x := i * p.n + j;
        rows := rows + [Row(i, j, M, E(x), 1)];
        rows := rows + [Row(j, i, -M, E(x), 1 - M)];
        j := j + 1;
      }
      i := i + 1;
    }
    i := 0;
    while i < |p.deps|
      invariant i <= |p.deps| && rows == Helpers(p.n, p.n) + Deps(p.deps, i)
    {
      rows := rows + [Row(p.deps[i].1, p.deps[i].0, 0, NoIndicator, 1)];
      i := i + 1;
    }
    i := 0;
    while i < |p.rds|
      invariant i <= |p.rds| && rows == Helpers(p.n, p.n) + Deps(p.deps, |p.deps|) + Rds(p.rds, i)
    {
      rows := rows + [Row(p.rds[i].0, p.rds[i].2, M, C(i), 1)];
      rows := rows + [Row(p.rds[i].2, p.rds[i].1, -M, C(i), 1 - M)];
      i := i + 1;
    }
  }

  // ---------------------------------------------------------------------
  // Solutions
  // ---------------------------------------------------------------------

  ghost predicate Binary(xs: seq<int>) {
    forall i :: 0 <= i < |xs| ==> 0 <= xs[i] <= 1
  }

  function At(xs: seq<int>, k: nat): int {
    if k < |xs| then xs[k] else 0
  }

  function Value(ind: Indicator, e: seq<int>, c: seq<int>): int {
    match ind
    case NoIndicator => 0
    case E(k) => At(e, k)
    case C(k) => At(c, k)
  }

  predicate Holds(row: Row, q: seq<int>, e: seq<int>, c: seq<int>) {
    At(q, row.plus) - At(q, row.minus) + row.coef * Value(row.ind, e, c) >= row.bound
  }

  ghost predicate AllHold(rows: seq<Row>, q: seq<int>, e: seq<int>, c: seq<int>) {
    forall r :: r in rows ==> Holds(r, q, e, c)
  }

  ghost predicate Ranks(n: nat, q: seq<int>) {
    |q| == n && forall i :: 0 <= i < n ==> 0 <= q[i] <= n
  }

  // q, e, c solve the integer program.
  ghost predicate Feasible(p: Problem, q: seq<int>, e: seq<int>, c: seq<int>) {
    && Ranks(p.n, q) && |e| == p.n * p.n && |c| == |p.rds| && Binary(e) && Binary(c)
    && AllHold(Rows(p), q, e, c)
  }

  ghost predicate DistinctRanks(q: seq<int>) {
    forall i, j :: 0 <= i < j < |q| ==> q[i] != q[j]
  }

  // What the program is for.
  ghost predicate Legal(p: Problem, q: seq<int>)
    requires WellFormed(p)
  {
    && Ranks(p.n, q) && DistinctRanks(q)
    && (forall i :: 0 <= i < |p.deps| ==> q[p.deps[i].0] < q[p.deps[i].1])
    && (forall i :: 0 <= i < |p.rds| ==> q[p.rds[i].2] < q[p.rds[i].0] || q[p.rds[i].2] > q[p.rds[i].1])
  }

  lemma {:induction false} HelpersOfHold(n: nat, i: nat, m: nat, q: seq<int>, e: seq<int>, c: seq<int>)
    ensures AllHold(HelpersOf(n, i, m), q, e, c) <==> forall j :: 0 <= j < m ==> AllHold(HelperRows(n, i, j), q, e, c)
  {
    if m > 0 {
      HelpersOfHold(n, i, m - 1, q, e, c);
    }
  }

  lemma {:induction false} HelpersHold(n: nat, m: nat, q: seq<int>, e: seq<int>, c: seq<int>)
    ensures AllHold(Helpers(n, m), q, e, c) <==> forall i, j :: 0 <= j < i < m ==> AllHold(HelperRows(n, i, j), q, e, c)
  {
    if m > 0 {
      HelpersHold(n, m - 1, q, e, c);
      HelpersOfHold(n, m - 1, m - 1, q, e, c);
    }
  }

  lemma {:induction false} DepsHold(deps: seq<(nat, nat)>, m: nat, q: seq<int>, e: seq<int>, c: seq<int>)
    requires m <= |deps|
    ensures AllHold(Deps(deps, m), q, e, c) <==> forall i :: 0 <= i < m ==> Holds(DepRow(deps[i]), q, e, c)
  {
    if m > 0 {
      DepsHold(deps, m - 1, q, e, c);
    }
  }

  lemma {:induction false} RdsHold(rds: seq<(nat, nat, nat)>, m: nat, q: seq<int>, e: seq<int>, c: seq<int>)
    requires m <= |rds|
    ensures AllHold(Rds(rds, m), q, e, c) <==> forall i :: 0 <= i < m ==> AllHold(RdRows(i, rds[i]), q, e, c)
  {
    if m > 0 {
      RdsHold(rds, m - 1, q, e, c);
    }
  }

  lemma RowsHold(p: Problem, q: seq<int>, e: seq<int>, c: seq<int>)
    ensures AllHold(Rows(p), q, e, c) <==>
            && (forall i, j :: 0 <= j < i < p.n ==> AllHold(HelperRows(p.n, i, j), q, e, c))
            && (forall i :: 0 <= i < |p.deps| ==> Holds(DepRow(p.deps[i]), q, e, c))
            && (forall i :: 0 <= i < |p.rds| ==> AllHold(RdRows(i, p.rds[i]), q, e, c))
  {
    HelpersHold(p.n, p.n, q, e, c);
    DepsHold(p.deps, |p.deps|, q, e, c);
    RdsHold(p.rds, |p.rds|, q, e, c);
  }

  // ---------------------------------------------------------------------
  // The program is exact
  // ---------------------------------------------------------------------

  lemma FeasibleIsLegal(p: Problem, q: seq<int>, e: seq<int>, c: seq<int>)
    requires WellFormed(p) && Feasible(p, q, e, c)
    ensures Legal(p, q)
  {
    RowsHold(p, q, e, c);
    forall i, j | 0 <= j < i < p.n
      ensures q[i] != q[j]
    {
      var rows := HelperRows(p.n, i, j);
      assert AllHold(rows, q, e, c) && rows[0] in rows && rows[1] in rows;
      assert Holds(rows[0], q, e, c) && Holds(rows[1], q, e, c);
      AtBinary(e, i * p.n + j);
    }
    forall i | 0 <= i < |p.deps|
      ensures q[p.deps[i].0] < q[p.deps[i].1]
    {
      assert Holds(DepRow(p.deps[i]), q, e, c);
    }
    forall i | 0 <= i < |p.rds|
      ensures q[p.rds[i].2] < q[p.rds[i].0] || q[p.rds[i].2] > q[p.rds[i].1]
    {
      var rows := RdRows(i, p.rds[i]);
      assert AllHold(rows, q, e, c) && rows[0] in rows && rows[1] in rows;
      assert Holds(rows[0], q, e, c) && Holds(rows[1], q, e, c);
      AtBinary(c, i);
    }
  }

  lemma AtBinary(xs: seq<int>, k: nat)
    requires Binary(xs)
    ensures At(xs, k) == 0 || At(xs, k) == 1
  {
  }

  lemma PairIndex(n: nat, i: nat, j: nat)
    requires i < n && j < n
    ensures 0 <= i * n + j < n * n && (i * n + j) / n == i && (i * n + j) % n == j
  {
    var x := i * n + j;
    assert i * n <= (n - 1) * n;
    DivModUnique(x, n, i, j);
  }

  lemma {:induction false} MulNonNegative(a: nat, n: nat)
    ensures a * n >= 0
  {
    if a > 0 {
      MulNonNegative(a - 1, n);
      assert a * n == (a - 1) * n + n;
    }
  }

  lemma MulAtLeast(d: int, n: nat)
    ensures d > 0 ==> d * n >= n
    ensures d < 0 ==> d * n + n <= 0
  {
    if d > 0 {
      MulNonNegative(d - 1, n);
      assert d * n == (d - 1) * n + n;
    } else if d < 0 {
      MulNonNegative(-d - 1, n);
      assert (-d - 1) * n == -(d * n) - n;
    }
  }

  lemma DivModUnique(x: nat, n: nat, i: nat, j: nat)
    requires j < n && x == i * n + j
    ensures x / n == i && x % n == j
  {
    var d, r := x / n, x % n;
    assert d * n + r == i * n + j;
    assert (d - i) * n == d * n - i * n;
    MulAtLeast(d - i, n);
  }

  // The indicators that go with legal ranks.
  function ChooseE(n: nat, q: seq<int>): (e: seq<int>)
    requires |q| == n
    ensures |e| == n * n && Binary(e)
  {
    if n == 0 then []
    else seq(n * n, x requires 0 <= x => if q[x % n] < At(q, x / n) then 0 else 1)
  }

  function ChooseC(p: Problem, q: seq<int>): (c: seq<int>)
    ensures |c| == |p.rds| && Binary(c)
  {
    seq(|p.rds|, i requires 0 <= i < |p.rds| => if At(q, p.rds[i].2) < At(q, p.rds[i].0) then 0 else 1)
  }

  lemma HelperChosen(n: nat, q: seq<int>, c: seq<int>, i: nat, j: nat)
    requires n < M && Ranks(n, q) && DistinctRanks(q) && j < i < n
    ensures AllHold(HelperRows(n, i, j), q, ChooseE(n, q), c)
  {
    PairIndex(n, i, j);
    assert At(ChooseE(n, q), i * n + j) == if q[j] < q[i] then 0 else 1;
  }

  lemma LegalIsFeasible(p: Problem, q: seq<int>)
    requires WellFormed(p) && p.n < M && Legal(p, q)
    ensures Feasible(p, q, ChooseE(p.n, q), ChooseC(p, q))
  {
    var e, c := ChooseE(p.n, q), ChooseC(p, q);
    forall i, j | 0 <= j < i < p.n
      ensures AllHold(HelperRows(p.n, i, j), q, e, c)
    {
      HelperChosen(p.n, q, c, i, j);
    }
    forall i | 0 <= i < |p.rds|
      ensures AllHold(RdRows(i, p.rds[i]), q, e, c)
    {
      assert At(c, i) == c[i];
    }
    RowsHold(p, q, e, c);
  }

  // For fewer than M statements the ranks of the solutions are exactly the
  // distinct ranks in range that put every def before its use and keep every
  // other def of the variable out of the stretch from the def to the use.
  lemma IlpIsExact(p: Problem, q: seq<int>)
    requires WellFormed(p) && p.n < M
    ensures (exists e, c :: Feasible(p, q, e, c)) <==> Legal(p, q)
  {
    if e, c :| Feasible(p, q, e, c) {
      FeasibleIsLegal(p, q, e, c);
    }
    if Legal(p, q) {
      LegalIsFeasible(p, q);
    }
  }

  lemma RowForbids(n: nat, q: seq<int>, e: seq<int>, c: seq<int>)
    requires M <= n == |q| && q[0] == n && q[1] == 0 && Binary(e)
    ensures !AllHold(HelperRows(n, 1, 0), q, e, c)
  {
    var rows := HelperRows(n, 1, 0);
    assert rows[0] in rows && rows[1] in rows;
    AtBinary(e, 1 * n + 0);
  }

  lemma FeasibleHelper(p: Problem, q: seq<int>, e: seq<int>, c: seq<int>, i: nat, j: nat)
    requires Feasible(p, q, e, c) && j < i < p.n
    ensures AllHold(HelperRows(p.n, i, j), q, e, c)
  {
    RowsHold(p, q, e, c);
  }

  // The bound on the number of statements is needed: from M statements on there
  // are legal ranks that the row meant to be switched off forbids.
  lemma BoundIsNeeded(n: nat, q: seq<int>)
    requires M <= n == |q| && q[0] == n && forall i :: 0 < i < n ==> q[i] == i - 1
    ensures Legal(Problem(n, [], []), q) && !exists e, c :: Feasible(Problem(n, [], []), q, e, c)
  {
    forall e, c
      ensures !Feasible(Problem(n, [], []), q, e, c)
    {
      if Feasible(Problem(n, [], []), q, e, c) {
        RowForbids(n, q, e, c);
        FeasibleHelper(Problem(n, [], []), q, e, c, 1, 0);
      }
    }
  }
}
