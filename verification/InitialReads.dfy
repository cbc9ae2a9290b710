// Reads of initial values under the reordering of straight-line transactions:
// the constraints do not protect them, so what else the program must provide.

module InitialReads {
  import opened Options
  import opened OrderIlp
  import opened StraightLine

  // Block i reads the initial value of v, and block x overwrites it.
  ghost predicate Endangered(prog: seq<Block>, i: nat, v: Var, x: nat) {
    && i < |prog| && v in prog[i].uses && ReachingDef(prog, i, v).None?
    && x < |prog| && x != i && v in prog[x].defs
  }

  // ---------------------------------------------------------------------
  // Precedence that follows from the constraints
  // ---------------------------------------------------------------------

  // Step k of a derivation "a before b": a constraint itself, two earlier
  // steps in a row, or a triple one of whose choices an earlier step excludes.
  ghost predicate Follows(p: Problem, steps: seq<(nat, nat)>, k: nat)
    requires k < |steps|
  {
    var (a, b) := steps[k];
    || (a, b) in p.deps
    || (exists l, m :: 0 <= l < k && 0 <= m < k && steps[l].0 == a && steps[l].1 == steps[m].0 && steps[m].1 == b)
    || (exists l, j :: 0 <= l < k && (j, a, b) in p.rds && steps[l] == (j, b))
    || (exists l, i :: 0 <= l < k && (b, i, a) in p.rds && steps[l] == (a, i))
  }

  ghost predicate Derivation(p: Problem, steps: seq<(nat, nat)>) {
    forall k :: 0 <= k < |steps| ==> Follows(p, steps, k)
  }

  ghost predicate Forced(p: Problem, a: nat, b: nat) {
    exists steps :: Derivation(p, steps) && (a, b) in steps
  }

  predicate Before(p: Problem, q: seq<int>, a: nat, b: nat) {
    a < p.n == |q| && b < |q| && q[a] < q[b]
  }

  lemma DepHolds(p: Problem, q: seq<int>, a: nat, b: nat)
    requires WellFormed(p) && Legal(p, q) && (a, b) in p.deps
    ensures Before(p, q, a, b)
  {
    var i :| 0 <= i < |p.deps| && p.deps[i] == (a, b);
  }

  lemma RdHolds(p: Problem, q: seq<int>, j: nat, i: nat, x: nat)
    requires WellFormed(p) && Legal(p, q) && (j, i, x) in p.rds
    ensures Before(p, q, x, j) || Before(p, q, i, x)
  {
    var k :| 0 <= k < |p.rds| && p.rds[k] == (j, i, x);
  }

  // Every legal choice of ranks respects what is derived.
  lemma {:induction false} DerivedHolds(p: Problem, q: seq<int>, steps: seq<(nat, nat)>, k: nat)
    requires WellFormed(p) && Legal(p, q) && Derivation(p, steps) && k < |steps|
    ensures Before(p, q, steps[k].0, steps[k].1)
    decreases k
  {
    hide WellFormed, Legal;
    var (a, b) := steps[k];
    assert Follows(p, steps, k);
    hide Derivation;
    if (a, b) in p.deps {
      DepHolds(p, q, a, b);
    } else if l, m :| 0 <= l < k && 0 <= m < k && steps[l].0 == a && steps[l].1 == steps[m].0 && steps[m].1 == b {
      DerivedHolds(p, q, steps, l);
      DerivedHolds(p, q, steps, m);
    } else if l, j :| 0 <= l < k && (j, a, b) in p.rds && steps[l] == (j, b) {
      DerivedHolds(p, q, steps, l);
      RdHolds(p, q, j, a, b);
    } else {
      var l, i :| 0 <= l < k && (b, i, a) in p.rds && steps[l] == (a, i);
      DerivedHolds(p, q, steps, l);
      RdHolds(p, q, b, i, a);
    }
  }

  // Whoever overwrites a variable is forced behind all who read its initial
  // value; so it is when nobody overwrites what is read.
  ghost predicate Guarded(prog: seq<Block>, p: Problem) {
    forall i, v, x :: Endangered(prog, i, v, x) ==> Forced(p, i, x)
  }

  lemma GuardedKeepsReads(prog: seq<Block>, p: Problem, q: seq<int>)
    requires WellFormed(p) && Legal(p, q) && p.n == |prog| && Guarded(prog, p)
    ensures InitialReadsKept(prog, q)
  {
    forall i, v, x | 0 <= i < |prog| && v in prog[i].uses && ReachingDef(prog, i, v).None?
                     && 0 <= x < |prog| && x != i && v in prog[x].defs
      ensures q[i] < q[x]
    {
      assert Endangered(prog, i, v, x);
      var steps :| Derivation(p, steps) && (i, x) in steps;
      var k :| 0 <= k < |steps| && steps[k] == (i, x);
      DerivedHolds(p, q, steps, k);
    }
  }

  // The whole way from the integer program to the values: in a transaction
  // whose initial reads are guarded every block computes, in the order of any
  // solution, what it computed before.
  lemma SolutionsComputeTheSame(prog: seq<Block>, p: Problem, q: seq<int>, e: seq<int>, c: seq<int>, order: seq<nat>,
                                sem: Semantics, init: Store, i: nat)
    requires Ilp(prog, p) && Feasible(p, q, e, c) && SortedBy(prog, q, order) && i < |prog|
    requires Guarded(prog, p)
    ensures i in Exec(prog, sem, order, init, |prog|).outs && i in Exec(prog, sem, InPlace(|prog|), init, |prog|).outs
    ensures Exec(prog, sem, order, init, |prog|).outs[i] == Exec(prog, sem, InPlace(|prog|), init, |prog|).outs[i]
  {
    IlpWellFormed(prog, p);
    FeasibleIsLegal(p, q, e, c);
    GuardedKeepsReads(prog, p, q);
    KeptOrdersComputeTheSame(prog, p, q, e, c, order, sem, init, i);
  }

  // ---------------------------------------------------------------------
  // When all solutions keep all reads
  // ---------------------------------------------------------------------

  // Where x goes in a list that ascends by q.
  function PlaceIn(q: seq<int>, order: seq<nat>, x: nat): (k: nat)
    requires x < |q| && forall l :: 0 <= l < |order| ==> order[l] < |q|
    ensures k <= |order| && forall l :: 0 <= l < k ==> q[order[l]] < q[x]
    ensures k < |order| ==> q[x] <= q[order[k]]
  {
    if order == [] || q[x] <= q[order[0]] then 0 else 1 + PlaceIn(q, order[1..], x)
  }

  ghost predicate AscendsBy(q: seq<int>, order: seq<nat>) {
    && (forall k :: 0 <= k < |order| ==> order[k] < |q|)
    && forall k, l :: 0 <= k < l < |order| ==> q[order[k]] < q[order[l]]
  }

  lemma PutInOrder(q: seq<int>, rest: seq<nat>, x: nat, k: nat, order: seq<nat>)
    requires AscendsBy(q, rest) && x < |q| && k <= |rest| && order == rest[..k] + [x] + rest[k..]
    requires forall l :: 0 <= l < k ==> q[rest[l]] < q[x]
    requires forall l :: k <= l < |rest| ==> q[x] < q[rest[l]]
    ensures AscendsBy(q, order)
  {
    forall a, b | 0 <= a < b < |order|
      ensures order[a] < |q| && order[b] < |q| && q[order[a]] < q[order[b]]
    {
      var u, w := if a < k then a else a - 1, if b < k then b else b - 1;
      assert a != k ==> order[a] == rest[u];
      assert b != k ==> order[b] == rest[w];
    }
  }

  // The first n blocks by rank.
  lemma {:induction false} RanksHaveOrder(q: seq<int>, n: nat) returns (order: seq<nat>)
    requires DistinctRanks(q) && n <= |q|
    ensures |order| == n && AscendsBy(q, order) && forall k :: 0 <= k < n ==> order[k] < n
  {
    if n == 0 {
      order := [];
    } else {
      var rest := RanksHaveOrder(q, n - 1);
      var k := PlaceIn(q, rest, n - 1);
      order := rest[..k] + [n - 1] + rest[k..];
      forall l | k <= l < n - 1
        ensures q[n - 1] < q[rest[l]]
      {
        assert q[n - 1] != q[rest[l]];
      }
      PutInOrder(q, rest, n - 1, k, order);
    }
  }

  // In every legal choice of ranks a comes before b.
  ghost predicate Implied(p: Problem, a: nat, b: nat)
    requires WellFormed(p) && a < p.n && b < p.n
  {
    forall q :: Legal(p, q) ==> q[a] < q[b]
  }

  // No order the integer program allows changes what a block reads.
  ghost predicate AllOrdersKeepReads(prog: seq<Block>, p: Problem)
    requires WellFormed(p)
  {
    forall q, order :: Legal(p, q) && SortedBy(prog, q, order) ==> KeepsReads(prog, order)
  }

  // The integer program keeps all reads of a transaction exactly when its
  // constraints put every read of an initial value before all overwriters.
  lemma KeptExactlyWhenImplied(prog: seq<Block>, p: Problem)
    requires Ilp(prog, p)
    ensures WellFormed(p)
    ensures AllOrdersKeepReads(prog, p) <==> forall i, v, x :: Endangered(prog, i, v, x) ==> Implied(p, i, x)
  {
    IlpWellFormed(prog, p);
    if AllOrdersKeepReads(prog, p) {
      forall i, v, x, q | Endangered(prog, i, v, x) && Legal(p, q)
        ensures q[i] < q[x]
      {
        var order := RanksHaveOrder(q, |q|);
        assert SortedBy(prog, q, order);
        OrdersAreExact(prog, p, q, order);
      }
    }
    if forall i, v, x :: Endangered(prog, i, v, x) ==> Implied(p, i, x) {
      forall q, order | Legal(p, q) && SortedBy(prog, q, order)
        ensures KeepsReads(prog, order)
      {
        forall i, v, x | 0 <= i < |prog| && v in prog[i].uses && ReachingDef(prog, i, v).None?
                         && 0 <= x < |prog| && x != i && v in prog[x].defs
          ensures q[i] < q[x]
        {
          assert Endangered(prog, i, v, x);
        }
        OrdersAreExact(prog, p, q, order);
      }
    }
  }

  lemma ForcedIsImplied(p: Problem, a: nat, b: nat)
    requires WellFormed(p) && a < p.n && b < p.n && Forced(p, a, b)
    ensures Implied(p, a, b)
  {
    var steps :| Derivation(p, steps) && (a, b) in steps;
    var k :| 0 <= k < |steps| && steps[k] == (a, b);
    forall q | Legal(p, q)
      ensures q[a] < q[b]
    {
      DerivedHolds(p, q, steps, k);
    }
  }

  // ---------------------------------------------------------------------
  // Without triples nothing but derivations is implied
  // ---------------------------------------------------------------------

  lemma DepIsForced(p: Problem, a: nat, b: nat)
    requires (a, b) in p.deps
    ensures Forced(p, a, b)
  {
    assert Follows(p, [(a, b)], 0);
    assert Derivation(p, [(a, b)]);
  }

  lemma FollowsLater(p: Problem, steps: seq<(nat, nat)>, more: seq<(nat, nat)>, k: nat)
    requires k < |steps| <= |more| && more[..|steps|] == steps && Follows(p, steps, k)
    ensures Follows(p, more, k)
  {
    assert forall l :: 0 <= l < |steps| ==> more[l] == more[..|steps|][l];
  }

  // A dependency in front of a derivation.
  lemma ForcedThrough(p: Problem, a: nat, b: nat, c: nat)
    requires (a, b) in p.deps && Forced(p, b, c)
    ensures Forced(p, a, c)
  {
    var steps :| Derivation(p, steps) && (b, c) in steps;
    var m :| 0 <= m < |steps| && steps[m] == (b, c);
    var more := steps + [(a, b), (a, c)];
    forall k | 0 <= k < |more|
      ensures Follows(p, more, k)
    {
      if k < |steps| {
        FollowsLater(p, steps, more, k);
      } else if k == |steps| + 1 {
        assert more[|steps|] == (a, b) && more[m] == (b, c);
      }
    }
    assert Derivation(p, more) && more[|steps| + 1] == (a, c);
  }

  function CountIn(front: set<nat>, b: nat): (c: nat)
    ensures c <= b
  {
    if b == 0 then 0 else CountIn(front, b - 1) + if b - 1 in front then 1 else 0
  }

  lemma {:induction false} CountGrows(front: set<nat>, a: nat, b: nat)
    requires a <= b
    ensures CountIn(front, a) <= CountIn(front, b) <= CountIn(front, a) + b - a
    ensures a < b && a in front ==> CountIn(front, a) < CountIn(front, b)
    ensures a < b && a !in front ==> CountIn(front, b) < CountIn(front, a) + b - a
  {
    if a < b {
      CountGrows(front, a, b - 1);
    }
  }

  // The blocks of front in their order, then the others in theirs.
  function FrontFirst(front: set<nat>, n: nat): (q: seq<int>)
    ensures |q| == n
  {
    seq(n, b requires 0 <= b < n => if b in front then CountIn(front, b) else CountIn(front, n) + b - CountIn(front, b))
  }

  lemma FrontFirstRanks(front: set<nat>, n: nat, a: nat, b: nat)
    requires a < n && b < n
    ensures 0 <= FrontFirst(front, n)[a] <= n
    ensures a in front && b !in front ==> FrontFirst(front, n)[a] < FrontFirst(front, n)[b]
    ensures a < b && (a in front <==> b in front) ==> FrontFirst(front, n)[a] < FrontFirst(front, n)[b]
  {
    CountGrows(front, a, n);
    CountGrows(front, b, n);
    if a < b {
      CountGrows(front, a, b);
    }
  }

  lemma FrontFirstIsLegal(p: Problem, front: set<nat>)
    requires WellFormed(p) && p.rds == []
    requires forall i :: 0 <= i < |p.deps| ==> p.deps[i].0 < p.deps[i].1 && (p.deps[i].1 in front ==> p.deps[i].0 in front)
    ensures Legal(p, FrontFirst(front, p.n))
  {
    var q := FrontFirst(front, p.n);
    forall a, b | 0 <= a < b < p.n
      ensures q[a] != q[b] && 0 <= q[a] <= p.n && 0 <= q[b] <= p.n
    {
      FrontFirstRanks(front, p.n, a, b);
      FrontFirstRanks(front, p.n, b, a);
    }
    forall a | 0 <= a < p.n
      ensures 0 <= q[a] <= p.n
    {
      FrontFirstRanks(front, p.n, a, a);
    }
    forall i | 0 <= i < |p.deps|
      ensures q[p.deps[i].0] < q[p.deps[i].1]
    {
      FrontFirstRanks(front, p.n, p.deps[i].0, p.deps[i].1);
    }
  }

  // If b is not forced behind a, the blocks b needs can all go first.
  lemma ImpliedIsForced(p: Problem, a: nat, b: nat)
    requires WellFormed(p) && p.rds == [] && (forall i :: 0 <= i < |p.deps| ==> p.deps[i].0 < p.deps[i].1)
    requires a < p.n && b < p.n && a != b && Implied(p, a, b)
    ensures Forced(p, a, b)
  {
    if !Forced(p, a, b) {
      var front := set x: nat | x < p.n && (x == b || Forced(p, x, b));
      forall i | 0 <= i < |p.deps| && p.deps[i].1 in front
        ensures p.deps[i].0 in front
      {
        var (c, d) := p.deps[i];
        assert (c, d) in p.deps;
        if d == b {
          DepIsForced(p, c, d);
        } else {
          ForcedThrough(p, c, d, b);
        }
      }
      FrontFirstIsLegal(p, front);
      FrontFirstRanks(front, p.n, b, a);
    }
  }

  // So for a transaction whose constraints have no triples - no definition that
  // is read shares its variable with a third block - the integer program keeps
  // all reads exactly when the transaction is guarded.
  lemma GuardIsExact(prog: seq<Block>, p: Problem)
    requires Ilp(prog, p)
    ensures WellFormed(p)
    ensures Guarded(prog, p) ==> AllOrdersKeepReads(prog, p)
    ensures p.rds == [] && AllOrdersKeepReads(prog, p) ==> Guarded(prog, p)
  {
    IlpWellFormed(prog, p);
    KeptExactlyWhenImplied(prog, p);
    forall i, v, x | Endangered(prog, i, v, x)
      ensures Forced(p, i, x) ==> Implied(p, i, x)
      ensures p.rds == [] && Implied(p, i, x) ==> Forced(p, i, x)
    {
      if Forced(p, i, x) {
        ForcedIsImplied(p, i, x);
      }
      if p.rds == [] && Implied(p, i, x) {
        forall k | 0 <= k < |p.deps|
          ensures p.deps[k].0 < p.deps[k].1
        {
          assert (p.deps[k].0, p.deps[k].1) in p.deps;
        }
        ImpliedIsForced(p, i, x);
      }
    }
  }

  // ---------------------------------------------------------------------
  // Keeping the reads is what keeps the values
  // ---------------------------------------------------------------------

  // Every block finds the values it found before, whatever the blocks compute.
  ghost predicate KeepsInputs(prog: seq<Block>, order: seq<nat>)
    requires IsOrder(prog, order)
  {
    forall sem, init, k :: 0 <= k < |order| ==> SameInputs(prog, sem, order, init, k)
  }

  ghost predicate SameInputs(prog: seq<Block>, sem: Semantics, order: seq<nat>, init: Store, k: nat)
    requires IsOrder(prog, order) && k < |order|
  {
    Inputs(prog[order[k]], Exec(prog, sem, order, init, k).store) ==
    Inputs(prog[order[k]], Exec(prog, sem, InPlace(|prog|), init, order[k]).store)
  }

  // Under this semantics a value tells which block wrote it.
  function Tag(): Semantics {
    (i: nat, v: Var, s: Store) => i + 1
  }

  // The tag a block finds in v.
  lemma {:induction false} TagIsLastDef(prog: seq<Block>, order: seq<nat>, k: nat, v: Var)
    requires IsOrder(prog, order) && k <= |order|
    ensures var d := LastDef(prog, order, k, v);
            Get(Exec(prog, Tag(), order, map[], k).store, v) == if d.None? then 0 else d.value + 1
  {
    if k > 0 {
      TagIsLastDef(prog, order, k - 1, v);
    }
  }

  // An order keeps the reads exactly when every block finds, under every
  // semantics and from every store, the values it found before.
  lemma ReadsAreExact(prog: seq<Block>, order: seq<nat>)
    requires IsOrder(prog, order)
    ensures KeepsReads(prog, order) <==> KeepsInputs(prog, order)
  {
    if KeepsReads(prog, order) {
      forall sem, init, k | 0 <= k < |order|
        ensures SameInputs(prog, sem, order, init, k)
      {
        InputsKept(prog, sem, order, init, k);
      }
    }
    if KeepsInputs(prog, order) {
      forall k, v | 0 <= k < |order| && v in prog[order[k]].uses
        ensures LastDef(prog, order, k, v) == ReachingDef(prog, order[k], v)
      {
        TagsTell(prog, order, k, v);
      }
    }
  }

  lemma TagsTell(prog: seq<Block>, order: seq<nat>, k: nat, v: Var)
    requires IsOrder(prog, order) && KeepsInputs(prog, order) && k < |order| && v in prog[order[k]].uses
    ensures LastDef(prog, order, k, v) == ReachingDef(prog, order[k], v)
  {
    hide Exec, Get, LastDef;
    assert SameInputs(prog, Tag(), order, map[], k);
    hide KeepsInputs, Tag;
    InputIs(prog[order[k]], Exec(prog, Tag(), order, map[], k).store, v);
    InputIs(prog[order[k]], Exec(prog, Tag(), InPlace(|prog|), map[], order[k]).store, v);
    TagIsLastDef(prog, order, k, v);
    TagIsLastDef(prog, InPlace(|prog|), order[k], v);
  }

  lemma InputIs(b: Block, store: Store, v: Var)
    requires v in b.uses
    ensures v in Inputs(b, store) && Inputs(b, store)[v] == Get(store, v)
  {
  }

  // ---------------------------------------------------------------------
  // The failing case
  // ---------------------------------------------------------------------

  // Block 0 reads the initial value of variable 0, block 1 overwrites it: there
  // is no constraint, and the reverse order is legal although block 0 then
  // reads what block 1 wrote.
  function Unprotected(): seq<Block> {
    [Block({0}, {1}, map[0 := {}]), Block({}, {0}, map[])]
  }

  lemma UnprotectedIlp(prog: seq<Block>, p: Problem)
    requires prog == Unprotected() && p == Problem(2, [], [])
    ensures Ilp(prog, p) && WellFormed(p)
  {
    forall i, v | 0 <= i < |prog| && v in prog[i].uses
      ensures i == 0 && v == 0 && ReachingDef(prog, i, v) == None
    {
    }
    forall a: nat, b: nat | b < |prog|
      ensures !DepNeeded(prog, a, b)
    {
      assert forall v :: !UsesDefOf(prog, a, b, v);
    }
    forall j: nat, i: nat, x: nat | i < |prog|
      ensures !RdNeeded(prog, j, i, x)
    {
      assert forall v :: !UsesDefOf(prog, j, i, v);
    }
  }

  lemma Reversed(prog: seq<Block>, q: seq<int>, order: seq<nat>)
    requires |prog| == 2 && |q| == 2 && q[0] == 1 && q[1] == 0 && |order| == 2 && order[0] == 1 && order[1] == 0
    ensures SortedBy(prog, q, order) && Ranks(2, q) && DistinctRanks(q)
  {
  }

  lemma ReversedReads(prog: seq<Block>, order: seq<nat>)
    requires prog == Unprotected() && |order| == 2 && order[0] == 1 && order[1] == 0
    ensures LastDef(prog, order, 1, 0) == Some(1) && ReachingDef(prog, 0, 0) == None && 0 in prog[0].uses
  {
  }

  lemma NotKept(prog: seq<Block>, order: seq<nat>, k: nat, v: Var)
    requires IsOrder(prog, order) && k < |order| && v in prog[order[k]].uses
    requires LastDef(prog, order, k, v) != ReachingDef(prog, order[k], v)
    ensures !KeepsReads(prog, order)
  {
  }

  lemma InitialReadUnprotected(q: seq<int>, order: seq<nat>)
    requires |q| == 2 && q[0] == 1 && q[1] == 0 && |order| == 2 && order[0] == 1 && order[1] == 0
    ensures Ilp(Unprotected(), Problem(2, [], [])) && WellFormed(Problem(2, [], [])) && Legal(Problem(2, [], []), q)
    ensures SortedBy(Unprotected(), q, order) && !KeepsReads(Unprotected(), order)
  {
    hide Ilp, SortedBy, KeepsReads, LastDef, ReachingDef;
    var prog := Unprotected();
    UnprotectedIlp(prog, Problem(2, [], []));
    Reversed(prog, q, order);
    ReversedReads(prog, order);
    NotKept(prog, order, 1, 0);
  }
}
