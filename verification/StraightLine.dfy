// Reordering the blocks of a straight-line transaction (CBlocks.cpp).

module StraightLine {
  import opened Options
  import opened OrderIlp
  import opened Counting

  type Var = nat

  // uses is read before defs is written. defStmts gives, for every variable
  // used, the blocks whose definition may reach the use.
  datatype Block = Block(uses: set<Var>, defs: set<Var>, defStmts: map<Var, set<nat>>)

  type Store = map<Var, int>

  // What a block writes into v after reading the variables it uses.
  type Semantics = (nat, Var, Store) -> int

  function Get(store: Store, v: Var): int {
    if v in store then store[v] else 0
  }

  // ---------------------------------------------------------------------
  // Running blocks in an order
  // ---------------------------------------------------------------------

  // A permutation of the blocks.
  ghost predicate IsOrder(prog: seq<Block>, order: seq<nat>) {
    && |order| == |prog|
    && (forall k :: 0 <= k < |order| ==> order[k] < |prog|)
    && (forall k, l :: 0 <= k < l < |order| ==> order[k] != order[l])
  }

  function InPlace(n: nat): (r: seq<nat>)
    ensures |r| == n && forall k :: 0 <= k < n ==> r[k] == k
  {
    seq(n, k => k)
  }

  // The block that defined v last before position k.
  function LastDef(prog: seq<Block>, order: seq<nat>, k: nat, v: Var): (r: Option<nat>)
    requires k <= |order| && forall l :: 0 <= l < k ==> order[l] < |prog|
    ensures r.None? ==> forall l :: 0 <= l < k ==> v !in prog[order[l]].defs
    ensures r.Some? ==> exists l :: 0 <= l < k && order[l] == r.value && v in prog[order[l]].defs
                                    && forall m :: l < m < k ==> v !in prog[order[m]].defs
  {
    if k == 0 then None
    else if v in prog[order[k - 1]].defs then Some(order[k - 1])
    else LastDef(prog, order, k - 1, v)
  }

  // The store after k blocks and what each of them wrote.
  datatype Trace = Trace(store: Store, outs: map<nat, Store>)

  function Inputs(b: Block, store: Store): Store {
    map v | v in b.uses :: Get(store, v)
  }

  function Outputs(prog: seq<Block>, sem: Semantics, i: nat, store: Store): Store
    requires i < |prog|
  {
    map v | v in prog[i].defs :: sem(i, v, Inputs(prog[i], store))
  }

  function Exec(prog: seq<Block>, sem: Semantics, order: seq<nat>, init: Store, k: nat): Trace
    requires k <= |order| && forall l :: 0 <= l < k ==> order[l] < |prog|
  {
    if k == 0 then Trace(init, map[])
    else
      var t := Exec(prog, sem, order, init, k - 1);
      var i := order[k - 1];
      var out := Outputs(prog, sem, i, t.store);
      Trace(t.store + out, t.outs[i := out])
  }

  // ---------------------------------------------------------------------
  // Reading from the same definitions
  // ---------------------------------------------------------------------

  function ReachingDef(prog: seq<Block>, i: nat, v: Var): Option<nat>
    requires i < |prog|
  {
    LastDef(prog, InPlace(|prog|), i, v)
  }

  // Every block reads every variable from the same definition as before.
  ghost predicate KeepsReads(prog: seq<Block>, order: seq<nat>)
    requires IsOrder(prog, order)
  {
    forall k, v :: 0 <= k < |order| && v in prog[order[k]].uses ==>
      LastDef(prog, order, k, v) == ReachingDef(prog, order[k], v)
  }

  // The value a block finds is what the last definition wrote.
  lemma {:induction false} StoreHoldsLastDef(prog: seq<Block>, sem: Semantics, order: seq<nat>, init: Store, k: nat, v: Var)
    requires IsOrder(prog, order) && k <= |order|
    ensures var t, d := Exec(prog, sem, order, init, k), LastDef(prog, order, k, v);
            if d.None? then Get(t.store, v) == Get(init, v)
            else d.value in t.outs && v in t.outs[d.value] && Get(t.store, v) == t.outs[d.value][v]
  {
    if k > 0 {
      StoreHoldsLastDef(prog, sem, order, init, k - 1, v);
      LastIsNotHere(prog, order, k - 1, v);
      hide IsOrder;
    }
  }

  // The block at position k is not the one that defined v last before it.
  lemma LastIsNotHere(prog: seq<Block>, order: seq<nat>, k: nat, v: Var)
    requires IsOrder(prog, order) && k < |order|
    ensures LastDef(prog, order, k, v) != Some(order[k])
  {
    var d := LastDef(prog, order, k, v);
    if d.Some? {
      var l :| 0 <= l < k && order[l] == d.value;
      assert order[l] != order[k];
    }
  }

  lemma {:induction false} OutsStay(prog: seq<Block>, sem: Semantics, order: seq<nat>, init: Store, k: nat, m: nat)
    requires IsOrder(prog, order) && k < m <= |order|
    ensures order[k] in Exec(prog, sem, order, init, m).outs
    ensures Exec(prog, sem, order, init, m).outs[order[k]] ==
            Outputs(prog, sem, order[k], Exec(prog, sem, order, init, k).store)
  {
    if k + 1 < m {
      OutsStay(prog, sem, order, init, k, m - 1);
    }
  }

  // Same inputs, so same outputs: by induction along the new order.
  lemma {:induction false} InputsKept(prog: seq<Block>, sem: Semantics, order: seq<nat>, init: Store, k: nat)
    requires IsOrder(prog, order) && KeepsReads(prog, order) && k < |order|
    ensures Inputs(prog[order[k]], Exec(prog, sem, order, init, k).store) ==
            Inputs(prog[order[k]], Exec(prog, sem, InPlace(|prog|), init, order[k]).store)
    decreases k
  {
    var i, home := order[k], InPlace(|prog|);
    var t, u := Exec(prog, sem, order, init, k), Exec(prog, sem, home, init, order[k]);
    forall v | v in prog[i].uses
      ensures Get(t.store, v) == Get(u.store, v)
    {
      StoreHoldsLastDef(prog, sem, order, init, k, v);
      StoreHoldsLastDef(prog, sem, home, init, i, v);
      var d := LastDef(prog, order, k, v);
      assert d == LastDef(prog, home, i, v);
      if d.Some? {
        var l :| 0 <= l < k && order[l] == d.value;
        var m :| 0 <= m < i && home[m] == d.value;
        InputsKept(prog, sem, order, init, l);
        OutsStay(prog, sem, order, init, l, k);
        OutsStay(prog, sem, home, init, m, i);
      }
    }
    assert Inputs(prog[i], t.store) == Inputs(prog[i], u.store);
  }

  // An order that keeps the reads lets every block compute what it computed
  // before, whatever the blocks do.
  lemma ReorderedComputesTheSame(prog: seq<Block>, sem: Semantics, order: seq<nat>, init: Store, i: nat)
    requires IsOrder(prog, order) && KeepsReads(prog, order) && i in order
    ensures i in Exec(prog, sem, order, init, |prog|).outs && i in Exec(prog, sem, InPlace(|prog|), init, |prog|).outs
    ensures Exec(prog, sem, order, init, |prog|).outs[i] == Exec(prog, sem, InPlace(|prog|), init, |prog|).outs[i]
  {
    var k :| 0 <= k < |order| && order[k] == i;
    InputsKept(prog, sem, order, init, k);
    OutsStay(prog, sem, order, init, k, |order|);
    OutsStay(prog, sem, InPlace(|prog|), init, i, |prog|);
  }

  // ---------------------------------------------------------------------
  // The constraints
  // ---------------------------------------------------------------------

  // b uses something a may have defined.
  ghost predicate UsesDefOf(prog: seq<Block>, a: nat, b: nat, v: Var)
    requires b < |prog|
  {
    v in prog[b].uses && v in prog[b].defStmts && a in prog[b].defStmts[v]
  }

  // a uses v without an entry of definitions, and b has such an entry.
  ghost predicate UsesBefore(prog: seq<Block>, a: nat, b: nat, v: Var)
    requires a < |prog| && b < |prog|
  {
    v in prog[a].uses && v !in prog[a].defStmts && v in prog[b].defStmts
  }

  ghost predicate DepNeeded(prog: seq<Block>, a: nat, b: nat) {
    a < b < |prog| && exists v :: UsesDefOf(prog, a, b, v) || UsesBefore(prog, a, b, v)
  }

  ghost predicate RdNeeded(prog: seq<Block>, j: nat, i: nat, x: nat) {
    j < i < |prog| && x < |prog| && x != i && x != j && exists v :: UsesDefOf(prog, j, i, v) && v in prog[x].defs
  }

  ghost predicate Generated(prog: seq<Block>, deps: seq<(nat, nat)>, rds: seq<(nat, nat, nat)>) {
    && (forall a: nat, b: nat :: (a, b) in deps <==> DepNeeded(prog, a, b))
    && (forall j: nat, i: nat, x: nat :: (j, i, x) in rds <==> RdNeeded(prog, j, i, x))
  }

  // The blocks some variable in vs may come from.
  method DefBlocks(b: Block) returns (pSet: set<nat>)
    ensures forall a :: a in pSet <==> exists v :: v in b.uses && v in b.defStmts && a in b.defStmts[v]
  {
    pSet := {};
    var todo := b.uses;
    while todo != {}
      invariant todo <= b.uses
      invariant forall a :: a in pSet <==> exists v :: v in b.uses - todo && v in b.defStmts && a in b.defStmts[v]
    {
      var v :| v in todo;
      if v in b.defStmts {
        pSet := pSet + b.defStmts[v];
      }
      todo := todo - {v};
    }
  }

  // The first loop: a def-use pair for every earlier block in p_set.
  method DepsOf(prog: seq<Block>, i: nat) returns (deps: seq<(nat, nat)>)
    requires i < |prog|
    ensures forall a: nat, b: nat :: (a, b) in deps <==> b == i && a < i && exists v :: UsesDefOf(prog, a, i, v)
  {
    deps := [];
    var todo := DefBlocks(prog[i]);
    ghost var pSet := todo;
    while todo != {}
      invariant todo <= pSet
      invariant forall a: nat, b: nat :: (a, b) in deps <==> b == i && a < i && a in pSet - todo
    {
      var it :| it in todo;
      var k := 0;
      while k < i
        invariant k <= i
        invariant forall a: nat, b: nat :: (a, b) in deps <==> b == i && a < i && (a in pSet - todo || (a == it && a < k))
      {
        if k == it {
          deps := deps + [(k, i)];
        }
        k := k + 1;
      }
      todo := todo - {it};
    }
    forall a: nat
      ensures a in pSet <==> exists v :: UsesDefOf(prog, a, i, v)
    {
      if a in pSet {
        var v :| v in prog[i].uses && v in prog[i].defStmts && a in prog[i].defStmts[v];
        assert UsesDefOf(prog, a, i, v);
      }
    }
  }

  // The other definitions of v that must stay out of the stretch from j to i.
  method OtherDefs(prog: seq<Block>, i: nat, j: nat, v: Var) returns (rds: seq<(nat, nat, nat)>)
    requires i < |prog|
    ensures forall a: nat, b: nat, x: nat :: (a, b, x) in rds <==> a == j && b == i && x < |prog| && x != i && x != j && v in prog[x].defs
  {
    rds := [];
    var x := 0;
    while x < |prog|
      invariant x <= |prog|
      invariant forall a: nat, b: nat, y: nat :: (a, b, y) in rds <==> a == j && b == i && y < x && y != i && y != j && v in prog[y].defs
    {
      if x != i && x != j && v in prog[x].defs {
        rds := rds + [(j, i, x)];
      }
      x := x + 1;
    }
  }

  // The triples for one use that has an entry of definitions.
  method RdsOfUse(prog: seq<Block>, i: nat, v: Var) returns (rds: seq<(nat, nat, nat)>)
    requires i < |prog| && v in prog[i].uses && v in prog[i].defStmts
    ensures forall j: nat, b: nat, x: nat :: (j, b, x) in rds <==>
              b == i && j < i && x < |prog| && x != i && x != j && UsesDefOf(prog, j, i, v) && v in prog[x].defs
  {
    rds := [];
    ghost var cits := prog[i].defStmts[v];
    var todo := prog[i].defStmts[v];
    while todo != {}
      invariant todo <= cits
      invariant forall j: nat, b: nat, x: nat :: (j, b, x) in rds <==>
                  b == i && j < i && x < |prog| && x != i && x != j && j in cits - todo && v in prog[x].defs
    {
      var j :| j in todo;
      todo := todo - {j};
      if j < i {
        var more := OtherDefs(prog, i, j, v);
        rds := rds + more;
      }
    }
  }

  // The pairs for one use without such an entry.
  method LaterUsers(prog: seq<Block>, i: nat, v: Var) returns (deps: seq<(nat, nat)>)
    requires i < |prog|
    ensures forall a: nat, b: nat :: (a, b) in deps <==> a == i < b < |prog| && v in prog[b].defStmts
  {
    deps := [];
    var j := i + 1;
    while j < |prog|
      invariant i < j <= |prog|
      invariant forall a: nat, b: nat :: (a, b) in deps <==> a == i < b < j && v in prog[b].defStmts
    {
      if v in prog[j].defStmts {
        deps := deps + [(i, j)];
      }
      j := j + 1;
    }
  }

  // The second loop, for one block.
  method RdsOf(prog: seq<Block>, i: nat) returns (deps: seq<(nat, nat)>, rds: seq<(nat, nat, nat)>)
    requires i < |prog|
    ensures forall a: nat, b: nat :: (a, b) in deps <==> a == i < b < |prog| && exists v :: UsesBefore(prog, a, b, v)
    ensures forall j: nat, b: nat, x: nat :: (j, b, x) in rds <==> b == i && RdNeeded(prog, j, i, x)
  {
    deps, rds := [], [];
    var todo := prog[i].uses;
    while todo != {}
      invariant todo <= prog[i].uses
      invariant forall a: nat, b: nat :: (a, b) in deps <==> a == i < b < |prog| && exists v :: v !in todo && UsesBefore(prog, a, b, v)
      invariant forall j: nat, b: nat, x: nat :: (j, b, x) in rds <==>
                  b == i && j < i && x < |prog| && x != i && x != j && exists v :: v !in todo && UsesDefOf(prog, j, i, v) && v in prog[x].defs
    {
      var v :| v in todo;
      todo := todo - {v};
      if v in prog[i].defStmts {
        var more := RdsOfUse(prog, i, v);
        rds := rds + more;
      } else {
        var more := LaterUsers(prog, i, v);
        deps := deps + more;
      }
    }
  }

  // The constraint input for the whole transaction.
  method OutputConstraints(prog: seq<Block>) returns (deps: seq<(nat, nat)>, rds: seq<(nat, nat, nat)>)
    ensures Generated(prog, deps, rds)
  {
    deps, rds := [], [];
    var i := 0;
    while i < |prog|
      invariant i <= |prog|
      invariant forall a: nat, b: nat :: (a, b) in deps <==> a < b < i && exists v :: UsesDefOf(prog, a, b, v)
    {
      var more := DepsOf(prog, i);
      deps := deps + more;
      i := i + 1;
    }
    i := 0;
    while i < |prog|
      invariant i <= |prog|
      invariant forall a: nat, b: nat :: (a, b) in deps <==>
                  a < b < |prog| && ((exists v :: UsesDefOf(prog, a, b, v)) || (a < i && exists v :: UsesBefore(prog, a, b, v)))
      invariant forall j: nat, b: nat, x: nat :: (j, b, x) in rds <==> b < i && RdNeeded(prog, j, b, x)
    {
      var moreDeps, moreRds := RdsOf(prog, i);
      deps, rds := deps + moreDeps, rds + moreRds;
      i := i + 1;
    }
  }

  // What the loops put out, rule by rule. A pair: the first defines what the
  // later one uses, or uses what has no entry of definitions there while the later
  // one has one. A triple: a definition, a later use of it, and any other block
  // that defines the variable.
  lemma ConstraintRules(prog: seq<Block>, deps: seq<(nat, nat)>, rds: seq<(nat, nat, nat)>)
    requires Generated(prog, deps, rds)
    ensures forall a: nat, b: nat :: (a, b) in deps <==>
              a < b < |prog| && ((exists v :: v in prog[b].uses && v in prog[b].defStmts && a in prog[b].defStmts[v])
                                 || (exists v :: v in prog[a].uses && v !in prog[a].defStmts && v in prog[b].defStmts))
    ensures forall j: nat, i: nat, x: nat :: (j, i, x) in rds <==>
              j < i < |prog| && x < |prog| && x != i && x != j
              && exists v :: v in prog[i].uses && v in prog[i].defStmts && j in prog[i].defStmts[v] && v in prog[x].defs
  {
    forall a: nat, b: nat
      ensures (a, b) in deps <==>
              a < b < |prog| && ((exists v :: v in prog[b].uses && v in prog[b].defStmts && a in prog[b].defStmts[v])
                                 || (exists v :: v in prog[a].uses && v !in prog[a].defStmts && v in prog[b].defStmts))
    {
      if a < b < |prog| {
        if v :| v in prog[b].uses && v in prog[b].defStmts && a in prog[b].defStmts[v] {
          assert UsesDefOf(prog, a, b, v);
        }
        if v :| v in prog[a].uses && v !in prog[a].defStmts && v in prog[b].defStmts {
          assert UsesBefore(prog, a, b, v);
        }
      }
    }
    forall j: nat, i: nat, x: nat
      ensures (j, i, x) in rds <==>
              j < i < |prog| && x < |prog| && x != i && x != j
              && exists v :: v in prog[i].uses && v in prog[i].defStmts && j in prog[i].defStmts[v] && v in prog[x].defs
    {
      if j < i < |prog| && x < |prog| {
        if v :| v in prog[i].uses && v in prog[i].defStmts && j in prog[i].defStmts[v] && v in prog[x].defs {
          assert UsesDefOf(prog, j, i, v);
        }
      }
    }
  }

  // ---------------------------------------------------------------------
  // Which orders keep the reads
  // ---------------------------------------------------------------------

  // In straight-line code at most one definition reaches a use, and every use
  // has an entry of definitions, empty when it reads the initial value.
  ghost predicate IsStraightLine(prog: seq<Block>) {
    forall i, v :: 0 <= i < |prog| && v in prog[i].uses ==>
      && v in prog[i].defStmts
      && var d := ReachingDef(prog, i, v);
         prog[i].defStmts[v] == if d.None? then {} else {d.value}
  }

  // order lists the blocks by rank.
  ghost predicate SortedBy(prog: seq<Block>, q: seq<int>, order: seq<nat>) {
    && IsOrder(prog, order) && |q| == |prog|
    && forall k, l :: 0 <= k < l < |order| ==> q[order[k]] < q[order[l]]
  }

  // Whoever reads an initial value still comes before all who overwrite it.
  ghost predicate InitialReadsKept(prog: seq<Block>, q: seq<int>)
    requires |q| == |prog|
  {
    forall i, v, x | 0 <= i < |prog| && v in prog[i].uses && ReachingDef(prog, i, v).None?
                     && 0 <= x < |prog| && x != i && v in prog[x].defs :: q[i] < q[x]
  }

  lemma {:induction false} LastDefIs(prog: seq<Block>, order: seq<nat>, k: nat, v: Var, l: nat)
    requires IsOrder(prog, order) && l < k <= |order| && v in prog[order[l]].defs
    requires forall m :: l < m < k ==> v !in prog[order[m]].defs
    ensures LastDef(prog, order, k, v) == Some(order[l])
  {
    if l < k - 1 {
      LastDefIs(prog, order, k - 1, v, l);
    }
  }

  // Every block has its place in an order.
  lemma PlaceOf(prog: seq<Block>, order: seq<nat>, i: nat) returns (k: nat)
    requires IsOrder(prog, order) && i < |prog|
    ensures k < |order| && order[k] == i
  {
    ElementsCount(order, |order|);
    forall x | x in Elements(order, |order|)
      ensures x < |prog|
    {
      ElementsAre(order, |order|, x);
      assert order[..|order|] == order;
    }
    SubsetOfSameSize(Elements(order, |order|), Numbers(|prog|));
    ElementsAre(order, |order|, i);
    k :| 0 <= k < |order| && order[k] == i;
  }

  // Ranks and places say the same.
  lemma RankIsPlace(prog: seq<Block>, q: seq<int>, order: seq<nat>, k: nat, l: nat)
    requires SortedBy(prog, q, order) && k < |order| && l < |order|
    ensures q[order[k]] < q[order[l]] <==> k < l
  {
  }

  // The program of a straight-line transaction.
  ghost predicate Ilp(prog: seq<Block>, p: Problem) {
    IsStraightLine(prog) && p.n == |prog| && Generated(prog, p.deps, p.rds)
  }

  lemma IlpWellFormed(prog: seq<Block>, p: Problem)
    requires Ilp(prog, p)
    ensures WellFormed(p)
  {
    forall i | 0 <= i < |p.deps|
      ensures p.deps[i].0 < p.n && p.deps[i].1 < p.n
    {
      assert (p.deps[i].0, p.deps[i].1) in p.deps;
    }
    forall i | 0 <= i < |p.rds|
      ensures p.rds[i].0 < p.n && p.rds[i].1 < p.n && p.rds[i].2 < p.n
    {
      assert (p.rds[i].0, p.rds[i].1, p.rds[i].2) in p.rds;
    }
  }

  // What the generated constraints say, in terms of reaching definitions.
  lemma DepIsReach(prog: seq<Block>, p: Problem, a: nat, b: nat)
    requires Ilp(prog, p)
    ensures (a, b) in p.deps <==> b < |prog| && exists v :: v in prog[b].uses && ReachingDef(prog, b, v) == Some(a)
  {
    if b < |prog| {
      if v :| v in prog[b].uses && ReachingDef(prog, b, v) == Some(a) {
        assert UsesDefOf(prog, a, b, v);
        assert a < b;
      }
    }
  }

  lemma RdIsReach(prog: seq<Block>, p: Problem, j: nat, i: nat, x: nat)
    requires Ilp(prog, p)
    ensures (j, i, x) in p.rds <==>
            && i < |prog| && x < |prog| && x != i && x != j
            && exists v :: v in prog[i].uses && ReachingDef(prog, i, v) == Some(j) && v in prog[x].defs
  {
    if i < |prog| && x < |prog| && x != i && x != j {
      if v :| v in prog[i].uses && ReachingDef(prog, i, v) == Some(j) && v in prog[x].defs {
        assert UsesDefOf(prog, j, i, v) && j < i;
      }
    }
  }

  // One use in an order whose ranks are legal.
  lemma UseKept(prog: seq<Block>, p: Problem, q: seq<int>, order: seq<nat>, k: nat, v: Var)
    requires Ilp(prog, p) && WellFormed(p) && SortedBy(prog, q, order) && Legal(p, q) && InitialReadsKept(prog, q)
    requires k < |order| && v in prog[order[k]].uses
    ensures LastDef(prog, order, k, v) == ReachingDef(prog, order[k], v)
  {
    var i := order[k];
    var d := ReachingDef(prog, i, v);
    if d.None? {
      forall l | 0 <= l < k
        ensures v !in prog[order[l]].defs
      {
        RankIsPlace(prog, q, order, l, k);
      }
    } else {
      var j := d.value;
      DepIsReach(prog, p, j, i);
      var a :| 0 <= a < |p.deps| && p.deps[a] == (j, i);
      var l := PlaceOf(prog, order, j);
      RankIsPlace(prog, q, order, l, k);
      forall m | l < m < k
        ensures v !in prog[order[m]].defs
      {
        BetweenIsBarred(prog, p, q, order, k, v, l, m);
      }
      LastDefIs(prog, order, k, v, l);
    }
  }

  lemma BetweenIsBarred(prog: seq<Block>, p: Problem, q: seq<int>, order: seq<nat>, k: nat, v: Var, l: nat, m: nat)
    requires Ilp(prog, p) && WellFormed(p) && SortedBy(prog, q, order) && Legal(p, q)
    requires l < m < k < |order| && v in prog[order[k]].uses && ReachingDef(prog, order[k], v) == Some(order[l])
    ensures v !in prog[order[m]].defs
  {
    RdIsReach(prog, p, order[l], order[k], order[m]);
    forall b | 0 <= b < |p.rds|
      ensures p.rds[b] != (order[l], order[k], order[m])
    {
    }
  }

  // Where a kept read finds its definition.
  lemma KeptUse(prog: seq<Block>, q: seq<int>, order: seq<nat>, i: nat, v: Var, x: nat)
    requires SortedBy(prog, q, order) && KeepsReads(prog, order) && i < |prog| && v in prog[i].uses
    requires x < |prog| && v in prog[x].defs && x != i
    ensures var d := ReachingDef(prog, i, v);
            if d.None? then q[i] < q[x]
            else d.value < |prog| && q[d.value] < q[i] && (x != d.value ==> q[x] < q[d.value] || q[i] < q[x])
  {
    var k := PlaceOf(prog, order, i);
    var y := PlaceOf(prog, order, x);
    assert LastDef(prog, order, k, v) == ReachingDef(prog, i, v);
    RankIsPlace(prog, q, order, k, y);
    var d := LastDef(prog, order, k, v);
    if d.Some? {
      var l :| 0 <= l < k && order[l] == d.value && forall m :: l < m < k ==> v !in prog[order[m]].defs;
      RankIsPlace(prog, q, order, l, k);
      RankIsPlace(prog, q, order, y, l);
    }
  }

  // The integer program describes exactly the orders that keep every read,
  // except that nothing protects reads of initial values: an order of distinct
  // ranks keeps all reads if and only if its ranks are legal and every block
  // that reads an initial value stays before the blocks that overwrite it.
  lemma OrdersAreExact(prog: seq<Block>, p: Problem, q: seq<int>, order: seq<nat>)
    requires Ilp(prog, p) && Ranks(p.n, q) && DistinctRanks(q) && SortedBy(prog, q, order)
    ensures WellFormed(p)
    ensures KeepsReads(prog, order) <==> Legal(p, q) && InitialReadsKept(prog, q)
  {
    IlpWellFormed(prog, p);
    if Legal(p, q) && InitialReadsKept(prog, q) {
      forall k, v | 0 <= k < |order| && v in prog[order[k]].uses
        ensures LastDef(prog, order, k, v) == ReachingDef(prog, order[k], v)
      {
        UseKept(prog, p, q, order, k, v);
      }
    }
    if KeepsReads(prog, order) {
      KeptIsLegal(prog, p, q, order);
      forall i, v, x | 0 <= i < |prog| && v in prog[i].uses && ReachingDef(prog, i, v).None?
                       && 0 <= x < |prog| && x != i && v in prog[x].defs
        ensures q[i] < q[x]
      {
        KeptUse(prog, q, order, i, v, x);
      }
    }
  }

  lemma KeptIsLegal(prog: seq<Block>, p: Problem, q: seq<int>, order: seq<nat>)
    requires Ilp(prog, p) && WellFormed(p) && Ranks(p.n, q) && DistinctRanks(q) && SortedBy(prog, q, order)
    requires KeepsReads(prog, order)
    ensures Legal(p, q)
  {
    forall a | 0 <= a < |p.deps|
      ensures q[p.deps[a].0] < q[p.deps[a].1]
    {
      var (j, i) := p.deps[a];
      DepIsReach(prog, p, j, i);
      var v :| v in prog[i].uses && ReachingDef(prog, i, v) == Some(j);
      KeptUse(prog, q, order, i, v, j);
    }
    forall a | 0 <= a < |p.rds|
      ensures q[p.rds[a].2] < q[p.rds[a].0] || q[p.rds[a].2] > q[p.rds[a].1]
    {
      var (j, i, x) := p.rds[a];
      RdIsReach(prog, p, j, i, x);
      var v :| v in prog[i].uses && ReachingDef(prog, i, v) == Some(j) && v in prog[x].defs;
      KeptUse(prog, q, order, i, v, x);
    }
  }

  // In the order of any solution that keeps initial reads before the blocks that
  // overwrite them every block computes what it computed before.
  lemma KeptOrdersComputeTheSame(prog: seq<Block>, p: Problem, q: seq<int>, e: seq<int>, c: seq<int>, order: seq<nat>,
                                 sem: Semantics, init: Store, i: nat)
    requires Ilp(prog, p) && WellFormed(p) && Feasible(p, q, e, c) && SortedBy(prog, q, order) && i < |prog|
    requires InitialReadsKept(prog, q)
    ensures i in Exec(prog, sem, order, init, |prog|).outs && i in Exec(prog, sem, InPlace(|prog|), init, |prog|).outs
    ensures Exec(prog, sem, order, init, |prog|).outs[i] == Exec(prog, sem, InPlace(|prog|), init, |prog|).outs[i]
  {
    FeasibleIsLegal(p, q, e, c);
    OrdersAreExact(prog, p, q, order);
    var k := PlaceOf(prog, order, i);
    ReorderedComputesTheSame(prog, sem, order, init, i);
  }
}
