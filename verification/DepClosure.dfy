// Which blocks must stay together (QueryBlock.cpp): setDepBlocks builds a
// symmetric relation, propagateDep closes it one block after another.

module DepClosure {
  // dep[i] is dep_blocks of block i.
  type Deps = seq<set<nat>>

  ghost predicate InRange(dep: Deps) {
    forall i, j :: 0 <= i < |dep| && j in dep[i] ==> j < |dep|
  }

  // setDepBlocks enters every pair on both sides.
  ghost predicate Symmetric(dep: Deps) {
    forall i, j :: 0 <= i < |dep| && j in dep[i] && j < |dep| ==> i in dep[j]
  }

  // A condition is an if or a loop; definedBy holds the blocks whose
  // definitions reach it.
  datatype Cond = Cond(isLoop: bool, uses: set<nat>, definedBy: set<nat>)

  // conds lists the conditions around a block.
  datatype Code = Code(conds: seq<nat>, defs: set<nat>, definedBy: set<nat>)

  ghost predicate ValidCode(codes: seq<Code>, conds: seq<Cond>) {
    forall i, p :: 0 <= i < |codes| && 0 <= p < |codes[i].conds| ==> codes[i].conds[p] < |conds|
  }

  // i changes what condition c, which is around j, tests.
  predicate ChangesCond(codes: seq<Code>, conds: seq<Cond>, i: nat, j: nat, c: nat)
    requires i < |codes| && j < |codes| && c < |conds|
  {
    c in codes[j].conds && codes[i].defs * conds[c].uses != {}
  }

  // i and a later j are in loop c, and one defines what the other, or a
  // condition further in around j, uses.
  ghost predicate MeetInLoop(codes: seq<Code>, conds: seq<Cond>, i: nat, j: nat, c: nat)
    requires ValidCode(codes, conds) && i < |codes| && j < |codes| && c < |conds|
  {
    && i < j && conds[c].isLoop
    && exists k :: 0 <= k < |codes[j].conds| && codes[j].conds[k] == c
                   && (j in codes[i].definedBy || i in codes[j].definedBy
                       || exists l :: 0 <= l < k && i in conds[codes[j].conds[l]].definedBy)
  }

  // setDepBlocks of block i makes it and j depend on each other.
  ghost predicate Sticks(codes: seq<Code>, conds: seq<Cond>, i: nat, j: nat)
    requires ValidCode(codes, conds) && i < |codes| && j < |codes|
  {
    exists p :: 0 <= p < |codes[i].conds|
                && (ChangesCond(codes, conds, i, j, codes[i].conds[p]) || MeetInLoop(codes, conds, i, j, codes[i].conds[p]))
  }

  method TestLoop(codes: seq<Code>, conds: seq<Cond>, i: nat, j: nat, c: nat) returns (b: bool)
    requires ValidCode(codes, conds) && i < j < |codes| && c < |conds| && conds[c].isLoop
    ensures b <==> MeetInLoop(codes, conds, i, j, c)
  {
    var around := codes[j].conds;
    var k := 0;
    while k < |around|
      invariant k <= |around|
      invariant !(exists m :: 0 <= m < k && around[m] == c
                              && (j in codes[i].definedBy || i in codes[j].definedBy || exists l :: 0 <= l < m && i in conds[around[l]].definedBy))
    {
      if around[k] == c {
        if j in codes[i].definedBy || i in codes[j].definedBy {
          return true;
        }
        var l := 0;
        while l < k
          invariant l <= k && forall m :: 0 <= m < l ==> i !in conds[around[m]].definedBy
        {
          if i in conds[around[l]].definedBy {
            return true;
          }
          l := l + 1;
        }
      }
      k := k + 1;
    }
    return false;
  }

  // b is in a's list after setDepBlocks of i.
  ghost predicate Stuck(codes: seq<Code>, conds: seq<Cond>, dep: Deps, i: nat, a: nat, b: nat)
    requires ValidCode(codes, conds) && |dep| == |codes| && i < |codes| && a < |codes|
  {
    b in dep[a] || (a == i && b < |codes| && Sticks(codes, conds, i, b)) || (b == i && Sticks(codes, conds, i, a))
  }

  // b is in a's list after the pairs of i with the blocks in js were entered.
  ghost predicate Entered(dep: Deps, i: nat, js: set<nat>, a: nat, b: nat)
    requires a < |dep|
  {
    b in dep[a] || (a == i && b in js) || (b == i && a in js)
  }

  function AddPair(dep: Deps, i: nat, j: nat): Deps
    requires i < |dep| && j < |dep|
  {
    var d := dep[j := dep[j] + {i}];
    d[i := d[i] + {j}]
  }

  // setDepBlocks of block i: each pair is entered on both sides.
  method SetDepBlocks(codes: seq<Code>, conds: seq<Cond>, dep: Deps, i: nat) returns (dep': Deps)
    requires ValidCode(codes, conds) && |dep| == |codes| && i < |codes|
    ensures |dep'| == |dep| && forall a: nat, b: nat :: a < |dep| ==> (b in dep'[a] <==> Stuck(codes, conds, dep, i, a, b))
  {
    dep' := dep;
    ghost var js: set<nat> := {};
    var p := |codes[i].conds|;
    while p > 0
      invariant 0 <= p <= |codes[i].conds| && |dep'| == |dep|
      invariant forall a: nat, b: nat :: a < |dep| ==> (b in dep'[a] <==> Entered(dep, i, js, a, b))
      invariant forall j: nat :: j in js <==> j < |codes| && SticksFrom(codes, conds, i, j, p)
    {
      p := p - 1;
      var c := codes[i].conds[p];
      ghost var before := js;
      var j := 0;
      while j < |codes|
        invariant j <= |codes| && |dep'| == |dep|
        invariant forall a: nat, b: nat :: a < |dep| ==> (b in dep'[a] <==> Entered(dep, i, js, a, b))
        invariant forall x: nat :: x in js <==> x in before || (x < j && (ChangesCond(codes, conds, i, x, c) || MeetInLoop(codes, conds, i, x, c)))
      {
        var stick := c in codes[j].conds && codes[i].defs * conds[c].uses != {};
        if i < j && conds[c].isLoop && !stick {
          stick := TestLoop(codes, conds, i, j, c);
        }
        if stick {
          dep', js := AddPair(dep', i, j), js + {j};
        }
        j := j + 1;
      }
    }
    assert forall j: nat :: j in js <==> j < |codes| && Sticks(codes, conds, i, j);
  }

  ghost predicate SticksFrom(codes: seq<Code>, conds: seq<Cond>, i: nat, j: nat, p: nat)
    requires ValidCode(codes, conds) && i < |codes| && j < |codes|
  {
    exists m :: p <= m < |codes[i].conds|
                && (ChangesCond(codes, conds, i, j, codes[i].conds[m]) || MeetInLoop(codes, conds, i, j, codes[i].conds[m]))
  }

  // What a condition around both blocks brings about.
  lemma CommonCond(codes: seq<Code>, conds: seq<Cond>, a: nat, b: nat, c: nat)
    requires ValidCode(codes, conds) && a < b < |codes| && c in codes[a].conds && c in codes[b].conds
    ensures codes[a].defs * conds[c].uses != {} ==> Sticks(codes, conds, a, b)
    ensures codes[b].defs * conds[c].uses != {} ==> Sticks(codes, conds, b, a)
    ensures MeetInLoop(codes, conds, a, b, c) ==> Sticks(codes, conds, a, b)
    ensures conds[c].isLoop && (b in codes[a].definedBy || a in codes[b].definedBy) ==> MeetInLoop(codes, conds, a, b, c)
  {
    var p :| 0 <= p < |codes[a].conds| && codes[a].conds[p] == c;
    var q :| 0 <= q < |codes[b].conds| && codes[b].conds[q] == c;
    assert codes[a].defs * conds[c].uses != {} ==> ChangesCond(codes, conds, a, b, codes[a].conds[p]);
    assert codes[b].defs * conds[c].uses != {} ==> ChangesCond(codes, conds, b, a, codes[b].conds[q]);
    assert MeetInLoop(codes, conds, a, b, c) ==> MeetInLoop(codes, conds, a, b, codes[a].conds[p]);
  }

  // The pairs of setDepBlocks, rule by rule. Two blocks under a common condition
  // stay together when one of them changes what the condition tests; and under a
  // common loop when one uses what the other defines, in the same round or the
  // next, or when the earlier one defines what a condition between the loop and
  // the later one tests.
  lemma PairRules(codes: seq<Code>, conds: seq<Cond>, a: nat, b: nat)
    requires ValidCode(codes, conds) && a < b < |codes|
    ensures (Sticks(codes, conds, a, b) || Sticks(codes, conds, b, a)) <==>
            exists c: nat :: c in codes[a].conds && c in codes[b].conds &&
              (|| codes[a].defs * conds[c].uses != {}
               || codes[b].defs * conds[c].uses != {}
               || (conds[c].isLoop && (b in codes[a].definedBy || a in codes[b].definedBy))
               || (conds[c].isLoop && exists k, l :: 0 <= l < k < |codes[b].conds| && codes[b].conds[k] == c
                                                     && a in conds[codes[b].conds[l]].definedBy))
  {
    forall c: nat | c in codes[a].conds && c in codes[b].conds
      ensures codes[a].defs * conds[c].uses != {} ==> Sticks(codes, conds, a, b)
      ensures codes[b].defs * conds[c].uses != {} ==> Sticks(codes, conds, b, a)
      ensures conds[c].isLoop && (b in codes[a].definedBy || a in codes[b].definedBy) ==> Sticks(codes, conds, a, b)
      ensures MeetInLoop(codes, conds, a, b, c) ==> Sticks(codes, conds, a, b)
    {
      CommonCond(codes, conds, a, b, c);
    }
    if Sticks(codes, conds, a, b) {
      var p :| 0 <= p < |codes[a].conds|
               && (ChangesCond(codes, conds, a, b, codes[a].conds[p]) || MeetInLoop(codes, conds, a, b, codes[a].conds[p]));
      assert codes[a].conds[p] in codes[a].conds && codes[a].conds[p] in codes[b].conds;
    } else if Sticks(codes, conds, b, a) {
      var p :| 0 <= p < |codes[b].conds| && ChangesCond(codes, conds, b, a, codes[b].conds[p]);
      assert codes[b].conds[p] in codes[a].conds && codes[b].conds[p] in codes[b].conds;
    }
  }

  // A block depends on itself when it changes a condition around it.
  lemma SelfRule(codes: seq<Code>, conds: seq<Cond>, a: nat)
    requires ValidCode(codes, conds) && a < |codes|
    ensures Sticks(codes, conds, a, a) <==> exists c: nat :: c in codes[a].conds && c < |conds| && codes[a].defs * conds[c].uses != {}
  {
    if c: nat :| c in codes[a].conds && codes[a].defs * conds[c].uses != {} {
      var p :| 0 <= p < |codes[a].conds| && codes[a].conds[p] == c;
      assert ChangesCond(codes, conds, a, a, codes[a].conds[p]);
    }
  }

  // setDepBlocks of all blocks.
  method SetAll(codes: seq<Code>, conds: seq<Cond>) returns (dep: Deps)
    requires ValidCode(codes, conds)
    ensures |dep| == |codes| && InRange(dep) && Symmetric(dep)
    ensures forall a: nat, b: nat :: a < |codes| && b < |codes| ==>
              (b in dep[a] <==> Sticks(codes, conds, a, b) || Sticks(codes, conds, b, a))
  {
    dep := seq(|codes|, _ => {});
    var i := 0;
    while i < |codes|
      invariant i <= |codes| && |dep| == |codes| && InRange(dep)
      invariant forall a: nat, b: nat :: a < |codes| && b < |codes| ==>
                  (b in dep[a] <==> (a < i && Sticks(codes, conds, a, b)) || (b < i && Sticks(codes, conds, b, a)))
    {
      dep := SetDepBlocks(codes, conds, dep, i);
      i := i + 1;
    }
  }

  // A way from i to j along entries of dep.
  ghost predicate IsWay(dep: Deps, way: seq<nat>, i: nat, j: nat) {
    && |way| > 0 && way[0] == i && way[|way| - 1] == j
    && (forall k :: 0 <= k < |way| ==> way[k] < |dep|)
    && (forall k :: 0 <= k < |way| - 1 ==> way[k + 1] in dep[way[k]])
  }

  ghost predicate Reaches(dep: Deps, i: nat, j: nat) {
    exists way :: IsWay(dep, way, i, j)
  }

  lemma ReachesSelf(dep: Deps, i: nat)
    requires i < |dep|
    ensures Reaches(dep, i, i)
  {
    assert IsWay(dep, [i], i, i);
  }

  lemma ReachesStep(dep: Deps, i: nat, j: nat, k: nat)
    requires Reaches(dep, i, j) && j < |dep| && k in dep[j] && k < |dep|
    ensures Reaches(dep, i, k)
  {
    var way :| IsWay(dep, way, i, j);
    assert IsWay(dep, way + [k], i, k);
  }

  lemma {:induction false} ReachesTrans(dep: Deps, i: nat, j: nat, way: seq<nat>, k: nat)
    requires Reaches(dep, i, j) && IsWay(dep, way, j, k)
    ensures Reaches(dep, i, k)
    decreases |way|
  {
    if |way| > 1 {
      ReachesTrans(dep, i, j, way[..|way| - 1], way[|way| - 2]);
      assert way[|way| - 2 + 1] in dep[way[|way| - 2]];
      ReachesStep(dep, i, way[|way| - 2], k);
    }
  }

  // ---------------------------------------------------------------------
  // One block
  // ---------------------------------------------------------------------

  // Everything below cb that is not there yet joins cur and the queue.
  method Expand(cur: set<nat>, que: seq<nat>, below: set<nat>, self: nat) returns (cur': set<nat>, que': seq<nat>)
    ensures cur' == cur + (below - {self})
    ensures forall q :: q in que' <==> q in que || q in cur' - cur
    ensures cur' == cur ==> que' == que
  {
    cur', que' := cur, que;
    var todo := below;
    while todo != {}
      invariant todo <= below && cur <= cur' <= cur + (below - {self}) && cur + (below - todo - {self}) <= cur'
      invariant forall q :: q in que' <==> q in que || q in cur' - cur
      invariant cur' == cur ==> que' == que
    {
      var it :| it in todo;
      todo := todo - {it};
      if it != self && it !in cur' {
        cur' := cur' + {it};
        que' := que' + [it];
      }
    }
  }

  // Everything reached so far; what is not queued any more has been expanded.
  ghost predicate Searching(dep: Deps, i: nat, cur: set<nat>, que: seq<nat>)
    requires i < |dep|
  {
    && dep[i] <= cur && (i in cur ==> i in dep[i])
    && (forall j :: j in cur ==> j < |dep| && Reaches(dep, i, j))
    && (forall q :: q in que ==> q in cur)
    && (forall c :: c in cur && c < |dep| && c !in que ==> dep[c] <= cur + {i})
  }

  lemma {:induction false} ClosedContains(dep: Deps, i: nat, all: set<nat>, way: seq<nat>, j: nat)
    requires i in all && forall c :: c in all && c < |dep| ==> dep[c] <= all
    requires IsWay(dep, way, i, j)
    ensures j in all
    decreases |way|
  {
    if |way| > 1 {
      ClosedContains(dep, i, all, way[..|way| - 1], way[|way| - 2]);
      assert way[|way| - 2 + 1] in dep[way[|way| - 2]];
    }
  }

  lemma ExpandKeeps(dep: Deps, i: nat, cur: set<nat>, que: seq<nat>, cur': set<nat>, que': seq<nat>)
    requires InRange(dep) && i < |dep| && Searching(dep, i, cur, que) && que != [] && que[0] < |dep|
    requires cur' == cur + (dep[que[0]] - {i})
    requires forall q :: q in que' <==> q in que[1..] || q in cur' - cur
    ensures Searching(dep, i, cur', que')
  {
    var cb := que[0];
    assert cb in que && que == [cb] + que[1..];
    forall j | j in cur'
      ensures j < |dep| && Reaches(dep, i, j)
    {
      if j !in cur {
        ReachesStep(dep, i, cb, j);
      }
    }
    forall c | c in cur' && c < |dep| && c !in que'
      ensures dep[c] <= cur' + {i}
    {
      assert c in cur;
      assert c != cb ==> c !in que;
    }
  }

  // propagateDep: dep_blocks of block i afterwards.
  method PropagateDep(dep: Deps, i: nat) returns (cur: set<nat>)
    requires InRange(dep) && i < |dep|
    ensures forall j: nat :: j != i ==> (j in cur <==> Reaches(dep, i, j))
    ensures i in cur <==> i in dep[i]
    ensures forall j :: j in cur ==> j < |dep|
  {
    cur := dep[i];
    var que := Listing(dep[i]);
    StartSearch(dep, i, que);
    ghost var space := set j: nat | j in Space(|dep|);
    while que != []
      invariant Searching(dep, i, cur, que) && cur <= space
      decreases space - cur, |que|
    {
      var cb := que[0];
      assert cb in que;
      ghost var was, left := cur, que;
      cur, que := Expand(cur, que[1..], dep[cb], i);
      ExpandKeeps(dep, i, was, left, cur, que);
      assert cur != was ==> space - cur < space - was;
    }
    forall j: nat | j != i && Reaches(dep, i, j)
      ensures j in cur
    {
      var way :| IsWay(dep, way, i, j);
      ClosedContains(dep, i, cur + {i}, way, j);
    }
  }

  function Space(n: nat): (r: set<nat>)
    ensures forall j: nat :: j in r <==> j < n
  {
    if n == 0 then {} else Space(n - 1) + {n - 1}
  }

  // The elements of a set, queued one by one.
  method Listing(s: set<nat>) returns (que: seq<nat>)
    ensures forall q :: q in que <==> q in s
  {
    que := [];
    var todo := s;
    while todo != {}
      invariant todo <= s && forall q :: q in que <==> q in s - todo
    {
      var it :| it in todo;
      que := que + [it];
      todo := todo - {it};
    }
  }

  lemma StartSearch(dep: Deps, i: nat, que: seq<nat>)
    requires InRange(dep) && i < |dep| && forall q :: q in que <==> q in dep[i]
    ensures Searching(dep, i, dep[i], que)
  {
    ReachesSelf(dep, i);
    forall j | j in dep[i]
      ensures Reaches(dep, i, j)
    {
      ReachesStep(dep, i, i, j);
    }
  }

  // ---------------------------------------------------------------------
  // All blocks, one after another
  // ---------------------------------------------------------------------

  // Block k has everything it reaches in dep0.
  ghost predicate Closed(dep0: Deps, k: nat, deps: set<nat>)
    requires k < |dep0|
  {
    && (forall j: nat :: j != k ==> (j in deps <==> Reaches(dep0, k, j)))
    && (k in deps <==> k in dep0[k])
  }

  // The first i blocks are closed, the others untouched.
  ghost predicate PartlyClosed(dep0: Deps, dep: Deps, i: nat) {
    && |dep| == |dep0| && InRange(dep) && i <= |dep|
    && (forall k :: 0 <= k < i ==> Closed(dep0, k, dep[k]))
    && (forall k :: i <= k < |dep| ==> dep[k] == dep0[k])
  }

  lemma {:induction false} WayBack(dep0: Deps, dep: Deps, i: nat, way: seq<nat>, a: nat, b: nat)
    requires InRange(dep0) && PartlyClosed(dep0, dep, i) && IsWay(dep, way, a, b)
    ensures Reaches(dep0, a, b)
    decreases |way|
  {
    if |way| == 1 {
      ReachesSelf(dep0, a);
    } else {
      var c := way[|way| - 2];
      WayBack(dep0, dep, i, way[..|way| - 1], a, c);
      assert way[|way| - 2 + 1] in dep[c];
      EdgeReaches(dep0, dep, i, c, b);
      var rest :| IsWay(dep0, rest, c, b);
      ReachesTrans(dep0, a, c, rest, b);
    }
  }

  lemma EdgeReaches(dep0: Deps, dep: Deps, i: nat, c: nat, b: nat)
    requires InRange(dep0) && PartlyClosed(dep0, dep, i) && c < |dep| && b in dep[c]
    ensures Reaches(dep0, c, b)
  {
    ReachesSelf(dep0, c);
    if c >= i {
      ReachesStep(dep0, c, c, b);
    } else {
      assert Closed(dep0, c, dep[c]);
    }
  }

  lemma {:induction false} WayForth(dep0: Deps, dep: Deps, i: nat, way: seq<nat>, a: nat, b: nat)
    requires InRange(dep0) && PartlyClosed(dep0, dep, i) && IsWay(dep0, way, a, b)
    ensures Reaches(dep, a, b)
    decreases |way|
  {
    if |way| == 1 {
      ReachesSelf(dep, a);
    } else {
      var c := way[|way| - 2];
      WayForth(dep0, dep, i, way[..|way| - 1], a, c);
      assert way[|way| - 2 + 1] in dep0[c];
      if c < i {
        ReachesSelf(dep0, c);
        ReachesStep(dep0, c, c, b);
        assert Closed(dep0, c, dep[c]);
      }
      ReachesStep(dep, a, c, b);
    }
  }

  lemma SameReach(dep0: Deps, dep: Deps, i: nat, a: nat, b: nat)
    requires InRange(dep0) && PartlyClosed(dep0, dep, i)
    ensures Reaches(dep, a, b) <==> Reaches(dep0, a, b)
  {
    if way :| IsWay(dep, way, a, b) {
      WayBack(dep0, dep, i, way, a, b);
    }
    if way :| IsWay(dep0, way, a, b) {
      WayForth(dep0, dep, i, way, a, b);
    }
  }

  // Although later blocks search through lists that are already closed, every
  // block ends up with exactly the blocks it reaches in the original relation.
  method PropagateAll(dep0: Deps) returns (dep: Deps)
    requires InRange(dep0)
    ensures |dep| == |dep0| && forall k :: 0 <= k < |dep| ==> Closed(dep0, k, dep[k])
  {
    dep := dep0;
    var i := 0;
    while i < |dep|
      invariant i <= |dep| && PartlyClosed(dep0, dep, i)
    {
      var cur := PropagateDep(dep, i);
      forall j: nat
        ensures Reaches(dep, i, j) <==> Reaches(dep0, i, j)
      {
        SameReach(dep0, dep, i, i, j);
      }
      assert Closed(dep0, i, cur);
      dep := dep[i := cur];
      i := i + 1;
    }
  }

  // ---------------------------------------------------------------------
  // The groups
  // ---------------------------------------------------------------------

  lemma {:induction false} WayReversed(dep: Deps, way: seq<nat>, i: nat, j: nat)
    requires Symmetric(dep) && IsWay(dep, way, i, j)
    ensures Reaches(dep, j, i)
    decreases |way|
  {
    if |way| == 1 {
      ReachesSelf(dep, i);
    } else {
      var k := way[1];
      assert way[0 + 1] in dep[way[0]];
      var rest := way[1..];
      forall l | 0 <= l < |rest| - 1
        ensures rest[l + 1] in dep[rest[l]]
      {
        assert way[l + 1 + 1] in dep[way[l + 1]];
      }
      WayReversed(dep, rest, k, j);
      ReachesStep(dep, j, k, i);
    }
  }

  // With the symmetric relation of setDepBlocks the closed lists are the
  // connected components: blocks that depend on each other have, each together
  // with itself, the same list.
  lemma GroupsAreComponents(dep0: Deps, dep: Deps, i: nat, j: nat)
    requires InRange(dep0) && Symmetric(dep0) && |dep| == |dep0|
    requires forall k :: 0 <= k < |dep| ==> Closed(dep0, k, dep[k])
    requires i < |dep| && j in dep[i]
    ensures j < |dep| && dep[i] + {i} == dep[j] + {j}
  {
    assert Closed(dep0, i, dep[i]);
    ReachesSelf(dep0, i);
    var way :| IsWay(dep0, way, i, j);
    assert Closed(dep0, j, dep[j]);
    WayReversed(dep0, way, i, j);
    var back :| IsWay(dep0, back, j, i);
    forall k: nat
      ensures k in dep[i] + {i} <==> k in dep[j] + {j}
    {
      ReachesSelf(dep0, j);
      if Reaches(dep0, i, k) {
        var onward :| IsWay(dep0, onward, i, k);
        ReachesTrans(dep0, j, i, onward, k);
      }
      if Reaches(dep0, j, k) {
        var onward :| IsWay(dep0, onward, j, k);
        ReachesTrans(dep0, i, j, onward, k);
      }
    }
  }
}
