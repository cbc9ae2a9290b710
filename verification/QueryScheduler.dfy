// The greedy order of queries, by dependencies and conflict index (CBlocks.cpp).

module QueryScheduler {
  import opened Counting

  // definedBy holds the positions of the blocks that define what a block uses.
  datatype Block = Block(isQuery: bool, conflictIndex: int, definedBy: set<nat>)

  // k defines, directly or through other blocks, something j uses; every step
  // goes to an earlier block.
  ghost predicate Below(blocks: seq<Block>, j: nat, k: nat)
    decreases j
  {
    j < |blocks| && exists m :: m in blocks[j].definedBy && m < j && (m == k || Below(blocks, m, k))
  }

  // What the code collects for query i.
  ghost predicate IsParent(blocks: seq<Block>, i: nat, k: nat) {
    && i < |blocks| && k < |blocks| && blocks[k].isQuery
    && exists j :: j in blocks[i].definedBy && j < i && if blocks[j].isQuery then k == j else Below(blocks, j, k)
  }

  lemma {:induction false} BelowIsEarlier(blocks: seq<Block>, j: nat, k: nat)
    requires Below(blocks, j, k)
    ensures k < j < |blocks|
    decreases j
  {
    var m :| m in blocks[j].definedBy && m < j && (m == k || Below(blocks, m, k));
    if m != k {
      BelowIsEarlier(blocks, m, k);
    }
  }

  lemma {:induction false} BelowTrans(blocks: seq<Block>, i: nat, j: nat, k: nat)
    requires Below(blocks, i, j) && Below(blocks, j, k)
    ensures Below(blocks, i, k)
    decreases i
  {
    var m :| m in blocks[i].definedBy && m < i && (m == j || Below(blocks, m, j));
    if m != j {
      BelowTrans(blocks, m, j, k);
    }
  }

  lemma ParentIsBelow(blocks: seq<Block>, i: nat, k: nat)
    requires IsParent(blocks, i, k)
    ensures Below(blocks, i, k) && k < i
  {
    var j :| j in blocks[i].definedBy && j < i && if blocks[j].isQuery then k == j else Below(blocks, j, k);
    assert Below(blocks, i, k);
    BelowIsEarlier(blocks, i, k);
  }

  // A query that i depends on is a parent of i, or below a parent of i.
  lemma BelowThroughParent(blocks: seq<Block>, i: nat, k: nat)
    requires Below(blocks, i, k) && k < |blocks| && blocks[k].isQuery
    ensures IsParent(blocks, i, k) || exists m :: IsParent(blocks, i, m) && Below(blocks, m, k)
  {
    var j :| j in blocks[i].definedBy && j < i && (j == k || Below(blocks, j, k));
    if blocks[j].isQuery {
      assert IsParent(blocks, i, j);
    } else {
      assert IsParent(blocks, i, k);
    }
  }

  // A way from a block to one it depends on: each block uses what the next one,
  // which lies before it, defines.
  ghost predicate IsWay(blocks: seq<Block>, way: seq<nat>) {
    && |way| >= 2
    && forall n :: 0 <= n < |way| - 1 ==> way[n] < |blocks| && way[n + 1] in blocks[way[n]].definedBy && way[n + 1] < way[n]
  }

  lemma {:induction false} WayIsBelow(blocks: seq<Block>, way: seq<nat>)
    requires IsWay(blocks, way)
    ensures Below(blocks, way[0], way[|way| - 1])
    decreases |way|
  {
    assert way[0 + 1] in blocks[way[0]].definedBy;
    if |way| > 2 {
      TailIsWay(blocks, way);
      WayIsBelow(blocks, way[1..]);
    }
  }

  lemma {:induction false} BelowHasWay(blocks: seq<Block>, j: nat, k: nat) returns (way: seq<nat>)
    requires Below(blocks, j, k)
    ensures IsWay(blocks, way) && way[0] == j && way[|way| - 1] == k
    decreases j
  {
    var m :| m in blocks[j].definedBy && m < j && (m == k || Below(blocks, m, k));
    if m == k {
      way := [j, k];
    } else {
      var rest := BelowHasWay(blocks, m, k);
      way := [j] + rest;
    }
  }

  // Below means that there is a way.
  lemma BelowIsWay(blocks: seq<Block>, j: nat, k: nat)
    ensures Below(blocks, j, k) <==> exists way :: IsWay(blocks, way) && way[0] == j && way[|way| - 1] == k
  {
    if Below(blocks, j, k) {
      var way := BelowHasWay(blocks, j, k);
    }
    if way :| IsWay(blocks, way) && way[0] == j && way[|way| - 1] == k {
      WayIsBelow(blocks, way);
    }
  }

  // The parents of i are the queries it uses directly, and those that a block it
  // uses, itself not a query, depends on.
  lemma ParentIsWay(blocks: seq<Block>, i: nat, k: nat)
    ensures IsParent(blocks, i, k) <==>
            && k < |blocks| && blocks[k].isQuery
            && exists way :: IsWay(blocks, way) && way[0] == i && way[|way| - 1] == k && (blocks[way[1]].isQuery ==> |way| == 2)
  {
    if IsParent(blocks, i, k) {
      var j :| j in blocks[i].definedBy && j < i && if blocks[j].isQuery then k == j else Below(blocks, j, k);
      if blocks[j].isQuery {
        assert IsWay(blocks, [i, j]);
      } else {
        var rest := BelowHasWay(blocks, j, k);
        assert IsWay(blocks, [i] + rest);
      }
    }
    if k < |blocks| && blocks[k].isQuery {
      if way :| IsWay(blocks, way) && way[0] == i && way[|way| - 1] == k && (blocks[way[1]].isQuery ==> |way| == 2) {
        assert way[0 + 1] in blocks[way[0]].definedBy;
        if |way| > 2 {
          TailIsWay(blocks, way);
          WayIsBelow(blocks, way[1..]);
        }
      }
    }
  }

  lemma TailIsWay(blocks: seq<Block>, way: seq<nat>)
    requires IsWay(blocks, way) && |way| > 2
    ensures IsWay(blocks, way[1..])
  {
    forall n | 0 <= n < |way[1..]| - 1
      ensures way[1..][n + 1] in blocks[way[1..][n]].definedBy && way[1..][n + 1] < way[1..][n] < |blocks|
    {
      assert way[n + 1 + 1] in blocks[way[n + 1]].definedBy;
    }
  }

  // ---------------------------------------------------------------------
  // Collecting the parents
  // ---------------------------------------------------------------------

  function Pow2(n: nat): nat {
    if n == 0 then 1 else 2 * Pow2(n - 1)
  }

  // How long the search can still go on with que.
  function Effort(que: seq<nat>): nat {
    if que == [] then 0 else Effort(que[..|que| - 1]) + Pow2(que[|que| - 1])
  }

  lemma {:induction false} EffortHead(que: seq<nat>)
    requires que != []
    ensures Effort(que) == Pow2(que[0]) + Effort(que[1..])
  {
    if |que| > 1 {
      EffortHead(que[..|que| - 1]);
      assert que[..|que| - 1][1..] == que[1..][..|que| - 2];
    }
  }

  lemma EffortPush(que: seq<nat>, k: nat)
    ensures Effort(que + [k]) == Effort(que) + Pow2(k)
  {
    assert (que + [k])[..|que|] == que;
  }

  // A query that pre or something waiting in que leads to.
  ghost predicate Ahead(blocks: seq<Block>, que: seq<nat>, k: nat) {
    exists q :: q in que && Below(blocks, q, k)
  }

  // One node of the search: its definitions are queued, the queries among them
  // collected.
  method Expand(blocks: seq<Block>, pre: nat, que: seq<nat>, found: set<nat>) returns (que': seq<nat>, found': set<nat>)
    requires pre < |blocks|
    ensures Effort(que') < Effort(que) + Pow2(pre) && (forall q :: q in que' ==> q in que || q < pre)
    ensures forall k :: k in que' <==> k in que || (k < pre && k in blocks[pre].definedBy)
    ensures forall k :: k in found' <==> k in found || (k < pre && k in blocks[pre].definedBy && blocks[k].isQuery)
  {
    que', found' := que, found;
    var k := 0;
    while k < |blocks| && k != pre
      invariant k <= pre
      invariant Effort(que') < Effort(que) + Pow2(k)
      invariant forall m :: m in que' <==> m in que || (m < k && m in blocks[pre].definedBy)
      invariant forall m :: m in found' <==> m in found || (m < k && m in blocks[pre].definedBy && blocks[m].isQuery)
    {
      if k in blocks[pre].definedBy {
        EffortPush(que', k);
        que' := que' + [k];
        if blocks[k].isQuery {
          found' := found' + {k};
        }
      }
      k := k + 1;
    }
  }

  // The queries below the non-query block j.
  method QueriesBelow(blocks: seq<Block>, j: nat) returns (found: set<nat>)
    requires j < |blocks|
    ensures forall k: nat :: k in found <==> k < |blocks| && blocks[k].isQuery && Below(blocks, j, k)
  {
    var que: seq<nat> := [j];
    found := {};
    while que != []
      invariant forall q :: q in que ==> q < |blocks|
      invariant forall k :: k in found ==> k < |blocks| && blocks[k].isQuery && Below(blocks, j, k)
      invariant forall k: nat :: k < |blocks| && blocks[k].isQuery && Below(blocks, j, k) ==> k in found || Ahead(blocks, que, k)
      invariant forall q :: q in que ==> q == j || Below(blocks, j, q)
      decreases Effort(que)
    {
      var pre := que[0];
      EffortHead(que);
      assert que == [pre] + que[1..] && pre in que;
      assert forall q :: q in que[1..] ==> q in que;
      ghost var before, known := que, found;
      que, found := Expand(blocks, pre, que[1..], found);
      StepDown(blocks, j, pre);
      forall k: nat | k < |blocks| && blocks[k].isQuery && Below(blocks, j, k)
        ensures k in found || Ahead(blocks, que, k)
      {
        if k !in known {
          var q :| q in before && Below(blocks, q, k);
          if q == pre {
            var m :| m in blocks[pre].definedBy && m < pre && (m == k || Below(blocks, m, k));
          }
        }
      }
    }
  }

  lemma StepDown(blocks: seq<Block>, j: nat, pre: nat)
    requires pre < |blocks| && (pre == j || Below(blocks, j, pre))
    ensures forall k :: k in blocks[pre].definedBy && k < pre ==> Below(blocks, j, k)
  {
    forall k | k in blocks[pre].definedBy && k < pre
      ensures Below(blocks, j, k)
    {
      assert Below(blocks, pre, k);
      if pre != j {
        BelowTrans(blocks, j, pre, k);
      }
    }
  }

  // map_parent for query i.
  method ParentsOf(blocks: seq<Block>, i: nat) returns (parents: set<nat>)
    requires i < |blocks|
    ensures forall k: nat :: k in parents <==> IsParent(blocks, i, k)
  {
    parents := {};
    var j := 0;
    while j < i
      invariant j <= i
      invariant forall k: nat :: k in parents <==>
                  && k < |blocks| && blocks[k].isQuery
                  && exists m :: m in blocks[i].definedBy && m < j && if blocks[m].isQuery then k == m else Below(blocks, m, k)
    {
      if j in blocks[i].definedBy {
        if blocks[j].isQuery {
          parents := parents + {j};
        } else {
          var more := QueriesBelow(blocks, j);
          parents := parents + more;
        }
      }
      j := j + 1;
    }
  }

  // ---------------------------------------------------------------------
  // The greedy order
  // ---------------------------------------------------------------------

  ghost predicate Distinct(order: seq<nat>) {
    forall p, q :: 0 <= p < q < |order| ==> order[p] != order[q]
  }

  ghost predicate SameElements(a: seq<nat>, b: seq<nat>) {
    forall x :: x in a <==> x in b
  }

  // The queries after std::sort by conflict index, in any order of equals.
  ghost predicate SortedQueries(blocks: seq<Block>, sorted: seq<nat>) {
    && Distinct(sorted) && (forall p :: 0 <= p < |sorted| ==> sorted[p] < |blocks|)
    && (forall k: nat :: k in sorted <==> k < |blocks| && blocks[k].isQuery)
    && (forall p, q :: 0 <= p < q < |sorted| ==> blocks[sorted[p]].conflictIndex <= blocks[sorted[q]].conflictIndex)
  }

  ghost predicate Ready(blocks: seq<Block>, done: seq<nat>, x: nat) {
    x !in done && forall k :: IsParent(blocks, x, k) ==> k in done
  }

  // Position p of the schedule holds a ready query of least conflict index.
  ghost predicate Greedy(blocks: seq<Block>, sorted: seq<nat>, order: seq<nat>, p: nat)
    requires p < |order|
  {
    && order[p] in sorted && order[p] < |blocks| && Ready(blocks, order[..p], order[p])
    && forall x :: x in sorted && x < |blocks| && Ready(blocks, order[..p], x) ==>
         blocks[order[p]].conflictIndex <= blocks[x].conflictIndex
  }

  // Whoever is left leads down to a ready query.
  lemma {:induction false} SomebodyReady(blocks: seq<Block>, sorted: seq<nat>, done: seq<nat>, x: nat) returns (y: nat)
    requires SortedQueries(blocks, sorted) && x in sorted && x !in done
    ensures y in sorted && Ready(blocks, done, y)
    decreases x
  {
    if Ready(blocks, done, x) {
      y := x;
    } else {
      var k :| IsParent(blocks, x, k) && k !in done;
      ParentIsBelow(blocks, x, k);
      y := SomebodyReady(blocks, sorted, done, k);
    }
  }

  // The first query of sorted that is ready.
  method FirstReady(blocks: seq<Block>, sorted: seq<nat>, parents: map<nat, set<nat>>, processed: set<nat>, ghost done: seq<nat>)
    returns (cur: nat)
    requires SortedQueries(blocks, sorted) && |processed| < |sorted|
    requires forall i: nat :: i in sorted ==> i in parents && forall k: nat :: k in parents[i] <==> IsParent(blocks, i, k)
    requires forall k :: k in processed <==> k in done
    ensures cur in sorted && Ready(blocks, done, cur)
    ensures forall x :: x in sorted && Ready(blocks, done, x) ==> blocks[cur].conflictIndex <= blocks[x].conflictIndex
  {
    ghost var left := SomethingMissing(sorted, processed);
    ghost var y := SomebodyReady(blocks, sorted, done, sorted[left]);
    ghost var at :| 0 <= at < |sorted| && sorted[at] == y;
    var i := 0;
    while i < |sorted|
      invariant i <= at
      invariant forall p :: 0 <= p < i ==> !Ready(blocks, done, sorted[p])
    {
      ReadyIs(blocks, parents[sorted[i]], processed, done, sorted[i]);
      if sorted[i] !in processed && parents[sorted[i]] <= processed {
        FirstIsLeast(blocks, sorted, done, i);
        return sorted[i];
      }
      i := i + 1;
    }
  }

  lemma ReadyIs(blocks: seq<Block>, parents: set<nat>, processed: set<nat>, done: seq<nat>, x: nat)
    requires (forall k :: k in processed <==> k in done) && forall k: nat :: k in parents <==> IsParent(blocks, x, k)
    ensures Ready(blocks, done, x) <==> x !in processed && parents <= processed
  {
  }

  lemma FirstIsLeast(blocks: seq<Block>, sorted: seq<nat>, done: seq<nat>, i: nat)
    requires SortedQueries(blocks, sorted) && i < |sorted| && forall p :: 0 <= p < i ==> !Ready(blocks, done, sorted[p])
    ensures forall x :: x in sorted && Ready(blocks, done, x) ==> blocks[sorted[i]].conflictIndex <= blocks[x].conflictIndex
  {
    forall x | x in sorted && Ready(blocks, done, x)
      ensures blocks[sorted[i]].conflictIndex <= blocks[x].conflictIndex
    {
      var p :| 0 <= p < |sorted| && sorted[p] == x;
    }
  }

  method Schedule(blocks: seq<Block>, sorted: seq<nat>, parents: map<nat, set<nat>>) returns (order: seq<nat>)
    requires SortedQueries(blocks, sorted)
    requires forall i: nat :: i in sorted ==> i in parents && forall k: nat :: k in parents[i] <==> IsParent(blocks, i, k)
    ensures Distinct(order) && SameElements(order, sorted)
    ensures forall p :: 0 <= p < |order| ==> Greedy(blocks, sorted, order, p)
  {
    order := [];
    var processed: set<nat> := {};
    while |processed| < |sorted|
      invariant |processed| == |order| <= |sorted| && Distinct(order)
      invariant forall k :: k in processed <==> k in order
      invariant forall k :: k in order ==> k in sorted
      invariant forall p :: 0 <= p < |order| ==> Greedy(blocks, sorted, order, p)
      decreases |sorted| - |order|
    {
      var cur := FirstReady(blocks, sorted, parents, processed, order);
      ghost var before := order;
      processed := processed + {cur};
      order := order + [cur];
      forall p | 0 <= p < |order|
        ensures Greedy(blocks, sorted, order, p)
      {
        assert order[..p] == before[..p];
        assert p < |before| ==> Greedy(blocks, sorted, before, p);
        assert before[..|before|] == before;
      }
    }
    AllScheduled(order, sorted);
  }

  lemma AllScheduled(order: seq<nat>, sorted: seq<nat>)
    requires Distinct(order) && Distinct(sorted) && |order| == |sorted| && forall k :: k in order ==> k in sorted
    ensures SameElements(order, sorted)
  {
    ElementsCount(order, |order|);
    ElementsCount(sorted, |sorted|);
    forall x
      ensures x in Elements(order, |order|) <==> x in order
      ensures x in Elements(sorted, |sorted|) <==> x in sorted
    {
      ElementsAre(order, |order|, x);
      ElementsAre(sorted, |sorted|, x);
      assert order[..|order|] == order && sorted[..|sorted|] == sorted;
    }
    SubsetOfSameSize(Elements(order, |order|), Elements(sorted, |sorted|));
  }

  // Nobody comes before a query it depends on.
  ghost predicate Respects(blocks: seq<Block>, order: seq<nat>) {
    forall p, q :: 0 <= p < q < |order| ==> !Below(blocks, order[p], order[q])
  }

  lemma {:induction false} DependenciesDone(blocks: seq<Block>, sorted: seq<nat>, order: seq<nat>, p: nat, k: nat)
    requires SortedQueries(blocks, sorted) && (forall p :: 0 <= p < |order| ==> Greedy(blocks, sorted, order, p))
    requires p < |order| && Below(blocks, order[p], k) && k < |blocks| && blocks[k].isQuery
    ensures k in order[..p]
    decreases p
  {
    assert Greedy(blocks, sorted, order, p);
    BelowThroughParent(blocks, order[p], k);
    if !IsParent(blocks, order[p], k) {
      var m :| IsParent(blocks, order[p], m) && Below(blocks, m, k);
      var q :| 0 <= q < p && order[..p][q] == m;
      DependenciesDone(blocks, sorted, order, q, k);
      var r :| 0 <= r < q && order[..q][r] == k;
      assert order[..p][r] == k;
    }
  }

  // The greedy order respects every dependency between queries, also those
  // through blocks that are not queries.
  lemma GreedyRespects(blocks: seq<Block>, sorted: seq<nat>, order: seq<nat>)
    requires SortedQueries(blocks, sorted) && Distinct(order) && SameElements(order, sorted)
    requires forall p :: 0 <= p < |order| ==> Greedy(blocks, sorted, order, p)
    ensures Respects(blocks, order)
  {
    forall p, q | 0 <= p < q < |order|
      ensures !Below(blocks, order[p], order[q])
    {
      assert order[q] in order && order[q] !in order[..p];
      if Below(blocks, order[p], order[q]) {
        DependenciesDone(blocks, sorted, order, p, order[q]);
      }
    }
  }

  // In the greedy order a query comes after every query some way leads to.
  lemma DefinersComeFirst(blocks: seq<Block>, sorted: seq<nat>, order: seq<nat>, way: seq<nat>, p: nat, q: nat)
    requires SortedQueries(blocks, sorted) && Distinct(order) && SameElements(order, sorted)
    requires forall p :: 0 <= p < |order| ==> Greedy(blocks, sorted, order, p)
    requires |way| >= 2 && p < |order| && q < |order| && order[p] == way[0] && order[q] == way[|way| - 1]
    requires forall n :: 0 <= n < |way| - 1 ==> way[n] < |blocks| && way[n + 1] in blocks[way[n]].definedBy && way[n + 1] < way[n]
    ensures q < p
  {
    assert IsWay(blocks, way);
    WayIsBelow(blocks, way);
    BelowIsEarlier(blocks, way[0], way[|way| - 1]);
    GreedyRespects(blocks, sorted, order);
  }

  // ---------------------------------------------------------------------
  // What a reordered transaction computes
  // ---------------------------------------------------------------------

  function Run<S>(apply: (nat, S) -> S, order: seq<nat>, s: S): S {
    if order == [] then s else Run(apply, order[1..], apply(order[0], s))
  }

  ghost predicate Commute<S(!new)>(apply: (nat, S) -> S, x: nat, y: nat) {
    forall s :: apply(x, apply(y, s)) == apply(y, apply(x, s))
  }

  // Unrelated queries commute.
  ghost predicate UnrelatedCommute<S(!new)>(blocks: seq<Block>, apply: (nat, S) -> S, queries: seq<nat>) {
    forall x, y :: x in queries && y in queries && !Below(blocks, x, y) && !Below(blocks, y, x) ==> Commute(apply, x, y)
  }

  lemma {:induction false} BubbleFront<S(!new)>(apply: (nat, S) -> S, b: seq<nat>, k: nat, s: S)
    requires k < |b| && forall p :: 0 <= p < k ==> Commute(apply, b[k], b[p])
    ensures Run(apply, b, s) == Run(apply, [b[k]] + b[..k] + b[k + 1..], s)
    decreases k
  {
    var x := b[k];
    var front := [x] + b[..k] + b[k + 1..];
    assert front[1..] == b[..k] + b[k + 1..];
    if k == 0 {
      assert front == b;
    } else {
      var rest := b[1..];
      BubbleFront(apply, rest, k - 1, apply(b[0], s));
      var tail := rest[..k - 1] + rest[k..];
      assert ([x] + rest[..k - 1] + rest[k..])[1..] == tail;
      assert [x] + rest[..k - 1] + rest[k - 1 + 1..] == [x] + rest[..k - 1] + rest[k..];
      assert front[1..][0] == b[0] && front[1..][1..] == tail;
      assert Commute(apply, x, b[0]);
    }
  }

  lemma SameEmpty(a: seq<nat>, b: seq<nat>)
    requires SameElements(a, b)
    ensures a == [] <==> b == []
  {
    assert a != [] ==> a[0] in a && a[0] in b;
    assert b != [] ==> b[0] in b && b[0] in a;
  }

  // Two orders of the same queries that respect the dependencies end in the
  // same state when unrelated queries commute.
  lemma {:induction false} OrdersAgree<S(!new)>(blocks: seq<Block>, apply: (nat, S) -> S, a: seq<nat>, b: seq<nat>, s: S)
    requires Distinct(a) && Distinct(b) && SameElements(a, b) && Respects(blocks, a) && Respects(blocks, b)
    requires UnrelatedCommute(blocks, apply, a)
    ensures Run(apply, a, s) == Run(apply, b, s)
    decreases |a|
  {
    SameEmpty(a, b);
    if a != [] {
      var x := a[0];
      assert x in b;
      var k :| 0 <= k < |b| && b[k] == x;
      FirstCommutes(blocks, apply, a, b, k);
      BubbleFront(apply, b, k, s);
      var rest := b[..k] + b[k + 1..];
      assert ([x] + b[..k] + b[k + 1..])[1..] == rest;
      WithoutFirst(blocks, a, b, k);
      OrdersAgree(blocks, apply, a[1..], rest, apply(x, s));
    }
  }

  lemma FirstCommutes<S(!new)>(blocks: seq<Block>, apply: (nat, S) -> S, a: seq<nat>, b: seq<nat>, k: nat)
    requires a != [] && k < |b| && b[k] == a[0] && Distinct(b) && SameElements(a, b)
    requires Respects(blocks, a) && Respects(blocks, b) && UnrelatedCommute(blocks, apply, a)
    ensures forall p :: 0 <= p < k ==> Commute(apply, b[k], b[p])
  {
    forall p | 0 <= p < k
      ensures Commute(apply, b[k], b[p])
    {
      assert b[p] in b;
      var q :| 0 <= q < |a| && a[q] == b[p];
      assert a[0] in a;
    }
  }

  lemma WithoutFirst(blocks: seq<Block>, a: seq<nat>, b: seq<nat>, k: nat)
    requires Distinct(a) && Distinct(b) && SameElements(a, b) && Respects(blocks, a) && Respects(blocks, b)
    requires a != [] && k < |b| && b[k] == a[0]
    ensures var rest := b[..k] + b[k + 1..];
            Distinct(a[1..]) && Distinct(rest) && SameElements(a[1..], rest) && Respects(blocks, a[1..]) && Respects(blocks, rest)
    ensures forall x :: x in a[1..] ==> x in a
  {
    var rest := b[..k] + b[k + 1..];
    assert a == [a[0]] + a[1..];
    assert b == b[..k] + [b[k]] + b[k + 1..];
    forall p, q | 0 <= p < q < |rest|
      ensures rest[p] != rest[q] && !Below(blocks, rest[p], rest[q]) && rest[p] != b[k] && rest[q] != b[k]
    {
      assert rest[p] == b[if p < k then p else p + 1] && rest[q] == b[if q < k then q else q + 1];
    }
    forall x
      ensures x in a[1..] <==> x in rest
    {
      RestMembers(a, b, k, x);
    }
  }

  lemma RestMembers(a: seq<nat>, b: seq<nat>, k: nat, x: nat)
    requires Distinct(a) && Distinct(b) && SameElements(a, b) && a != [] && k < |b| && b[k] == a[0]
    ensures x in a[1..] <==> x in b[..k] + b[k + 1..]
  {
    var rest := b[..k] + b[k + 1..];
    assert a == [a[0]] + a[1..];
    assert b == b[..k] + [b[k]] + b[k + 1..];
    forall p | 0 <= p < |rest|
      ensures rest[p] != b[k]
    {
      assert rest[p] == b[if p < k then p else p + 1];
    }
    forall p | 0 <= p < |a[1..]|
      ensures a[1..][p] != a[0]
    {
      assert a[1..][p] == a[p + 1];
    }
    assert x in a <==> x in b;
  }

  // The original order of the queries.
  ghost predicate InPlace(order: seq<nat>) {
    forall p, q :: 0 <= p < q < |order| ==> order[p] < order[q]
  }

  // The greedy order leaves the transaction's final state as it was.
  lemma ScheduleComputesTheSame<S(!new)>(blocks: seq<Block>, apply: (nat, S) -> S, sorted: seq<nat>, order: seq<nat>, original: seq<nat>, s: S)
    requires SortedQueries(blocks, sorted) && Distinct(order) && SameElements(order, sorted)
    requires forall p :: 0 <= p < |order| ==> Greedy(blocks, sorted, order, p)
    requires InPlace(original) && SameElements(original, sorted) && UnrelatedCommute(blocks, apply, original)
    ensures Run(apply, order, s) == Run(apply, original, s)
  {
    GreedyRespects(blocks, sorted, order);
    forall p, q | 0 <= p < q < |original|
      ensures !Below(blocks, original[p], original[q])
    {
      if Below(blocks, original[p], original[q]) {
        BelowIsEarlier(blocks, original[p], original[q]);
        assert false;
      }
    }
    OrdersAgree(blocks, apply, original, order, s);
  }
}
