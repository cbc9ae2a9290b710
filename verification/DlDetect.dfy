// The waits-for cycle detector (dl_detect.cpp) on a graph that does not change
// while it is searched; the victim is chosen while the recursion unwinds.

module DlDetect {
  import opened TxnMan

  // What the transaction of one thread waits for; txnid is -1 when none does.
  datatype DepThd = DepThd(txnid: int, adj: seq<nat>, numLocks: int)

  const MAX_LOCK_NUM := 1000
  const SINT32_END := 0x8000_0000

  // The conversion to a signed 32-bit integer.
  function SInt32(x: nat): int {
    var low := x % 0x1_0000_0000;
    if low < SINT32_END then low else low - 0x1_0000_0000
  }

  function Thd(g: seq<DepThd>, txnid: nat): (thd: nat)
    requires g != []
    ensures thd < |g|
  {
    txnid % |g|
  }

  // txnid is the transaction its thread runs.
  predicate Live(g: seq<DepThd>, txnid: nat)
    requires g != []
  {
    g[Thd(g, txnid)].txnid == txnid
  }

  // The transaction of thread a waits for that of thread b.
  ghost predicate Edge(g: seq<DepThd>, a: nat, b: nat) {
    a < |g| && b < |g| && exists i :: 0 <= i < |g[a].adj| && Live(g, g[a].adj[i]) && Thd(g, g[a].adj[i]) == b
  }

  ghost predicate IsPath(g: seq<DepThd>, p: seq<nat>) {
    && (forall i :: 0 <= i < |p| ==> p[i] < |g|)
    && (forall i :: 0 <= i < |p| - 1 ==> Edge(g, p[i], p[i + 1]))
  }

  ghost predicate IsCycle(g: seq<DepThd>, c: seq<nat>) {
    c != [] && IsPath(g, c) && Edge(g, c[|c| - 1], c[0])
  }

  ghost predicate Reaches(g: seq<DepThd>, start: nat, p: seq<nat>, end: nat) {
    p != [] && IsPath(g, p) && p[0] == start && p[|p| - 1] == end
  }

  // A cycle of waiting transactions can be reached from start.
  ghost predicate Deadlocked(g: seq<DepThd>, start: nat) {
    exists p, c :: IsCycle(g, c) && Reaches(g, start, p, c[0])
  }

  ghost predicate Distinct(p: seq<nat>) {
    forall i, j :: 0 <= i < j < |p| ==> p[i] != p[j]
  }

  // The finished nodes, each after everything it waits for.
  ghost predicate Topological(g: seq<DepThd>, order: seq<nat>) {
    forall k, b :: 0 <= k < |order| && Edge(g, order[k], b) ==> b in order[..k]
  }

  // An edge leads from an entry to the transaction it lists, provided that
  // transaction is still the one its thread runs.
  lemma EdgeIs(g: seq<DepThd>, a: nat, b: nat)
    ensures Edge(g, a, b) <==>
            a < |g| && b < |g| && exists i :: 0 <= i < |g[a].adj| && g[a].adj[i] % |g| == b && g[b].txnid == g[a].adj[i]
  {
  }

  // A cycle is a closed way on which every entry lists the transaction that the
  // next thread still runs.
  lemma CycleIs(g: seq<DepThd>, c: seq<nat>)
    ensures IsCycle(g, c) <==>
            && c != [] && (forall k :: 0 <= k < |c| ==> c[k] < |g| && g[c[k]].txnid >= 0 && g[c[k]].txnid % |g| == c[k])
            && (forall k :: 0 <= k < |c| - 1 ==> g[c[k + 1]].txnid in g[c[k]].adj)
            && g[c[0]].txnid in g[c[|c| - 1]].adj
  {
    forall a: nat, b: nat
      ensures Edge(g, a, b) <==> a < |g| && b < |g| && g[b].txnid >= 0 && g[b].txnid % |g| == b && g[b].txnid in g[a].adj
    {
      EdgeIs(g, a, b);
    }
    hide Edge;
    if IsCycle(g, c) {
      forall k | 0 <= k < |c|
        ensures c[k] < |g| && g[c[k]].txnid >= 0 && g[c[k]].txnid % |g| == c[k]
      {
        OnCycleIsLive(g, c, c[k]);
      }
      assert Edge(g, c[|c| - 1], c[0]);
      assert forall k :: 0 <= k < |c| - 1 ==> Edge(g, c[k], c[k + 1]);
    }
  }

  // ---------------------------------------------------------------------
  // Why a finished search without a loop rules out every cycle
  // ---------------------------------------------------------------------

  function IndexIn(order: seq<nat>, x: nat): (k: nat)
    requires x in order
    ensures k < |order| && order[k] == x && x !in order[..k]
  {
    if order[0] == x then 0 else 1 + IndexIn(order[1..], x)
  }

  // Paths that start in order stay in it and move strictly forward in it.
  lemma {:induction false} PathFalls(g: seq<DepThd>, order: seq<nat>, p: seq<nat>)
    requires Topological(g, order) && IsPath(g, p) && p != [] && p[0] in order
    ensures p[|p| - 1] in order
    ensures |p| > 1 ==> IndexIn(order, p[|p| - 1]) < IndexIn(order, p[0])
    decreases |p|
  {
    if |p| > 1 {
      var k := IndexIn(order, p[0]);
      assert Edge(g, p[0], p[0 + 1]);
      assert p[1] in order[..k];
      var j :| 0 <= j < k && order[j] == p[1];
      assert IndexIn(order, p[1]) <= j;
      forall i | 0 <= i < |p[1..]| - 1
        ensures Edge(g, p[1..][i], p[1..][i + 1])
      {
        assert Edge(g, p[i + 1], p[i + 1 + 1]);
      }
      PathFalls(g, order, p[1..]);
    }
  }

  lemma NoCycle(g: seq<DepThd>, order: seq<nat>, start: nat)
    requires Topological(g, order) && start in order
    ensures !Deadlocked(g, start)
  {
    forall p, c | IsCycle(g, c)
      ensures !Reaches(g, start, p, c[0])
    {
      if Reaches(g, start, p, c[0]) {
        PathFalls(g, order, p);
        CycleOutside(g, order, c);
      }
    }
  }

  lemma CycleOutside(g: seq<DepThd>, order: seq<nat>, c: seq<nat>)
    requires Topological(g, order) && IsCycle(g, c)
    ensures c[0] !in order
  {
    if c[0] in order {
      var round := c + [c[0]];
      forall i | 0 <= i < |round| - 1
        ensures Edge(g, round[i], round[i + 1])
      {
        assert i < |c| - 1 ==> Edge(g, c[i], c[i + 1]);
      }
      PathFalls(g, order, round);
      assert false;
    }
  }

  // Who is on a cycle is live: somebody waits for it.
  lemma OnCycleIsLive(g: seq<DepThd>, c: seq<nat>, v: nat)
    requires IsCycle(g, c) && v in c
    ensures v < |g| && g[v].txnid >= 0 && Thd(g, g[v].txnid) == v
  {
    var k :| 0 <= k < |c| && c[k] == v;
    if k == 0 {
      assert Edge(g, c[|c| - 1], v);
    } else {
      assert Edge(g, c[k - 1], c[k - 1 + 1]);
    }
  }

  lemma VictimIsLive(g: seq<DepThd>, c: seq<nat>, txnid: int) returns (v: nat)
    requires IsCycle(g, c)
    requires exists v :: v in c && v < |g| && g[v].txnid == txnid && forall u :: u in c && u < |g| ==> g[v].numLocks <= g[u].numLocks
    ensures v in c && v < |g| && g[v].txnid == txnid && forall u :: u in c && u < |g| ==> g[v].numLocks <= g[u].numLocks
    ensures txnid >= 0 && Thd(g, txnid) == v
  {
    v :| v in c && v < |g| && g[v].txnid == txnid && forall u :: u in c && u < |g| ==> g[v].numLocks <= g[u].numLocks;
    OnCycleIsLive(g, c, v);
  }

  // ---------------------------------------------------------------------
  // The search
  // ---------------------------------------------------------------------

  // path leads to the node being visited, order lists the finished ones.
  ghost predicate Searching(g: seq<DepThd>, visited: seq<bool>, recStack: seq<bool>, path: seq<nat>, order: seq<nat>) {
    && |visited| == |recStack| == |g|
    && IsPath(g, path) && Distinct(path) && Topological(g, order)
    && (forall x :: 0 <= x < |g| ==> (recStack[x] <==> x in path))
    && (forall x :: 0 <= x < |g| ==> (visited[x] <==> x in path || x in order))
  }

  // full ends with a cycle from position s on.
  ghost predicate Found(g: seq<DepThd>, full: seq<nat>, s: nat) {
    s < |full| && IsPath(g, full) && Distinct(full) && Edge(g, full[|full| - 1], full[s])
  }

  // lockNum and txnid belong to a node of nodes with the fewest locks.
  ghost predicate IsMin(g: seq<DepThd>, nodes: seq<nat>, lockNum: int, txnid: int) {
    && (nodes == [] ==> lockNum == MAX_LOCK_NUM)
    && (nodes != [] ==> exists v :: v in nodes && v < |g| && g[v].numLocks == lockNum && g[v].txnid == txnid)
    && (forall v :: v in nodes && v < |g| ==> lockNum <= g[v].numLocks)
  }

  function From(s: nat, k: nat): nat {
    if s < k then k else s
  }

  // The nodes from position k of full on have been left again.
  ghost predicate Unwound(g: seq<DepThd>, full: seq<nat>, s: nat, k: nat, d: Detect) {
    && Found(g, full, s) && k <= |full|
    && d.loop && d.loopstart == full[s] && (d.onloop <==> k > s)
    && IsMin(g, full[From(s, k)..], d.minLockNum, d.minTxnid)
  }

  // The scalar fields of DetectData.
  datatype Detect = Detect(loop: bool, onloop: bool, loopstart: int, minLockNum: int, minTxnid: int)

  // Leaving the node at position k.
  function Leave(g: seq<DepThd>, thd: nat, d: Detect): Detect
    requires thd < |g|
  {
    var d' := if d.loop && d.onloop && g[thd].numLocks < d.minLockNum
              then d.(minLockNum := g[thd].numLocks, minTxnid := g[thd].txnid) else d;
    if thd == d'.loopstart then d'.(onloop := false) else d'
  }

  lemma LeaveUnwinds(g: seq<DepThd>, full: seq<nat>, s: nat, k: nat, d: Detect)
    requires Unwound(g, full, s, k + 1, d) && k < |full|
    requires forall v :: 0 <= v < |g| ==> g[v].numLocks < MAX_LOCK_NUM
    ensures Unwound(g, full, s, k, Leave(g, full[k], d))
  {
    if k >= s {
      assert full[k..] == [full[k]] + full[k + 1..];
      MinGrows(g, full[k], full[k + 1..], d.minLockNum, d.minTxnid);
    }
  }

  lemma MinGrows(g: seq<DepThd>, v: nat, nodes: seq<nat>, lockNum: int, txnid: int)
    requires IsMin(g, nodes, lockNum, txnid) && v < |g| && g[v].numLocks < MAX_LOCK_NUM
    ensures if g[v].numLocks < lockNum then IsMin(g, [v] + nodes, g[v].numLocks, g[v].txnid)
            else IsMin(g, [v] + nodes, lockNum, txnid)
  {
    if g[v].numLocks >= lockNum {
      var w :| w in nodes && w < |g| && g[w].numLocks == lockNum && g[w].txnid == txnid;
      assert w in [v] + nodes;
    } else {
      assert v in [v] + nodes;
    }
  }

  lemma Extend(g: seq<DepThd>, path: seq<nat>, thd: nat)
    requires IsPath(g, path) && Distinct(path) && thd < |g| && thd !in path
    requires path != [] ==> Edge(g, path[|path| - 1], thd)
    ensures IsPath(g, path + [thd]) && Distinct(path + [thd])
  {
    var p := path + [thd];
    forall i | 0 <= i < |p| - 1
      ensures Edge(g, p[i], p[i + 1])
    {
      assert i < |path| - 1 ==> Edge(g, path[i], path[i + 1]);
    }
  }

  lemma Finish(g: seq<DepThd>, order: seq<nat>, thd: nat)
    requires Topological(g, order) && thd < |g|
    requires forall i :: 0 <= i < |g[thd].adj| && Live(g, g[thd].adj[i]) ==> Thd(g, g[thd].adj[i]) in order
    ensures Topological(g, order + [thd])
  {
    var o := order + [thd];
    forall k, b | 0 <= k < |o| && Edge(g, o[k], b)
      ensures b in o[..k]
    {
      assert o[..k] == order[..k];
    }
  }

  lemma Enter(g: seq<DepThd>, visited: seq<bool>, recStack: seq<bool>, path: seq<nat>, order: seq<nat>, thd: nat)
    requires Searching(g, visited, recStack, path, order) && thd < |g| && !visited[thd]
    requires path != [] ==> Edge(g, path[|path| - 1], thd)
    ensures Searching(g, visited[thd := true], recStack[thd := true], path + [thd], order)
  {
    Extend(g, path, thd);
  }

  lemma Exit(g: seq<DepThd>, visited: seq<bool>, recStack: seq<bool>, path: seq<nat>, order: seq<nat>, thd: nat)
    requires Searching(g, visited, recStack, path + [thd], order) && thd < |g|
    requires forall i :: 0 <= i < |g[thd].adj| && Live(g, g[thd].adj[i]) ==> Thd(g, g[thd].adj[i]) in order
    ensures Searching(g, visited, recStack[thd := false], path, order + [thd])
  {
    Finish(g, order, thd);
    var p := path + [thd];
    assert p[|path|] == thd && forall k :: 0 <= k < |path| ==> path[k] == p[k];
    forall i | 0 <= i < |path| - 1
      ensures Edge(g, path[i], path[i + 1])
    {
      assert Edge(g, p[i], p[i + 1]);
    }
  }

  // The neighbour is on the recursion stack: path from there on is a cycle.
  lemma BackEdge(g: seq<DepThd>, visited: seq<bool>, recStack: seq<bool>, path: seq<nat>, order: seq<nat>, next: nat, d: Detect)
    returns (s: nat)
    requires Searching(g, visited, recStack, path, order) && path != [] && Edge(g, path[|path| - 1], next) && recStack[next]
    requires d.loop && d.onloop && d.loopstart == next && d.minLockNum == MAX_LOCK_NUM
    requires forall v :: 0 <= v < |g| ==> g[v].numLocks < MAX_LOCK_NUM
    ensures Unwound(g, path, s, |path|, d)
  {
    s :| 0 <= s < |path| && path[s] == next;
  }

  class DetectData {
    var visited: seq<bool>
    var recStack: seq<bool>
    var loop: bool
    var onloop: bool
    var loopstart: int
    var minLockNum: int
    var minTxnid: int

    // Nothing visited yet; onloop and loopstart keep whatever memory held.
    constructor (n: nat, onloop: bool, loopstart: int)
      ensures visited == seq(n, _ => false) && recStack == seq(n, _ => false)
      ensures !loop && minLockNum == MAX_LOCK_NUM && minTxnid == -1
    {
      visited, recStack := seq(n, _ => false), seq(n, _ => false);
      loop, minLockNum, minTxnid := false, MAX_LOCK_NUM, -1;
      this.onloop, this.loopstart := onloop, loopstart;
    }

    ghost function Scalars(): Detect
      reads this
    {
      Detect(loop, onloop, loopstart, minLockNum, minTxnid)
    }
  }

  ghost function Unvisited(visited: seq<bool>): set<nat> {
    set x: nat | x < |visited| && !visited[x]
  }

  lemma NothingVisited(g: seq<DepThd>, visited: seq<bool>)
    requires |visited| == |g| && forall x :: 0 <= x < |g| ==> !visited[x]
    ensures Searching(g, visited, visited, [], [])
  {
  }

  lemma CycleFound(g: seq<DepThd>, full: seq<nat>, s: nat, d: Detect)
    requires Unwound(g, full, s, 0, d)
    ensures IsCycle(g, full[s..]) && Reaches(g, full[0], full[..s + 1], full[s..][0]) && IsMin(g, full[s..], d.minLockNum, d.minTxnid)
    ensures Deadlocked(g, full[0])
  {
    var c, p := full[s..], full[..s + 1];
    forall i | 0 <= i < |c| - 1
      ensures Edge(g, c[i], c[i + 1])
    {
      assert Edge(g, full[s + i], full[s + i + 1]);
    }
    forall i | 0 <= i < |p| - 1
      ensures Edge(g, p[i], p[i + 1])
    {
      assert Edge(g, full[i], full[i + 1]);
    }
    assert IsCycle(g, c) && Reaches(g, full[0], p, c[0]);
  }

  class DlDetect {
    var dependency: array<DepThd>

    constructor (threads: nat)
      requires threads > 0
      ensures fresh(dependency) && dependency[..] == seq(threads, _ => DepThd(-1, [], 0))
    {
      dependency := new DepThd[threads](_ => DepThd(-1, [], 0));
    }

    method AddDep(txnid: nat, txnids: seq<nat>, numLocks: int)
      requires dependency.Length > 0
      modifies dependency
      ensures var thd := Thd(old(dependency[..]), txnid);
              dependency[..] == old(dependency[..])[thd := DepThd(txnid, old(dependency[thd]).adj + txnids, numLocks)]
    {
      var thd := txnid % dependency.Length;
      dependency[thd] := dependency[thd].(txnid := txnid, numLocks := numLocks);
      ghost var first := dependency[thd].adj;
      var i := 0;
      while i < |txnids|
        invariant i <= |txnids| && dependency[thd] == DepThd(txnid, first + txnids[..i], numLocks)
        invariant forall j :: 0 <= j < dependency.Length && j != thd ==> dependency[j] == old(dependency[j])
      {
        dependency[thd] := dependency[thd].(adj := dependency[thd].adj + [txnids[i]]);
        assert first + txnids[..i] + [txnids[i]] == first + txnids[..i + 1];
        i := i + 1;
      }
      assert txnids[..|txnids|] == txnids;
    }

    method ClearDep(txnid: nat)
      requires dependency.Length > 0
      modifies dependency
      ensures dependency[..] == old(dependency[..])[Thd(old(dependency[..]), txnid) := DepThd(-1, [], 0)]
    {
      dependency[txnid % dependency.Length] := DepThd(-1, [], 0);
    }

    // Transaction identifiers fit a signed 32-bit integer and nobody holds a
    // thousand locks.
    ghost predicate Small()
      reads this, dependency
    {
      && dependency.Length > 0
      && forall v :: 0 <= v < dependency.Length ==>
           dependency[v].numLocks < MAX_LOCK_NUM && forall x :: x in dependency[v].adj ==> x < SINT32_END
    }

    // The search has reached path and found nothing yet.
    ghost predicate Looking(data: DetectData, path: seq<nat>, order: seq<nat>)
      reads this, dependency, data
    {
      && Searching(dependency[..], data.visited, data.recStack, path, order)
      && !data.loop && data.minLockNum == MAX_LOCK_NUM
    }

    // Visits the node of txnid, which path leads to. Either everything it can
    // reach is finished, or a cycle is found and the recursion unwinds.
    method NextNode(txnid: nat, data: DetectData, ghost path: seq<nat>, ghost order: seq<nat>)
      returns (r: bool, ghost order': seq<nat>, ghost full: seq<nat>, ghost s: nat)
      requires Small() && Looking(data, path, order) && !data.visited[Thd(dependency[..], txnid)]
      requires path != [] ==> Live(dependency[..], txnid) && Edge(dependency[..], path[|path| - 1], Thd(dependency[..], txnid))
      modifies data
      ensures r == data.loop && |data.visited| == |data.recStack| == dependency.Length
      ensures Unvisited(data.visited) <= old(Unvisited(data.visited))
      ensures r ==> Live(dependency[..], txnid)
      ensures !r && Live(dependency[..], txnid) ==>
                Looking(data, path, order') && order <= order' && Thd(dependency[..], txnid) in order'
      ensures r ==> |path| < |full| && full[..|path| + 1] == path + [Thd(dependency[..], txnid)]
      ensures r ==> Unwound(dependency[..], full, s, |path|, data.Scalars())
      decreases Unvisited(data.visited), 1
    {
      hide IsPath, Distinct, Topological, Found, IsMin, Edge;
      ghost var g := dependency[..];
      var thd := txnid % dependency.Length;
      Enter(g, data.visited, data.recStack, path, order, thd);
      data.visited := data.visited[thd := true];
      data.recStack := data.recStack[thd := true];
      if dependency[thd].txnid != txnid {
        data.recStack := data.recStack[thd := false];
        return false, order, [], 0;
      }
      assert thd in old(Unvisited(data.visited)) && thd !in Unvisited(data.visited);
      r, order', full, s := FollowAll(dependency[thd].adj, thd, data, path, order);
      if r {
        LeaveUnwinds(g, full, s, |path|, data.Scalars());
        assert full[..|path|] == full[..|path| + 1][..|path|];
      } else {
        Exit(g, data.visited, data.recStack, path, order', thd);
        order' := order' + [thd];
      }
      LeaveNode(thd, data);
    }

    // The end of a visit.
    method LeaveNode(thd: nat, data: DetectData)
      requires thd < dependency.Length == |data.recStack|
      modifies data`recStack, data`minLockNum, data`minTxnid, data`onloop
      ensures data.recStack == old(data.recStack)[thd := false]
      ensures data.Scalars() == Leave(dependency[..], thd, old(data.Scalars()))
    {
      data.recStack := data.recStack[thd := false];
      if data.loop && data.onloop && dependency[thd].numLocks < data.minLockNum {
        data.minLockNum := dependency[thd].numLocks;
        data.minTxnid := dependency[thd].txnid;
      }
      if thd == data.loopstart {
        data.onloop := false;
      }
    }

    // The loop over the transactions that the node thd waits for.
    method FollowAll(txnids: seq<nat>, thd: nat, data: DetectData, ghost path: seq<nat>, ghost order: seq<nat>)
      returns (stop: bool, ghost order': seq<nat>, ghost full: seq<nat>, ghost s: nat)
      requires Small() && Looking(data, path + [thd], order) && thd < dependency.Length && txnids == dependency[thd].adj
      modifies data
      ensures stop == data.loop && |data.visited| == |data.recStack| == dependency.Length
      ensures Unvisited(data.visited) <= old(Unvisited(data.visited))
      ensures !stop ==> Looking(data, path + [thd], order') && order <= order'
      ensures !stop ==> forall i :: 0 <= i < |txnids| && Live(dependency[..], txnids[i]) ==> Thd(dependency[..], txnids[i]) in order'
      ensures stop ==> |path| < |full| && full[..|path| + 1] == path + [thd]
      ensures stop ==> Unwound(dependency[..], full, s, |path| + 1, data.Scalars())
      decreases Unvisited(data.visited), 3
    {
      stop, order', full, s := false, order, [], 0;
      var n := 0;
      while n < |txnids| && !stop
        invariant n <= |txnids| && |data.visited| == |data.recStack| == dependency.Length && stop == data.loop
        invariant Unvisited(data.visited) <= old(Unvisited(data.visited))
        invariant !stop ==> Looking(data, path + [thd], order') && order <= order'
        invariant !stop ==> forall i :: 0 <= i < n && Live(dependency[..], txnids[i]) ==> Thd(dependency[..], txnids[i]) in order'
        invariant stop ==> |path| < |full| && full[..|path| + 1] == path + [thd]
        invariant stop ==> Unwound(dependency[..], full, s, |path| + 1, data.Scalars())
      {
        stop, order', full, s := Follow(txnids[n], data, path + [thd], order');
        n := n + 1;
      }
    }

    // One round of that loop.
    method Follow(txnid: nat, data: DetectData, ghost path: seq<nat>, ghost order: seq<nat>)
      returns (stop: bool, ghost order': seq<nat>, ghost full: seq<nat>, ghost s: nat)
      requires Small() && Looking(data, path, order) && path != []
      requires txnid in dependency[path[|path| - 1]].adj
      modifies data
      ensures stop == data.loop && |data.visited| == |data.recStack| == dependency.Length
      ensures Unvisited(data.visited) <= old(Unvisited(data.visited))
      ensures !stop ==> Looking(data, path, order') && order <= order'
      ensures !stop && Live(dependency[..], txnid) ==> Thd(dependency[..], txnid) in order'
      ensures stop ==> |path| <= |full| && full[..|path|] == path && Unwound(dependency[..], full, s, |path|, data.Scalars())
      decreases Unvisited(data.visited), 2
    {
      ghost var g := dependency[..];
      var next := txnid % dependency.Length;
      if data.recStack[next] && SInt32(txnid) == dependency[next].txnid {
        data.loop, data.onloop, data.loopstart := true, true, next;
        s := BackEdge(g, data.visited, data.recStack, path, order, next, data.Scalars());
        return true, order, path, s;
      }
      if !data.visited[next] && dependency[next].txnid == txnid {
        stop, order', full, s := NextNode(txnid, data, path, order);
        assert stop ==> full[..|path|] == full[..|path| + 1][..|path|];
        return;
      }
      return false, order, [], 0;
    }

    // Whether txnid can reach a cycle of waiting transactions, and then the
    // transaction to abort: one with the fewest locks on the cycle found.
    method FindCycle(txnid: nat, junk: (bool, int)) returns (deadlock: bool, victim: int, ghost cycle: seq<nat>)
      requires Small()
      ensures deadlock <==> dependency[txnid % dependency.Length].txnid == txnid && Deadlocked(dependency[..], txnid % dependency.Length)
      ensures deadlock ==> IsCycle(dependency[..], cycle) && exists p :: Reaches(dependency[..], Thd(dependency[..], txnid), p, cycle[0])
      ensures deadlock ==> exists v :: v in cycle && v < dependency.Length && dependency[v].txnid == victim
                                       && forall u :: u in cycle && u < dependency.Length ==> dependency[v].numLocks <= dependency[u].numLocks
    {
      hide Edge, Distinct, Topological, IsCycle, Reaches;
      var data := new DetectData(dependency.Length, junk.0, junk.1);
      NothingVisited(dependency[..], data.visited);
      ghost var g := dependency[..];
      ghost var thd := Thd(g, txnid);
      ghost var order, full, s;
      deadlock, order, full, s := NextNode(txnid, data, [], []);
      victim := data.minTxnid;
      cycle := [];
      if deadlock {
        cycle := full[s..];
        assert full[..1] == [] + [thd];
        CycleFound(g, full, s, data.Scalars());
      } else if Live(g, txnid) {
        NoCycle(g, order, thd);
      }
    }

    // The transaction chosen is told to abort, and no other; txns is what each
    // thread runs.
    method DetectCycle(txnid: nat, junk: (bool, int), txns: array<TxnMan>) returns (deadlock: bool, ghost victim: nat, ghost cycle: seq<nat>)
      requires Small() && txns.Length == dependency.Length
      modifies (set t | t in txns[..])`lockAbort
      ensures deadlock <==> dependency[txnid % dependency.Length].txnid == txnid && Deadlocked(dependency[..], txnid % dependency.Length)
      ensures deadlock ==> IsCycle(dependency[..], cycle) && exists p :: Reaches(dependency[..], Thd(dependency[..], txnid), p, cycle[0])
      ensures deadlock ==>
                && cycle != [] && (forall k :: 0 <= k < |cycle| ==> cycle[k] < dependency.Length && dependency[cycle[k]].txnid >= 0)
                && (forall k :: 0 <= k < |cycle| - 1 ==> dependency[cycle[k + 1]].txnid in dependency[cycle[k]].adj)
                && dependency[cycle[0]].txnid in dependency[cycle[|cycle| - 1]].adj
      ensures deadlock ==> victim in cycle && victim < txns.Length && txns[victim].lockAbort
                           && forall u :: u in cycle && u < dependency.Length ==> dependency[victim].numLocks <= dependency[u].numLocks
      ensures forall t :: t in txns[..] && !(deadlock && t == txns[victim]) ==> t.lockAbort == old(t.lockAbort)
    {
      hide Deadlocked, IsCycle, Reaches;
      var minTxnid;
      deadlock, minTxnid, cycle := FindCycle(txnid, junk);
      victim := 0;
      if deadlock {
        CycleIs(dependency[..], cycle);
        victim := VictimIsLive(dependency[..], cycle, minTxnid);
        var thd := minTxnid % dependency.Length;
        if dependency[thd].txnid == minTxnid {
          txns[thd].lockAbort := true;
        }
      }
    }
  }
}
