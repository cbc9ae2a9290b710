// index_btree of one partition: insertion with splits that climb the parent
// pointers, point reads and range scans along the leaf chain.

module IndexBtree {
  import opened Options
  import opened Inserts
  import opened BTreeSpec
  import opened BTreeSteps

  function Cut(length: nat): (half: nat)
    ensures half == (length + 1) / 2
  {
    if length % 2 == 0 then length / 2 else length / 2 + 1
  }

  // All nodes but n have room and enough keys.
  ghost predicate FillBut(t: Tree, order: nat, n: NodeId) {
    forall m :: 0 <= m < |t.nodes| && m != n ==> Fits(t.nodes[m], m == t.root, order)
  }

  lemma SplitLeafFill(t: Tree, order: nat, n: NodeId)
    requires order >= 3 && Inv(t, None) && n < |t.nodes| && FillBut(t, order, n)
    requires t.nodes[n].isLeaf && |t.nodes[n].keys| == order
    ensures 0 < Cut(order - 1) < order && |t.nodes[n].items| == order
    ensures Fill(SplitLeaf(t, n, Cut(order - 1)), order)
    ensures Fits(SplitLeaf(t, n, Cut(order - 1)).nodes[n], false, order)
  {
    assert NodeOk(t.nodes[n], t.spans[n]);
  }

  lemma SplitInnerFill(t: Tree, order: nat, p: NodeId)
    requires order >= 3 && Inv(t, None) && p < |t.nodes| && FillBut(t, order, p)
    requires !t.nodes[p].isLeaf && |t.nodes[p].keys| == order
    ensures CanSplit(t, p, Cut(order) - 1)
    ensures Fill(SplitInner(t, p, Cut(order) - 1), order)
    ensures Fits(SplitInner(t, p, Cut(order) - 1).nodes[p], false, order)
  {
    var t' := SplitInner(t, p, Cut(order) - 1);
    forall m | 0 <= m < |t'.nodes|
      ensures Fits(t'.nodes[m], m == t'.root, order)
    {
      SplitInnerAt(t, p, Cut(order) - 1, m);
    }
    SplitInnerAt(t, p, Cut(order) - 1, p);
  }

  lemma KidsExist(t: Tree, p: NodeId)
    requires Inv(t, None) && p < |t.nodes|
    ensures forall c :: c in t.nodes[p].kids ==> c < |t.nodes|
  {
    forall i | 0 <= i < |t.nodes[p].kids|
      ensures t.nodes[p].kids[i] < |t.nodes|
    {
      assert KidOk(t, None, p, i);
    }
  }

  lemma GrowRootFill(t: Tree, order: nat, left: NodeId, key: Key, right: NodeId)
    requires order >= 3 && left < |t.nodes| == |t.spans| && right < |t.nodes| && left != right
    requires t.root == left && Fill(t, order) && Fits(t.nodes[left], false, order)
    ensures Fill(GrowRoot(t, left, key, right), order)
  {
    var t' := GrowRoot(t, left, key, right);
    forall m | 0 <= m < |t.nodes|
      ensures Fits(t'.nodes[m], false, order)
    {
      assert Fits(t.nodes[m], m == t.root, order);
    }
  }

  lemma AdoptOne(nodes: seq<Node>, kids: seq<NodeId>, i: nat, r: NodeId)
    requires i < |kids| && kids[i] < |nodes|
    ensures Adopted(nodes, kids[..i + 1], r) ==
            Adopted(nodes, kids[..i], r)[kids[i] := Adopted(nodes, kids[..i], r)[kids[i]].(parent := Some(r))]
  {
    assert kids[..i + 1] == kids[..i] + [kids[i]];
  }

  lemma SplitLeafRepresents(t: Tree, n: NodeId, at: nat, log: seq<Entry>)
    requires n < |t.nodes| == |t.spans| && t.nodes[n].isLeaf && 0 < at < |t.nodes[n].keys| == |t.nodes[n].items|
    requires Represents(t, log)
    ensures Represents(SplitLeaf(t, n, at), log)
  {
    forall k: Key, xs
      ensures Holds(SplitLeaf(t, n, at), k, xs) <==> Holds(t, k, xs)
    {
      SplitLeafHolds(t, n, at, k, xs);
    }
  }

  lemma PutItemFits(nd: Node, key: Key, item: Item, isRoot: bool, order: nat)
    requires Fits(nd, isRoot, order) && |nd.items| == |nd.keys| && (|nd.keys| < order - 1 || key in nd.keys) && Sorted(nd.keys)
    ensures Fits(PutItem(nd, key, item), isRoot, order)
  {
    if key in nd.keys {
      var j :| 0 <= j < |nd.keys| && nd.keys[j] == key;
      PosIs(nd.keys, key, j);
    }
  }

  // ---------------------------------------------------------------------
  // Reads and scans
  // ---------------------------------------------------------------------

  lemma StoredAt(t: Tree, n: NodeId, i: nat, log: seq<Entry>)
    requires Represents(t, log) && n < |t.nodes| && t.nodes[n].isLeaf && i < |t.nodes[n].keys| == |t.nodes[n].items|
    ensures NewestFirst(log, t.nodes[n].keys[i]) == t.nodes[n].items[i] && t.nodes[n].items[i] != []
  {
    assert NodeHolds(t.nodes[n], t.nodes[n].keys[i], t.nodes[n].items[i]);
    assert Holds(t, t.nodes[n].keys[i], t.nodes[n].items[i]);
  }

  lemma NotStored(t: Tree, n: NodeId, k: Key, log: seq<Entry>)
    requires Inv(t, None) && Represents(t, log) && n < |t.nodes| && t.nodes[n].isLeaf && Covers(t.spans[n], k)
    requires k !in t.nodes[n].keys
    ensures !Present(log, k)
  {
    HeldHere(t, n, k, NewestFirst(log, k));
  }

  // k' is the smallest key of the index above k.
  ghost predicate NextKey(log: seq<Entry>, k: Key, k': Key) {
    k < k' && Present(log, k') && forall x: Key :: k < x < k' ==> !Present(log, x)
  }

  ghost predicate LastKey(log: seq<Entry>, k: Key) {
    forall x: Key :: Present(log, x) ==> x <= k
  }

  lemma AfterInLeaf(t: Tree, n: NodeId, i: nat, log: seq<Entry>, x: Key)
    requires Inv(t, None) && Represents(t, log) && n < |t.nodes| && t.nodes[n].isLeaf && i < |t.nodes[n].keys|
    requires t.nodes[n].keys[i] < x < t.spans[n].hi && (i + 1 < |t.nodes[n].keys| ==> x < t.nodes[n].keys[i + 1])
    ensures !Present(log, x)
  {
    assert NodeOk(t.nodes[n], t.spans[n]);
    NotStored(t, n, x, log);
  }

  lemma BeforeInLeaf(t: Tree, n: NodeId, log: seq<Entry>, x: Key)
    requires Inv(t, None) && Represents(t, log) && n < |t.nodes| && t.nodes[n].isLeaf
    requires t.spans[n].lo <= x && t.nodes[n].keys != [] && x < t.nodes[n].keys[0]
    ensures !Present(log, x)
  {
    assert NodeOk(t.nodes[n], t.spans[n]);
    NotStored(t, n, x, log);
  }

  // What follows entry i of leaf n, in the leaf or in the next one.
  lemma Successor(t: Tree, n: NodeId, i: nat, log: seq<Entry>, order: nat)
    requires Inv(t, None) && Represents(t, log) && Fill(t, order) && order >= 3
    requires n < |t.nodes| && t.nodes[n].isLeaf && i < |t.nodes[n].keys|
    ensures var nd := t.nodes[n];
            |nd.items| == |nd.keys| &&
            if i + 1 < |nd.keys| then
              NextKey(log, nd.keys[i], nd.keys[i + 1]) && nd.items[i + 1] == NewestFirst(log, nd.keys[i + 1])
            else if nd.next.None? then LastKey(log, nd.keys[i])
            else
              && nd.next.value < |t.nodes|
              && var m := t.nodes[nd.next.value];
                 && m.isLeaf && m.keys != [] && |m.items| == |m.keys|
                 && NextKey(log, nd.keys[i], m.keys[0]) && m.items[0] == NewestFirst(log, m.keys[0])
  {
    var nd := t.nodes[n];
    assert NodeOk(nd, t.spans[n]) && NextOk(t, n);
    if i + 1 < |nd.keys| {
      StoredAt(t, n, i + 1, log);
      forall x: Key | nd.keys[i] < x < nd.keys[i + 1] ensures !Present(log, x) { AfterInLeaf(t, n, i, log, x); }
    } else if nd.next.None? {
      forall x: Key | nd.keys[i] < x ensures !Present(log, x) { AfterInLeaf(t, n, i, log, x); }
    } else {
      var m := nd.next.value;
      assert NodeOk(t.nodes[m], t.spans[m]) && Fits(t.nodes[m], m == t.root, order);
      StoredAt(t, m, 0, log);
      forall x: Key | nd.keys[i] < x < t.nodes[m].keys[0]
        ensures !Present(log, x)
      {
        if x < t.spans[n].hi { AfterInLeaf(t, n, i, log, x); } else { BeforeInLeaf(t, m, log, x); }
      }
    }
  }

  // The keys a scan of repeated index_next calls stops at, to the end.
  ghost predicate IsScan(log: seq<Entry>, ks: seq<Key>) {
    ks != [] && Present(log, ks[0]) && LastKey(log, ks[|ks| - 1]) && IsChain(log, ks)
  }

  ghost predicate IsChain(log: seq<Entry>, ks: seq<Key>) {
    forall i :: 0 <= i < |ks| - 1 ==> NextKey(log, ks[i], ks[i + 1])
  }

  // A scan from k visits exactly the stored keys at or above k, in ascending
  // order and once each.
  lemma {:induction false} ScanVisitsAll(log: seq<Entry>, ks: seq<Key>)
    requires IsScan(log, ks)
    ensures Sorted(ks)
    ensures forall x: Key :: x in ks <==> x >= ks[0] && Present(log, x)
    decreases |ks|
  {
    if |ks| > 1 {
      var rest := ks[1..];
      assert NextKey(log, ks[0], ks[1]);
      forall i | 0 <= i < |rest| - 1
        ensures NextKey(log, rest[i], rest[i + 1])
      {
        assert NextKey(log, ks[i + 1], ks[i + 1 + 1]);
      }
      ScanVisitsAll(log, rest);
      assert ks == [ks[0]] + rest;
      assert forall j :: 0 <= j < |rest| ==> rest[j] in rest;
      forall i, j | 0 <= i < j < |ks|
        ensures ks[i] < ks[j]
      {
        assert ks[j] == rest[j - 1];
      }
    }
  }

  function KeysAbove(log: seq<Entry>, k: Key): set<Key> {
    set e | e in log && e.key > k :: e.key
  }

  // A scan gets nearer to its end with every key.
  lemma ScanGoesOn(log: seq<Entry>, k: Key, k': Key)
    requires NextKey(log, k, k')
    ensures KeysAbove(log, k') < KeysAbove(log, k) && |KeysAbove(log, k')| < |KeysAbove(log, k)|
  {
    var items := NewestFirst(log, k');
    HoldsWhatWasInserted(log, k', items[0]);
    assert Entry(k', items[0]).key in KeysAbove(log, k);
    var less, all := KeysAbove(log, k'), KeysAbove(log, k);
    assert k' !in less && less <= all;
    assert all == less + (all - less) && k' in all - less;
  }

  // ---------------------------------------------------------------------
  // Insertion between the methods
  // ---------------------------------------------------------------------

  ghost predicate Whole(t: Tree, order: nat, log: seq<Entry>) {
    Inv(t, None) && Fill(t, order) && Represents(t, log)
  }

  // left has just been split and key starts right.
  ghost predicate Torn(t: Tree, left: NodeId, key: Key, right: NodeId, order: nat, log: seq<Entry>) {
    && Inv(t, Some(Split(left, right))) && key == t.spans[right].lo
    && Fill(t, order) && Fits(t.nodes[left], false, order) && Represents(t, log)
  }

  // Inner node p has taken in one key too many.
  ghost predicate Swollen(t: Tree, p: NodeId, order: nat, log: seq<Entry>) {
    && Inv(t, None) && p < |t.nodes| && !t.nodes[p].isLeaf
    && FillBut(t, order, p) && Represents(t, log) && |t.nodes[p].keys| <= order
  }

  lemma TornLeaf(t: Tree, leaf: NodeId, key: Key, item: Item, order: nat, log: seq<Entry>)
    requires order >= 3 && Whole(t, order, log) && leaf < |t.nodes| && t.nodes[leaf].isLeaf
    requires Covers(t.spans[leaf], key) && |t.nodes[leaf].keys| == order - 1 && key !in t.nodes[leaf].keys
    ensures |t.nodes[leaf].items| == order - 1
    ensures var mid := PutInLeaf(t, leaf, key, item);
            && |mid.nodes[leaf].items| == |mid.nodes[leaf].keys| == order
            && Torn(SplitLeaf(mid, leaf, Cut(order - 1)), leaf, mid.nodes[leaf].keys[Cut(order - 1)], |t.nodes|,
                    order, log + [Entry(key, item)])
  {
    var mid := PutInLeaf(t, leaf, key, item);
    assert NodeOk(t.nodes[leaf], t.spans[leaf]);
    PutInLeafKeeps(t, leaf, key, item);
    PutRepresents(t, leaf, key, item, log);
    SplitLeafFill(mid, order, leaf);
    SplitLeafKeeps(mid, leaf, Cut(order - 1));
    SplitLeafRepresents(mid, leaf, Cut(order - 1), log + [Entry(key, item)]);
  }

  lemma NewRoot(t: Tree, left: NodeId, key: Key, right: NodeId, order: nat, log: seq<Entry>)
    requires order >= 3 && Torn(t, left, key, right, order, log) && t.nodes[left].parent == None
    ensures left != right && Whole(GrowRoot(t, left, key, right), order, log)
  {
    assert ParentOk(t, Some(Split(left, right)), left);
    GrowRootFill(t, order, left, key, right);
    GrowRootKeeps(t, left, right, key);
    SameLeavesHold(t, GrowRoot(t, left, key, right), log);
  }

  lemma ParentTakes(t: Tree, left: NodeId, key: Key, right: NodeId, order: nat, log: seq<Entry>) returns (p: NodeId, i: nat)
    requires order >= 3 && Torn(t, left, key, right, order, log) && t.nodes[left].parent.Some?
    ensures p < |t.nodes| == |t.spans| && right < |t.nodes| && t.nodes[left].parent == Some(p)
    ensures i == Pos(t.nodes[p].keys, key) && i <= |t.nodes[p].keys| < order && |t.nodes[p].kids| == |t.nodes[p].keys| + 1
    ensures t.spans[p].height == t.spans[left].height + 1
    ensures Swollen(PutKid(t, p, i, key, right), p, order, log)
    ensures |t.nodes[p].keys| < order - 1 ==> Fill(PutKid(t, p, i, key, right), order)
  {
    p := t.nodes[left].parent.value;
    assert ParentOk(t, Some(Split(left, right)), left);
    assert NodeOk(t.nodes[p], t.spans[p]) && Fits(t.nodes[p], p == t.root, order);
    i := Pos(t.nodes[p].keys, key);
    LeftPlace(t, left, right, p, i);
    PutKidKeeps(t, left, right, p, i, key);
    SameLeavesHold(t, PutKid(t, p, i, key, right), log);
  }

  lemma TornInner(t: Tree, p: NodeId, order: nat, log: seq<Entry>)
    requires order >= 3 && Swollen(t, p, order, log) && |t.nodes[p].keys| == order
    ensures CanSplit(t, p, Cut(order) - 1) && |t.nodes[p].kids| == order + 1
    ensures forall c :: c in t.nodes[p].kids ==> c < |t.nodes|
    ensures Torn(SplitInner(t, p, Cut(order) - 1), p, t.nodes[p].keys[Cut(order) - 1], |t.nodes|, order, log)
  {
    assert NodeOk(t.nodes[p], t.spans[p]);
    SplitInnerFill(t, order, p);
    SplitInnerKeeps(t, p, Cut(order) - 1);
    SplitInnerLeaves(t, p, Cut(order) - 1);
    SameLeavesHold(t, SplitInner(t, p, Cut(order) - 1), log);
    KidsExist(t, p);
  }

  class IndexBtree {
    const order: nat
    var nodes: seq<Node>
    var root: NodeId
    // The leaf and position each thread read last.
    var curLeaf: seq<Option<NodeId>>
    var curIdx: seq<nat>
    ghost var spans: seq<Span>
    ghost var inserted: seq<Entry>

    ghost function Abs(): Tree
      reads this
    {
      Tree(nodes, spans, root)
    }

    ghost predicate Valid()
      reads this
    {
      order >= 3 && |curLeaf| == |curIdx| && Whole(Abs(), order, inserted)
    }

    constructor (order: nat, threads: nat)
      requires order >= 3
      ensures Valid() && inserted == [] && this.order == order && |curLeaf| == threads
    {
      this.order := order;
      nodes, root := [Node(true, [], [], [], None, None)], 0;
      curLeaf, curIdx := seq(threads, _ => None), seq(threads, _ => 0);
      spans, inserted := [Span(0, KEY_END, 0)], [];
    }

    // The leaf that covers key.
    method FindLeaf(key: Key) returns (c: NodeId)
      requires Inv(Abs(), None)
      ensures c < |nodes| && |spans| == |nodes| && nodes[c].isLeaf && Covers(spans[c], key)
    {
      c := root;
      while !nodes[c].isLeaf
        invariant c < |nodes| && Covers(spans[c], key)
        decreases spans[c].height
      {
        assert NodeOk(nodes[c], spans[c]);
        var i := 0;
        while i < |nodes[c].keys|
          invariant i <= |nodes[c].keys| && Low(nodes[c], spans[c], i) <= key
        {
          if key < nodes[c].keys[i] {
            break;
          }
          i := i + 1;
        }
        assert KidOk(Abs(), None, c, i);
        c := nodes[c].kids[i];
      }
    }

    method LeafHasKey(leaf: NodeId, key: Key) returns (idx: int)
      requires leaf < |nodes|
      ensures -1 <= idx < |nodes[leaf].keys|
      ensures if idx >= 0 then nodes[leaf].keys[idx] == key else key !in nodes[leaf].keys
    {
      var i := 0;
      while i < |nodes[leaf].keys|
        invariant i <= |nodes[leaf].keys| && key !in nodes[leaf].keys[..i]
      {
        if nodes[leaf].keys[i] == key {
          return i;
        }
        i := i + 1;
      }
      return -1;
    }

    // The place of key among the keys of a node.
    method InsertionPoint(n: NodeId, key: Key) returns (i: nat)
      requires n < |nodes|
      ensures i == Pos(nodes[n].keys, key)
    {
      i := 0;
      while i < |nodes[n].keys| && nodes[n].keys[i] < key
        invariant i <= |nodes[n].keys| && forall j :: 0 <= j < i ==> nodes[n].keys[j] < key
      {
        i := i + 1;
      }
      PosIs(nodes[n].keys, key, i);
    }

    method InsertIntoLeaf(leaf: NodeId, key: Key, item: Item)
      requires AllNodes(Abs()) && leaf < |nodes| && nodes[leaf].isLeaf
      modifies this`nodes
      ensures |old(nodes)[leaf].items| == |old(nodes)[leaf].keys|
      ensures Abs() == PutInLeaf(old(Abs()), leaf, key, item)
    {
      assert NodeOk(nodes[leaf], spans[leaf]);
      var nd := nodes[leaf];
      var idx := LeafHasKey(leaf, key);
      if idx >= 0 {
        PosIs(nd.keys, key, idx);
        nodes := nodes[leaf := nd.(items := nd.items[idx := [item] + nd.items[idx]])];
        return;
      }
      var i := InsertionPoint(leaf, key);
      nodes := nodes[leaf := nd.(keys := nd.keys[..i] + [key] + nd.keys[i..], items := nd.items[..i] + [[item]] + nd.items[i..])];
    }

    method InsertIntoNewRoot(left: NodeId, key: Key, right: NodeId)
      requires left < |nodes| && right < |nodes| && left != right && |spans| == |nodes|
      modifies this`nodes, this`root, this`spans
      ensures Abs() == GrowRoot(old(Abs()), left, key, right)
    {
      var newRoot := |nodes|;
      nodes := nodes + [Node(false, [key], [left, right], [], None, None)];
      nodes := nodes[left := nodes[left].(parent := Some(newRoot), next := Some(right))];
      nodes := nodes[right := nodes[right].(parent := Some(newRoot))];
      spans := spans + [Span(0, KEY_END, spans[left].height + 1)];
      root := newRoot;
      assert nodes == GrowRoot(old(Abs()), left, key, right).nodes;
    }

    // A full inner node takes in right and is cut in two.
    method CutInner(oldNode: NodeId, leftIndex: nat, key: Key, right: NodeId) returns (kPrime: Key, newNode: NodeId)
      requires order >= 3 && oldNode < |nodes| == |spans| && leftIndex < order
      requires |nodes[oldNode].keys| == order - 1 && |nodes[oldNode].kids| == order
      requires forall c :: c in PutKid(Abs(), oldNode, leftIndex, key, right).nodes[oldNode].kids ==> c < |nodes|
      modifies this`nodes, this`spans
      ensures newNode == |old(nodes)|
      ensures var mid := PutKid(old(Abs()), oldNode, leftIndex, key, right);
              && Abs() == SplitInner(mid, oldNode, Cut(order) - 1)
              && kPrime == mid.nodes[oldNode].keys[Cut(order) - 1]
    {
      var nd := nodes[oldNode];
      var tempPointers := nd.kids[..leftIndex + 1] + [right] + nd.kids[leftIndex + 1..];
      var tempKeys := nd.keys[..leftIndex] + [key] + nd.keys[leftIndex..];
      var split := Cut(order);
      newNode := |nodes|;
      kPrime := tempKeys[split - 1];
      nodes := nodes[oldNode := nd.(keys := tempKeys[..split - 1], kids := tempPointers[..split], next := Some(newNode))]
               + [nd.(keys := tempKeys[split..], kids := tempPointers[split..])];
      spans := spans[oldNode := spans[oldNode].(hi := kPrime)] + [spans[oldNode].(lo := kPrime)];
      ghost var halves := nodes;
      var kids := tempPointers[split..];
      assert halves == Adopted(halves, kids[..0], newNode);
      ghost var cut := spans;
      var i := 0;
      while i < |kids|
        invariant spans == cut
        invariant i <= |kids| && |nodes| == |halves| && nodes == Adopted(halves, kids[..i], newNode)
      {
        var child := kids[i];
        assert child in tempPointers;
        AdoptOne(halves, kids, i, newNode);
        nodes := nodes[child := nodes[child].(parent := Some(newNode))];
        i := i + 1;
      }
      assert kids[..|kids|] == kids;
      ghost var mid := PutKid(old(Abs()), oldNode, leftIndex, key, right);
      assert halves == mid.nodes[oldNode := LeftInner(mid.nodes[oldNode], split - 1, newNode)] + [RightInner(mid.nodes[oldNode], split - 1)];
    }

    // right joins the parent of left, which is split in turn when it is full.
    method InsertIntoParent(left: NodeId, key: Key, right: NodeId)
      requires order >= 3 && Torn(Abs(), left, key, right, order, inserted)
      modifies this`nodes, this`root, this`spans
      ensures Whole(Abs(), order, inserted)
      decreases spans[root].height - spans[left].height, 0
    {
      if nodes[left].parent == None {
        NewRoot(Abs(), left, key, right, order, inserted);
        InsertIntoNewRoot(left, key, right);
        return;
      }
      ghost var p, i := ParentTakes(Abs(), left, key, right, order, inserted);
      var parent := nodes[left].parent.value;
      var insertIdx := InsertionPoint(parent, key);
      var nd := nodes[parent];
      if |nd.keys| < order - 1 {
        nodes := nodes[parent := nd.(keys := nd.keys[..insertIdx] + [key] + nd.keys[insertIdx..],
                                     kids := nd.kids[..insertIdx + 1] + [right] + nd.kids[insertIdx + 1..])];
      } else {
        SplitNlInsert(parent, insertIdx, key, right);
      }
    }

    method SplitNlInsert(oldNode: NodeId, leftIndex: nat, key: Key, right: NodeId)
      requires order >= 3 && oldNode < |nodes| == |spans| && leftIndex < order && root < |nodes|
      requires |nodes[oldNode].keys| == order - 1 && |nodes[oldNode].kids| == order
      requires Swollen(PutKid(Abs(), oldNode, leftIndex, key, right), oldNode, order, inserted)
      requires spans[oldNode].height <= spans[root].height
      modifies this`nodes, this`root, this`spans
      ensures Whole(Abs(), order, inserted)
      decreases spans[root].height - spans[oldNode].height, 1
    {
      TornInner(PutKid(Abs(), oldNode, leftIndex, key, right), oldNode, order, inserted);
      var kPrime, newNode := CutInner(oldNode, leftIndex, key, right);
      InsertIntoParent(oldNode, kPrime, newNode);
    }

    // A full leaf takes in a new key and is cut in two.
    method CutLeaf(leaf: NodeId, key: Key, item: Item) returns (newKey: Key, newLeaf: NodeId)
      requires order >= 3 && leaf < |nodes| == |spans|
      requires |nodes[leaf].keys| == |nodes[leaf].items| == order - 1 && key !in nodes[leaf].keys
      modifies this`nodes, this`spans
      ensures newLeaf == |old(nodes)|
      ensures var mid := PutInLeaf(old(Abs()), leaf, key, item);
              && |mid.nodes[leaf].items| == |mid.nodes[leaf].keys| == order
              && Abs() == SplitLeaf(mid, leaf, Cut(order - 1))
              && newKey == mid.nodes[leaf].keys[Cut(order - 1)]
    {
      var nd := nodes[leaf];
      var i := InsertionPoint(leaf, key);
      var tempKeys := nd.keys[..i] + [key] + nd.keys[i..];
      var tempPointers := nd.items[..i] + [[item]] + nd.items[i..];
      var split := Cut(order - 1);
      newLeaf := |nodes|;
      newKey := tempKeys[split];
      nodes := nodes[leaf := nd.(keys := tempKeys[..split], items := tempPointers[..split], next := Some(newLeaf))]
               + [nd.(keys := tempKeys[split..], items := tempPointers[split..])];
      spans := spans[leaf := spans[leaf].(hi := newKey)] + [spans[leaf].(lo := newKey)];
      assert PutInLeaf(old(Abs()), leaf, key, item).nodes[leaf] == nd.(keys := tempKeys, items := tempPointers);
    }

    method SplitLfInsert(leaf: NodeId, key: Key, item: Item)
      requires Valid() && leaf < |nodes| && nodes[leaf].isLeaf && Covers(spans[leaf], key)
      requires |nodes[leaf].keys| == order - 1 && key !in nodes[leaf].keys
      modifies this`nodes, this`root, this`spans, this`inserted
      ensures Valid() && inserted == old(inserted) + [Entry(key, item)]
    {
      TornLeaf(Abs(), leaf, key, item, order, inserted);
      inserted := inserted + [Entry(key, item)];
      var newKey, newLeaf := CutLeaf(leaf, key, item);
      InsertIntoParent(leaf, newKey, newLeaf);
    }

    // The item goes in front of those already stored under key.
    method IndexInsert(key: Key, item: Item)
      requires Valid()
      modifies this`nodes, this`root, this`spans, this`inserted
      ensures Valid() && inserted == old(inserted) + [Entry(key, item)]
    {
      var leaf := FindLeaf(key);
      assert NodeOk(nodes[leaf], spans[leaf]) && Fits(nodes[leaf], leaf == root, order);
      var idx := LeafHasKey(leaf, key);
      if |nodes[leaf].keys| < order - 1 || idx >= 0 {
        PutInLeafKeeps(Abs(), leaf, key, item);
        PutRepresents(Abs(), leaf, key, item, inserted);
        PutItemFits(nodes[leaf], key, item, leaf == root, order);
        inserted := inserted + [Entry(key, item)];
        InsertIntoLeaf(leaf, key, item);
      } else {
        SplitLfInsert(leaf, key, item);
      }
    }

    // Thread thd read the entry of key last.
    ghost predicate At(thd: nat, key: Key)
      reads this
    {
      && thd < |curLeaf| == |curIdx| && curLeaf[thd].Some? && curLeaf[thd].value < |nodes|
      && var nd := nodes[curLeaf[thd].value];
         nd.isLeaf && curIdx[thd] < |nd.keys| && nd.keys[curIdx[thd]] == key
    }

    // None stands for the failed assertion that the key exists.
    method IndexRead(key: Key, thd: nat) returns (items: Option<seq<Item>>)
      requires Valid() && thd < |curLeaf|
      modifies this`curLeaf, this`curIdx
      ensures Valid()
      ensures items == if Present(inserted, key) then Some(NewestFirst(inserted, key)) else None
      ensures items.Some? ==> At(thd, key)
      ensures items.None? ==> unchanged(this)
    {
      var leaf := FindLeaf(key);
      assert NodeOk(nodes[leaf], spans[leaf]);
      var i := 0;
      while i < |nodes[leaf].keys|
        invariant i <= |nodes[leaf].keys| && key !in nodes[leaf].keys[..i]
        invariant unchanged(this)
      {
        if nodes[leaf].keys[i] == key {
          StoredAt(Abs(), leaf, i, inserted);
          curLeaf := curLeaf[thd := Some(leaf)];
          curIdx := curIdx[thd := i];
          return Some(nodes[leaf].items[i]);
        }
        i := i + 1;
      }
      NotStored(Abs(), leaf, key, inserted);
      return None;
    }

    // The entry after the one read last; [] is the null pointer.
    method IndexNext(thd: nat, samekey: bool, ghost key: Key) returns (items: seq<Item>, ghost next: Option<Key>)
      requires Valid() && At(thd, key)
      modifies this`curLeaf, this`curIdx
      ensures Valid()
      ensures next.None? ==> LastKey(inserted, key) && items == []
      ensures next.Some? ==> NextKey(inserted, key, next.value) && At(thd, next.value)
      ensures next.Some? ==> items == if samekey then [] else NewestFirst(inserted, next.value)
    {
      var idx := curIdx[thd];
      var leaf := curLeaf[thd].value;
      var curKey := nodes[leaf].keys[idx];
      Successor(Abs(), leaf, idx, inserted, order);
      assert NodeOk(nodes[leaf], spans[leaf]);
      curIdx := curIdx[thd := idx + 1];
      if curIdx[thd] >= |nodes[leaf].keys| {
        curLeaf := curLeaf[thd := nodes[leaf].next];
        curIdx := curIdx[thd := 0];
      }
      if curLeaf[thd].None? {
        return [], None;
      }
      leaf := curLeaf[thd].value;
      next := Some(nodes[leaf].keys[curIdx[thd]]);
      if samekey && nodes[leaf].keys[curIdx[thd]] != curKey {
        items := [];
      } else {
        items := nodes[leaf].items[curIdx[thd]];
      }
    }

    // index_read and then index_next until it returns the null pointer; ks are
    // the keys of the lists returned. A key that is absent ends the program.
    method Scan(key: Key, thd: nat) returns (lists: seq<seq<Item>>, ghost ks: seq<Key>)
      requires Valid() && thd < |curLeaf|
      modifies this`curLeaf, this`curIdx
      ensures Valid() && |ks| == |lists|
      ensures forall i :: 0 <= i < |lists| ==> lists[i] == NewestFirst(inserted, ks[i])
      ensures Sorted(ks)
      ensures if Present(inserted, key) then forall x: Key :: x in ks <==> x >= key && Present(inserted, x) else lists == []
    {
      hide Whole, At, NewestFirst, LastKey;
      ghost var log := inserted;
      var first := IndexRead(key, thd);
      if first.None? {
        return [], [];
      }
      lists, ks := [first.value], [key];
      ghost var last := key;
      var items;
      ghost var next;
      items, next := IndexNext(thd, false, last);
      while items != []
        invariant Valid() && inserted == log && |ks| == |lists|
        invariant ks != [] && ks[0] == key && ks[|ks| - 1] == last && IsChain(log, ks)
        invariant forall i :: 0 <= i < |lists| ==> lists[i] == NewestFirst(log, ks[i])
        invariant if items == [] then LastKey(log, last)
                  else next.Some? && NextKey(log, last, next.value) && At(thd, next.value) && items == NewestFirst(log, next.value)
        decreases |KeysAbove(log, last)|
      {
        ScanGoesOn(log, last, next.value);
        lists, ks, last := lists + [items], ks + [next.value], next.value;
        items, next := IndexNext(thd, false, last);
      }
      ScanVisitsAll(log, ks);
    }
  }
}
