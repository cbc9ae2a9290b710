// The two loops at the head of insert_into_parent as the code has them: the
// search that reads a key too early, and the shift with an unsigned counter.

module UnsignedLoop {
  import opened Options
  import opened Inserts
  import opened BTreeSpec
  import opened BTreeSteps
  import opened IndexBtree

  // The counter of the code is an unsigned 32-bit integer.
  const UINT32_END: int := 0x1_0000_0000

  function Decrement(i: nat): nat
    requires i < UINT32_END
  {
    if i == 0 then UINT32_END - 1 else i - 1
  }

  // The counter after n rounds.
  function Counter(start: nat, n: nat): (i: nat)
    requires start < UINT32_END
    ensures i < UINT32_END
  {
    if n == 0 then start else Decrement(Counter(start, n - 1))
  }

  lemma {:induction false} CounterFalls(start: nat, n: nat)
    requires start < UINT32_END && n <= start + 1
    ensures Counter(start, n) == if n <= start then start - n else UINT32_END - 1
  {
    if n > 0 {
      CounterFalls(start, n - 1);
    }
  }

  ghost predicate EndsAfter(start: nat, at: nat, n: nat)
    requires start < UINT32_END
  {
    Counter(start, n) < at
  }

  ghost predicate Ends(start: nat, at: nat)
    requires start < UINT32_END
  {
    exists n: nat :: EndsAfter(start, at, n)
  }

  // The loop counts down from start and stops below at: it ends exactly when
  // at is not 0, and otherwise wraps around.
  lemma UnsignedLoopEnds(start: nat, at: nat)
    requires start < UINT32_END && at <= start + 1
    ensures Ends(start, at) <==> at > 0
    ensures at == 0 ==> Counter(start, start + 1) == UINT32_END - 1
  {
    CounterFalls(start, start + 1);
    if at > 0 {
      CounterFalls(start, start + 1 - at);
      assert EndsAfter(start, at, start + 1 - at);
    }
  }

  // The loop starts at the last key of the parent. On every tree in which a
  // node has just been split below a parent that has room it ends exactly when
  // that node is not the leftmost child; then the counter wraps around and
  // indexes far outside the arrays.
  lemma ParentLoopEnds(t: Tree, left: NodeId, key: Key, right: NodeId, p: NodeId, order: nat, log: seq<Entry>)
    requires order >= 3 && order <= UINT32_END && Torn(t, left, key, right, order, log)
    requires t.nodes[left].parent == Some(p) && p < |t.nodes| && |t.nodes[p].keys| < order - 1
    ensures t.nodes[p].keys != [] && |t.nodes[p].kids| > 0
    ensures Ends(|t.nodes[p].keys| - 1, Pos(t.nodes[p].keys, key)) <==> t.nodes[p].kids[0] != left
  {
    var i := Pos(t.nodes[p].keys, key);
    LeftPlace(t, left, right, p, i);
    assert NodeOk(t.nodes[p], t.spans[p]);
    if i > 0 {
      OnlyPlace(t, left, right, p, i, p, 0);
    }
    UnsignedLoopEnds(|t.nodes[p].keys| - 1, i);
  }

  // The search reads the keys up to and including the insertion position, which
  // lies past the stored keys exactly when the last child was split; when the
  // parent is full as well it lies outside the array of order - 1 keys.
  lemma SearchReadsPast(t: Tree, left: NodeId, key: Key, right: NodeId, p: NodeId, order: nat, log: seq<Entry>)
    requires order >= 3 && Torn(t, left, key, right, order, log) && t.nodes[left].parent == Some(p) && p < |t.nodes|
    ensures |t.nodes[p].keys| <= order - 1 && |t.nodes[p].kids| == |t.nodes[p].keys| + 1
    ensures Pos(t.nodes[p].keys, key) >= |t.nodes[p].keys| <==> t.nodes[p].kids[|t.nodes[p].keys|] == left
    ensures Pos(t.nodes[p].keys, key) >= |t.nodes[p].keys| <==> forall k :: k in t.nodes[p].keys ==> k < key
    ensures Pos(t.nodes[p].keys, key) >= order - 1 <==>
            t.nodes[p].kids[|t.nodes[p].keys|] == left && |t.nodes[p].keys| == order - 1
  {
    var keys, i := t.nodes[p].keys, Pos(t.nodes[p].keys, key);
    LeftPlace(t, left, right, p, i);
    assert Fits(t.nodes[p], p == t.root, order);
    if i < |keys| {
      OnlyPlace(t, left, right, p, i, p, |keys|);
      assert keys[i] in keys;
    }
  }

  // ---------------------------------------------------------------------
  // Five inserts that reach the loop that does not end
  // ---------------------------------------------------------------------

  function Leaf(keys: seq<Key>, items: seq<seq<Item>>, parent: Option<NodeId>, next: Option<NodeId>): Node {
    Node(true, keys, [], items, parent, next)
  }

  function Single(keys: seq<Key>, items: seq<seq<Item>>): Tree {
    Tree([Leaf(keys, items, None, None)], [Span(0, KEY_END, 0)], 0)
  }

  // 5 has split the leaf and the root has grown; then 4 has come.
  function TwoLeaves(): Tree {
    Tree([Leaf([4, 5], [[4], [5]], Some(2), Some(1)), Leaf([6, 7], [[6], [7]], Some(2), None),
          Node(false, [6], [0, 1], [], None, None)],
         [Span(0, 6, 0), Span(6, KEY_END, 0), Span(0, KEY_END, 1)], 2)
  }

  function Log(keys: seq<Key>): seq<Entry> {
    seq(|keys|, i requires 0 <= i < |keys| => Entry(keys[i], keys[i]))
  }

  lemma PutStep(t: Tree, n: NodeId, key: Key, item: Item, log: seq<Entry>)
    requires Whole(t, 3, log) && n < |t.nodes| && t.nodes[n].isLeaf && Covers(t.spans[n], key) && |t.nodes[n].keys| < 2
    ensures |t.nodes[n].items| == |t.nodes[n].keys| && Whole(PutInLeaf(t, n, key, item), 3, log + [Entry(key, item)])
  {
    assert NodeOk(t.nodes[n], t.spans[n]) && Fits(t.nodes[n], n == t.root, 3);
    PutInLeafKeeps(t, n, key, item);
    PutRepresents(t, n, key, item, log);
    PutItemFits(t.nodes[n], key, item, n == t.root, 3);
  }

  // A key below all keys of a leaf goes to its front.
  lemma PutFirst(nd: Node, key: Key, item: Item)
    requires |nd.items| == |nd.keys| && (nd.keys != [] ==> key < nd.keys[0])
    ensures PutItem(nd, key, item) == nd.(keys := [key] + nd.keys, items := [[item]] + nd.items)
  {
  }

  // PutFirst on a tree that is a single leaf.
  lemma PutOnly(keys: seq<Key>, items: seq<seq<Item>>, key: Key, item: Item)
    requires |items| == |keys| && (keys != [] ==> key < keys[0])
    ensures PutInLeaf(Single(keys, items), 0, key, item) == Single([key] + keys, [[item]] + items)
  {
    PutFirst(Leaf(keys, items, None, None), key, item);
    assert PutInLeaf(Single(keys, items), 0, key, item).nodes == Single([key] + keys, [[item]] + items).nodes;
  }

  lemma EmptyIsWhole()
    ensures Whole(Single([], []), 3, [])
  {
  }

  lemma OneLeafIsWhole()
    ensures Whole(Single([6, 7], [[6], [7]]), 3, Log([7, 6]))
  {
    hide Whole, PutInLeaf;
    EmptyIsWhole();
    var none: seq<Key>, nothing: seq<seq<Item>> := [], [];
    PutStep(Single(none, nothing), 0, 7, 7, []);
    PutOnly(none, nothing, 7, 7);
    assert [7] + none == [7] && [[7]] + nothing == [[7]];
    PutStep(Single([7], [[7]]), 0, 6, 6, [] + [Entry(7, 7)]);
    PutOnly([7], [[7]], 6, 6);
    assert [6] + [7] == [6, 7] && [[6]] + [[7]] == [[6], [7]];
    assert [] + [Entry(7, 7)] + [Entry(6, 6)] == Log([7, 6]);
  }

  // The tree after 5 has split the only leaf.
  function Grown(): Tree {
    Tree([Leaf([5], [[5]], Some(2), Some(1)), TwoLeaves().nodes[1], TwoLeaves().nodes[2]], TwoLeaves().spans, 2)
  }

  lemma GrownIsWhole()
    ensures Whole(Grown(), 3, Log([7, 6, 5]))
  {
    hide Whole, Torn, PutInLeaf, SplitLeaf, GrowRoot;
    OneLeafIsWhole();
    var one := Single([6, 7], [[6], [7]]);
    assert |Single([6, 7], [[6], [7]]).nodes[0].keys| == 2 && 5 !in Single([6, 7], [[6], [7]]).nodes[0].keys;
    TornLeaf(one, 0, 5, 5, 3, Log([7, 6]));
    PutOnly([6, 7], [[6], [7]], 5, 5);
    assert [5] + [6, 7] == [5, 6, 7] && [[5]] + [[6], [7]] == [[5], [6], [7]];
    SplitFirst();
    NewRoot(Halves(), 0, 6, 1, 3, Log([7, 6]) + [Entry(5, 5)]);
    GrowHalves();
    assert Log([7, 6]) + [Entry(5, 5)] == Log([7, 6, 5]);
  }

  function Halves(): Tree {
    Tree([Leaf([5], [[5]], None, Some(1)), Leaf([6, 7], [[6], [7]], None, None)], [Span(0, 6, 0), Span(6, KEY_END, 0)], 0)
  }

  lemma SplitFirst()
    ensures SplitLeaf(Single([5, 6, 7], [[5], [6], [7]]), 0, 1) == Halves()
  {
    assert [5, 6, 7][..1] == [5] && [5, 6, 7][1..] == [6, 7];
    assert [[5], [6], [7]][..1] == [[5]] && [[5], [6], [7]][1..] == [[6], [7]];
  }

  lemma GrowHalves()
    ensures GrowRoot(Halves(), 0, 6, 1) == Grown()
  {
    assert GrowRoot(Halves(), 0, 6, 1).nodes == Grown().nodes;
    assert GrowRoot(Halves(), 0, 6, 1).spans == Grown().spans;
  }

  lemma TwoLeavesIsWhole()
    ensures Whole(TwoLeaves(), 3, Log([7, 6, 5, 4]))
  {
    GrownIsWhole();
    PutStep(Grown(), 0, 4, 4, Log([7, 6, 5]));
    PutFirst(Grown().nodes[0], 4, 4);
    assert [4] + [5] == [4, 5] && [[4]] + [[5]] == [[4], [5]];
    assert PutInLeaf(Grown(), 0, 4, 4).nodes == TwoLeaves().nodes;
    assert Log([7, 6, 5]) + [Entry(4, 4)] == Log([7, 6, 5, 4]);
  }

  // With order 3, after the keys 7, 6, 5 and 4, inserting 3 splits the leftmost
  // leaf below a root that has room: the loop does not end.
  lemma LoopWithoutEnd()
    ensures Whole(TwoLeaves(), 3, Log([7, 6, 5, 4]))
    ensures var mid := PutInLeaf(TwoLeaves(), 0, 3, 3);
            && |mid.nodes[0].keys| == |mid.nodes[0].items| == 3
            && Torn(SplitLeaf(mid, 0, 1), 0, 4, 3, 3, Log([7, 6, 5, 4]) + [Entry(3, 3)])
            && |SplitLeaf(mid, 0, 1).nodes[2].keys| < 3 - 1
            && !Ends(|SplitLeaf(mid, 0, 1).nodes[2].keys| - 1, Pos(SplitLeaf(mid, 0, 1).nodes[2].keys, 4))
  {
    TwoLeavesIsWhole();
    TornLeaf(TwoLeaves(), 0, 3, 3, 3, Log([7, 6, 5, 4]));
    var mid := PutInLeaf(TwoLeaves(), 0, 3, 3);
    assert mid.nodes[0] == Leaf([3, 4, 5], [[3], [4], [5]], Some(2), Some(1));
    var torn := SplitLeaf(mid, 0, 1);
    ParentLoopEnds(torn, 0, 4, 3, 2, 3, Log([7, 6, 5, 4]) + [Entry(3, 3)]);
  }
}
