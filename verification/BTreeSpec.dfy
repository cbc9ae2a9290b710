// The B+ tree of index_btree.cpp as a value: nodes named by number, the range
// of keys and the height of every node, and what one split is in the middle of.

module BTreeSpec {
  import opened Options
  import opened Inserts

  type NodeId = nat

  // kids of an inner node, items of a leaf: one list, newest first, per key.
  datatype Node = Node(isLeaf: bool, keys: seq<Key>, kids: seq<NodeId>, items: seq<seq<Item>>,
                       parent: Option<NodeId>, next: Option<NodeId>)

  // The keys a node is responsible for, lo <= k < hi, and its distance from
  // the leaves.
  datatype Span = Span(lo: int, hi: int, height: int)

  datatype Tree = Tree(nodes: seq<Node>, spans: seq<Span>, root: NodeId)

  // left has been split; the parent does not know about right yet.
  datatype Split = Split(left: NodeId, right: NodeId)

  ghost predicate Sorted(keys: seq<int>) {
    forall i, j :: 0 <= i < j < |keys| ==> keys[i] < keys[j]
  }

  ghost predicate Within(keys: seq<int>, lo: int, hi: int) {
    forall i :: 0 <= i < |keys| ==> lo <= keys[i] < hi
  }

  ghost predicate NodeOk(nd: Node, sp: Span) {
    && 0 <= sp.lo < sp.hi <= KEY_END
    && Sorted(nd.keys)
    && if nd.isLeaf then
         |nd.items| == |nd.keys| && nd.kids == [] && sp.height == 0 && Within(nd.keys, sp.lo, sp.hi)
       else
         |nd.kids| == |nd.keys| + 1 && nd.keys != [] && sp.height > 0 && Within(nd.keys, sp.lo + 1, sp.hi)
  }

  // The range of the i-th kid according to the separators.
  function Low(nd: Node, sp: Span, i: nat): int
    requires i <= |nd.keys|
  {
    if i == 0 then sp.lo else nd.keys[i - 1]
  }

  function High(nd: Node, sp: Span, i: nat): int
    requires i <= |nd.keys|
  {
    if i == |nd.keys| then sp.hi else nd.keys[i]
  }

  // The range of c as its parent still sees it.
  function Seen(t: Tree, pend: Option<Split>, c: NodeId): Span
    requires c < |t.spans| && (pend.Some? ==> pend.value.right < |t.spans|)
  {
    if pend.Some? && c == pend.value.left then t.spans[c].(hi := t.spans[pend.value.right].hi) else t.spans[c]
  }

  ghost predicate Sized(t: Tree, pend: Option<Split>) {
    && |t.spans| == |t.nodes|
    && t.root < |t.nodes|
    && (pend.Some? ==> pend.value.left < |t.nodes| && pend.value.right < |t.nodes|)
  }

  ghost predicate AllNodes(t: Tree) {
    |t.spans| == |t.nodes| && forall n :: 0 <= n < |t.nodes| ==> NodeOk(t.nodes[n], t.spans[n])
  }

  ghost predicate KidOk(t: Tree, pend: Option<Split>, n: NodeId, i: nat)
    requires Sized(t, pend) && n < |t.nodes| && i < |t.nodes[n].kids| == |t.nodes[n].keys| + 1
  {
    var nd, sp, c := t.nodes[n], t.spans[n], t.nodes[n].kids[i];
    && c < |t.nodes| && t.nodes[c].parent == Some(n)
    && (pend.Some? ==> c != pend.value.right)
    && Seen(t, pend, c) == Span(Low(nd, sp, i), High(nd, sp, i), sp.height - 1)
  }

  ghost predicate AllKids(t: Tree, pend: Option<Split>)
    requires Sized(t, pend) && AllNodes(t)
  {
    forall n, i :: 0 <= n < |t.nodes| && 0 <= i < |t.nodes[n].kids| ==> KidOk(t, pend, n, i)
  }

  ghost predicate ParentOk(t: Tree, pend: Option<Split>, n: NodeId)
    requires Sized(t, pend) && n < |t.nodes|
  {
    match t.nodes[n].parent
    case None => n == t.root || (pend.Some? && n == pend.value.right && pend.value.left == t.root)
    case Some(p) => n != t.root && p < |t.nodes| && (n in t.nodes[p].kids || (pend.Some? && n == pend.value.right))
  }

  ghost predicate AllParents(t: Tree, pend: Option<Split>)
    requires Sized(t, pend)
  {
    forall n :: 0 <= n < |t.nodes| ==> ParentOk(t, pend, n)
  }

  // next leads to the node of the same height that takes over where n ends.
  ghost predicate NextOk(t: Tree, n: NodeId)
    requires |t.spans| == |t.nodes| && n < |t.nodes|
  {
    match t.nodes[n].next
    case None => t.spans[n].hi == KEY_END
    case Some(m) => m < |t.nodes| && t.spans[m].lo == t.spans[n].hi && t.spans[m].height == t.spans[n].height
  }

  ghost predicate AllNext(t: Tree)
    requires |t.spans| == |t.nodes|
  {
    forall n :: 0 <= n < |t.nodes| ==> NextOk(t, n)
  }

  ghost predicate RootOk(t: Tree, pend: Option<Split>)
    requires Sized(t, pend)
  {
    && t.nodes[t.root].parent == None
    && Seen(t, pend, t.root).lo == 0 && Seen(t, pend, t.root).hi == KEY_END
    && forall n :: 0 <= n < |t.nodes| ==> t.spans[n].height <= t.spans[t.root].height
  }

  ghost predicate PendOk(t: Tree, pend: Option<Split>)
    requires Sized(t, pend)
  {
    pend.Some? ==>
      var l, r := pend.value.left, pend.value.right;
      && l != r && r != t.root
      && t.nodes[r].parent == t.nodes[l].parent && t.nodes[l].next == Some(r)
      && t.spans[l].hi == t.spans[r].lo && t.spans[l].height == t.spans[r].height
  }

  // The shape of the tree: sorted keys, separators that bound the kids, equal
  // depth of all leaves, parent pointers and the chain of every level.
  ghost predicate Inv(t: Tree, pend: Option<Split>) {
    && Sized(t, pend) && AllNodes(t) && AllKids(t, pend) && AllParents(t, pend) && AllNext(t)
    && RootOk(t, pend) && PendOk(t, pend)
  }

  // Every node has fewer than order keys and all but the root are half full.
  predicate Fits(nd: Node, isRoot: bool, order: nat) {
    |nd.keys| < order && (isRoot || |nd.keys| >= if nd.isLeaf then order / 2 else (order - 1) / 2)
  }

  ghost predicate Fill(t: Tree, order: nat) {
    forall n :: 0 <= n < |t.nodes| ==> Fits(t.nodes[n], n == t.root, order)
  }

  // ---------------------------------------------------------------------
  // What the tree holds
  // ---------------------------------------------------------------------

  ghost predicate NodeHolds(nd: Node, k: Key, xs: seq<Item>) {
    nd.isLeaf && exists i :: 0 <= i < |nd.keys| && i < |nd.items| && nd.keys[i] == k && nd.items[i] == xs
  }

  ghost predicate Holds(t: Tree, k: Key, xs: seq<Item>) {
    exists n :: 0 <= n < |t.nodes| && NodeHolds(t.nodes[n], k, xs)
  }

  ghost predicate Represents(t: Tree, log: seq<Entry>) {
    forall k: Key, xs :: Holds(t, k, xs) <==> xs == NewestFirst(log, k) && xs != []
  }

  // ---------------------------------------------------------------------
  // The steps
  // ---------------------------------------------------------------------

  // The position both searches of a node stop at.
  function Pos(keys: seq<Key>, key: Key): (i: nat)
    ensures i <= |keys|
    ensures forall j :: 0 <= j < i ==> keys[j] < key
    ensures i < |keys| ==> key <= keys[i]
  {
    if keys == [] || key <= keys[0] then 0 else 1 + Pos(keys[1..], key)
  }

  // A leaf with item inserted under key.
  function PutItem(nd: Node, key: Key, item: Item): Node
    requires |nd.items| == |nd.keys|
  {
    var i := Pos(nd.keys, key);
    if i < |nd.keys| && nd.keys[i] == key then nd.(items := nd.items[i := [item] + nd.items[i]])
    else nd.(keys := nd.keys[..i] + [key] + nd.keys[i..], items := nd.items[..i] + [[item]] + nd.items[i..])
  }

  function PutInLeaf(t: Tree, n: NodeId, key: Key, item: Item): Tree
    requires n < |t.nodes| && |t.nodes[n].items| == |t.nodes[n].keys|
  {
    t.(nodes := t.nodes[n := PutItem(t.nodes[n], key, item)])
  }

  function LeftLeaf(nd: Node, at: nat, next: NodeId): Node
    requires at <= |nd.keys| == |nd.items|
  {
    nd.(keys := nd.keys[..at], items := nd.items[..at], next := Some(next))
  }

  function RightLeaf(nd: Node, at: nat): Node
    requires at <= |nd.keys| == |nd.items|
  {
    nd.(keys := nd.keys[at..], items := nd.items[at..])
  }

  // Leaf n keeps its first at keys, a new leaf after it gets the others.
  function SplitLeaf(t: Tree, n: NodeId, at: nat): Tree
    requires n < |t.nodes| == |t.spans| && 0 < at < |t.nodes[n].keys| == |t.nodes[n].items|
  {
    var nd, sp := t.nodes[n], t.spans[n];
    t.(nodes := t.nodes[n := LeftLeaf(nd, at, |t.nodes|)] + [RightLeaf(nd, at)],
       spans := t.spans[n := sp.(hi := nd.keys[at])] + [sp.(lo := nd.keys[at])])
  }

  // The parent of a split node learns about the right half.
  function PutKid(t: Tree, p: NodeId, i: nat, key: Key, right: NodeId): Tree
    requires p < |t.nodes| && i <= |t.nodes[p].keys| && |t.nodes[p].kids| == |t.nodes[p].keys| + 1
  {
    var nd := t.nodes[p];
    t.(nodes := t.nodes[p := nd.(keys := nd.keys[..i] + [key] + nd.keys[i..],
                                 kids := nd.kids[..i + 1] + [right] + nd.kids[i + 1..])])
  }

  function GrowRoot(t: Tree, left: NodeId, key: Key, right: NodeId): Tree
    requires left < |t.nodes| == |t.spans| && right < |t.nodes|
  {
    var r := |t.nodes|;
    var left', right' := t.nodes[left].(parent := Some(r), next := Some(right)), t.nodes[right].(parent := Some(r));
    Tree(t.nodes[left := left'][right := right'] + [Node(false, [key], [left, right], [], None, None)],
         t.spans + [Span(0, KEY_END, t.spans[left].height + 1)],
         r)
  }

  function LeftInner(nd: Node, at: nat, next: NodeId): Node
    requires at < |nd.keys| && |nd.kids| == |nd.keys| + 1
  {
    nd.(keys := nd.keys[..at], kids := nd.kids[..at + 1], next := Some(next))
  }

  function RightInner(nd: Node, at: nat): Node
    requires at < |nd.keys| && |nd.kids| == |nd.keys| + 1
  {
    nd.(keys := nd.keys[at + 1..], kids := nd.kids[at + 1..])
  }

  function Adopt(nd: Node, n: NodeId, kids: seq<NodeId>, parent: NodeId): Node {
    if n in kids then nd.(parent := Some(parent)) else nd
  }

  function Adopted(nodes: seq<Node>, kids: seq<NodeId>, parent: NodeId): (r: seq<Node>)
    ensures |r| == |nodes|
  {
    seq(|nodes|, n requires 0 <= n < |nodes| => Adopt(nodes[n], n, kids, parent))
  }

  // Inner node p keeps at keys, gives up the next one and moves the others
  // with their kids to a new node after it.
  function SplitInner(t: Tree, p: NodeId, at: nat): Tree
    requires p < |t.nodes| == |t.spans| && 0 < at < |t.nodes[p].keys| && |t.nodes[p].kids| == |t.nodes[p].keys| + 1
  {
    var nd, sp, r := t.nodes[p], t.spans[p], |t.nodes|;
    var halves := t.nodes[p := LeftInner(nd, at, r)] + [RightInner(nd, at)];
    t.(nodes := Adopted(halves, nd.kids[at + 1..], r),
       spans := t.spans[p := sp.(hi := nd.keys[at])] + [sp.(lo := nd.keys[at])])
  }
}
