// Every step of an insertion keeps the shape of the tree and, but for the one
// that stores the item, what the tree holds: putting an item into a leaf with
// room, splitting a leaf or an inner node, putting a new node under a parent
// with room, and growing a new root. Each step is first described node by node
// (which nodes it leaves alone, which it makes), then shown to keep the
// invariant.

module BTreeSteps {
  import opened Options
  import opened Inserts
  import opened BTreeSpec

  lemma PosIs(keys: seq<Key>, key: Key, i: nat)
    requires i <= |keys| && (forall j :: 0 <= j < i ==> keys[j] < key) && (i < |keys| ==> key <= keys[i])
    ensures i == Pos(keys, key)
  {
  }

  lemma SpliceSorted(keys: seq<Key>, i: nat, key: Key)
    requires Sorted(keys) && i <= |keys| && (i > 0 ==> keys[i - 1] < key) && (i < |keys| ==> key < keys[i])
    ensures Sorted(keys[..i] + [key] + keys[i..])
  {
    var r := keys[..i] + [key] + keys[i..];
    forall a, b | 0 <= a < b < |r|
      ensures r[a] < r[b]
    {
      assert r[a] == if a < i then keys[a] else if a == i then key else keys[a - 1];
      assert r[b] == if b < i then keys[b] else if b == i then key else keys[b - 1];
    }
  }

  lemma SpliceWithin(keys: seq<Key>, i: nat, key: Key, lo: int, hi: int)
    requires i <= |keys| && Within(keys, lo, hi) && lo <= key < hi
    ensures Within(keys[..i] + [key] + keys[i..], lo, hi)
  {
  }

  // ---------------------------------------------------------------------
  // Where a key lives
  // ---------------------------------------------------------------------

  predicate Covers(sp: Span, k: int) {
    sp.lo <= k < sp.hi
  }

  // The parent of a node covers all its keys.
  lemma ParentCovers(t: Tree, n: NodeId, k: int) returns (p: NodeId, i: nat)
    requires Inv(t, None) && n < |t.nodes| && n != t.root && Covers(t.spans[n], k)
    ensures p < |t.nodes| && i < |t.nodes[p].kids| && t.nodes[p].kids[i] == n && i <= |t.nodes[p].keys|
    ensures Covers(t.spans[p], k) && t.spans[p].height == t.spans[n].height + 1
    ensures Low(t.nodes[p], t.spans[p], i) <= k < High(t.nodes[p], t.spans[p], i)
  {
    assert ParentOk(t, None, n);
    p := t.nodes[n].parent.value;
    i :| 0 <= i < |t.nodes[p].kids| && t.nodes[p].kids[i] == n;
    assert KidOk(t, None, p, i) && NodeOk(t.nodes[p], t.spans[p]);
  }

  lemma SameKid(nd: Node, sp: Span, i: nat, j: nat, k: int)
    requires NodeOk(nd, sp) && i <= |nd.keys| && j <= |nd.keys|
    requires Low(nd, sp, i) <= k < High(nd, sp, i) && Low(nd, sp, j) <= k < High(nd, sp, j)
    ensures i == j
  {
  }

  // On every level exactly one node covers a key.
  lemma {:induction false} OneNode(t: Tree, m: NodeId, n: NodeId, k: int)
    requires Inv(t, None) && m < |t.nodes| && n < |t.nodes| && t.spans[m].height == t.spans[n].height
    requires Covers(t.spans[m], k) && Covers(t.spans[n], k)
    ensures m == n
    decreases t.spans[t.root].height - t.spans[m].height
  {
    if m != t.root && n != t.root {
      var p, i := ParentCovers(t, m, k);
      var q, j := ParentCovers(t, n, k);
      OneNode(t, p, q, k);
      SameKid(t.nodes[p], t.spans[p], i, j, k);
    } else if m != t.root {
      var p, i := ParentCovers(t, m, k);
    } else if n != t.root {
      var p, i := ParentCovers(t, n, k);
    }
  }

  // Whatever the tree holds for a key is in the leaf that covers it.
  lemma HeldHere(t: Tree, n: NodeId, k: Key, xs: seq<Item>)
    requires Inv(t, None) && n < |t.nodes| && t.nodes[n].isLeaf && Covers(t.spans[n], k)
    ensures Holds(t, k, xs) <==> NodeHolds(t.nodes[n], k, xs)
  {
    if Holds(t, k, xs) {
      var m :| 0 <= m < |t.nodes| && NodeHolds(t.nodes[m], k, xs);
      assert NodeOk(t.nodes[m], t.spans[m]) && NodeOk(t.nodes[n], t.spans[n]);
      OneNode(t, m, n, k);
    }
  }

  // ---------------------------------------------------------------------
  // Storing an item
  // ---------------------------------------------------------------------

  lemma PutItemOk(nd: Node, sp: Span, key: Key, item: Item)
    requires NodeOk(nd, sp) && nd.isLeaf && Covers(sp, key)
    ensures NodeOk(PutItem(nd, key, item), sp)
  {
    var i := Pos(nd.keys, key);
    if !(i < |nd.keys| && nd.keys[i] == key) {
      SpliceSorted(nd.keys, i, key);
      SpliceWithin(nd.keys, i, key, sp.lo, sp.hi);
    }
  }

  lemma PutNewHolds(nd: Node, key: Key, item: Item, k: Key, xs: seq<Item>)
    requires nd.isLeaf && |nd.items| == |nd.keys| && key !in nd.keys
    ensures NodeHolds(PutItem(nd, key, item), k, xs) <==> NodeHolds(nd, k, xs) || (k == key && xs == [item])
  {
    var i, nd' := Pos(nd.keys, key), PutItem(nd, key, item);
    PutNewAt(nd, key, item, i);
    if NodeHolds(nd, k, xs) {
      var j :| 0 <= j < |nd.keys| && nd.keys[j] == k && nd.items[j] == xs;
      PutNewAt(nd, key, item, if j < i then j else j + 1);
    }
    if NodeHolds(nd', k, xs) {
      var j :| 0 <= j < |nd'.keys| && nd'.keys[j] == k && nd'.items[j] == xs;
      PutNewAt(nd, key, item, j);
    }
  }

  lemma PutNewAt(nd: Node, key: Key, item: Item, j: nat)
    requires |nd.items| == |nd.keys| && key !in nd.keys && j <= |nd.keys|
    ensures var i, nd' := Pos(nd.keys, key), PutItem(nd, key, item);
            && nd'.isLeaf == nd.isLeaf && |nd'.keys| == |nd'.items| == |nd.keys| + 1
            && nd'.keys[j] == (if j < i then nd.keys[j] else if j == i then key else nd.keys[j - 1])
            && nd'.items[j] == (if j < i then nd.items[j] else if j == i then [item] else nd.items[j - 1])
  {
  }

  lemma PutOldHolds(nd: Node, key: Key, item: Item, k: Key, xs: seq<Item>)
    requires nd.isLeaf && |nd.items| == |nd.keys| && Sorted(nd.keys) && key in nd.keys
    ensures Pos(nd.keys, key) < |nd.keys|
    ensures NodeHolds(nd, key, nd.items[Pos(nd.keys, key)])
    ensures NodeHolds(PutItem(nd, key, item), k, xs) <==>
            if k == key then xs == [item] + nd.items[Pos(nd.keys, key)] else NodeHolds(nd, k, xs)
  {
    var j :| 0 <= j < |nd.keys| && nd.keys[j] == key;
    assert j == Pos(nd.keys, key);
    var nd' := PutItem(nd, key, item);
    assert nd'.items[j] == [item] + nd.items[j];
    assert forall a :: 0 <= a < |nd.keys| && a != j ==> nd'.keys[a] == nd.keys[a] && nd'.items[a] == nd.items[a];
  }

  lemma PutHolds(nd: Node, log: seq<Entry>, key: Key, item: Item, k: Key, xs: seq<Item>)
    requires nd.isLeaf && |nd.items| == |nd.keys| && Sorted(nd.keys)
    requires forall ys :: NodeHolds(nd, key, ys) <==> ys == NewestFirst(log, key) && ys != []
    ensures NodeHolds(PutItem(nd, key, item), k, xs) <==>
            if k == key then xs == [item] + NewestFirst(log, key) else NodeHolds(nd, k, xs)
  {
    if key in nd.keys {
      PutOldHolds(nd, key, item, k, xs);
    } else {
      PutNewHolds(nd, key, item, k, xs);
      assert !NodeHolds(nd, key, NewestFirst(log, key));
    }
  }

  lemma PutInLeafOther(t: Tree, n: NodeId, key: Key, item: Item, k: Key, xs: seq<Item>)
    requires n < |t.nodes| && |t.nodes[n].items| == |t.nodes[n].keys|
    requires NodeHolds(PutItem(t.nodes[n], key, item), k, xs) <==> NodeHolds(t.nodes[n], k, xs)
    ensures Holds(PutInLeaf(t, n, key, item), k, xs) <==> Holds(t, k, xs)
  {
    var t' := PutInLeaf(t, n, key, item);
    forall m | 0 <= m < |t.nodes|
      ensures NodeHolds(t'.nodes[m], k, xs) <==> NodeHolds(t.nodes[m], k, xs)
    {
    }
  }

  lemma PutRepresents(t: Tree, n: NodeId, key: Key, item: Item, log: seq<Entry>)
    requires Inv(t, None) && n < |t.nodes| && t.nodes[n].isLeaf && Covers(t.spans[n], key) && Represents(t, log)
    requires Inv(PutInLeaf(t, n, key, item), None)
    ensures Represents(PutInLeaf(t, n, key, item), log + [Entry(key, item)])
  {
    var t' := PutInLeaf(t, n, key, item);
    var nd := t.nodes[n];
    assert NodeOk(nd, t.spans[n]);
    forall ys
      ensures NodeHolds(nd, key, ys) <==> ys == NewestFirst(log, key) && ys != []
    {
      HeldHere(t, n, key, ys);
    }
    forall k: Key, xs
      ensures Holds(t', k, xs) <==> xs == NewestFirst(log + [Entry(key, item)], k) && xs != []
    {
      NewestFirstAppend(log, Entry(key, item), k);
      PutHolds(nd, log, key, item, k, xs);
      if k == key {
        HeldHere(t', n, k, xs);
      } else {
        PutInLeafOther(t, n, key, item, k, xs);
      }
    }
  }

  lemma PutInLeafKeeps(t: Tree, n: NodeId, key: Key, item: Item)
    requires Inv(t, None) && n < |t.nodes| && t.nodes[n].isLeaf && Covers(t.spans[n], key)
    ensures Inv(PutInLeaf(t, n, key, item), None)
  {
    var t' := PutInLeaf(t, n, key, item);
    PutItemOk(t.nodes[n], t.spans[n], key, item);
    forall m, i | 0 <= m < |t'.nodes| && 0 <= i < |t'.nodes[m].kids|
      ensures KidOk(t', None, m, i)
    {
      assert KidOk(t, None, m, i);
    }
    forall m | 0 <= m < |t'.nodes|
      ensures ParentOk(t', None, m) && NextOk(t', m)
    {
      assert ParentOk(t, None, m) && NextOk(t, m);
    }
  }

  // ---------------------------------------------------------------------
  // Splitting a leaf
  // ---------------------------------------------------------------------

  lemma SplitLeafNodes(t: Tree, n: NodeId, at: nat)
    requires Inv(t, None) && n < |t.nodes| && t.nodes[n].isLeaf && 0 < at < |t.nodes[n].keys|
    ensures AllNodes(SplitLeaf(t, n, at))
  {
    var t' := SplitLeaf(t, n, at);
    assert NodeOk(t.nodes[n], t.spans[n]) && t.nodes[n].keys[0] < t.nodes[n].keys[at];
    forall m | 0 <= m < |t'.nodes|
      ensures NodeOk(t'.nodes[m], t'.spans[m])
    {
      if m < |t.nodes| {
        assert NodeOk(t.nodes[m], t.spans[m]);
      }
    }
  }

  lemma SplitLeafKeeps(t: Tree, n: NodeId, at: nat)
    requires Inv(t, None) && n < |t.nodes| && t.nodes[n].isLeaf && 0 < at < |t.nodes[n].keys|
    ensures Inv(SplitLeaf(t, n, at), Some(Split(n, |t.nodes|)))
  {
    var t', pend := SplitLeaf(t, n, at), Some(Split(n, |t.nodes|));
    assert NodeOk(t.nodes[n], t.spans[n]) && NextOk(t, n) && ParentOk(t, None, n);
    SplitLeafNodes(t, n, at);
    forall m, i | 0 <= m < |t'.nodes| && 0 <= i < |t'.nodes[m].kids|
      ensures KidOk(t', pend, m, i)
    {
      assert m != n && m < |t.nodes|;
      assert KidOk(t, None, m, i);
    }
    forall m | 0 <= m < |t'.nodes|
      ensures ParentOk(t', pend, m) && NextOk(t', m)
    {
      if m < |t.nodes| {
        assert ParentOk(t, None, m) && NextOk(t, m);
      }
    }
  }

  lemma SplitLeafHolds(t: Tree, n: NodeId, at: nat, k: Key, xs: seq<Item>)
    requires n < |t.nodes| == |t.spans| && t.nodes[n].isLeaf && 0 < at < |t.nodes[n].keys| == |t.nodes[n].items|
    ensures Holds(SplitLeaf(t, n, at), k, xs) <==> Holds(t, k, xs)
  {
    var t', nd := SplitLeaf(t, n, at), t.nodes[n];
    var left, right := t'.nodes[n], t'.nodes[|t.nodes|];
    assert forall m :: 0 <= m < |t.nodes| && m != n ==> t'.nodes[m] == t.nodes[m];
    assert forall j :: at <= j < |nd.keys| ==> right.keys[j - at] == nd.keys[j] && right.items[j - at] == nd.items[j];
    assert NodeHolds(nd, k, xs) <==> NodeHolds(left, k, xs) || NodeHolds(right, k, xs);
  }

  // ---------------------------------------------------------------------
  // Telling the parent
  // ---------------------------------------------------------------------

  // What the code finds in the parent of a split node.
  lemma LeftPlace(t: Tree, left: NodeId, right: NodeId, p: NodeId, i: nat)
    requires Inv(t, Some(Split(left, right))) && t.nodes[left].parent == Some(p)
    requires p < |t.nodes| && i == Pos(t.nodes[p].keys, t.spans[right].lo)
    ensures !t.nodes[p].isLeaf && i < |t.nodes[p].kids| == |t.nodes[p].keys| + 1 && t.nodes[p].kids[i] == left
    ensures t.spans[p].height == t.spans[left].height + 1
    ensures Low(t.nodes[p], t.spans[p], i) == t.spans[left].lo && High(t.nodes[p], t.spans[p], i) == t.spans[right].hi
  {
    var pend := Some(Split(left, right));
    assert ParentOk(t, pend, left) && NodeOk(t.nodes[p], t.spans[p]);
    assert NodeOk(t.nodes[left], t.spans[left]) && NodeOk(t.nodes[right], t.spans[right]);
    var j :| 0 <= j < |t.nodes[p].kids| && t.nodes[p].kids[j] == left;
    assert KidOk(t, pend, p, j);
    PosIs(t.nodes[p].keys, t.spans[right].lo, j);
  }

  // No kid of another node, and no other kid of p, is the split node.
  lemma OnlyPlace(t: Tree, left: NodeId, right: NodeId, p: NodeId, i: nat, m: NodeId, j: nat)
    requires Inv(t, Some(Split(left, right))) && p < |t.nodes| && i < |t.nodes[p].kids| && t.nodes[p].kids[i] == left
    requires m < |t.nodes| && j < |t.nodes[m].kids| && (m != p || j != i)
    ensures t.nodes[m].kids[j] != left
  {
    var pend := Some(Split(left, right));
    assert KidOk(t, pend, p, i) && KidOk(t, pend, m, j) && NodeOk(t.nodes[p], t.spans[p]);
    if m == p {
      assert Low(t.nodes[p], t.spans[p], i) != Low(t.nodes[p], t.spans[p], j);
    }
  }

  // The place of the split node and the key that goes there.
  ghost predicate Place(t: Tree, left: NodeId, right: NodeId, p: NodeId, i: nat, key: Key) {
    && left < |t.nodes| == |t.spans| && right < |t.nodes| && p < |t.nodes|
    && t.nodes[left].parent == Some(p) && key == t.spans[right].lo && i == Pos(t.nodes[p].keys, key)
    && |t.nodes[p].kids| == |t.nodes[p].keys| + 1
  }

  lemma PutKidNodes(t: Tree, left: NodeId, right: NodeId, p: NodeId, i: nat, key: Key)
    requires Inv(t, Some(Split(left, right))) && Place(t, left, right, p, i, key)
    ensures AllNodes(PutKid(t, p, i, key, right))
  {
    LeftPlace(t, left, right, p, i);
    assert NodeOk(t.nodes[left], t.spans[left]) && NodeOk(t.nodes[right], t.spans[right]) && NodeOk(t.nodes[p], t.spans[p]);
    SpliceSorted(t.nodes[p].keys, i, key);
    SpliceWithin(t.nodes[p].keys, i, key, t.spans[p].lo + 1, t.spans[p].hi);
  }

  // The kids of p and their ranges after right has joined them.
  lemma SpliceRange(nd: Node, sp: Span, i: nat, key: Key, right: NodeId, j: nat)
    requires i <= |nd.keys| && |nd.kids| == |nd.keys| + 1 && j <= |nd.keys| + 1
    ensures var nd' := nd.(keys := nd.keys[..i] + [key] + nd.keys[i..], kids := nd.kids[..i + 1] + [right] + nd.kids[i + 1..]);
            && nd'.kids[j] == (if j <= i then nd.kids[j] else if j == i + 1 then right else nd.kids[j - 1])
            && Low(nd', sp, j) == (if j <= i then Low(nd, sp, j) else if j == i + 1 then key else Low(nd, sp, j - 1))
            && High(nd', sp, j) == (if j < i then High(nd, sp, j) else if j == i then key else High(nd, sp, j - 1))
  {
  }

  lemma PutKidHere(t: Tree, left: NodeId, right: NodeId, p: NodeId, i: nat, key: Key, j: nat)
    requires Inv(t, Some(Split(left, right))) && Place(t, left, right, p, i, key)
    requires AllNodes(PutKid(t, p, i, key, right)) && j < |PutKid(t, p, i, key, right).nodes[p].kids|
    ensures KidOk(PutKid(t, p, i, key, right), None, p, j)
  {
    hide AllNodes, AllParents, AllNext;
    var pend := Some(Split(left, right));
    LeftPlace(t, left, right, p, i);
    SpliceRange(t.nodes[p], t.spans[p], i, key, right, j);
    if j == i || j == i + 1 {
      assert KidOk(t, pend, p, i);
    } else {
      var was := if j < i then j else j - 1;
      assert KidOk(t, pend, p, was);
      OnlyPlace(t, left, right, p, i, p, was);
    }
  }

  lemma PutKidElse(t: Tree, left: NodeId, right: NodeId, p: NodeId, i: nat, key: Key, m: NodeId, j: nat)
    requires Inv(t, Some(Split(left, right))) && Place(t, left, right, p, i, key)
    requires AllNodes(PutKid(t, p, i, key, right))
    requires m < |t.nodes| && j < |PutKid(t, p, i, key, right).nodes[m].kids| && m != p
    ensures KidOk(PutKid(t, p, i, key, right), None, m, j)
  {
    hide AllParents, AllNext;
    LeftPlace(t, left, right, p, i);
    assert KidOk(t, Some(Split(left, right)), m, j);
    OnlyPlace(t, left, right, p, i, m, j);
  }

  lemma PutKidParent(t: Tree, left: NodeId, right: NodeId, p: NodeId, i: nat, key: Key, m: NodeId)
    requires Inv(t, Some(Split(left, right))) && Place(t, left, right, p, i, key) && m < |t.nodes|
    ensures ParentOk(PutKid(t, p, i, key, right), None, m) && NextOk(PutKid(t, p, i, key, right), m)
  {
    var t' := PutKid(t, p, i, key, right);
    assert ParentOk(t, Some(Split(left, right)), m) && ParentOk(t, Some(Split(left, right)), left) && NextOk(t, m);
    assert t'.nodes[p].kids[i + 1] == right;
    assert t.nodes[p].kids == t.nodes[p].kids[..i + 1] + t.nodes[p].kids[i + 1..];
  }

  lemma PutKidKeeps(t: Tree, left: NodeId, right: NodeId, p: NodeId, i: nat, key: Key)
    requires Inv(t, Some(Split(left, right))) && Place(t, left, right, p, i, key)
    ensures Inv(PutKid(t, p, i, key, right), None)
  {
    var t' := PutKid(t, p, i, key, right);
    PutKidNodes(t, left, right, p, i, key);
    forall m, j | 0 <= m < |t'.nodes| && 0 <= j < |t'.nodes[m].kids|
      ensures KidOk(t', None, m, j)
    {
      if m == p {
        PutKidHere(t, left, right, p, i, key, j);
      } else {
        PutKidElse(t, left, right, p, i, key, m, j);
      }
    }
    forall m | 0 <= m < |t'.nodes|
      ensures ParentOk(t', None, m) && NextOk(t', m)
    {
      PutKidParent(t, left, right, p, i, key, m);
    }
    assert ParentOk(t, Some(Split(left, right)), left);
  }

  // ---------------------------------------------------------------------
  // A new root
  // ---------------------------------------------------------------------

  lemma GrowRootParts(t: Tree, left: NodeId, right: NodeId, key: Key)
    requires Inv(t, Some(Split(left, right))) && t.nodes[left].parent == None && key == t.spans[right].lo
    ensures AllNodes(GrowRoot(t, left, key, right))
    ensures forall m :: 0 <= m <= |t.nodes| ==> ParentOk(GrowRoot(t, left, key, right), None, m) && NextOk(GrowRoot(t, left, key, right), m)
  {
    var t' := GrowRoot(t, left, key, right);
    assert ParentOk(t, Some(Split(left, right)), left);
    assert NodeOk(t.nodes[left], t.spans[left]) && NodeOk(t.nodes[right], t.spans[right]);
    assert t'.nodes[|t.nodes|].kids[0] == left && t'.nodes[|t.nodes|].kids[1] == right;
    forall m | 0 <= m < |t'.nodes|
      ensures NodeOk(t'.nodes[m], t'.spans[m]) && ParentOk(t', None, m) && NextOk(t', m)
    {
      if m < |t.nodes| {
        assert NodeOk(t.nodes[m], t.spans[m]) && ParentOk(t, Some(Split(left, right)), m) && NextOk(t, m);
      }
    }
  }

  lemma GrowRootKeeps(t: Tree, left: NodeId, right: NodeId, key: Key)
    requires Inv(t, Some(Split(left, right))) && t.nodes[left].parent == None && key == t.spans[right].lo
    ensures Inv(GrowRoot(t, left, key, right), None)
  {
    var t' := GrowRoot(t, left, key, right);
    GrowRootParts(t, left, right, key);
    assert ParentOk(t, Some(Split(left, right)), left);
    forall m, j | 0 <= m < |t'.nodes| && 0 <= j < |t'.nodes[m].kids|
      ensures KidOk(t', None, m, j)
    {
      if m < |t.nodes| {
        assert KidOk(t, Some(Split(left, right)), m, j);
      }
    }
  }

  // ---------------------------------------------------------------------
  // Splitting an inner node
  // ---------------------------------------------------------------------

  // The kids of p at or before at stay, the others move.
  lemma MovedKids(t: Tree, p: NodeId, at: nat, i: nat)
    requires Inv(t, None) && p < |t.nodes| && !t.nodes[p].isLeaf && 0 < at < |t.nodes[p].keys| && i < |t.nodes[p].kids|
    ensures t.nodes[p].kids[i] in t.nodes[p].kids[at + 1..] <==> i > at
  {
    var kids := t.nodes[p].kids;
    assert NodeOk(t.nodes[p], t.spans[p]);
    if i > at {
      assert kids[at + 1..][i - at - 1] == kids[i];
    } else {
      assert KidOk(t, None, p, i);
      forall j | at + 1 <= j < |kids|
        ensures kids[j] != kids[i]
      {
        assert KidOk(t, None, p, j);
      }
    }
  }

  // Only kids of p move.
  lemma MovedIsKid(t: Tree, p: NodeId, at: nat, c: NodeId)
    requires Inv(t, None) && p < |t.nodes| && !t.nodes[p].isLeaf && 0 < at < |t.nodes[p].keys|
    requires c in t.nodes[p].kids[at + 1..]
    ensures c < |t.nodes| && t.nodes[c].parent == Some(p) && t.spans[c].height < t.spans[p].height
  {
    assert NodeOk(t.nodes[p], t.spans[p]);
    var i :| 0 <= i < |t.nodes[p].kids| && t.nodes[p].kids[i] == c;
    assert KidOk(t, None, p, i);
  }

  ghost predicate CanSplit(t: Tree, p: NodeId, at: nat) {
    Inv(t, None) && p < |t.nodes| && !t.nodes[p].isLeaf && 0 < at && at + 1 < |t.nodes[p].keys|
  }

  // The nodes of the split tree, one by one.
  lemma SplitInnerAt(t: Tree, p: NodeId, at: nat, m: NodeId)
    requires CanSplit(t, p, at) && m <= |t.nodes|
    ensures var nd, r, t' := t.nodes[p], |t.nodes|, SplitInner(t, p, at);
            t'.nodes[m] ==
            if m == r then RightInner(nd, at)
            else if m == p then LeftInner(nd, at, r)
            else if m in nd.kids[at + 1..] then t.nodes[m].(parent := Some(r))
            else t.nodes[m]
  {
    if p in t.nodes[p].kids[at + 1..] { MovedIsKid(t, p, at, p); }
    if |t.nodes| in t.nodes[p].kids[at + 1..] { MovedIsKid(t, p, at, |t.nodes|); }
  }

  lemma SplitInnerNodes(t: Tree, p: NodeId, at: nat)
    requires CanSplit(t, p, at)
    ensures AllNodes(SplitInner(t, p, at))
  {
    var t' := SplitInner(t, p, at);
    assert NodeOk(t.nodes[p], t.spans[p]);
    forall m | 0 <= m < |t'.nodes|
      ensures NodeOk(t'.nodes[m], t'.spans[m])
    {
      SplitInnerAt(t, p, at, m);
      if m < |t.nodes| {
        assert NodeOk(t.nodes[m], t.spans[m]);
      }
    }
  }

  lemma SplitInnerKid(t: Tree, p: NodeId, at: nat, m: NodeId, i: nat)
    requires CanSplit(t, p, at) && AllNodes(SplitInner(t, p, at))
    requires m <= |t.nodes| && i < |SplitInner(t, p, at).nodes[m].kids|
    ensures KidOk(SplitInner(t, p, at), Some(Split(p, |t.nodes|)), m, i)
  {
    hide AllParents, AllNext;
    var t' := SplitInner(t, p, at);
    SplitInnerAt(t, p, at, m);
    var home := if m == |t.nodes| then p else m;
    var place := if m == |t.nodes| then at + 1 + i else i;
    var c := t'.nodes[m].kids[i];
    assert c == t.nodes[home].kids[place];
    assert KidOk(t, None, home, place);
    SplitInnerAt(t, p, at, c);
    if home == p {
      MovedKids(t, p, at, place);
    } else if c in t.nodes[p].kids[at + 1..] {
      MovedIsKid(t, p, at, c);
    }
  }

  lemma SplitInnerParent(t: Tree, p: NodeId, at: nat, m: NodeId)
    requires CanSplit(t, p, at) && m <= |t.nodes|
    ensures ParentOk(SplitInner(t, p, at), Some(Split(p, |t.nodes|)), m)
  {
    var r, nd, t' := |t.nodes|, t.nodes[p], SplitInner(t, p, at);
    SplitInnerAt(t, p, at, m);
    SplitInnerAt(t, p, at, r);
    SplitInnerAt(t, p, at, p);
    assert ParentOk(t, None, p);
    if m < r {
      assert ParentOk(t, None, m);
      if t.nodes[m].parent.Some? {
        SplitInnerAt(t, p, at, t.nodes[m].parent.value);
      }
      assert nd.kids == nd.kids[..at + 1] + nd.kids[at + 1..];
      if m in nd.kids[at + 1..] {
        MovedIsKid(t, p, at, m);
      }
    }
  }

  lemma SplitInnerNext(t: Tree, p: NodeId, at: nat, m: NodeId)
    requires CanSplit(t, p, at) && m <= |t.nodes|
    ensures NextOk(SplitInner(t, p, at), m)
  {
    SplitInnerAt(t, p, at, m);
    assert NextOk(t, p);
    if m < |t.nodes| {
      assert NextOk(t, m);
    }
  }

  lemma InnerSizes(t: Tree)
    requires AllNodes(t)
    ensures forall m :: 0 <= m < |t.nodes| && t.nodes[m].kids != [] ==> |t.nodes[m].kids| == |t.nodes[m].keys| + 1
  {
    forall m | 0 <= m < |t.nodes| && t.nodes[m].kids != []
      ensures |t.nodes[m].kids| == |t.nodes[m].keys| + 1
    {
      assert NodeOk(t.nodes[m], t.spans[m]);
    }
  }

  lemma SplitInnerKeeps(t: Tree, p: NodeId, at: nat)
    requires CanSplit(t, p, at)
    ensures Inv(SplitInner(t, p, at), Some(Split(p, |t.nodes|)))
  {
    hide ParentOk, NextOk;
    assert NodeOk(t.nodes[p], t.spans[p]) && NodeOk(t.nodes[t.root], t.spans[t.root]);
    var t', pend := SplitInner(t, p, at), Some(Split(p, |t.nodes|));
    SplitInnerNodes(t, p, at);
    InnerSizes(t');
    forall m, i | 0 <= m < |t'.nodes| && 0 <= i < |t'.nodes[m].kids|
      ensures KidOk(t', pend, m, i)
    {
      SplitInnerKid(t, p, at, m, i);
    }
    forall m | 0 <= m < |t'.nodes|
      ensures ParentOk(t', pend, m) && NextOk(t', m)
    {
      SplitInnerParent(t, p, at, m);
      SplitInnerNext(t, p, at, m);
    }
    SplitInnerAt(t, p, at, t.root);
    SplitInnerAt(t, p, at, p);
    SplitInnerAt(t, p, at, |t.nodes|);
    if t.root in t.nodes[p].kids[at + 1..] { MovedIsKid(t, p, at, t.root); }
    assert RootOk(t', pend);
    assert PendOk(t', pend);
  }

  // ---------------------------------------------------------------------
  // Steps above the leaves
  // ---------------------------------------------------------------------

  // t' has the leaves of t.
  ghost predicate SameLeaves(t: Tree, t': Tree) {
    && |t.nodes| <= |t'.nodes|
    && (forall m :: 0 <= m < |t.nodes| ==>
          t'.nodes[m].isLeaf == t.nodes[m].isLeaf
          && (t.nodes[m].isLeaf ==> t'.nodes[m].keys == t.nodes[m].keys && t'.nodes[m].items == t.nodes[m].items))
    && (forall m :: |t.nodes| <= m < |t'.nodes| ==> !t'.nodes[m].isLeaf)
  }

  lemma SameLeavesHold(t: Tree, t': Tree, log: seq<Entry>)
    requires SameLeaves(t, t') && Represents(t, log)
    ensures Represents(t', log)
  {
    forall k: Key, xs
      ensures Holds(t', k, xs) <==> Holds(t, k, xs)
    {
      if Holds(t, k, xs) {
        var m :| 0 <= m < |t.nodes| && NodeHolds(t.nodes[m], k, xs);
        assert NodeHolds(t'.nodes[m], k, xs);
      }
      if Holds(t', k, xs) {
        var m :| 0 <= m < |t'.nodes| && NodeHolds(t'.nodes[m], k, xs);
        assert NodeHolds(t.nodes[m], k, xs);
      }
    }
  }

  lemma SplitInnerLeaves(t: Tree, p: NodeId, at: nat)
    requires CanSplit(t, p, at)
    ensures SameLeaves(t, SplitInner(t, p, at))
  {
    forall m | 0 <= m <= |t.nodes|
      ensures var nd := SplitInner(t, p, at).nodes[m];
              if m < |t.nodes| then
                nd.isLeaf == t.nodes[m].isLeaf && (nd.isLeaf ==> nd.keys == t.nodes[m].keys && nd.items == t.nodes[m].items)
              else !nd.isLeaf
    {
      SplitInnerAt(t, p, at, m);
    }
  }

  // A way down from the root to a leaf.
  ghost predicate IsPath(t: Tree, path: seq<NodeId>) {
    && path != [] && path[0] == t.root
    && (forall i :: 0 <= i < |path| ==> path[i] < |t.nodes|)
    && (forall i :: 0 <= i < |path| - 1 ==> path[i + 1] in t.nodes[path[i]].kids)
    && t.nodes[path[|path| - 1]].isLeaf
  }

  lemma {:induction false} PathDescends(t: Tree, path: seq<NodeId>, i: nat)
    requires Inv(t, None) && IsPath(t, path) && i < |path|
    ensures t.spans[path[i]].height == t.spans[t.root].height - i
  {
    if i > 0 {
      PathDescends(t, path, i - 1);
      var n := path[i - 1];
      assert path[i - 1 + 1] in t.nodes[n].kids;
      var j :| 0 <= j < |t.nodes[n].kids| && t.nodes[n].kids[j] == path[i];
      assert KidOk(t, None, n, j);
    }
  }

  // All leaves are equally deep.
  lemma EqualDepth(t: Tree, path: seq<NodeId>, other: seq<NodeId>)
    requires Inv(t, None) && IsPath(t, path) && IsPath(t, other)
    ensures |path| == |other|
  {
    PathDescends(t, path, |path| - 1);
    PathDescends(t, other, |other| - 1);
    assert NodeOk(t.nodes[path[|path| - 1]], t.spans[path[|path| - 1]]);
    assert NodeOk(t.nodes[other[|other| - 1]], t.spans[other[|other| - 1]]);
  }
}
