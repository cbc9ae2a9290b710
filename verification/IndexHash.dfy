// index_hash.cpp for one partition: buckets with chains of keys, each key with
// its list of items. Both indexes give the same answers.

module IndexHash {
  import opened Options
  import opened Inserts
  import opened BTreeSpec
  import Btree = IndexBtree

  datatype BucketNode = BucketNode(key: Key, items: seq<Item>)

  function ChainItems(chain: seq<BucketNode>, key: Key): seq<Item> {
    if chain == [] then []
    else if chain[0].key == key then chain[0].items
    else ChainItems(chain[1..], key)
  }

  ghost predicate NoneEmpty(chain: seq<BucketNode>) {
    forall i :: 0 <= i < |chain| ==> chain[i].items != []
  }

  lemma {:induction false} ChainAt(chain: seq<BucketNode>, i: nat, key: Key)
    requires i <= |chain| && forall j :: 0 <= j < i ==> chain[j].key != key
    ensures ChainItems(chain, key) == if i == |chain| then [] else ChainItems(chain[i..], key)
  {
    if i > 0 {
      ChainAt(chain[1..], i - 1, key);
      assert i < |chain| ==> chain[1..][i - 1..] == chain[i..];
    }
  }

  // Changing or adding the node of one key leaves the items of the others.
  lemma {:induction false} ChainElsewhere(chain: seq<BucketNode>, i: nat, node: BucketNode, key: Key)
    requires i <= |chain| && node.key != key && (i < |chain| ==> chain[i].key == node.key)
    ensures ChainItems(if i < |chain| then chain[i := node] else chain + [node], key) == ChainItems(chain, key)
  {
    var r := if i < |chain| then chain[i := node] else chain + [node];
    if i > 0 {
      ChainElsewhere(chain[1..], i - 1, node, key);
      assert r[1..] == if i - 1 < |chain[1..]| then chain[1..][i - 1 := node] else chain[1..] + [node];
    } else if chain != [] {
      assert r[1..] == chain[1..];
    }
  }

  class BucketHeader {
    var nodes: seq<BucketNode>

    constructor ()
      ensures nodes == []
    {
      nodes := [];
    }

    method InsertItem(key: Key, item: Item)
      modifies this
      ensures ChainItems(nodes, key) == [item] + ChainItems(old(nodes), key)
      ensures forall k: Key :: k != key ==> ChainItems(nodes, k) == ChainItems(old(nodes), k)
      ensures NoneEmpty(old(nodes)) ==> NoneEmpty(nodes)
    {
      var cur := 0;
      while cur < |nodes|
        invariant cur <= |nodes| && forall j :: 0 <= j < cur ==> nodes[j].key != key
        invariant nodes == old(nodes)
      {
        if nodes[cur].key == key {
          break;
        }
        cur := cur + 1;
      }
      var node := if cur == |nodes| then BucketNode(key, [item]) else nodes[cur].(items := [item] + nodes[cur].items);
      forall k: Key | k != key
        ensures ChainItems(if cur < |nodes| then nodes[cur := node] else nodes + [node], k) == ChainItems(nodes, k)
      {
        ChainElsewhere(nodes, cur, node, k);
      }
      ChainAt(nodes, cur, key);
      if cur == |nodes| {
        nodes := nodes + [node];
      } else {
        nodes := nodes[cur := node];
      }
      ChainAt(nodes, cur, key);
    }

    // None stands for the failed assertion that the key exists.
    method ReadItem(key: Key) returns (items: Option<seq<Item>>)
      requires NoneEmpty(nodes)
      ensures items == if ChainItems(nodes, key) == [] then None else Some(ChainItems(nodes, key))
    {
      var cur := 0;
      while cur < |nodes|
        invariant cur <= |nodes| && forall j :: 0 <= j < cur ==> nodes[j].key != key
      {
        if nodes[cur].key == key {
          break;
        }
        cur := cur + 1;
      }
      ChainAt(nodes, cur, key);
      items := if cur == |nodes| then None else Some(nodes[cur].items);
    }
  }

  class IndexHash {
    const bucketCnt: nat
    const buckets: seq<BucketHeader>
    ghost var inserted: seq<Entry>

    ghost predicate Valid()
      reads this, buckets
    {
      && 0 < bucketCnt == |buckets|
      && (forall i, j :: 0 <= i < j < |buckets| ==> buckets[i] != buckets[j])
      && (forall b :: 0 <= b < |buckets| ==> NoneEmpty(buckets[b].nodes))
      && forall k: Key :: ChainItems(buckets[k % bucketCnt].nodes, k) == NewestFirst(inserted, k)
    }

    constructor (bucketCnt: nat)
      requires bucketCnt > 0
      ensures Valid() && inserted == [] && this.bucketCnt == bucketCnt && fresh(buckets)
    {
      var bs: seq<BucketHeader> := [];
      while |bs| < bucketCnt
        invariant |bs| <= bucketCnt && fresh(bs)
        invariant forall i, j :: 0 <= i < j < |bs| ==> bs[i] != bs[j]
        invariant forall b :: 0 <= b < |bs| ==> bs[b].nodes == []
      {
        var b := new BucketHeader();
        bs := bs + [b];
      }
      this.bucketCnt, buckets, inserted := bucketCnt, bs, [];
    }

    function Hash(key: Key): (h: nat)
      requires bucketCnt > 0
      ensures h < bucketCnt
    {
      key % bucketCnt
    }

    method IndexInsert(key: Key, item: Item)
      requires Valid()
      modifies this`inserted, buckets[key % bucketCnt]
      ensures Valid() && inserted == old(inserted) + [Entry(key, item)]
    {
      var bktIdx := Hash(key);
      var curBkt := buckets[bktIdx];
      curBkt.InsertItem(key, item);
      inserted := inserted + [Entry(key, item)];
      forall k: Key
        ensures ChainItems(buckets[k % bucketCnt].nodes, k) == NewestFirst(inserted, k)
      {
        NewestFirstAppend(old(inserted), Entry(key, item), k);
      }
    }

    method IndexRead(key: Key) returns (items: Option<seq<Item>>)
      requires Valid()
      ensures items == if Present(inserted, key) then Some(NewestFirst(inserted, key)) else None
    {
      var bktIdx := Hash(key);
      var curBkt := buckets[bktIdx];
      items := curBkt.ReadItem(key);
    }
  }

  // After the same inserts the two indexes hold, for every key, the same list
  // of items.
  lemma IndexesAgree(hash: IndexHash, btree: Btree.IndexBtree, key: Key, items: seq<Item>)
    requires hash.Valid() && btree.Valid() && hash.inserted == btree.inserted
    ensures Holds(btree.Abs(), key, items) <==> items != [] && ChainItems(hash.buckets[hash.Hash(key)].nodes, key) == items
  {
    assert Represents(btree.Abs(), btree.inserted);
  }
}
