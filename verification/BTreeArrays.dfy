// The loops that make room in the key and pointer arrays of a node.

module BTreeArrays {
  import opened Inserts
  import opened BTreeSpec

  lemma Spliced<T>(before: seq<T>, after: seq<T>, at: nat, x: T)
    requires at <= |before| && |after| == |before| + 1 && after[at] == x
    requires forall j :: 0 <= j < at ==> after[j] == before[j]
    requires forall j :: at < j < |after| ==> after[j] == before[j - 1]
    ensures after == before[..at] + [x] + before[at..]
  {
  }

  // insert_into_leaf: keys and pointers from at on move up by one.
  method ShiftLeaf(keys: array<Key>, pointers: array<seq<Item>>, numKeys: nat, at: nat, key: Key, item: Item)
    requires at <= numKeys < keys.Length <= pointers.Length
    modifies keys, pointers
    ensures keys[..numKeys + 1] == old(keys[..numKeys])[..at] + [key] + old(keys[..numKeys])[at..]
    ensures pointers[..numKeys + 1] == old(pointers[..numKeys])[..at] + [[item]] + old(pointers[..numKeys])[at..]
  {
    var i := numKeys;
    while i > at
      invariant at <= i <= numKeys
      invariant forall j :: 0 <= j <= i && j < numKeys ==> keys[j] == old(keys[j]) && pointers[j] == old(pointers[j])
      invariant forall j :: i < j <= numKeys ==> keys[j] == old(keys[j - 1]) && pointers[j] == old(pointers[j - 1])
    {
      keys[i] := keys[i - 1];
      pointers[i] := pointers[i - 1];
      i := i - 1;
    }
    keys[at] := key;
    pointers[at] := [item];
    Spliced(old(keys[..numKeys]), keys[..numKeys + 1], at, key);
    Spliced(old(pointers[..numKeys]), pointers[..numKeys + 1], at, [item]);
  }

  // insert_into_parent with a signed counter: the pointer goes right after the
  // pointer to the node that was split.
  method ShiftInner(keys: array<Key>, pointers: array<NodeId>, numKeys: nat, at: nat, key: Key, right: NodeId)
    requires at <= numKeys < keys.Length && numKeys + 1 < pointers.Length
    modifies keys, pointers
    ensures keys[..numKeys + 1] == old(keys[..numKeys])[..at] + [key] + old(keys[..numKeys])[at..]
    ensures pointers[..numKeys + 2] == old(pointers[..numKeys + 1])[..at + 1] + [right] + old(pointers[..numKeys + 1])[at + 1..]
  {
    var i: int := numKeys - 1;
    while i >= at
      invariant at - 1 <= i <= numKeys - 1
      invariant forall j :: 0 <= j <= i + 1 && j < numKeys ==> keys[j] == old(keys[j])
      invariant forall j :: 0 <= j <= i + 2 && j <= numKeys ==> pointers[j] == old(pointers[j])
      invariant forall j :: i + 1 < j <= numKeys ==> keys[j] == old(keys[j - 1])
      invariant forall j :: i + 2 < j <= numKeys + 1 ==> pointers[j] == old(pointers[j - 1])
    {
      keys[i + 1] := keys[i];
      pointers[i + 2] := pointers[i + 1];
      i := i - 1;
    }
    keys[at] := key;
    pointers[at + 1] := right;
    Spliced(old(keys[..numKeys]), keys[..numKeys + 1], at, key);
    Spliced(old(pointers[..numKeys + 1]), pointers[..numKeys + 2], at + 1, right);
  }
}
