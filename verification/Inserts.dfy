// What an index is expected to hold: for every key the items inserted under
// it, newest first.

module Inserts {
  // idx_key_t is an unsigned 64-bit integer.
  const KEY_END: int := 0x1_0000_0000_0000_0000

  type Key = k: int | 0 <= k < KEY_END

  type Item = nat

  datatype Entry = Entry(key: Key, item: Item)

  function NewestFirst(log: seq<Entry>, key: Key): (r: seq<Item>)
    ensures |r| <= |log|
  {
    if log == [] then []
    else
      var last := log[|log| - 1];
      (if last.key == key then [last.item] else []) + NewestFirst(log[..|log| - 1], key)
  }

  ghost predicate Present(log: seq<Entry>, key: Key) {
    NewestFirst(log, key) != []
  }

  lemma NewestFirstAppend(log: seq<Entry>, e: Entry, key: Key)
    ensures NewestFirst(log + [e], key) == (if e.key == key then [e.item] else []) + NewestFirst(log, key)
  {
    assert (log + [e])[..|log|] == log;
  }

  // The list of a key holds exactly what was inserted under it.
  lemma {:induction false} HoldsWhatWasInserted(log: seq<Entry>, key: Key, x: Item)
    ensures x in NewestFirst(log, key) <==> Entry(key, x) in log
  {
    if log != [] {
      var rest, last := log[..|log| - 1], log[|log| - 1];
      HoldsWhatWasInserted(rest, key, x);
      assert log == rest + [last];
      assert Entry(key, x) in log <==> Entry(key, x) in rest || Entry(key, x) == last;
    }
  }
  // The inserts under key after position p.
  function Later(log: seq<Entry>, key: Key, p: int): set<int>
    requires -1 <= p
  {
    set q | p < q < |log| && log[q].key == key
  }

  lemma LaterOneMore(log: seq<Entry>, key: Key, p: int)
    requires log != [] && -1 <= p < |log| - 1
    ensures var rest, last := log[..|log| - 1], |log| - 1;
            |Later(log, key, p)| == |Later(rest, key, p)| + if log[last].key == key then 1 else 0
  {
    var rest, last := log[..|log| - 1], |log| - 1;
    assert forall q :: 0 <= q < last ==> rest[q] == log[q];
    if log[last].key == key {
      assert Later(log, key, p) == Later(rest, key, p) + {last};
    } else {
      assert Later(log, key, p) == Later(rest, key, p);
    }
  }

  // An item stands behind exactly those inserted after it under the same key.
  lemma {:induction false} StandsBehindLater(log: seq<Entry>, key: Key, p: nat)
    requires p < |log| && log[p].key == key
    ensures |Later(log, key, p)| < |NewestFirst(log, key)| && NewestFirst(log, key)[|Later(log, key, p)|] == log[p].item
  {
    var last := |log| - 1;
    if p == last {
      assert Later(log, key, p) == {};
    } else {
      StandsBehindLater(log[..last], key, p);
      LaterOneMore(log, key, p);
    }
  }

  lemma {:induction false} AsManyAsInserted(log: seq<Entry>, key: Key)
    ensures |NewestFirst(log, key)| == |Later(log, key, -1)|
  {
    if log == [] {
      assert Later(log, key, -1) == {};
    } else {
      AsManyAsInserted(log[..|log| - 1], key);
      LaterOneMore(log, key, -1);
    }
  }
}
