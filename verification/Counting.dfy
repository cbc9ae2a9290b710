// Counting the elements of sequences without repetition.
//
// The searches and the scheduler stop because no node is taken twice: a sequence
// of distinct numbers below n has at most n elements, and exactly n only when
// every number is in it.

module Counting {
  function Numbers(n: nat): (r: set<nat>)
    ensures |r| == n && forall j: nat :: j in r <==> j < n
  {
    if n == 0 then {} else Numbers(n - 1) + {n - 1}
  }

  function Elements(order: seq<nat>, m: nat): set<nat>
    requires m <= |order|
  {
    if m == 0 then {} else Elements(order, m - 1) + {order[m - 1]}
  }

  lemma {:induction false} ElementsAre(order: seq<nat>, m: nat, x: nat)
    requires m <= |order|
    ensures x in Elements(order, m) <==> x in order[..m]
  {
    if m > 0 {
      ElementsAre(order, m - 1, x);
      assert order[..m] == order[..m - 1] + [order[m - 1]];
    }
  }

  lemma {:induction false} ElementsCount(order: seq<nat>, m: nat)
    requires m <= |order| && forall k, l :: 0 <= k < l < |order| ==> order[k] != order[l]
    ensures |Elements(order, m)| == m
  {
    if m > 0 {
      ElementsCount(order, m - 1);
      ElementsAre(order, m - 1, order[m - 1]);
    }
  }

  lemma SubsetOfSameSize(a: set<nat>, b: set<nat>)
    requires a <= b && |a| == |b|
    ensures a == b
  {
    assert b == a + (b - a);
  }

  lemma SubsetIsSmaller(a: set<nat>, b: set<nat>)
    requires a <= b
    ensures |a| <= |b|
  {
    assert b == a + (b - a);
  }

  // A set that is smaller than a sequence without repetition misses one of its
  // elements.
  lemma SomethingMissing(order: seq<nat>, s: set<nat>) returns (k: nat)
    requires (forall k, l :: 0 <= k < l < |order| ==> order[k] != order[l]) && |s| < |order|
    ensures k < |order| && order[k] !in s
  {
    ElementsCount(order, |order|);
    if Elements(order, |order|) <= s {
      SubsetIsSmaller(Elements(order, |order|), s);
      assert false;
    }
    var x :| x in Elements(order, |order|) && x !in s;
    ElementsAre(order, |order|, x);
    k :| 0 <= k < |order| && order[k] == x;
  }
}
