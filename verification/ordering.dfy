/** Ordering the entries of a `HashMap`: the program collects an iterator
    over the map (whose order is unspecified) and sorts it with a stable
    `sort_by` on some rank. The result is ordered by the rank; among equal
    ranks it keeps the iteration order, which is arbitrary, so here it is a
    free choice. */
module Ordering {

  function MinOf(a: nat, b: nat): nat {
    if a < b then a else b
  }

  /** `ks` lists every element of `keys` exactly once. */
  ghost predicate Enumerates(ks: seq<nat>, keys: set<nat>) {
    (forall i, j :: 0 <= i < j < |ks| ==> ks[i] != ks[j]) &&
    (forall k :: k in keys <==> k in ks)
  }

  /** An enumeration is as long as the set it lists. */
  lemma {:induction false} EnumerationSize(ks: seq<nat>, keys: set<nat>)
    requires Enumerates(ks, keys)
    ensures |ks| == |keys|
    decreases |ks|
  {
    if ks == [] {
      assert keys == {};
    } else {
      var rest := keys - {ks[0]};
      forall k
        ensures k in rest <==> k in ks[1..]
      {
        if k in ks[1..] {
          var i :| 1 <= i < |ks| && ks[i] == k;
          assert ks[0] != ks[i];
        }
      }
      EnumerationSize(ks[1..], rest);
    }
  }

  /** `a` may come before `b`: a rank no lower when descending, no higher otherwise. */
  predicate Precedes(rank: map<nat, int>, a: nat, b: nat, descending: bool)
    requires a in rank && b in rank
  {
    if descending then rank[b] <= rank[a] else rank[a] <= rank[b]
  }

  /** `ks` is sorted by `rank`. */
  ghost predicate SortedBy(ks: seq<nat>, rank: map<nat, int>, descending: bool)
    requires forall i :: 0 <= i < |ks| ==> ks[i] in rank
  {
    forall i, j :: 0 <= i < j < |ks| ==> Precedes(rank, ks[i], ks[j], descending)
  }

  /** A non-empty finite set has an element that may precede all the others. */
  lemma {:induction false} ExtremeExists(s: set<nat>, rank: map<nat, int>, descending: bool)
    requires s != {} && s <= rank.Keys
    ensures exists k :: k in s && forall k' :: k' in s ==> Precedes(rank, k, k', descending)
    decreases |s|
  {
    var x :| x in s;
    if s != {x} {
      var rest := s - {x};
      ExtremeExists(rest, rank, descending);
      var k :| k in rest && forall k' :: k' in rest ==> Precedes(rank, k, k', descending);
      if Precedes(rank, k, x, descending) {
        assert forall k' :: k' in s ==> k' == x || k' in rest;
      } else {
        assert forall k' :: k' in s ==> Precedes(rank, x, k', descending) by {
          forall k' | k' in s
            ensures Precedes(rank, x, k', descending)
          {
            if k' != x {
              assert Precedes(rank, k, k', descending);
            }
          }
        }
      }
    }
  }

  /** `collect` followed by `sort_by` on `rank` (descending when asked):
      every key of `rank` once, in rank order. */
  method SortByRank(rank: map<nat, int>, descending: bool) returns (ks: seq<nat>)
    ensures Enumerates(ks, rank.Keys)
    ensures forall i :: 0 <= i < |ks| ==> ks[i] in rank
    ensures SortedBy(ks, rank, descending)
  {
    ks := [];
    var left := rank.Keys;
    while left != {}
      invariant left <= rank.Keys
      invariant forall i :: 0 <= i < |ks| ==> ks[i] in rank && ks[i] !in left
      invariant forall k :: k in rank.Keys <==> k in left || k in ks
      invariant forall i, j :: 0 <= i < j < |ks| ==> ks[i] != ks[j]
      invariant SortedBy(ks, rank, descending)
      invariant forall i, k :: 0 <= i < |ks| && k in left ==> Precedes(rank, ks[i], k, descending)
      decreases |left|
    {
      ExtremeExists(left, rank, descending);
      var k :| k in left && forall k' :: k' in left ==> Precedes(rank, k, k', descending);
      ks := ks + [k];
      left := left - {k};
    }
  }

  /** The rank under which ids sort by themselves. */
  function ByValue(s: set<nat>): (rank: map<nat, int>)
    ensures rank.Keys == s && forall k :: k in s ==> rank[k] == k
  {
    map k | k in s :: k
  }

  /** Sorting distinct ids by themselves leaves no ties. */
  lemma SortedByValueIsStrict(ks: seq<nat>, s: set<nat>)
    requires forall i :: 0 <= i < |ks| ==> ks[i] in s
    requires forall i, j :: 0 <= i < j < |ks| ==> ks[i] != ks[j]
    requires SortedBy(ks, ByValue(s), true)
    ensures forall i, j :: 0 <= i < j < |ks| ==> ks[j] < ks[i]
  {
    forall i, j | 0 <= i < j < |ks|
      ensures ks[j] < ks[i]
    {
      assert Precedes(ByValue(s), ks[i], ks[j], true);
    }
  }
}
