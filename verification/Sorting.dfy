/** Finite sets of numbers in increasing order. */
module Sorting {
  lemma MinExists(s: set<nat>) returns (m: nat)
    requires s != {}
    ensures m in s && forall k | k in s :: m <= k
  {
    m :| m in s;
    if s != {m} {
      assert s == {m} + (s - {m});
      var n := MinExists(s - {m});
      m := if n < m then n else m;
    }
  }

  function Min(s: set<nat>): (m: nat)
    requires s != {}
    ensures m in s && forall k | k in s :: m <= k
  {
    assert exists m: nat :: m in s && forall k | k in s :: m <= k by {
      var m := MinExists(s);
    }
    var m: nat :| m in s && forall k | k in s :: m <= k;
    m
  }

  function SortedKeys(s: set<nat>): (r: seq<nat>)
    ensures |r| == |s|
    ensures forall i | 0 <= i < |r| :: r[i] in s
    ensures forall i, j | 0 <= i < j < |r| :: r[i] < r[j]
  {
    if s == {} then [] else [Min(s)] + SortedKeys(s - {Min(s)})
  }

  lemma {:induction false} SortedKeysAll(s: set<nat>)
    ensures forall k | k in s :: k in SortedKeys(s)
  {
    if s != {} {
      SortedKeysAll(s - {Min(s)});
    }
  }

  /** There is only one way to list a set in increasing order, whatever order it was collected in. */
  lemma {:induction false} SortedUnique(s: set<nat>, r: seq<nat>)
    requires forall i, j | 0 <= i < j < |r| :: r[i] < r[j]
    requires (forall k | k in s :: k in r) && (forall i | 0 <= i < |r| :: r[i] in s)
    ensures r == SortedKeys(s)
    decreases |r|
  {
    if r == [] {
      assert s == {};
    } else {
      var m, rest := r[0], r[1..];
      assert Min(s) == m;
      TailLists(s, r);
      SortedUnique(s - {m}, rest);
    }
  }

  lemma TailLists(s: set<nat>, r: seq<nat>)
    requires r != [] && forall i, j | 0 <= i < j < |r| :: r[i] < r[j]
    requires (forall k | k in s :: k in r) && (forall i | 0 <= i < |r| :: r[i] in s)
    ensures (forall k | k in s - {r[0]} :: k in r[1..]) && (forall i | 0 <= i < |r[1..]| :: r[1..][i] in s - {r[0]})
  {
    forall k | k in s - {r[0]}
      ensures k in r[1..]
    {
      var i :| 0 <= i < |r| && r[i] == k;
      assert r[1..][i - 1] == k;
    }
  }

  lemma SortedStep(s: set<nat>, m: nat)
    requires m in s && forall k | k in s :: m <= k
    ensures SortedKeys(s) == [m] + SortedKeys(s - {m})
  {
    assert m == Min(s);
  }

  method Least(s: set<nat>) returns (m: nat)
    requires s != {}
    ensures m in s && forall k | k in s :: m <= k
  {
    m :| m in s;
    var todo := s - {m};
    while todo != {}
      invariant todo <= s && m in s && m !in todo
      invariant forall k | k in s && k !in todo :: m <= k
      decreases |todo|
    {
      var k: nat :| k in todo;
      todo := todo - {k};
      if k < m {
        m := k;
      }
    }
  }

  /** Selection of the least remaining number. */
  method SortSet(s: set<nat>) returns (keys: seq<nat>)
    ensures keys == SortedKeys(s)
  {
    hide SortedKeys;
    keys := [];
    var rest := s;
    while rest != {}
      invariant keys + SortedKeys(rest) == SortedKeys(s)
      decreases |rest|
    {
      var m := Least(rest);
      SortedStep(rest, m);
      assert keys + ([m] + SortedKeys(rest - {m})) == keys + [m] + SortedKeys(rest - {m});
      keys := keys + [m];
      rest := rest - {m};
    }
    assert |SortedKeys({})| == 0;
  }
}
