/** The database's `orderBy: { startTime: 'asc' }`: a set of row ids listed in
    ascending order of a per-row key.  Rows with equal keys come out in
    ascending id order, which is one of the orders the database may return. */
module Ordering {

  /** Row a comes no later than row b: by key, then by id. */
  predicate Before(key: map<nat, int>, a: nat, b: nat)
    requires a in key && b in key
  {
    key[a] < key[b] || (key[a] == key[b] && a <= b)
  }

  lemma {:induction false} LeastExists(ids: set<nat>, key: map<nat, int>)
    requires ids != {} && ids <= key.Keys
    ensures exists x :: x in ids && forall y :: y in ids ==> Before(key, x, y)
    decreases |ids|
  {
    var z :| z in ids;
    if ids != {z} {
      var rest := ids - {z};
      LeastExists(rest, key);
      var x :| x in rest && forall y :: y in rest ==> Before(key, x, y);
      if Before(key, x, z) {
        assert forall y :: y in ids ==> Before(key, x, y);
      } else {
        forall y | y in ids
          ensures Before(key, z, y)
        {
          if y != z {
            assert Before(key, x, y);
          }
        }
      }
    }
  }

  predicate SortedBy(s: seq<nat>, key: map<nat, int>)
    requires forall i :: 0 <= i < |s| ==> s[i] in key
  {
    forall i, j :: 0 <= i < j < |s| ==> key[s[i]] <= key[s[j]]
  }

  predicate Distinct(s: seq<nat>)
  {
    forall i, j :: 0 <= i < j < |s| ==> s[i] != s[j]
  }

  /** Every id of `ids` exactly once, in ascending order of `key`. */
  function SortByKey(ids: set<nat>, key: map<nat, int>): (s: seq<nat>)
    requires ids <= key.Keys
    ensures |s| == |ids|
    ensures forall i :: 0 <= i < |s| ==> s[i] in ids
    ensures forall x :: x in ids ==> x in s
    ensures Distinct(s)
    ensures SortedBy(s, key)
    decreases ids
  {
    if ids == {} then []
    else
      LeastExists(ids, key);
      var x :| x in ids && forall y :: y in ids ==> Before(key, x, y);
      var rest := SortByKey(ids - {x}, key);
      SortStep(ids, key, x, rest);
      [x] + rest
  }

  lemma {:induction false} ConsSorted(x: nat, rest: seq<nat>, key: map<nat, int>)
    requires x in key && forall i :: 0 <= i < |rest| ==> rest[i] in key
    requires forall i :: 0 <= i < |rest| ==> key[x] <= key[rest[i]]
    requires SortedBy(rest, key)
    ensures SortedBy([x] + rest, key)
  {
    var s := [x] + rest;
    forall i, j | 0 <= i < j < |s|
      ensures key[s[i]] <= key[s[j]]
    {
      assert s[j] == rest[j - 1];
      if i > 0 {
        assert s[i] == rest[i - 1];
      }
    }
  }

  lemma {:induction false} SortStep(ids: set<nat>, key: map<nat, int>, x: nat, rest: seq<nat>)
    requires ids <= key.Keys && x in ids
    requires forall y :: y in ids ==> Before(key, x, y)
    requires |rest| == |ids - {x}|
    requires forall i :: 0 <= i < |rest| ==> rest[i] in ids - {x}
    requires forall y :: y in ids - {x} ==> y in rest
    requires Distinct(rest) && SortedBy(rest, key)
    ensures |[x] + rest| == |ids|
    ensures forall i :: 0 <= i < |[x] + rest| ==> ([x] + rest)[i] in ids
    ensures forall y :: y in ids ==> y in [x] + rest
    ensures Distinct([x] + rest)
    ensures SortedBy([x] + rest, key)
  {
    var s := [x] + rest;
    forall i | 0 <= i < |rest|
      ensures key[x] <= key[rest[i]]
    {
      assert Before(key, x, rest[i]);
    }
    ConsSorted(x, rest, key);
    forall i, j | 0 <= i < j < |s|
      ensures s[i] != s[j]
    {
      assert s[j] == rest[j - 1];
      if i > 0 {
        assert s[i] == rest[i - 1];
      }
    }
    forall y | y in ids
      ensures y in s
    {
      if y != x {
        assert y in rest;
      }
    }
  }

  /** `m` is the smallest element of `ids`. */
  predicate IsLeast(m: nat, ids: set<nat>)
  {
    m in ids && forall x :: x in ids ==> m <= x
  }

  lemma {:induction false} SmallestExists(ids: set<nat>)
    requires ids != {}
    ensures exists m :: IsLeast(m, ids)
    decreases |ids|
  {
    var z :| z in ids;
    if ids == {z} {
      assert IsLeast(z, ids);
    } else {
      var rest := ids - {z};
      SmallestExists(rest);
      var m :| IsLeast(m, rest);
      LeastOfInsert(m, rest, z);
      assert ids == rest + {z};
    }
  }

  /** Adding z to a set whose least element is m: the least is the smaller
      of the two. */
  lemma LeastOfInsert(m: nat, rest: set<nat>, z: nat)
    requires IsLeast(m, rest)
    ensures IsLeast(if z < m then z else m, rest + {z})
  {
  }

  /** The smallest id of a non-empty set. */
  function Least(ids: set<nat>): (m: nat)
    requires ids != {}
    ensures m in ids && forall x :: x in ids ==> m <= x
  {
    SmallestExists(ids);
    var m :| IsLeast(m, ids);
    m
  }

  /** The ids lo, lo + 1, ..., lo + n - 1. */
  function Interval(lo: nat, n: nat): (r: set<nat>)
    ensures forall k :: k in r <==> lo <= k < lo + n
    ensures |r| == n
  {
    if n == 0 then {}
    else
      var r := Interval(lo, n - 1);
      assert lo + n - 1 !in r;
      r + {lo + n - 1}
  }

  lemma IntervalSplit(lo: nat, n: nat)
    requires n > 0
    ensures Interval(lo, n) == {lo} + Interval(lo + 1, n - 1)
  {
  }
}
