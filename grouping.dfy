/**
  * `GROUP BY key` with `COUNT(*)`, and the rounded percentages the statistics endpoints
  * derive from the counts with `Math.round(count / total * 100)`.
  */
module Grouping {
  import opened Wrappers
  import opened Sequences
  import opened Arithmetic

  /** How many times `k` occurs in `keys`. */
  function Count<K(==, !new)>(keys: seq<K>, k: K): nat {
    multiset(keys)[k]
  }

  predicate Distinct<K(==, !new)>(s: seq<K>) {
    forall i, j :: 0 <= i < j < |s| ==> s[i] != s[j]
  }

  /** The distinct keys, each once, in the order of their first appearance. */
  function Dedup<K(==, !new)>(keys: seq<K>): (d: seq<K>)
    ensures Distinct(d)
    ensures forall k :: k in d <==> k in keys
    decreases |keys|
  {
    if keys == [] then []
    else
      var p := keys[..|keys| - 1];
      var x := keys[|keys| - 1];
      assert keys == p + [x];
      var d := Dedup(p);
      if x in d then d else d + [x]
  }

  /** One more key is added at the end when it is new, and changes nothing otherwise. */
  lemma DedupAppend<K(!new)>(keys: seq<K>, x: K)
    ensures Dedup(keys + [x]) == if x in Dedup(keys) then Dedup(keys) else Dedup(keys) + [x]
  {
    assert (keys + [x])[..|keys|] == keys;
  }

  /** The position of the first occurrence of `k` in `s`. */
  function FirstIndex<K(==, !new)>(s: seq<K>, k: K): (i: nat)
    requires k in s
    ensures i < |s| && s[i] == k && k !in s[..i]
  {
    if s[0] == k then 0
    else
      assert s[1..][..FirstIndex(s[1..], k)] == s[1..FirstIndex(s[1..], k) + 1];
      1 + FirstIndex(s[1..], k)
  }

  lemma {:induction false} FirstIndexPrefix<K(!new)>(p: seq<K>, x: K, k: K)
    requires k in p
    ensures FirstIndex(p + [x], k) == FirstIndex(p, k)
    decreases |p|
  {
    if p[0] != k {
      assert (p + [x])[1..] == p[1..] + [x];
      FirstIndexPrefix(p[1..], x, k);
    }
  }

  /** Dedup keeps first-appearance order: earlier entries first appeared earlier. */
  lemma {:induction false} DedupFirstAppearance<K(!new)>(keys: seq<K>)
    ensures forall i, j :: 0 <= i < j < |Dedup(keys)| ==>
      FirstIndex(keys, Dedup(keys)[i]) < FirstIndex(keys, Dedup(keys)[j])
    decreases |keys|
  {
    if keys != [] {
      var p := keys[..|keys| - 1];
      var x := keys[|keys| - 1];
      assert keys == p + [x];
      DedupFirstAppearance(p);
      var d := Dedup(p);
      forall k | k in d ensures FirstIndex(keys, k) == FirstIndex(p, k) {
        FirstIndexPrefix(p, x, k);
      }
      if x !in d {
        assert x !in p;
        assert FirstIndex(keys, x) == |p|;
      }
    }
  }

  /** `SELECT key, COUNT(*) ... GROUP BY key`: one row per distinct key. */
  function GroupCount<K(==, !new)>(keys: seq<K>): (g: seq<(K, nat)>)
    ensures |g| == |Dedup(keys)|
    ensures forall i :: 0 <= i < |g| ==> g[i].0 == Dedup(keys)[i] && g[i].1 == Count(keys, g[i].0)
  {
    var d := Dedup(keys);
    seq(|d|, i requires 0 <= i < |d| => (d[i], Count(keys, d[i])))
  }

  function Keys<K(==, !new)>(g: seq<(K, nat)>): (ks: seq<K>)
    ensures |ks| == |g| && forall i :: 0 <= i < |g| ==> ks[i] == g[i].0
  {
    seq(|g|, i requires 0 <= i < |g| => g[i].0)
  }

  function SumCounts<K(==, !new)>(g: seq<(K, nat)>): nat {
    if g == [] then 0 else g[0].1 + SumCounts(g[1..])
  }

  /** Every group is non-empty, the group keys are distinct and exactly the keys that occur. */
  lemma GroupCountGroups<K(!new)>(keys: seq<K>)
    ensures Distinct(Keys(GroupCount(keys)))
    ensures forall k :: k in Keys(GroupCount(keys)) <==> k in keys
    ensures forall i :: 0 <= i < |GroupCount(keys)| ==> GroupCount(keys)[i].1 >= 1
  {
    var g := GroupCount(keys);
    assert Keys(g) == Dedup(keys);
    forall i | 0 <= i < |g| ensures g[i].1 >= 1 {
      assert g[i].0 in Dedup(keys);
    }
  }

  /** The sum of `Count(keys, d[i])` over a list of keys `d`. */
  function SumOver<K(==, !new)>(d: seq<K>, keys: seq<K>): nat {
    if d == [] then 0 else SumOver(d[..|d| - 1], keys) + Count(keys, d[|d| - 1])
  }

  lemma {:induction false} SumOverSnoc<K(!new)>(d: seq<K>, p: seq<K>, x: K)
    requires Distinct(d)
    ensures SumOver(d, p + [x]) == SumOver(d, p) + (if x in d then 1 else 0)
    decreases |d|
  {
    if d != [] {
      var e := d[..|d| - 1];
      var y := d[|d| - 1];
      assert d == e + [y];
      assert Distinct(e);
      SumOverSnoc(e, p, x);
      assert multiset(p + [x]) == multiset(p) + multiset{x};
      assert x in d <==> x in e || x == y;
      assert x == y ==> x !in e;
    }
  }

  lemma {:induction false} SumOverAppend<K(!new)>(d: seq<K>, x: K, keys: seq<K>)
    ensures SumOver(d + [x], keys) == SumOver(d, keys) + Count(keys, x)
  {
    assert (d + [x])[..|d|] == d;
  }

  lemma {:induction false} DedupTotal<K(!new)>(keys: seq<K>)
    ensures SumOver(Dedup(keys), keys) == |keys|
    decreases |keys|
  {
    if keys != [] {
      var p := keys[..|keys| - 1];
      var x := keys[|keys| - 1];
      assert keys == p + [x];
      var d := Dedup(p);
      DedupTotal(p);
      SumOverSnoc(d, p, x);
      if x in d {
        assert Dedup(keys) == d;
      } else {
        assert Dedup(keys) == d + [x];
        SumOverAppend(d, x, keys);
        assert Count(keys, x) == 1 by {
          assert x !in p;
          assert multiset(keys) == multiset(p) + multiset{x};
        }
      }
    }
  }

  lemma {:induction false} SumCountsIsSumOver<K(!new)>(keys: seq<K>, d: seq<K>)
    ensures SumCounts(seq(|d|, i requires 0 <= i < |d| => (d[i], Count(keys, d[i])))) == SumOver(d, keys)
    decreases |d|
  {
    var g := seq(|d|, i requires 0 <= i < |d| => (d[i], Count(keys, d[i])));
    if d != [] {
      SumCountsIsSumOver(keys, d[1..]);
      var g1 := seq(|d[1..]|, i requires 0 <= i < |d[1..]| => (d[1..][i], Count(keys, d[1..][i])));
      assert g[1..] == g1;
      SumOverFront(d, keys);
    }
  }

  lemma {:induction false} SumOverFront<K(!new)>(d: seq<K>, keys: seq<K>)
    requires d != []
    ensures SumOver(d, keys) == Count(keys, d[0]) + SumOver(d[1..], keys)
    decreases |d|
  {
    if |d| > 1 {
      var e := d[..|d| - 1];
      SumOverFront(e, keys);
      assert e[0] == d[0];
      assert e[1..] == d[1..][..|d[1..]| - 1];
    } else {
      assert d[..0] == [] && d[1..] == [];
    }
  }

  /** The group counts add up to the number of rows grouped. */
  lemma GroupCountTotal<K(!new)>(keys: seq<K>)
    ensures SumCounts(GroupCount(keys)) == |keys|
  {
    DedupTotal(keys);
    SumCountsIsSumOver(keys, Dedup(keys));
  }

  /** An entry of a grouping with distinct keys occurs in it once. */
  lemma DistinctOnce<K(!new)>(g: seq<(K, nat)>, a: nat)
    requires a < |g| && Distinct(Keys(g))
    ensures multiset(g)[g[a]] == 1
  {
    assert g == g[..a] + [g[a]] + g[a + 1..];
    assert g[a] !in g[..a] by {
      forall i | 0 <= i < a ensures g[i] != g[a] {
        assert Keys(g)[i] != Keys(g)[a];
      }
    }
    assert g[a] !in g[a + 1..] by {
      forall i | a < i < |g| ensures g[i] != g[a] {
        assert Keys(g)[i] != Keys(g)[a];
      }
    }
  }

  /** Reordering a grouping with distinct keys keeps its keys distinct. */
  lemma PermutedKeysDistinct<K(!new)>(groups: seq<(K, nat)>, g: seq<(K, nat)>)
    requires Distinct(Keys(groups)) && multiset(g) == multiset(groups)
    ensures forall i, j :: 0 <= i < j < |g| ==> g[i].0 != g[j].0
  {
    forall i, j | 0 <= i < j < |g| ensures g[i].0 != g[j].0 {
      assert multiset(g)[g[i]] > 0 && multiset(g)[g[j]] > 0;
      var a :| 0 <= a < |groups| && groups[a] == g[i];
      var b :| 0 <= b < |groups| && groups[b] == g[j];
      DistinctOnce(groups, a);
      assert g == g[..j] + g[j..];
      assert g[i] in g[..j] && g[j] in g[j..];
      assert multiset(g)[g[i]] == multiset(g[..j])[g[i]] + multiset(g[j..])[g[i]];
      assert g[j] != g[i];
      assert Keys(groups)[a] == g[i].0 && Keys(groups)[b] == g[j].0;
    }
  }

  /** A reordering of `GroupCount(ls)` still has one entry per key of `ls`, with its count. */
  lemma ReorderedGroups<K(!new)>(ls: seq<K>, g: seq<(K, nat)>)
    requires multiset(g) == multiset(GroupCount(ls))
    ensures forall i, j :: 0 <= i < j < |g| ==> g[i].0 != g[j].0
    ensures forall e :: e in g ==> e.1 == Count(ls, e.0) && e.1 >= 1
    ensures forall l :: l in ls ==> exists e :: e in g && e.0 == l
  {
    var groups := GroupCount(ls);
    GroupCountGroups(ls);
    PermutedKeysDistinct(groups, g);
    forall e | e in g ensures e.1 == Count(ls, e.0) && e.1 >= 1 {
      assert multiset(groups)[e] > 0;
      var k :| 0 <= k < |groups| && groups[k] == e;
    }
    forall l | l in ls ensures exists e :: e in g && e.0 == l {
      assert l in Keys(groups);
      var k :| 0 <= k < |groups| && Keys(groups)[k] == l;
      assert multiset(g)[groups[k]] > 0;
    }
  }

  /**
    * `LEFT JOIN (SELECT key, COUNT(*) ... GROUP BY key) ON key = k`: the group's count, or
    * NULL when no row has key `k`.
    */
  function CountOf<K(==, !new)>(keys: seq<K>, k: K): (c: Option<nat>)
    ensures c.None? <==> k !in keys
    ensures c.Some? ==> c.value == Count(keys, k) && c.value >= 1
  {
    var g := GroupCount(keys);
    match FindFirst(g, (e: (K, nat)) => e.0 == k)
    case Some(e) =>
      var i :| 0 <= i < |g| && g[i] == e;
      assert e.0 in Dedup(keys);
      Some(e.1)
    case None =>
      assert forall i :: 0 <= i < |g| ==> g[i] in g;
      None
  }

  /** `count || 0` on the client: a missing count shows as 0. */
  function DisplayCount(c: Option<nat>): (n: nat)
    ensures c.Some? ==> n == c.value
    ensures c.None? ==> n == 0
  {
    if c.Some? then c.value else 0
  }

  /** Shown with `|| 0`, the joined count is the number of rows with the key, 0 included. */
  lemma CountOfOrZero<K(!new)>(keys: seq<K>, k: K)
    ensures DisplayCount(CountOf(keys, k)) == Count(keys, k)
  {
    if k !in keys {
      assert multiset(keys)[k] == 0;
    }
  }

  /**
    * `Math.round(count / total * 100)`, taken exactly: the nearest whole percent, halves
    * rounding up. With no rows the division is 0 / 0, `NaN`, which the JSON response
    * carries as `null`: `None`.
    */
  function RoundedPercent(count: nat, total: nat): (r: Option<nat>)
    ensures r.None? <==> total == 0
    ensures r.Some? ==> total * (2 * r.value - 1) <= 200 * count < total * (2 * r.value + 1)
    ensures r.Some? && count <= total ==> r.value <= 100
  {
    if total == 0 then None
    else
      var q := (200 * count + total) / (2 * total);
      NearestPercent(count, total, q);
      Some(q)
  }

  /** The quotient of `200 * count + total` by `2 * total` is the nearest percent, at most 100 of a part. */
  lemma NearestPercent(count: nat, total: nat, q: int)
    requires total > 0 && q == (200 * count + total) / (2 * total)
    ensures q >= 0
    ensures total * (2 * q - 1) <= 200 * count < total * (2 * q + 1)
    ensures count <= total ==> q <= 100
  {
    var rem := (200 * count + total) % (2 * total);
    assert 200 * count + total == (2 * total) * q + rem && 0 <= rem < 2 * total;
    assert (2 * total) * q == total * (2 * q);
    assert total * (2 * q - 1) == total * (2 * q) - total;
    assert total * (2 * q + 1) == total * (2 * q) + total;
    if q < 0 {
      MulLe(2 * q, -1, total);
    }
    if count <= total && q > 100 {
      MulLe(202, 2 * q, total);
    }
  }

  /** There is no correction to 100: three equal thirds round to 33 each. */
  lemma PercentagesNeedNotSumTo100()
    ensures RoundedPercent(1, 3) == Some(33)
    ensures 33 + 33 + 33 == 99
  {
  }
}
