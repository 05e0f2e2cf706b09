/**
  * Result-set operations shared by the query model: `WHERE` as a filter, `ORDER BY` as a
  * sort, `LIMIT` as a prefix, and `LIMIT 1` lookups as a first match.
  */
module Sequences {
  import opened Wrappers

  /** The rows of `s` that `keep` accepts, in their original order. */
  function Filter<T(!new)>(s: seq<T>, keep: T -> bool): (r: seq<T>)
    ensures |r| <= |s|
    ensures forall x :: multiset(r)[x] == if keep(x) then multiset(s)[x] else 0
  {
    if s == [] then []
    else
      assert s == [s[0]] + s[1..];
      (if keep(s[0]) then [s[0]] else []) + Filter(s[1..], keep)
  }

  lemma FilterMembership<T(!new)>(s: seq<T>, keep: T -> bool, x: T)
    ensures x in Filter(s, keep) <==> x in s && keep(x)
  {
    assert x in Filter(s, keep) <==> multiset(Filter(s, keep))[x] > 0;
    assert x in s <==> multiset(s)[x] > 0;
  }

  /** A filter that accepts every element changes nothing. */
  lemma {:induction false} FilterKeepsAll<T(!new)>(s: seq<T>, keep: T -> bool)
    requires forall i :: 0 <= i < |s| ==> keep(s[i])
    ensures Filter(s, keep) == s
  {
    if s != [] {
      FilterKeepsAll(s[1..], keep);
    }
  }

  /** `le` may be used as the order of an `ORDER BY`: every two rows compare, transitively. */
  ghost predicate TotalPreorder<T(!new)>(le: (T, T) -> bool) {
    && (forall a, b :: le(a, b) || le(b, a))
    && (forall a, b, c :: le(a, b) && le(b, c) ==> le(a, c))
  }

  ghost predicate Sorted<T>(s: seq<T>, le: (T, T) -> bool) {
    forall i, j :: 0 <= i < j < |s| ==> le(s[i], s[j])
  }

  /** Puts `x` before the first element it may precede. */
  function Insert<T>(x: T, s: seq<T>, le: (T, T) -> bool): (r: seq<T>)
    ensures multiset(r) == multiset(s) + multiset{x}
  {
    if s == [] then [x]
    else if le(x, s[0]) then [x] + s
    else
      assert s == [s[0]] + s[1..];
      [s[0]] + Insert(x, s[1..], le)
  }

  lemma {:induction false} InsertSorted<T(!new)>(x: T, s: seq<T>, le: (T, T) -> bool)
    requires TotalPreorder(le) && Sorted(s, le)
    ensures Sorted(Insert(x, s, le), le)
    decreases |s|
  {
    if s == [] {
    } else if le(x, s[0]) {
      var r := [x] + s;
      forall i, j | 0 <= i < j < |r| ensures le(r[i], r[j]) {
        if i == 0 && j > 1 {
          assert le(x, s[0]) && le(s[0], s[j - 1]);
        }
      }
    } else {
      var t := Insert(x, s[1..], le);
      InsertSorted(x, s[1..], le);
      forall j | 0 <= j < |t| ensures le(s[0], t[j]) {
        assert t[j] in multiset(t);
        if t[j] != x {
          assert t[j] in multiset(s[1..]);
          var k :| 0 <= k < |s[1..]| && s[1..][k] == t[j];
          assert s[k + 1] == t[j];
        }
      }
      var r := [s[0]] + t;
      forall i, j | 0 <= i < j < |r| ensures le(r[i], r[j]) {
        if i > 0 {
          assert r[i] == t[i - 1] && r[j] == t[j - 1];
        }
      }
    }
  }

  /** Inserting before the first element that `x` may precede puts `x` right there. */
  lemma {:induction false} InsertSplit<T>(x: T, front: seq<T>, back: seq<T>, le: (T, T) -> bool)
    requires forall m :: 0 <= m < |front| ==> !le(x, front[m])
    requires back == [] || le(x, back[0])
    ensures Insert(x, front + back, le) == front + ([x] + back)
    decreases |front|
  {
    if front == [] {
      assert front + back == back && front + ([x] + back) == [x] + back;
    } else {
      var t := front + back;
      assert t[0] == front[0] && t[1..] == front[1..] + back;
      InsertSplit(x, front[1..], back, le);
      ConsAppend(front, [x] + back);
    }
  }

  /** Putting the head back in front of the tail, before more elements. */
  lemma ConsAppend<T>(s: seq<T>, u: seq<T>)
    requires s != []
    ensures [s[0]] + (s[1..] + u) == s + u
  {
    assert s == [s[0]] + s[1..];
  }

  /**
    * One step of an in-place insertion sort, on values: `o[i]` has moved right past the
    * elements it may not precede, which moved one place left, so the run from `i` on is
    * what `Insert` makes of it.
    */
  lemma InsertedAt<T>(b: seq<T>, o: seq<T>, i: nat, j: nat, le: (T, T) -> bool)
    requires i <= j < |b| == |o|
    requires forall k :: i <= k < j ==> b[k] == o[k + 1]
    requires b[j] == o[i]
    requires forall k :: j < k < |b| ==> b[k] == o[k]
    requires forall k :: i < k <= j ==> !le(o[i], o[k])
    requires j + 1 == |o| || le(o[i], o[j + 1])
    ensures b[i..] == Insert(o[i], o[i + 1..], le)
  {
    InsertAtSlices(o, i, j, le);
    ShiftedSlice(b, o, i, j);
  }

  /** Inserting `o[i]` into what follows it puts it just after the elements up to `j`. */
  lemma InsertAtSlices<T>(o: seq<T>, i: nat, j: nat, le: (T, T) -> bool)
    requires i <= j < |o|
    requires forall k :: i < k <= j ==> !le(o[i], o[k])
    requires j + 1 == |o| || le(o[i], o[j + 1])
    ensures Insert(o[i], o[i + 1..], le) == o[i + 1..j + 1] + ([o[i]] + o[j + 1..])
  {
    var front := o[i + 1..j + 1];
    var back := o[j + 1..];
    assert o[i + 1..] == front + back;
    forall m | 0 <= m < |front| ensures !le(o[i], front[m]) {
      assert front[m] == o[i + 1 + m];
    }
    InsertSplit(o[i], front, back, le);
  }

  /** The elements after `i` shifted left up to `j`, `o[i]` at `j`, the rest in place, read as slices. */
  lemma ShiftedSlice<T>(b: seq<T>, o: seq<T>, i: nat, j: nat)
    requires i <= j < |b| == |o|
    requires forall k :: i <= k < j ==> b[k] == o[k + 1]
    requires b[j] == o[i]
    requires forall k :: j < k < |b| ==> b[k] == o[k]
    ensures b[i..] == o[i + 1..j + 1] + ([o[i]] + o[j + 1..])
  {
    var r := o[i + 1..j + 1] + ([o[i]] + o[j + 1..]);
    forall k | 0 <= k < |r| ensures b[i..][k] == r[k] {
      if k < j - i {
        assert r[k] == o[i + 1 + k];
      } else if k > j - i {
        assert r[k] == o[i + k];
      }
    }
  }

  /** `ORDER BY le`: a stable insertion sort. */
  function SortBy<T>(s: seq<T>, le: (T, T) -> bool): (r: seq<T>)
    ensures multiset(r) == multiset(s)
  {
    if s == [] then []
    else
      assert s == [s[0]] + s[1..];
      Insert(s[0], SortBy(s[1..], le), le)
  }

  /** The sort returns its input reordered so that every row may precede the rows after it. */
  lemma {:induction false} SortBySorted<T(!new)>(s: seq<T>, le: (T, T) -> bool)
    requires TotalPreorder(le)
    ensures Sorted(SortBy(s, le), le) && multiset(SortBy(s, le)) == multiset(s)
    decreases |s|
  {
    if s != [] {
      SortBySorted(s[1..], le);
      InsertSorted(s[0], SortBy(s[1..], le), le);
    }
  }

  /** Sorting the elements from `i` on inserts `o[i]` into the sorted elements after it. */
  lemma SortByFront<T>(o: seq<T>, i: nat, le: (T, T) -> bool)
    requires i < |o|
    ensures SortBy(o[i..], le) == Insert(o[i], SortBy(o[i + 1..], le), le)
  {
    assert o[i..][0] == o[i] && o[i..][1..] == o[i + 1..];
  }

  /**
    * `SELECT ... WHERE keep ORDER BY le`: the rows `keep` accepts, each as often as in `s`,
    * in an order `le` allows. Rows that tie under `le` may come in any order in SQL; the
    * model returns them in one particular order and states only what SQL promises.
    */
  function SelectOrdered<T(!new)>(s: seq<T>, keep: T -> bool, le: (T, T) -> bool): (r: seq<T>)
    ensures TotalPreorder(le) ==> Sorted(r, le)
    ensures forall x :: multiset(r)[x] == if keep(x) then multiset(s)[x] else 0
  {
    var r := SortBy(Filter(s, keep), le);
    assert TotalPreorder(le) ==> Sorted(r, le) by {
      if TotalPreorder(le) {
        SortBySorted(Filter(s, keep), le);
      }
    }
    r
  }

  /** `LIMIT k`. */
  function Take<T>(s: seq<T>, k: nat): (r: seq<T>)
    ensures |r| == if |s| < k then |s| else k
    ensures r <= s
  {
    if |s| <= k then s else s[..k]
  }

  /** `LIMIT 1` over rows in table order: the first row that satisfies `p`, if any. */
  function FindFirst<T(==, !new)>(s: seq<T>, p: T -> bool): (r: Option<T>)
    ensures r.None? <==> forall x :: x in s ==> !p(x)
    ensures r.Some? ==> p(r.value) && exists i :: 0 <= i < |s| && s[i] == r.value && (forall j :: 0 <= j < i ==> !p(s[j]))
  {
    if s == [] then None
    else if p(s[0]) then Some(s[0])
    else
      var r := FindFirst(s[1..], p);
      assert forall x :: x in s ==> x == s[0] || x in s[1..];
      if r.Some? then
        var i :| 0 <= i < |s[1..]| && s[1..][i] == r.value && (forall j :: 0 <= j < i ==> !p(s[1..][j]));
        assert s[i + 1] == r.value && forall j :: 0 <= j < i + 1 ==> !p(s[j]);
        r
      else r
  }

  /**
    * `LIMIT k` splits the rows into those kept and those left out; over a sorted result the
    * rows kept stay sorted and each comes no later under `le` than every row left out.
    */
  lemma TakeOfSorted<T>(s: seq<T>, k: nat, le: (T, T) -> bool)
    ensures multiset(Take(s, k)) + multiset(s[|Take(s, k)|..]) == multiset(s)
    ensures Sorted(s, le) ==> Sorted(Take(s, k), le)
    ensures Sorted(s, le) ==>
              forall i, j :: 0 <= i < |Take(s, k)| && 0 <= j < |s| - |Take(s, k)| ==> le(Take(s, k)[i], s[|Take(s, k)|..][j])
  {
    var t := Take(s, k);
    assert s == t + s[|t|..];
    if Sorted(s, le) {
      forall i, j | 0 <= i < |t| && 0 <= j < |s| - |t| ensures le(t[i], s[|t|..][j]) {
        assert t[i] == s[i] && s[|t|..][j] == s[|t| + j];
      }
    }
  }

  /**
    * `ORDER BY le LIMIT k`: `k` rows (or all when fewer), in an order `le` allows, and every
    * row left out may come after every row kept.
    */
  function TopBy<T(!new)>(s: seq<T>, k: nat, le: (T, T) -> bool): (r: seq<T>)
    ensures |r| == if |s| < k then |s| else k
    ensures TotalPreorder(le) ==> Sorted(r, le)
    ensures exists rest: seq<T> ::
              && multiset(r) + multiset(rest) == multiset(s)
              && (TotalPreorder(le) ==> forall i, j :: 0 <= i < |r| && 0 <= j < |rest| ==> le(r[i], rest[j]))
  {
    var sorted := SortBy(s, le);
    assert |sorted| == |s| by {
      assert |multiset(sorted)| == |multiset(s)|;
    }
    TakeOfSorted(sorted, k, le);
    assert TotalPreorder(le) ==> Sorted(sorted, le) by {
      if TotalPreorder(le) {
        SortBySorted(s, le);
      }
    }
    var r := Take(sorted, k);
    assert |sorted[|r|..]| == |sorted| - |r|;
    r
  }
}
