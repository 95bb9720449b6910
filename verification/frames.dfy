/**
 * The table operations the county pipeline uses, on tables written as
 * sequences of rows: boolean-mask selection (`df[mask]`), the left merge
 * (`left.merge(right, how="left", on=key)`) and the grouped sum
 * (`df.groupby(key)[column].sum().reset_index()`).
 */
module Frames {
  import opened Values
  import opened StringOrder

  /** `a` is `b` with some rows left out and the rest in their order. */
  predicate Subsequence<T(==)>(a: seq<T>, b: seq<T>)
    decreases |b|
  {
    |a| == 0 || (|b| > 0 && ((a[0] == b[0] && Subsequence(a[1..], b[1..])) || Subsequence(a, b[1..])))
  }

  // ---------------------------------------------------------------------------
  // Selection

  /** `df[mask]`: the rows for which `keep` holds, in order. */
  function Filter<T(==)>(s: seq<T>, keep: T -> bool): (r: seq<T>)
    ensures forall x :: x in r ==> x in s && keep(x)
    ensures forall i :: 0 <= i < |s| && keep(s[i]) ==> s[i] in r
    ensures Subsequence(r, s)
  {
    if |s| == 0 then []
    else
      var rest := Filter(s[1..], keep);
      assert s == [s[0]] + s[1..];
      if keep(s[0]) then
        var r := [s[0]] + rest;
        assert r[1..] == rest;
        r
      else
        rest
  }

  /** A kept row occurs in the selection exactly as often as in the table; a dropped one not at all. */
  lemma {:induction false} FilterCounts<T>(s: seq<T>, keep: T -> bool, x: T)
    ensures keep(x) ==> multiset(Filter(s, keep))[x] == multiset(s)[x]
    ensures !keep(x) ==> multiset(Filter(s, keep))[x] == 0
    decreases |s|
  {
    if |s| > 0 {
      FilterCounts(s[1..], keep, x);
      assert s == [s[0]] + s[1..];
      assert multiset(s) == multiset{s[0]} + multiset(s[1..]);
      if keep(s[0]) {
        var r := Filter(s, keep);
        assert r == [s[0]] + Filter(s[1..], keep);
        assert multiset(r) == multiset{s[0]} + multiset(Filter(s[1..], keep));
      }
    }
  }

  /** The selection keeps every row that passes as often as the table has it, and no other row. */
  lemma FilterMultiplicity<T>(s: seq<T>, keep: T -> bool)
    ensures forall x :: multiset(Filter(s, keep))[x] == if keep(x) then multiset(s)[x] else 0
  {
    forall x ensures multiset(Filter(s, keep))[x] == if keep(x) then multiset(s)[x] else 0 {
      FilterCounts(s, keep, x);
    }
  }

  // ---------------------------------------------------------------------------
  // Left merge

  /** The rows of `right` whose key is `k`, in their order. */
  function Matches<R(==), K(==)>(right: seq<R>, rkey: R -> K, k: K): (m: seq<R>)
    ensures forall x :: x in m ==> x in right && rkey(x) == k
    ensures forall j :: 0 <= j < |right| && rkey(right[j]) == k ==> right[j] in m
  {
    if |right| == 0 then []
    else (if rkey(right[0]) == k then [right[0]] else []) + Matches(right[1..], rkey, k)
  }

  /** The first row of `right` whose key is `k`, if any. */
  function Lookup<R, K(==)>(right: seq<R>, rkey: R -> K, k: K): (r: Option<R>)
    ensures r.None? <==> forall x :: x in right ==> rkey(x) != k
    ensures r.Some? ==> r.value in right && rkey(r.value) == k
  {
    if |right| == 0 then None
    else if rkey(right[0]) == k then Some(right[0])
    else
      assert forall x :: x in right ==> x == right[0] || x in right[1..];
      Lookup(right[1..], rkey, k)
  }

  /** The rows that one left row turns into: one per match, or one with nothing attached. */
  function JoinRow<L, R>(l: L, m: seq<R>): (out: seq<(L, Option<R>)>)
    ensures |out| == if |m| == 0 then 1 else |m|
    ensures forall j :: 0 <= j < |out| ==> out[j].0 == l
    ensures |m| == 0 ==> out[0].1 == None
    ensures forall j :: 0 <= j < |m| ==> out[j].1 == Some(m[j])
  {
    if |m| == 0 then [(l, None)] else seq(|m|, j requires 0 <= j < |m| => (l, Some(m[j])))
  }

  /**
   * `left.merge(right, how="left", on=key)`: every left row, in order, paired
   * with each right row that has its key (in the right table's order), or
   * with nothing when no right row has it.
   */
  function LeftJoin<L(==), R(==), K(==)>(left: seq<L>, lkey: L -> K, right: seq<R>, rkey: R -> K)
    : (out: seq<(L, Option<R>)>)
    ensures |out| >= |left|
    ensures forall p :: p in out ==> p.0 in left
    ensures forall p :: p in out && p.1.Some? ==> p.1.value in right && rkey(p.1.value) == lkey(p.0)
    ensures forall l :: l in left && (forall x :: x in right ==> rkey(x) != lkey(l)) ==> (l, None) in out
    ensures forall p :: p in out && p.1.None? ==> forall x :: x in right ==> rkey(x) != lkey(p.0)
    ensures forall l :: l in left ==> exists p :: p in out && p.0 == l
    decreases |left|
  {
    if |left| == 0 then []
    else
      var head := JoinRow(left[0], Matches(right, rkey, lkey(left[0])));
      var rest := LeftJoin(left[1..], lkey, right, rkey);
      JoinStep(left, lkey, right, rkey, head, rest);
      head + rest
  }

  /** The merge of the first left row, put in front of the merge of the others, keeps every promise of the merge. */
  lemma JoinStep<L, R, K>(left: seq<L>, lkey: L -> K, right: seq<R>, rkey: R -> K,
                          head: seq<(L, Option<R>)>, rest: seq<(L, Option<R>)>)
    requires |left| > 0 && head == JoinRow(left[0], Matches(right, rkey, lkey(left[0])))
    requires |rest| >= |left| - 1
    requires forall p :: p in rest ==> p.0 in left[1..]
    requires forall p :: p in rest && p.1.Some? ==> p.1.value in right && rkey(p.1.value) == lkey(p.0)
    requires forall l :: l in left[1..] && (forall x :: x in right ==> rkey(x) != lkey(l)) ==> (l, None) in rest
    requires forall p :: p in rest && p.1.None? ==> forall x :: x in right ==> rkey(x) != lkey(p.0)
    requires forall l :: l in left[1..] ==> exists p :: p in rest && p.0 == l
    ensures var out := head + rest;
            && |out| >= |left|
            && (forall p :: p in out ==> p.0 in left)
            && (forall p :: p in out && p.1.Some? ==> p.1.value in right && rkey(p.1.value) == lkey(p.0))
            && (forall l :: l in left && (forall x :: x in right ==> rkey(x) != lkey(l)) ==> (l, None) in out)
            && (forall p :: p in out && p.1.None? ==> forall x :: x in right ==> rkey(x) != lkey(p.0))
            && (forall l :: l in left ==> exists p :: p in out && p.0 == l)
  {
    JoinRowFacts(left[0], lkey, right, rkey);
    assert forall l :: l in left ==> l == left[0] || l in left[1..];
    assert head[0] in head + rest;
  }

  /** The rows one left row turns into carry it, with a matching right row or with nothing when none matches. */
  lemma JoinRowFacts<L, R, K>(l: L, lkey: L -> K, right: seq<R>, rkey: R -> K)
    ensures var head := JoinRow(l, Matches(right, rkey, lkey(l)));
            && |head| > 0 && head[0].0 == l
            && (forall p :: p in head ==> p.0 == l)
            && (forall p :: p in head && p.1.Some? ==> p.1.value in right && rkey(p.1.value) == lkey(l))
            && (forall p :: p in head && p.1.None? ==> forall x :: x in right ==> rkey(x) != lkey(l))
            && ((forall x :: x in right ==> rkey(x) != lkey(l)) ==> (l, None) in head)
  {
    var m := Matches(right, rkey, lkey(l));
    var head := JoinRow(l, m);
    assert forall p :: p in head && p.1.Some? ==> p.1.value in m;
    assert (forall x :: x in right ==> rkey(x) != lkey(l)) ==> |m| == 0 by {
      if |m| > 0 {
        assert m[0] in m;
      }
    }
  }

  /** No two rows of `right` share a key. */
  predicate UniqueKeys<R, K(==)>(right: seq<R>, rkey: R -> K) {
    forall i, j :: 0 <= i < j < |right| ==> rkey(right[i]) != rkey(right[j])
  }

  lemma {:induction false} MatchesOfUniqueKeys<R, K>(right: seq<R>, rkey: R -> K, k: K)
    requires UniqueKeys(right, rkey)
    ensures Matches(right, rkey, k) == match Lookup(right, rkey, k) case None => [] case Some(r) => [r]
    decreases |right|
  {
    if |right| > 0 {
      assert UniqueKeys(right[1..], rkey);
      MatchesOfUniqueKeys(right[1..], rkey, k);
      if rkey(right[0]) == k {
        assert Lookup(right[1..], rkey, k).None? by {
          forall x | x in right[1..]
            ensures rkey(x) != k
          {
            var j :| 0 <= j < |right[1..]| && right[1..][j] == x;
            assert right[j + 1] == x;
          }
        }
      }
    }
  }

  /** With unique right keys a left row meets at most one right row. */
  lemma JoinRowOfUniqueKeys<L, R, K>(l: L, lkey: L -> K, right: seq<R>, rkey: R -> K)
    requires UniqueKeys(right, rkey)
    ensures JoinRow(l, Matches(right, rkey, lkey(l))) == [(l, Lookup(right, rkey, lkey(l)))]
  {
    MatchesOfUniqueKeys(right, rkey, lkey(l));
  }

  /**
   * With unique right keys the left merge keeps the row count: row i is left
   * row i with the right row of the same key, or with nothing.
   */
  lemma {:induction false} LeftJoinUniqueKeys<L, R, K>(left: seq<L>, lkey: L -> K, right: seq<R>, rkey: R -> K)
    requires UniqueKeys(right, rkey)
    ensures |LeftJoin(left, lkey, right, rkey)| == |left|
    ensures forall i :: 0 <= i < |left| ==>
              LeftJoin(left, lkey, right, rkey)[i] == (left[i], Lookup(right, rkey, lkey(left[i])))
    decreases |left|
  {
    if |left| > 0 {
      var out := LeftJoin(left, lkey, right, rkey);
      var rest := LeftJoin(left[1..], lkey, right, rkey);
      var head := JoinRow(left[0], Matches(right, rkey, lkey(left[0])));
      JoinRowOfUniqueKeys(left[0], lkey, right, rkey);
      LeftJoinUniqueKeys(left[1..], lkey, right, rkey);
      assert out == head + rest;
      assert head == [(left[0], Lookup(right, rkey, lkey(left[0])))];
      assert |out| == 1 + |rest|;
      forall i | 0 <= i < |left|
        ensures out[i] == (left[i], Lookup(right, rkey, lkey(left[i])))
      {
        if i > 0 {
          assert out[i] == rest[i - 1];
          assert left[1..][i - 1] == left[i];
        }
      }
    }
  }

  /** Two left rows against unique right keys: the first finds `r`, the second nothing. */
  lemma JoinOfTwo<L, R, K>(l0: L, l1: L, lkey: L -> K, right: seq<R>, rkey: R -> K, r: R)
    requires UniqueKeys(right, rkey)
    requires Lookup(right, rkey, lkey(l0)) == Some(r) && Lookup(right, rkey, lkey(l1)) == None
    ensures LeftJoin([l0, l1], lkey, right, rkey) == [(l0, Some(r)), (l1, None)]
  {
    LeftJoinUniqueKeys([l0, l1], lkey, right, rkey);
  }

  // ---------------------------------------------------------------------------
  // Grouped sum

  /** One row of `groupby(key)[column].sum().reset_index()`. */
  datatype Group = Group(key: string, total: int)

  function GroupKey(g: Group): string {
    g.key
  }

  function KeysOf(g: seq<Group>): (ks: seq<string>)
    ensures |ks| == |g|
    ensures forall i :: 0 <= i < |g| ==> ks[i] == g[i].key
  {
    if |g| == 0 then [] else [g[0].key] + KeysOf(g[1..])
  }

  /** The sum of the totals of the groups keyed `k`; 0 when there is none. */
  function TotalFor(g: seq<Group>, k: string): int {
    if |g| == 0 then 0 else (if g[0].key == k then g[0].total else 0) + TotalFor(g[1..], k)
  }

  /** The sum of all group totals. */
  function GrandTotal(g: seq<Group>): int {
    if |g| == 0 then 0 else g[0].total + GrandTotal(g[1..])
  }

  /** The key column of a table, in row order. */
  function KeyColumn<R>(rows: seq<R>, key: R -> string): (ks: seq<string>)
    ensures |ks| == |rows|
    ensures forall i :: 0 <= i < |rows| ==> ks[i] == key(rows[i])
  {
    if |rows| == 0 then [] else KeyColumn(rows[..|rows| - 1], key) + [key(rows[|rows| - 1])]
  }

  /** The sum of `value` over the rows keyed `k`. */
  function SumWhere<R>(rows: seq<R>, key: R -> string, value: R -> int, k: string): int {
    if |rows| == 0 then 0
    else
      var last := rows[|rows| - 1];
      SumWhere(rows[..|rows| - 1], key, value, k) + (if key(last) == k then value(last) else 0)
  }

  /** The sum of the whole `value` column. */
  function ColumnTotal<R>(rows: seq<R>, value: R -> int): int {
    if |rows| == 0 then 0 else ColumnTotal(rows[..|rows| - 1], value) + value(rows[|rows| - 1])
  }

  /** Add `v` to the group keyed `k`, making that group (in key order) when it is new. */
  function AddTo(g: seq<Group>, k: string, v: int): (g': seq<Group>)
    requires StrictlyIncreasing(KeysOf(g))
    ensures StrictlyIncreasing(KeysOf(g'))
    ensures forall x :: x in KeysOf(g') <==> x in KeysOf(g) || x == k
    ensures forall x :: TotalFor(g', x) == TotalFor(g, x) + (if x == k then v else 0)
    ensures GrandTotal(g') == GrandTotal(g) + v
    decreases |g|
  {
    if |g| == 0 then [Group(k, v)]
    else if g[0].key == k then [Group(k, g[0].total + v)] + g[1..]
    else if Less(k, g[0].key) then
      BelowHead(k, KeysOf(g));
      IncreasingCons(k, KeysOf(g));
      [Group(k, v)] + g
    else
      LessTotal(k, g[0].key);
      IncreasingTail(KeysOf(g));
      var rest := AddTo(g[1..], k, v);
      IncreasingCons(g[0].key, KeysOf(rest));
      [g[0]] + rest
  }

  /**
   * `groupby(key)[column].sum()`: one group per key present, in increasing
   * key order, each holding the sum of `value` over the rows with its key.
   */
  function GroupSum<R>(rows: seq<R>, key: R -> string, value: R -> int): (g: seq<Group>)
    ensures StrictlyIncreasing(KeysOf(g))
    ensures forall x :: x in KeysOf(g) <==> x in KeyColumn(rows, key)
    ensures forall x :: TotalFor(g, x) == SumWhere(rows, key, value, x)
    ensures GrandTotal(g) == ColumnTotal(rows, value)
    decreases |rows|
  {
    if |rows| == 0 then []
    else
      var last := rows[|rows| - 1];
      AddTo(GroupSum(rows[..|rows| - 1], key, value), key(last), value(last))
  }

  lemma {:induction false} TotalForAbsent(g: seq<Group>, k: string)
    requires k !in KeysOf(g)
    ensures TotalFor(g, k) == 0
    decreases |g|
  {
    if |g| > 0 {
      assert KeysOf(g) == [g[0].key] + KeysOf(g[1..]);
      TotalForAbsent(g[1..], k);
    }
  }

  /** With distinct keys, the total for a group's key is that group's own total. */
  lemma {:induction false} TotalForDistinct(g: seq<Group>, i: nat)
    requires StrictlyIncreasing(KeysOf(g)) && i < |g|
    ensures TotalFor(g, g[i].key) == g[i].total
    decreases |g|
  {
    IncreasingTail(KeysOf(g));
    assert KeysOf(g)[1..] == KeysOf(g[1..]);
    if i == 0 {
      LessIrreflexive(g[0].key);
      TotalForAbsent(g[1..], g[0].key);
    } else {
      assert Less(KeysOf(g)[0], KeysOf(g)[i]);
      LessIrreflexive(g[0].key);
      TotalForDistinct(g[1..], i - 1);
    }
  }

  lemma {:induction false} DistinctCount(ks: seq<string>)
    requires StrictlyIncreasing(ks)
    ensures |set x | x in ks| == |ks|
    decreases |ks|
  {
    if |ks| > 0 {
      IncreasingTail(ks);
      DistinctCount(ks[1..]);
      LessIrreflexive(ks[0]);
      assert ks[0] !in ks[1..];
      assert (set x | x in ks) == {ks[0]} + (set x | x in ks[1..]);
    }
  }

  /**
   * The grouped sum has exactly one row per distinct key of the input, each
   * holding the sum over the input rows with that key, in increasing key order;
   * the group totals add up to the column total.
   */
  lemma GroupSumSpec<R>(rows: seq<R>, key: R -> string, value: R -> int)
    ensures var g := GroupSum(rows, key, value);
      && |g| == |set x | x in KeyColumn(rows, key)|
      && StrictlyIncreasing(KeysOf(g))
      && (forall i :: 0 <= i < |g| ==> g[i].total == SumWhere(rows, key, value, g[i].key))
      && GrandTotal(g) == ColumnTotal(rows, value)
  {
    var g := GroupSum(rows, key, value);
    DistinctCount(KeysOf(g));
    assert (set x | x in KeysOf(g)) == (set x | x in KeyColumn(rows, key));
    forall i | 0 <= i < |g|
      ensures g[i].total == SumWhere(rows, key, value, g[i].key)
    {
      TotalForDistinct(g, i);
    }
  }

  /** Group keys are unique, so the grouped table can be the right side of a merge. */
  lemma GroupKeysUnique(g: seq<Group>)
    requires StrictlyIncreasing(KeysOf(g))
    ensures UniqueKeys(g, GroupKey)
  {
    IncreasingDistinct(KeysOf(g));
  }
}
