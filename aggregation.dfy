/**
 * The relational building blocks the queries are made of: `WHERE` as an
 * order-preserving filter, `SUM(...) GROUP BY key` and `MIN(...) GROUP BY key`
 * as one pass over the joined rows, and the join of the grouped values back
 * to the rows of an entity table.
 */
module Aggregation {
  import opened Wrappers
  import opened Sorting

  /** One joined row, projected onto its grouping key and the aggregated value. */
  datatype Pair = Pair(key: int, value: int)

  /** A row of an entity table together with the aggregate computed for it. */
  datatype Counted<E> = Counted(entity: E, count: int)

  /** No two elements share a key: the key is a primary key of the table. */
  predicate UniqueBy<T>(s: seq<T>, keyOf: T -> int) {
    forall i, j :: 0 <= i < j < |s| ==> keyOf(s[i]) != keyOf(s[j])
  }

  /** In a table unique by a key, an element is determined by its key. */
  lemma SameKeySame<T>(s: seq<T>, keyOf: T -> int, a: T, b: T)
    requires UniqueBy(s, keyOf) && a in s && b in s && keyOf(a) == keyOf(b)
    ensures a == b
  {
    var x :| 0 <= x < |s| && s[x] == a;
    var y :| 0 <= y < |s| && s[y] == b;
    assert !(x < y) && !(y < x);
  }

  /** `SELECT ... WHERE keep(x)`, keeping the table's order. */
  function Where<T>(s: seq<T>, keep: T -> bool): (r: seq<T>)
    ensures |r| <= |s|
    ensures forall i :: 0 <= i < |r| ==> r[i] in s && keep(r[i])
    ensures forall i :: 0 <= i < |s| && keep(s[i]) ==> s[i] in r
  {
    if |s| == 0 then []
    else
      assert s == [s[0]] + s[1..];
      (if keep(s[0]) then [s[0]] else []) + Where(s[1..], keep)
  }

  /** A filter every row passes keeps the table as it is: same rows, same order, same multiplicities. */
  lemma {:induction false} WhereAllKept<T>(s: seq<T>, keep: T -> bool)
    requires forall i :: 0 <= i < |s| ==> keep(s[i])
    ensures Where(s, keep) == s
  {
    if |s| > 0 {
      WhereAllKept(s[1..], keep);
      assert s == [s[0]] + s[1..];
    }
  }

  /** Two filters in a row are one filter on the conjunction. */
  lemma {:induction false} WhereWhere<T>(s: seq<T>, p: T -> bool, q: T -> bool, both: T -> bool)
    requires forall x :: both(x) == (p(x) && q(x))
    ensures Where(Where(s, p), q) == Where(s, both)
  {
    if |s| > 0 {
      WhereWhere(s[1..], p, q, both);
      var rest := Where(s[1..], p);
      if p(s[0]) {
        assert Where(s, p) == [s[0]] + rest;
        assert ([s[0]] + rest)[1..] == rest;
      } else {
        assert Where(s, p) == rest;
      }
    }
  }

  predicate HasKey(pairs: seq<Pair>, k: int) {
    exists i :: 0 <= i < |pairs| && pairs[i].key == k
  }

  /** The sum of the values paired with `k`: the meaning of `SUM(value) ... GROUP BY key`. */
  function SumFor(pairs: seq<Pair>, k: int): int {
    if |pairs| == 0 then 0
    else (if pairs[0].key == k then pairs[0].value else 0) + SumFor(pairs[1..], k)
  }

  lemma {:induction false} SumForAppend(pairs: seq<Pair>, x: Pair, k: int)
    ensures SumFor(pairs + [x], k) == SumFor(pairs, k) + (if x.key == k then x.value else 0)
  {
    if |pairs| > 0 {
      assert (pairs + [x])[1..] == pairs[1..] + [x];
      SumForAppend(pairs[1..], x, k);
    }
  }

  /** A sum of positive values over a group that has a row is positive. */
  lemma {:induction false} SumForPositive(pairs: seq<Pair>, k: int)
    requires forall i :: 0 <= i < |pairs| ==> pairs[i].value > 0
    requires HasKey(pairs, k)
    ensures SumFor(pairs, k) > 0
  {
    if pairs[0].key != k {
      var i :| 0 <= i < |pairs| && pairs[i].key == k;
      assert pairs[1..][i - 1].key == k;
      SumForPositive(pairs[1..], k);
    } else if |pairs| > 1 {
      SumForNonNegative(pairs[1..], k);
    }
  }

  lemma {:induction false} SumForNonNegative(pairs: seq<Pair>, k: int)
    requires forall i :: 0 <= i < |pairs| ==> pairs[i].value >= 0
    ensures SumFor(pairs, k) >= 0
  {
    if |pairs| > 0 {
      SumForNonNegative(pairs[1..], k);
    }
  }

  /** Hash aggregation: one pass over the rows, adding each value to its key's running total. */
  function GroupSum(pairs: seq<Pair>): (m: map<int, int>)
    ensures forall k :: k in m <==> HasKey(pairs, k)
  {
    if |pairs| == 0 then map[]
    else
      var init := pairs[..|pairs| - 1];
      var last := pairs[|pairs| - 1];
      var m := GroupSum(init);
      HasKeyInit(pairs);
      m[last.key := (if last.key in m then m[last.key] else 0) + last.value]
  }

  /** The one-pass aggregation computes exactly the group sums. */
  lemma {:induction false} GroupSumIsSum(pairs: seq<Pair>, k: int)
    requires HasKey(pairs, k)
    ensures GroupSum(pairs)[k] == SumFor(pairs, k)
  {
    var init := pairs[..|pairs| - 1];
    var last := pairs[|pairs| - 1];
    assert pairs == init + [last];
    SumForAppend(init, last, k);
    if k in GroupSum(init) {
      GroupSumIsSum(init, k);
    } else {
      SumForAbsent(init, k);
    }
  }

  lemma {:induction false} SumForAbsent(pairs: seq<Pair>, k: int)
    requires !HasKey(pairs, k)
    ensures SumFor(pairs, k) == 0
  {
    if |pairs| > 0 {
      assert pairs[0].key != k;
      SumForAbsent(pairs[1..], k);
    }
  }

  /** `MIN(value) GROUP BY key`, in one pass. */
  function GroupMin(pairs: seq<Pair>): (m: map<int, int>)
    ensures forall k :: k in m <==> HasKey(pairs, k)
  {
    if |pairs| == 0 then map[]
    else
      var init := pairs[..|pairs| - 1];
      var last := pairs[|pairs| - 1];
      var m := GroupMin(init);
      HasKeyInit(pairs);
      if last.key in m && m[last.key] <= last.value then m
      else m[last.key := last.value]
  }

  lemma HasKeyInit(pairs: seq<Pair>)
    requires |pairs| > 0
    ensures forall k :: HasKey(pairs, k) <==> HasKey(pairs[..|pairs| - 1], k) || pairs[|pairs| - 1].key == k
  {
    var init := pairs[..|pairs| - 1];
    forall k ensures HasKey(pairs, k) <==> HasKey(init, k) || pairs[|pairs| - 1].key == k {
      if HasKey(pairs, k) {
        var i :| 0 <= i < |pairs| && pairs[i].key == k;
        if i < |pairs| - 1 { assert init[i].key == k; }
      }
      if HasKey(init, k) {
        var i :| 0 <= i < |init| && init[i].key == k;
        assert pairs[i].key == k;
      }
    }
  }

  /** Each group's minimum is at most every value in the group, and is one of them. */
  lemma {:induction false} GroupMinIsMin(pairs: seq<Pair>)
    ensures forall i :: 0 <= i < |pairs| ==>
      pairs[i].key in GroupMin(pairs) && GroupMin(pairs)[pairs[i].key] <= pairs[i].value
    ensures forall k :: k in GroupMin(pairs) ==> Pair(k, GroupMin(pairs)[k]) in pairs
  {
    if |pairs| > 0 {
      var init := pairs[..|pairs| - 1];
      GroupMinIsMin(init);
      assert forall i :: 0 <= i < |init| ==> init[i] == pairs[i];
      assert forall x :: x in init ==> x in pairs;
    }
  }

  /**
   * `SELECT e, agg FROM entities JOIN (...) ON keyOf(e) = key`: each row of
   * the entity table whose key has an aggregate, with that aggregate.
   */
  function JoinCounts<E>(entities: seq<E>, keyOf: E -> int, m: map<int, int>): (r: seq<Counted<E>>)
    ensures |r| <= |entities|
    ensures forall i :: 0 <= i < |r| ==>
      r[i].entity in entities && keyOf(r[i].entity) in m && r[i].count == m[keyOf(r[i].entity)]
    ensures forall j :: 0 <= j < |entities| && keyOf(entities[j]) in m ==>
      Counted(entities[j], m[keyOf(entities[j])]) in r
  {
    if |entities| == 0 then []
    else
      var e := entities[0];
      assert entities == [e] + entities[1..];
      (if keyOf(e) in m then [Counted(e, m[keyOf(e)])] else []) + JoinCounts(entities[1..], keyOf, m)
  }

  /** The key used to order aggregated rows by their aggregate. */
  function CountKey<E>(c: Counted<E>): real {
    c.count as real
  }

  /**
   * The joined rows of a grouped query, projected onto (group key, value):
   * `group` gives the key of a row that survives the joins and the `WHERE`
   * clause, and `None` for a row that drops out.
   */
  function PairsOf<R>(rows: seq<R>, group: R -> Option<int>, value: R -> int): seq<Pair> {
    if |rows| == 0 then []
    else (if group(rows[0]).Some? then [Pair(group(rows[0]).value, value(rows[0]))] else [])
         + PairsOf(rows[1..], group, value)
  }

  /** The sum of `value` over the rows that survive with group key `k`. */
  function RowSum<R>(rows: seq<R>, group: R -> Option<int>, value: R -> int, k: int): int {
    if |rows| == 0 then 0
    else (if group(rows[0]) == Some(k) then value(rows[0]) else 0) + RowSum(rows[1..], group, value, k)
  }

  predicate InGroup<R>(rows: seq<R>, group: R -> Option<int>, k: int) {
    exists i :: 0 <= i < |rows| && group(rows[i]) == Some(k)
  }

  lemma HasKeyConcat(a: seq<Pair>, b: seq<Pair>, k: int)
    ensures HasKey(a + b, k) <==> HasKey(a, k) || HasKey(b, k)
  {
    if HasKey(a + b, k) {
      var i :| 0 <= i < |a + b| && (a + b)[i].key == k;
      if i >= |a| { assert b[i - |a|].key == k; }
    }
    if HasKey(b, k) {
      var i :| 0 <= i < |b| && b[i].key == k;
      assert (a + b)[i + |a|].key == k;
    }
    if HasKey(a, k) {
      var i :| 0 <= i < |a| && a[i].key == k;
      assert (a + b)[i].key == k;
    }
  }

  lemma InGroupCons<R>(rows: seq<R>, group: R -> Option<int>, k: int)
    requires |rows| > 0
    ensures InGroup(rows, group, k) <==> group(rows[0]) == Some(k) || InGroup(rows[1..], group, k)
  {
    if InGroup(rows, group, k) {
      var i :| 0 <= i < |rows| && group(rows[i]) == Some(k);
      if i > 0 { assert group(rows[1..][i - 1]) == Some(k); }
    }
    if InGroup(rows[1..], group, k) {
      var i :| 0 <= i < |rows[1..]| && group(rows[1..][i]) == Some(k);
      assert group(rows[i + 1]) == Some(k);
    }
  }

  lemma {:induction false} PairsOfSum<R>(rows: seq<R>, group: R -> Option<int>, value: R -> int, k: int)
    ensures SumFor(PairsOf(rows, group, value), k) == RowSum(rows, group, value, k)
    ensures HasKey(PairsOf(rows, group, value), k) <==> InGroup(rows, group, k)
  {
    if |rows| > 0 {
      PairsOfSum(rows[1..], group, value, k);
      var head: seq<Pair> := if group(rows[0]).Some? then [Pair(group(rows[0]).value, value(rows[0]))] else [];
      var rest := PairsOf(rows[1..], group, value);
      assert PairsOf(rows, group, value) == head + rest;
      if |head| > 0 {
        assert (head + rest)[1..] == rest;
        assert HasKey(head, k) <==> head[0].key == k;
      } else {
        assert head + rest == rest;
      }
      HasKeyConcat(head, rest, k);
      InGroupCons(rows, group, k);
    }
  }

  /**
   * `SELECT e, SUM(value) ... GROUP BY key` joined back to the entity table:
   * each entity whose key has at least one surviving row, with the sum over
   * those rows.
   */
  function Aggregate<E, R>(entities: seq<E>, keyOf: E -> int, rows: seq<R>, group: R -> Option<int>, value: R -> int): (r: seq<Counted<E>>)
    ensures |r| <= |entities|
    ensures forall i :: 0 <= i < |r| ==> r[i].entity in entities
  {
    JoinCounts(entities, keyOf, GroupSum(PairsOf(rows, group, value)))
  }

  /** An aggregated row belongs to an entity with surviving rows and carries their sum. */
  lemma AggregateSound<E, R>(entities: seq<E>, keyOf: E -> int, rows: seq<R>, group: R -> Option<int>, value: R -> int, c: Counted<E>)
    requires c in Aggregate(entities, keyOf, rows, group, value)
    ensures c.entity in entities
    ensures InGroup(rows, group, keyOf(c.entity))
    ensures c.count == RowSum(rows, group, value, keyOf(c.entity))
  {
    var pairs := PairsOf(rows, group, value);
    var r := Aggregate(entities, keyOf, rows, group, value);
    var i :| 0 <= i < |r| && r[i] == c;
    GroupSumIsSum(pairs, keyOf(c.entity));
    PairsOfSum(rows, group, value, keyOf(c.entity));
  }

  /** Every entity with a surviving row is aggregated. */
  lemma AggregateComplete<E, R>(entities: seq<E>, keyOf: E -> int, rows: seq<R>, group: R -> Option<int>, value: R -> int, j: int)
    requires 0 <= j < |entities| && InGroup(rows, group, keyOf(entities[j]))
    ensures Counted(entities[j], RowSum(rows, group, value, keyOf(entities[j]))) in Aggregate(entities, keyOf, rows, group, value)
  {
    var pairs := PairsOf(rows, group, value);
    PairsOfSum(rows, group, value, keyOf(entities[j]));
    GroupSumIsSum(pairs, keyOf(entities[j]));
  }

  ghost predicate Distinct<T>(s: seq<T>) {
    forall i, j :: 0 <= i < j < |s| ==> s[i] != s[j]
  }

  lemma {:induction false} DistinctCountsOnce<T>(s: seq<T>, x: T)
    requires Distinct(s)
    ensures multiset(s)[x] <= 1
  {
    if |s| > 0 {
      assert s == [s[0]] + s[1..];
      assert Distinct(s[1..]) by {
        forall i, j | 0 <= i < j < |s[1..]| ensures s[1..][i] != s[1..][j] {
          assert s[1..][i] == s[i + 1] && s[1..][j] == s[j + 1];
        }
      }
      DistinctCountsOnce(s[1..], x);
      if s[0] == x {
        assert x !in s[1..];
      }
    }
  }

  /** A permutation of a sequence without repeated elements has none either. */
  lemma DistinctPermutation<T>(a: seq<T>, b: seq<T>)
    requires multiset(a) == multiset(b) && Distinct(a)
    ensures Distinct(b)
  {
    forall i, j | 0 <= i < j < |b| ensures b[i] != b[j] {
      if b[i] == b[j] {
        var x := b[i];
        assert b == b[..j] + [b[j]] + b[j + 1..];
        assert x in b[..j];
        assert multiset(b)[x] >= 2;
        DistinctCountsOnce(a, x);
      }
    }
  }

  /** The key of an aggregated row: its entity's key. */
  function EntityKey<E>(keyOf: E -> int): Counted<E> -> int {
    (c: Counted<E>) => keyOf(c.entity)
  }

  /** Under a unique key, the element heading the table has a key no later element has. */
  lemma KeyAfterHead<T>(s: seq<T>, keyOf: T -> int, x: T)
    requires UniqueBy(s, keyOf) && |s| > 0 && x in s[1..]
    ensures keyOf(x) != keyOf(s[0])
  {
    var j :| 0 <= j < |s[1..]| && s[1..][j] == x;
    assert s[j + 1] == x;
  }

  /** Putting an element with a new key in front keeps the key unique. */
  lemma UniqueCons<T>(head: seq<T>, rest: seq<T>, keyOf: T -> int)
    requires |head| <= 1 && UniqueBy(rest, keyOf)
    requires forall i, h :: 0 <= i < |rest| && h in head ==> keyOf(rest[i]) != keyOf(h)
    ensures UniqueBy(head + rest, keyOf)
  {
    var r := head + rest;
    forall i, j | 0 <= i < j < |r| ensures keyOf(r[i]) != keyOf(r[j]) {
      if |head| == 1 && i == 0 {
        assert r[i] in head && r[j] == rest[j - 1];
      } else {
        assert r[i] == rest[i - |head|] && r[j] == rest[j - |head|];
      }
    }
  }

  /** Joining an entity table whose keys are unique gives one row per key. */
  lemma {:induction false} JoinCountsUniqueKeys<E>(entities: seq<E>, keyOf: E -> int, m: map<int, int>)
    requires UniqueBy(entities, keyOf)
    ensures UniqueBy(JoinCounts(entities, keyOf, m), EntityKey(keyOf))
  {
    if |entities| > 0 {
      var e := entities[0];
      var head: seq<Counted<E>> := if keyOf(e) in m then [Counted(e, m[keyOf(e)])] else [];
      var rest := JoinCounts(entities[1..], keyOf, m);
      assert JoinCounts(entities, keyOf, m) == head + rest;
      JoinCountsUniqueKeys(entities[1..], keyOf, m);
      forall i, h | 0 <= i < |rest| && h in head ensures EntityKey(keyOf)(rest[i]) != EntityKey(keyOf)(h) {
        KeyAfterHead(entities, keyOf, rest[i].entity);
      }
      UniqueCons(head, rest, EntityKey(keyOf));
    }
  }

  /** Sorting keeps one row per key. */
  lemma SortKeepsUniqueKeys<T>(s: seq<T>, keyOf: T -> int, key: T -> real)
    requires UniqueBy(s, keyOf)
    ensures UniqueBy(SortDesc(s, key), keyOf)
  {
    var r := SortDesc(s, key);
    assert Distinct(s);
    DistinctPermutation(s, r);
    forall i, j | 0 <= i < j < |r| ensures keyOf(r[i]) != keyOf(r[j]) {
      assert r[i] in multiset(s) && r[j] in multiset(s);
      var a :| 0 <= a < |s| && s[a] == r[i];
      var b :| 0 <= b < |s| && s[b] == r[j];
    }
  }

  /** Which (key, value) pairs the projection holds: exactly those of the surviving rows. */
  lemma {:induction false} PairsOfMember<R>(rows: seq<R>, group: R -> Option<int>, value: R -> int, x: Pair)
    ensures x in PairsOf(rows, group, value) <==>
      exists i :: 0 <= i < |rows| && group(rows[i]) == Some(x.key) && value(rows[i]) == x.value
  {
    if |rows| > 0 {
      PairsOfMember(rows[1..], group, value, x);
      var head: seq<Pair> := if group(rows[0]).Some? then [Pair(group(rows[0]).value, value(rows[0]))] else [];
      assert PairsOf(rows, group, value) == head + PairsOf(rows[1..], group, value);
      if exists i :: 0 <= i < |rows| && group(rows[i]) == Some(x.key) && value(rows[i]) == x.value {
        var i :| 0 <= i < |rows| && group(rows[i]) == Some(x.key) && value(rows[i]) == x.value;
        if i > 0 { assert rows[1..][i - 1] == rows[i]; }
      }
      if exists i :: 0 <= i < |rows[1..]| && group(rows[1..][i]) == Some(x.key) && value(rows[1..][i]) == x.value {
        var i :| 0 <= i < |rows[1..]| && group(rows[1..][i]) == Some(x.key) && value(rows[1..][i]) == x.value;
        assert rows[i + 1] == rows[1..][i];
      }
    }
  }

  /** Filters that agree on every row select the same rows. */
  lemma {:induction false} WhereSame<T>(s: seq<T>, p: T -> bool, q: T -> bool)
    requires forall x :: p(x) == q(x)
    ensures Where(s, p) == Where(s, q)
  {
    if |s| > 0 {
      WhereSame(s[1..], p, q);
    }
  }

  /** A filtered table keeps a unique key unique. */
  lemma {:induction false} WhereKeepsUniqueKeys<T>(s: seq<T>, keep: T -> bool, keyOf: T -> int)
    requires UniqueBy(s, keyOf)
    ensures UniqueBy(Where(s, keep), keyOf)
  {
    if |s| > 0 {
      var rest := Where(s[1..], keep);
      WhereKeepsUniqueKeys(s[1..], keep, keyOf);
      forall i | 0 <= i < |rest| ensures keyOf(rest[i]) != keyOf(s[0]) {
        var j :| 0 <= j < |s[1..]| && s[1..][j] == rest[i];
        assert s[j + 1] == rest[i];
      }
      if keep(s[0]) {
        var r := [s[0]] + rest;
        assert Where(s, keep) == r;
        forall i, j | 0 <= i < j < |r| ensures keyOf(r[i]) != keyOf(r[j]) {
          assert r[j] == rest[j - 1];
          if i > 0 {
            assert r[i] == rest[i - 1];
          }
        }
      } else {
        assert Where(s, keep) == rest;
      }
    }
  }
}
