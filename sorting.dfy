/**
 * Python's `sorted(xs, key=..., reverse=True)`: a stable sort into
 * non-increasing key order.  Elements with equal keys keep the order they
 * had in the input.  The same function also stands for SQL's
 * `ORDER BY ... DESC`.  SQL leaves the order of ties open; every contract
 * stated about that use promises only the non-increasing order.
 */
module Sorting {

  predicate NonIncreasing<T>(s: seq<T>, key: T -> real) {
    forall i, j :: 0 <= i < j < |s| ==> key(s[i]) >= key(s[j])
  }

  /** The elements of `s` whose key is `k`, in the order they have in `s`. */
  function WithKey<T>(s: seq<T>, key: T -> real, k: real): seq<T> {
    if |s| == 0 then [] else (if key(s[0]) == k then [s[0]] else []) + WithKey(s[1..], key, k)
  }

  /** Puts `x` in front of the first element whose key is not larger than its own. */
  function Insert<T>(x: T, s: seq<T>, key: T -> real): (r: seq<T>)
    ensures multiset(r) == multiset(s) + multiset{x}
  {
    if |s| == 0 then [x]
    else if key(s[0]) <= key(x) then [x] + s
    else
      assert s == [s[0]] + s[1..];
      [s[0]] + Insert(x, s[1..], key)
  }

  /** Inserting an element no larger than a bound into a sequence bounded by it keeps the bound. */
  lemma {:induction false} InsertBounded<T>(x: T, s: seq<T>, key: T -> real, bound: real)
    requires key(x) <= bound
    requires forall i :: 0 <= i < |s| ==> key(s[i]) <= bound
    ensures forall i :: 0 <= i < |Insert(x, s, key)| ==> key(Insert(x, s, key)[i]) <= bound
  {
    if |s| > 0 && key(s[0]) > key(x) {
      var tail := s[1..];
      assert forall i :: 0 <= i < |tail| ==> key(tail[i]) <= bound by {
        forall i | 0 <= i < |tail| ensures key(tail[i]) <= bound {
          assert tail[i] == s[i + 1];
        }
      }
      InsertBounded(x, tail, key, bound);
      var rest := Insert(x, tail, key);
      var r := [s[0]] + rest;
      assert Insert(x, s, key) == r;
      forall i | 0 <= i < |r| ensures key(r[i]) <= bound {
        if i > 0 { assert r[i] == rest[i - 1]; }
      }
    } else if |s| > 0 {
      var r := [x] + s;
      assert Insert(x, s, key) == r;
      forall i | 0 <= i < |r| ensures key(r[i]) <= bound {
        if i > 0 { assert r[i] == s[i - 1]; }
      }
    }
  }

  lemma {:induction false} InsertSorted<T>(x: T, s: seq<T>, key: T -> real)
    requires NonIncreasing(s, key)
    ensures NonIncreasing(Insert(x, s, key), key)
  {
    if |s| > 0 && key(s[0]) > key(x) {
      var tail := s[1..];
      assert NonIncreasing(tail, key) by {
        forall i, j | 0 <= i < j < |tail| ensures key(tail[i]) >= key(tail[j]) {
          assert tail[i] == s[i + 1] && tail[j] == s[j + 1];
        }
      }
      assert forall i :: 0 <= i < |tail| ==> key(tail[i]) <= key(s[0]) by {
        forall i | 0 <= i < |tail| ensures key(tail[i]) <= key(s[0]) {
          assert tail[i] == s[i + 1];
        }
      }
      InsertSorted(x, tail, key);
      InsertBounded(x, tail, key, key(s[0]));
      var rest := Insert(x, tail, key);
      var r := [s[0]] + rest;
      assert Insert(x, s, key) == r;
      forall i, j | 0 <= i < j < |r| ensures key(r[i]) >= key(r[j]) {
        assert r[j] == rest[j - 1];
        if i > 0 { assert r[i] == rest[i - 1]; }
      }
    } else if |s| > 0 {
      var r := [x] + s;
      assert Insert(x, s, key) == r;
      forall i, j | 0 <= i < j < |r| ensures key(r[i]) >= key(r[j]) {
        assert r[j] == s[j - 1];
        if i > 0 { assert r[i] == s[i - 1]; }
      }
    }
  }

  /** Prepending an element to the input of `WithKey`. */
  lemma WithKeyCons<T>(a: T, s: seq<T>, key: T -> real, k: real)
    ensures WithKey([a] + s, key, k) == (if key(a) == k then [a] else []) + WithKey(s, key, k)
  {
    assert ([a] + s)[0] == a && ([a] + s)[1..] == s;
  }

  /** Among the elements with `x`'s key, `x` comes first: insertion is stable. */
  lemma {:induction false} InsertWithKey<T>(x: T, s: seq<T>, key: T -> real, k: real)
    ensures WithKey(Insert(x, s, key), key, k) == (if key(x) == k then [x] else []) + WithKey(s, key, k)
  {
    if |s| == 0 {
    } else if key(s[0]) <= key(x) {
      assert Insert(x, s, key) == [x] + s;
      WithKeyCons(x, s, key, k);
    } else {
      var tail := s[1..];
      var rest := Insert(x, tail, key);
      assert Insert(x, s, key) == [s[0]] + rest;
      assert s == [s[0]] + tail;
      InsertWithKey(x, tail, key, k);
      WithKeyCons(s[0], rest, key, k);
      WithKeyCons(s[0], tail, key, k);
      var head: seq<T> := if key(s[0]) == k then [s[0]] else [];
      var mine: seq<T> := if key(x) == k then [x] else [];
      var rem := WithKey(tail, key, k);
      assert head == [] || mine == [];
      assert head + (mine + rem) == mine + (head + rem);
    }
  }

  /** Insertion sort into non-increasing key order, stable. */
  function SortDesc<T>(s: seq<T>, key: T -> real): (r: seq<T>)
    ensures multiset(r) == multiset(s)
    ensures NonIncreasing(r, key)
    ensures forall k :: WithKey(r, key, k) == WithKey(s, key, k)
  {
    if |s| == 0 then []
    else
      assert s == [s[0]] + s[1..];
      var rest := SortDesc(s[1..], key);
      InsertSorted(s[0], rest, key);
      assert forall k :: WithKey(Insert(s[0], rest, key), key, k) == WithKey(s, key, k) by {
        forall k ensures WithKey(Insert(s[0], rest, key), key, k) == WithKey(s, key, k) {
          InsertWithKey(s[0], rest, key, k);
        }
      }
      Insert(s[0], rest, key)
  }
}
