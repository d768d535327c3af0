/**
 * Generic row-sequence operations that the pandas code relies on: boolean-mask
 * filtering, `drop_duplicates` keeping the first or the last row of each key,
 * `unique()`/`list(set(...))`, and sorting by a date rank.
 */
module Seqs {
  import opened Wrappers

  /** A boolean-mask selection `df[mask]`: the rows satisfying `p`, in order. */
  function Filter<T(!new)>(s: seq<T>, p: T -> bool): (r: seq<T>)
    ensures |r| <= |s|
    ensures forall i :: 0 <= i < |r| ==> p(r[i])
    ensures forall x :: x in r <==> x in s && p(x)
  {
    if s == [] then [] else (if p(s[0]) then [s[0]] else []) + Filter(s[1..], p)
  }

  /** Filtering distributes over concatenation, so the relative order of kept rows is the input's. */
  lemma {:induction false} FilterConcat<T(!new)>(a: seq<T>, b: seq<T>, p: T -> bool)
    ensures Filter(a + b, p) == Filter(a, p) + Filter(b, p)
  {
    if a != [] {
      assert (a + b)[0] == a[0];
      assert (a + b)[1..] == a[1..] + b;
      FilterConcat(a[1..], b, p);
    } else {
      assert a + b == b;
    }
  }

  /** A filter that rejects nothing is the identity. */
  lemma {:induction false} FilterKeepsAll<T(!new)>(s: seq<T>, p: T -> bool)
    requires forall i :: 0 <= i < |s| ==> p(s[i])
    ensures Filter(s, p) == s
  {
    if s != [] {
      FilterKeepsAll(s[1..], p);
    }
  }

  /** Two filters in a row keep exactly the rows passing both, in either order. */
  lemma {:induction false} FilterFilter<T(!new)>(s: seq<T>, p: T -> bool, q: T -> bool, both: T -> bool)
    requires forall x :: both(x) == (p(x) && q(x))
    ensures Filter(Filter(s, p), q) == Filter(s, both)
    ensures Filter(Filter(s, p), q) == Filter(Filter(s, q), p)
  {
    if s != [] {
      FilterFilter(s[1..], p, q, both);
      FilterConcat(if p(s[0]) then [s[0]] else [], Filter(s[1..], p), q);
      FilterConcat(if q(s[0]) then [s[0]] else [], Filter(s[1..], q), p);
    }
  }

  /** Every row goes to exactly one side of a filter and its complement. */
  lemma {:induction false} FilterPartition<T(!new)>(s: seq<T>, p: T -> bool)
    ensures |Filter(s, p)| + |Filter(s, x => !p(x))| == |s|
  {
    if s != [] {
      FilterPartition(s[1..], p);
    }
  }

  /** Filters by predicates that agree on every element are equal. */
  lemma {:induction false} FilterExt<T(!new)>(s: seq<T>, p: T -> bool, q: T -> bool)
    requires forall x :: p(x) == q(x)
    ensures Filter(s, p) == Filter(s, q)
  {
    if s != [] {
      FilterExt(s[1..], p, q);
    }
  }

  /** Filters by predicates that agree on every element of the sequence are equal. */
  lemma {:induction false} FilterExtOn<T(!new)>(s: seq<T>, p: T -> bool, q: T -> bool)
    requires forall i :: 0 <= i < |s| ==> p(s[i]) == q(s[i])
    ensures Filter(s, p) == Filter(s, q)
  {
    if s != [] {
      FilterExtOn(s[1..], p, q);
    }
  }

  /** Three mutually exclusive, exhaustive filters split the rows between them. */
  lemma {:induction false} FilterThreeWay<T(!new)>(s: seq<T>, p: T -> bool, q: T -> bool, r: T -> bool)
    requires forall x :: (p(x) || q(x) || r(x)) && !(p(x) && q(x)) && !(p(x) && r(x)) && !(q(x) && r(x))
    ensures |Filter(s, p)| + |Filter(s, q)| + |Filter(s, r)| == |s|
  {
    if s != [] {
      FilterThreeWay(s[1..], p, q, r);
    }
  }

  /** `series.apply(m)`: `m` applied to every element, in order. */
  function Map<T, U>(s: seq<T>, m: T -> U): (r: seq<U>)
    ensures |r| == |s|
    ensures forall i :: 0 <= i < |s| ==> r[i] == m(s[i])
  {
    seq(|s|, i requires 0 <= i < |s| => m(s[i]))
  }

  /**
   * A row-wise transformation that does not change what the mask tests can
   * be done before or after the mask: the kept rows are the same rows.
   */
  lemma {:induction false} FilterMap<T(!new), U(!new)>(s: seq<T>, m: T -> U, p: U -> bool, q: T -> bool)
    requires forall x :: p(m(x)) == q(x)
    ensures Filter(Map(s, m), p) == Map(Filter(s, q), m)
  {
    if s != [] {
      var t := s[1..];
      var head := if q(s[0]) then [s[0]] else [];
      assert Map(s, m)[1..] == Map(t, m);
      assert Filter(Map(s, m), p) == (if p(m(s[0])) then [m(s[0])] else []) + Filter(Map(t, m), p);
      FilterMap(t, m, p, q);
      assert Filter(s, q) == head + Filter(t, q);
      MapConcat(head, Filter(t, q), m);
      assert p(m(s[0])) == q(s[0]);
      assert Map(head, m) == if p(m(s[0])) then [m(s[0])] else [];
    }
  }

  /** Mapping distributes over concatenation. */
  lemma MapConcat<T, U>(a: seq<T>, b: seq<T>, m: T -> U)
    ensures Map(a + b, m) == Map(a, m) + Map(b, m)
  {
  }

  /** Some element of `s` has key `k`. */
  predicate HasKey<T, K(==)>(s: seq<T>, key: T -> K, k: K)
  {
    exists i | 0 <= i < |s| :: key(s[i]) == k
  }

  lemma HasKeyAppend<T, K>(s: seq<T>, x: T, key: T -> K, k: K)
    ensures HasKey(s + [x], key, k) <==> HasKey(s, key, k) || key(x) == k
  {
    if HasKey(s + [x], key, k) && !HasKey(s, key, k) {
      var i :| 0 <= i < |s| + 1 && key((s + [x])[i]) == k;
      assert i == |s|;
    }
    if HasKey(s, key, k) {
      var i :| 0 <= i < |s| && key(s[i]) == k;
      assert key((s + [x])[i]) == k;
    }
    if key(x) == k {
      assert key((s + [x])[|s|]) == k;
    }
  }

  lemma HasKeyPrepend<T, K>(x: T, s: seq<T>, key: T -> K, k: K)
    ensures HasKey([x] + s, key, k) <==> key(x) == k || HasKey(s, key, k)
  {
    if HasKey([x] + s, key, k) && key(x) != k {
      var i :| 0 <= i < |s| + 1 && key(([x] + s)[i]) == k;
      assert key(s[i - 1]) == k;
    }
    if HasKey(s, key, k) {
      var i :| 0 <= i < |s| && key(s[i]) == k;
      assert key(([x] + s)[i + 1]) == k;
    }
    if key(x) == k {
      assert key(([x] + s)[0]) == k;
    }
  }

  lemma HasKeyConcat<T, K>(a: seq<T>, b: seq<T>, key: T -> K, k: K)
    ensures HasKey(a + b, key, k) <==> HasKey(a, key, k) || HasKey(b, key, k)
  {
    if HasKey(a + b, key, k) {
      var i :| 0 <= i < |a + b| && key((a + b)[i]) == k;
      if i < |a| {
        assert key(a[i]) == k;
      } else {
        assert key(b[i - |a|]) == k;
      }
    }
    if HasKey(a, key, k) {
      var i :| 0 <= i < |a| && key(a[i]) == k;
      assert key((a + b)[i]) == k;
    }
    if HasKey(b, key, k) {
      var i :| 0 <= i < |b| && key(b[i]) == k;
      assert key((a + b)[|a| + i]) == k;
    }
  }

  /** No two elements share a key. */
  ghost predicate KeysDistinct<T, K>(s: seq<T>, key: T -> K)
  {
    forall i, j :: 0 <= i < j < |s| ==> key(s[i]) != key(s[j])
  }

  /** The earliest element with key `k`. */
  function FirstWithKey<T, K(==)>(s: seq<T>, key: T -> K, k: K): (x: T)
    requires HasKey(s, key, k)
    ensures key(x) == k && x in s
  {
    if key(s[0]) == k then s[0]
    else
      assert HasKey(s[1..], key, k) by {
        var i :| 0 <= i < |s| && key(s[i]) == k;
        assert key(s[1..][i - 1]) == k;
      }
      FirstWithKey(s[1..], key, k)
  }

  /** The latest element with key `k`. */
  function LastWithKey<T, K(==)>(s: seq<T>, key: T -> K, k: K): (x: T)
    requires HasKey(s, key, k)
    ensures key(x) == k && x in s
  {
    if key(s[|s| - 1]) == k then s[|s| - 1]
    else
      assert HasKey(s[..|s| - 1], key, k) by {
        var i :| 0 <= i < |s| && key(s[i]) == k;
        assert key(s[..|s| - 1][i]) == k;
      }
      LastWithKey(s[..|s| - 1], key, k)
  }

  lemma {:induction false} FirstWithKeyAppend<T, K>(s: seq<T>, x: T, key: T -> K, k: K)
    requires HasKey(s, key, k)
    ensures HasKey(s + [x], key, k) && FirstWithKey(s + [x], key, k) == FirstWithKey(s, key, k)
  {
    HasKeyAppend(s, x, key, k);
    if key(s[0]) != k {
      assert (s + [x])[1..] == s[1..] + [x];
      assert HasKey(s[1..], key, k) by {
        var i :| 0 <= i < |s| && key(s[i]) == k;
        assert key(s[1..][i - 1]) == k;
      }
      FirstWithKeyAppend(s[1..], x, key, k);
    }
  }

  lemma {:induction false} FirstWithKeyNew<T, K>(s: seq<T>, x: T, key: T -> K)
    requires !HasKey(s, key, key(x))
    ensures HasKey(s + [x], key, key(x)) && FirstWithKey(s + [x], key, key(x)) == x
  {
    HasKeyAppend(s, x, key, key(x));
    if s != [] {
      assert key(s[0]) != key(x);
      assert (s + [x])[1..] == s[1..] + [x];
      assert !HasKey(s[1..], key, key(x));
      FirstWithKeyNew(s[1..], x, key);
    }
  }

  lemma {:induction false} LastWithKeyPrepend<T, K>(x: T, s: seq<T>, key: T -> K, k: K)
    requires HasKey(s, key, k)
    ensures HasKey([x] + s, key, k) && LastWithKey([x] + s, key, k) == LastWithKey(s, key, k)
  {
    HasKeyPrepend(x, s, key, k);
    if key(s[|s| - 1]) != k {
      assert ([x] + s)[..|s|] == [x] + s[..|s| - 1];
      assert HasKey(s[..|s| - 1], key, k) by {
        var i :| 0 <= i < |s| && key(s[i]) == k;
        assert key(s[..|s| - 1][i]) == k;
      }
      LastWithKeyPrepend(x, s[..|s| - 1], key, k);
    }
  }

  lemma {:induction false} LastWithKeyNew<T, K>(x: T, s: seq<T>, key: T -> K)
    requires !HasKey(s, key, key(x))
    ensures HasKey([x] + s, key, key(x)) && LastWithKey([x] + s, key, key(x)) == x
  {
    HasKeyPrepend(x, s, key, key(x));
    if s != [] {
      assert key(s[|s| - 1]) != key(x);
      assert ([x] + s)[..|s|] == [x] + s[..|s| - 1];
      assert !HasKey(s[..|s| - 1], key, key(x));
      LastWithKeyNew(x, s[..|s| - 1], key);
    }
  }

  /** The latest element with a key found in the second part comes from the second part. */
  lemma {:induction false} LastWithKeyConcat<T, K>(a: seq<T>, b: seq<T>, key: T -> K, k: K)
    requires HasKey(b, key, k)
    ensures HasKey(a + b, key, k) && LastWithKey(a + b, key, k) == LastWithKey(b, key, k)
  {
    HasKeyConcat(a, b, key, k);
    if a != [] {
      LastWithKeyConcat(a[1..], b, key, k);
      LastWithKeyPrepend(a[0], a[1..] + b, key, k);
      calc {
        LastWithKey(a + b, key, k);
        { assert a + b == [a[0]] + (a[1..] + b); }
        LastWithKey([a[0]] + (a[1..] + b), key, k);
        LastWithKey(a[1..] + b, key, k);
        LastWithKey(b, key, k);
      }
    } else {
      assert a + b == b;
    }
  }

  /** The earliest element with a key found in the first part comes from the first part. */
  lemma {:induction false} FirstWithKeyConcat<T, K>(a: seq<T>, b: seq<T>, key: T -> K, k: K)
    requires HasKey(a, key, k)
    ensures HasKey(a + b, key, k) && FirstWithKey(a + b, key, k) == FirstWithKey(a, key, k)
  {
    HasKeyConcat(a, b, key, k);
    if key(a[0]) != k {
      assert (a + b)[1..] == a[1..] + b;
      assert HasKey(a[1..], key, k) by {
        var i :| 0 <= i < |a| && key(a[i]) == k;
        assert key(a[1..][i - 1]) == k;
      }
      FirstWithKeyConcat(a[1..], b, key, k);
    }
  }

  /** The earliest element with a key absent from the first part comes from the second part. */
  lemma {:induction false} FirstWithKeySkip<T, K>(a: seq<T>, b: seq<T>, key: T -> K, k: K)
    requires !HasKey(a, key, k) && HasKey(b, key, k)
    ensures HasKey(a + b, key, k) && FirstWithKey(a + b, key, k) == FirstWithKey(b, key, k)
  {
    HasKeyConcat(a, b, key, k);
    if a != [] {
      assert key(a[0]) != k;
      assert (a + b)[1..] == a[1..] + b;
      FirstWithKeySkip(a[1..], b, key, k);
    } else {
      assert a + b == b;
    }
  }

  /** pandas `drop_duplicates(subset=..., keep="first")`: each key's earliest row, in input order. */
  function DedupeFirst<T, K(==,!new)>(s: seq<T>, key: T -> K): (r: seq<T>)
    ensures |r| <= |s|
    ensures KeysDistinct(r, key)
    ensures forall k :: HasKey(r, key, k) <==> HasKey(s, key, k)
    ensures forall i :: 0 <= i < |r| ==> HasKey(s, key, key(r[i])) && r[i] == FirstWithKey(s, key, key(r[i]))
  {
    if s == [] then []
    else
      var init := s[..|s| - 1];
      var x := s[|s| - 1];
      var prev := DedupeFirst(init, key);
      assert s == init + [x];
      if HasKey(init, key, key(x)) then
        assert forall k :: HasKey(s, key, k) <==> HasKey(init, key, k) by {
          forall k { HasKeyAppend(init, x, key, k); }
        }
        assert forall i :: 0 <= i < |prev| ==> FirstWithKey(s, key, key(prev[i])) == FirstWithKey(init, key, key(prev[i])) by {
          forall i | 0 <= i < |prev| { FirstWithKeyAppend(init, x, key, key(prev[i])); }
        }
        prev
      else
        DedupeFirstNewKey(init, x, key, prev);
        prev + [x]
  }

  /** A last element whose key is new is the first of its key, and goes after the deduplicated prefix. */
  lemma DedupeFirstNewKey<T, K>(init: seq<T>, x: T, key: T -> K, prev: seq<T>)
    requires !HasKey(init, key, key(x))
    requires KeysDistinct(prev, key)
    requires forall k :: HasKey(prev, key, k) <==> HasKey(init, key, k)
    requires forall i :: 0 <= i < |prev| ==> HasKey(init, key, key(prev[i])) && prev[i] == FirstWithKey(init, key, key(prev[i]))
    ensures KeysDistinct(prev + [x], key)
    ensures forall k :: HasKey(prev + [x], key, k) <==> HasKey(init + [x], key, k)
    ensures forall i :: 0 <= i < |prev| + 1 ==>
      HasKey(init + [x], key, key((prev + [x])[i])) && (prev + [x])[i] == FirstWithKey(init + [x], key, key((prev + [x])[i]))
  {
    var r, s := prev + [x], init + [x];
    forall k ensures HasKey(r, key, k) <==> HasKey(s, key, k) {
      HasKeyAppend(init, x, key, k);
      HasKeyAppend(prev, x, key, k);
    }
    forall i | 0 <= i < |prev| ensures key(prev[i]) != key(x) {
      assert HasKey(prev, key, key(prev[i]));
    }
    forall i, j | 0 <= i < j < |r| ensures key(r[i]) != key(r[j]) {
      assert r[i] == prev[i];
      if j < |prev| { assert r[j] == prev[j]; }
    }
    FirstWithKeyNew(init, x, key);
    forall i | 0 <= i < |r| ensures HasKey(s, key, key(r[i])) && r[i] == FirstWithKey(s, key, key(r[i])) {
      if i < |prev| {
        assert r[i] == prev[i];
        FirstWithKeyAppend(init, x, key, key(prev[i]));
      }
    }
  }

  /** pandas `drop_duplicates(subset=..., keep="last")`: each key's latest row, in input order. */
  function DedupeLast<T, K(==,!new)>(s: seq<T>, key: T -> K): (r: seq<T>)
    ensures |r| <= |s|
    ensures KeysDistinct(r, key)
    ensures forall k :: HasKey(r, key, k) <==> HasKey(s, key, k)
    ensures forall i :: 0 <= i < |r| ==> HasKey(s, key, key(r[i])) && r[i] == LastWithKey(s, key, key(r[i]))
  {
    if s == [] then []
    else
      var x := s[0];
      var tail := s[1..];
      var rest := DedupeLast(tail, key);
      assert s == [x] + tail;
      if HasKey(tail, key, key(x)) then
        assert forall k :: HasKey(s, key, k) <==> HasKey(tail, key, k) by {
          forall k { HasKeyPrepend(x, tail, key, k); }
        }
        assert forall i :: 0 <= i < |rest| ==> LastWithKey(s, key, key(rest[i])) == LastWithKey(tail, key, key(rest[i])) by {
          forall i | 0 <= i < |rest| { LastWithKeyPrepend(x, tail, key, key(rest[i])); }
        }
        rest
      else
        DedupeLastNewKey(x, tail, key, rest);
        [x] + rest
  }

  /** A first element whose key does not recur is the last of its key, and goes in front of the deduplicated rest. */
  lemma DedupeLastNewKey<T, K>(x: T, tail: seq<T>, key: T -> K, rest: seq<T>)
    requires !HasKey(tail, key, key(x))
    requires KeysDistinct(rest, key)
    requires forall k :: HasKey(rest, key, k) <==> HasKey(tail, key, k)
    requires forall i :: 0 <= i < |rest| ==> HasKey(tail, key, key(rest[i])) && rest[i] == LastWithKey(tail, key, key(rest[i]))
    ensures KeysDistinct([x] + rest, key)
    ensures forall k :: HasKey([x] + rest, key, k) <==> HasKey([x] + tail, key, k)
    ensures forall i :: 0 <= i < |rest| + 1 ==>
      HasKey([x] + tail, key, key(([x] + rest)[i])) && ([x] + rest)[i] == LastWithKey([x] + tail, key, key(([x] + rest)[i]))
  {
    var r, s := [x] + rest, [x] + tail;
    forall k ensures HasKey(r, key, k) <==> HasKey(s, key, k) {
      HasKeyPrepend(x, tail, key, k);
      HasKeyPrepend(x, rest, key, k);
    }
    forall i | 0 <= i < |rest| ensures key(rest[i]) != key(x) {
      assert HasKey(rest, key, key(rest[i]));
    }
    forall i, j | 0 <= i < j < |r| ensures key(r[i]) != key(r[j]) {
      assert r[j] == rest[j - 1];
      if i > 0 { assert r[i] == rest[i - 1]; }
    }
    LastWithKeyNew(x, tail, key);
    forall i | 0 <= i < |r| ensures HasKey(s, key, key(r[i])) && r[i] == LastWithKey(s, key, key(r[i])) {
      if i > 0 {
        assert r[i] == rest[i - 1];
        LastWithKeyPrepend(x, tail, key, key(rest[i - 1]));
      }
    }
  }

  /** Two elements: the first is dropped exactly when the second repeats its key. */
  lemma DedupeLastPair<T, K(!new)>(x: T, y: T, key: T -> K)
    ensures DedupeLast([x, y], key) == if key(x) == key(y) then [y] else [x, y]
  {
    assert [x, y][1..] == [y];
    assert [y][1..] == [];
    assert HasKey([y], key, key(x)) <==> key(x) == key(y) by {
      assert [y][0] == y;
    }
  }

  /** Deduplicating keeps, for every key, the element a lookup of the first one finds. */
  lemma FirstWithKeyDedupe<T, K(!new)>(s: seq<T>, key: T -> K, k: K)
    requires HasKey(s, key, k)
    ensures HasKey(DedupeFirst(s, key), key, k) && FirstWithKey(DedupeFirst(s, key), key, k) == FirstWithKey(s, key, k)
  {
    var r := DedupeFirst(s, key);
    var x := FirstWithKey(r, key, k);
    var i :| 0 <= i < |r| && r[i] == x;
  }

  /** Deduplicating keeps, for every key, the element a lookup of the last one finds. */
  lemma LastWithKeyDedupe<T, K(!new)>(s: seq<T>, key: T -> K, k: K)
    requires HasKey(s, key, k)
    ensures HasKey(DedupeLast(s, key), key, k) && LastWithKey(DedupeLast(s, key), key, k) == LastWithKey(s, key, k)
  {
    var r := DedupeLast(s, key);
    var x := LastWithKey(r, key, k);
    var i :| 0 <= i < |r| && r[i] == x;
  }

  /** The latest element with a key absent from the second part comes from the first part. */
  lemma {:induction false} LastWithKeySkip<T, K>(a: seq<T>, b: seq<T>, key: T -> K, k: K)
    requires HasKey(a, key, k) && !HasKey(b, key, k)
    ensures HasKey(a + b, key, k) && LastWithKey(a + b, key, k) == LastWithKey(a, key, k)
  {
    HasKeyConcat(a, b, key, k);
    if b != [] {
      assert key(b[|b| - 1]) != k;
      assert (a + b)[..|a + b| - 1] == a + b[..|b| - 1];
      LastWithKeySkip(a, b[..|b| - 1], key, k);
    } else {
      assert a + b == a;
    }
  }

  /** No element occurs twice. */
  ghost predicate NoDuplicates<T>(s: seq<T>)
  {
    forall i, j :: 0 <= i < j < |s| ==> s[i] != s[j]
  }

  function Id<T>(x: T): T { x }

  /** `pd.unique` / `list(set(...))`: the distinct elements of `s` (first occurrences). */
  function Distinct<T(==,!new)>(s: seq<T>): (r: seq<T>)
    ensures NoDuplicates(r)
    ensures forall x :: x in r <==> x in s
  {
    var r := DedupeFirst(s, Id);
    assert forall x :: x in r <==> x in s by {
      forall x ensures x in r <==> x in s {
        if x in r {
          var i :| 0 <= i < |r| && r[i] == x;
          assert Id(r[i]) == x;
          assert HasKey(r, Id, x);
        }
        if x in s {
          var i :| 0 <= i < |s| && s[i] == x;
          assert Id(s[i]) == x;
          assert HasKey(s, Id, x);
          var j :| 0 <= j < |r| && Id(r[j]) == x;
        }
      }
    }
    r
  }

  /** The order of `sort_values(ascending=False)` on an optional date: later dates first, missing last. */
  predicate RankGeq(a: Option<int>, b: Option<int>)
  {
    match a
    case Some(x) => b.None? || x >= b.value
    case None => b.None?
  }

  ghost predicate SortedByRank<T>(s: seq<T>, rank: T -> Option<int>)
  {
    forall i, j :: 0 <= i < j < |s| ==> RankGeq(rank(s[i]), rank(s[j]))
  }

  /** Insert `x` before the first element it does not rank below. */
  function Insert<T(==)>(x: T, s: seq<T>, rank: T -> Option<int>): (r: seq<T>)
    requires SortedByRank(s, rank)
    ensures SortedByRank(r, rank)
    ensures multiset(r) == multiset(s) + multiset{x}
    ensures |r| == |s| + 1
    ensures forall i :: 0 <= i < |r| ==> r[i] == x || r[i] in s
  {
    if s == [] || RankGeq(rank(x), rank(s[0])) then [x] + s
    else
      var t := Insert(x, s[1..], rank);
      assert s == [s[0]] + s[1..];
      HeadOutranksInsert(x, s, rank, t);
      PrependSorted(s[0], t, rank);
      [s[0]] + t
  }

  /** The head of a sorted sequence ranks at or above `x`, when `x` ranks below it, and above the rest. */
  lemma HeadOutranksInsert<T>(x: T, s: seq<T>, rank: T -> Option<int>, t: seq<T>)
    requires s != [] && !RankGeq(rank(x), rank(s[0])) && SortedByRank(s, rank)
    requires forall i :: 0 <= i < |t| ==> t[i] == x || t[i] in s[1..]
    ensures forall i :: 0 <= i < |t| ==> RankGeq(rank(s[0]), rank(t[i]))
  {
    forall i | 0 <= i < |t| ensures RankGeq(rank(s[0]), rank(t[i])) {
      if t[i] != x {
        var j :| 0 <= j < |s[1..]| && s[1..][j] == t[i];
        assert s[j + 1] == t[i];
      }
    }
  }

  /** An element ranking at or above every element of a sorted sequence can go in front of it. */
  lemma PrependSorted<T>(h: T, t: seq<T>, rank: T -> Option<int>)
    requires SortedByRank(t, rank)
    requires forall i :: 0 <= i < |t| ==> RankGeq(rank(h), rank(t[i]))
    ensures SortedByRank([h] + t, rank)
  {
    var r := [h] + t;
    forall i, j | 0 <= i < j < |r| ensures RankGeq(rank(r[i]), rank(r[j])) {
      assert r[j] == t[j - 1];
      if i > 0 { assert r[i] == t[i - 1]; }
    }
  }

  /** A stable insertion sort by rank; sorted, and a permutation of the input. */
  function SortByRank<T(==)>(s: seq<T>, rank: T -> Option<int>): (r: seq<T>)
    ensures SortedByRank(r, rank)
    ensures multiset(r) == multiset(s)
    ensures |r| == |s|
  {
    if s == [] then []
    else
      assert s == [s[0]] + s[1..];
      Insert(s[0], SortByRank(s[1..], rank), rank)
  }

  /** Sorting two copies of one element gives those two copies. */
  lemma SortTwins<T>(x: T, rank: T -> Option<int>)
    ensures SortByRank([x, x], rank) == [x, x]
  {
    var r := SortByRank([x, x], rank);
    assert multiset(r) == multiset{x, x};
    assert r[0] in multiset(r) && r[1] in multiset(r);
  }

  /**
   * Sorting a sequence that is already in order, with no two ranks equal,
   * changes nothing.  Ties are left out: the order of equal ranks is not
   * something an unstable sort keeps.
   */
  lemma {:induction false} SortSorted<T>(s: seq<T>, rank: T -> Option<int>)
    requires SortedByRank(s, rank)
    requires forall i, j :: 0 <= i < j < |s| ==> rank(s[i]) != rank(s[j])
    ensures SortByRank(s, rank) == s
  {
    if s != [] {
      assert SortedByRank(s[1..], rank) by {
        forall i, j | 0 <= i < j < |s[1..]| ensures RankGeq(rank(s[1..][i]), rank(s[1..][j])) {
          assert s[1..][i] == s[i + 1] && s[1..][j] == s[j + 1];
        }
      }
      assert forall i, j :: 0 <= i < j < |s[1..]| ==> rank(s[1..][i]) != rank(s[1..][j]) by {
        forall i, j | 0 <= i < j < |s[1..]| ensures rank(s[1..][i]) != rank(s[1..][j]) {
          assert s[1..][i] == s[i + 1] && s[1..][j] == s[j + 1];
        }
      }
      SortSorted(s[1..], rank);
      assert s == [s[0]] + s[1..];
    }
  }

  /** A sequence whose keys are already distinct is its own first-occurrence dedupe. */
  lemma {:induction false} DedupeFirstDistinct<T, K(!new)>(s: seq<T>, key: T -> K)
    requires KeysDistinct(s, key)
    ensures DedupeFirst(s, key) == s
  {
    if s != [] {
      var init, x := s[..|s| - 1], s[|s| - 1];
      assert s == init + [x];
      DedupeFirstDistinct(init, key);
      assert !HasKey(init, key, key(x)) by {
        forall i | 0 <= i < |init| ensures key(init[i]) != key(x) {
          assert init[i] == s[i];
        }
      }
    }
  }

  /** With distinct keys, no element occurs more than once. */
  lemma {:induction false} DistinctKeysCountOnce<T, K>(s: seq<T>, key: T -> K)
    requires KeysDistinct(s, key)
    ensures forall x :: multiset(s)[x] <= 1
  {
    if s != [] {
      assert s == [s[0]] + s[1..];
      DistinctKeysCountOnce(s[1..], key);
      assert s[0] !in s[1..] by {
        forall i | 0 <= i < |s[1..]| ensures s[1..][i] != s[0] {
          assert key(s[i + 1]) != key(s[0]);
        }
      }
    }
  }

  /** An element at two positions occurs at least twice. */
  lemma CountTwice<T>(s: seq<T>, i: int, j: int)
    requires 0 <= i < j < |s| && s[i] == s[j]
    ensures multiset(s)[s[i]] >= 2
  {
    assert s == s[..j] + s[j..];
    assert s[i] in s[..j];
    assert s[j] in s[j..];
  }

  /** Reordering keeps keys distinct. */
  lemma PermutationKeysDistinct<T, K>(a: seq<T>, b: seq<T>, key: T -> K)
    requires multiset(a) == multiset(b) && KeysDistinct(a, key)
    ensures KeysDistinct(b, key)
  {
    DistinctKeysCountOnce(a, key);
    forall i, j | 0 <= i < j < |b| ensures key(b[i]) != key(b[j]) {
      assert b[i] in multiset(a) && b[j] in multiset(a);
      var p :| 0 <= p < |a| && a[p] == b[i];
      var q :| 0 <= q < |a| && a[q] == b[j];
      if p == q {
        CountTwice(b, i, j);
        assert false;
      }
    }
  }

  /** Reordering keeps the same keys, and every element of the reordering comes from the original. */
  lemma PermutationHasKey<T, K>(a: seq<T>, b: seq<T>, key: T -> K)
    requires multiset(a) == multiset(b)
    ensures forall k :: HasKey(a, key, k) <==> HasKey(b, key, k)
    ensures forall i :: 0 <= i < |b| ==> b[i] in a
  {
    forall i | 0 <= i < |b| ensures b[i] in a {
      assert b[i] in multiset(a);
    }
    forall k ensures HasKey(a, key, k) <==> HasKey(b, key, k) {
      if HasKey(a, key, k) {
        var i :| 0 <= i < |a| && key(a[i]) == k;
        assert a[i] in multiset(b);
        var j :| 0 <= j < |b| && b[j] == a[i];
      }
      if HasKey(b, key, k) {
        var j :| 0 <= j < |b| && key(b[j]) == k;
        var i :| 0 <= i < |a| && a[i] == b[j];
      }
    }
  }

  /** Matching the head of one reordering against the other leaves two reorderings of the rest. */
  lemma PermutationRemoveHead<T>(a: seq<T>, b: seq<T>) returns (i: nat)
    requires multiset(a) == multiset(b) && a != []
    ensures i < |b| && b[i] == a[0]
    ensures multiset(a[1..]) == multiset(b[..i] + b[i + 1..])
  {
    assert a[0] in multiset(b);
    i :| 0 <= i < |b| && b[i] == a[0];
    assert b == b[..i] + [b[i]] + b[i + 1..];
    assert multiset(b) == multiset(b[..i]) + multiset{b[i]} + multiset(b[i + 1..]);
    assert multiset(b[..i] + b[i + 1..]) == multiset(b[..i]) + multiset(b[i + 1..]);
    assert a == [a[0]] + a[1..];
    assert multiset(a) == multiset{a[0]} + multiset(a[1..]);
    assert multiset(a[1..]) == multiset(a) - multiset{a[0]};
    assert multiset(b[..i] + b[i + 1..]) == multiset(b) - multiset{a[0]};
  }
}
