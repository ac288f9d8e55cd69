/**
 * The result demultiplexer shared by the batch functions: the rows a storage
 * query returned, in whatever order storage chose, are accumulated into a
 * record keyed by a key field (one row per key, or a bucket of rows per key),
 * and each requested key is then looked up in that record, so that output
 * position i answers requested key i.
 *
 * The accumulating `reduce` loops are the methods IndexByKey and GroupByKey;
 * what they compute is specified by two independent reference definitions,
 * LastWithKey (search the rows from the end) and Matching (filter the rows in
 * storage order). ByKey and Grouped are the whole outputs, one slot per key.
 */
module Demux {
  import opened Wrappers
  import opened Rows

  /** The record's entry for `k`, if any. */
  function Get<V>(m: map<Key, V>, k: Key): Option<V>
  {
    if k in m then Some(m[k]) else None
  }

  /** Row `j` is the last row in storage order whose key is `k`. */
  ghost predicate IsLastWithKey<R>(rows: seq<R>, key: R -> Key, k: Key, j: int)
  {
    && 0 <= j < |rows|
    && key(rows[j]) == k
    && forall j' :: j < j' < |rows| ==> key(rows[j']) != k
  }

  /** Reference definition: the last row whose key is `k`, found by scanning from the end. */
  function LastWithKey<R>(rows: seq<R>, key: R -> Key, k: Key): Option<R>
    decreases |rows|
  {
    if rows == [] then None
    else if key(rows[|rows| - 1]) == k then Some(rows[|rows| - 1])
    else LastWithKey(rows[..|rows| - 1], key, k)
  }

  /** LastWithKey finds nothing exactly when no row has key `k`, and otherwise the last such row. */
  lemma {:induction false} LastWithKeyFinds<R>(rows: seq<R>, key: R -> Key, k: Key)
    ensures LastWithKey(rows, key, k).None? <==> forall j :: 0 <= j < |rows| ==> key(rows[j]) != k
    ensures LastWithKey(rows, key, k).Some? ==>
              exists j :: IsLastWithKey(rows, key, k, j) && rows[j] == LastWithKey(rows, key, k).value
    decreases |rows|
  {
    if rows != [] {
      var n := |rows| - 1;
      if key(rows[n]) == k {
        assert IsLastWithKey(rows, key, k, n);
      } else {
        var prefix := rows[..n];
        LastWithKeyFinds(prefix, key, k);
        assert forall j :: 0 <= j < n ==> rows[j] == prefix[j];
        if LastWithKey(prefix, key, k).Some? {
          var j :| IsLastWithKey(prefix, key, k, j) && prefix[j] == LastWithKey(prefix, key, k).value;
          assert IsLastWithKey(rows, key, k, j);
        }
      }
    }
  }

  /**
   * The `reduce` that builds a key-to-row record with `acc[key(cur)] = cur`:
   * a later row with the same key overwrites an earlier one.
   */
  method IndexByKey<R>(rows: seq<R>, key: R -> Key) returns (acc: map<Key, R>)
    ensures forall k :: Get(acc, k) == LastWithKey(rows, key, k)
  {
    acc := map[];
    var i := 0;
    while i < |rows|
      invariant 0 <= i <= |rows|
      invariant forall k :: Get(acc, k) == LastWithKey(rows[..i], key, k)
    {
      acc := acc[key(rows[i]) := rows[i]];
      i := i + 1;
      assert rows[..i][..i - 1] == rows[..i - 1];
    }
    assert rows[..i] == rows;
  }

  /** JavaScript's `acc[id]`, and `acc[id] || missing` when the row is missing. */
  function FoundOr<R>(o: Option<R>, missing: Lookup<R>): Lookup<R>
  {
    match o
    case Some(r) => Found(r)
    case None => missing
  }

  /**
   * The output of a by-key batch function: slot i holds the last returned row
   * whose key is `ids[i]`, or the marker `missing`.
   */
  function ByKey<R>(ids: seq<Key>, rows: seq<R>, key: R -> Key, missing: Lookup<R>): (out: seq<Lookup<R>>)
    ensures |out| == |ids|
    ensures forall i, j :: 0 <= i < |ids| && 0 <= j < |ids| && ids[i] == ids[j] ==> out[i] == out[j]
  {
    seq(|ids|, i requires 0 <= i < |ids| => FoundOr(LastWithKey(rows, key, ids[i]), missing))
  }

  /**
   * Slot i of a by-key output is the marker exactly when no returned row has
   * key `ids[i]`; otherwise it is the last returned row with that key.
   */
  lemma ByKeyAt<R>(ids: seq<Key>, rows: seq<R>, key: R -> Key, missing: Lookup<R>, i: nat)
    requires i < |ids| && !missing.Found?
    ensures ByKey(ids, rows, key, missing)[i] == missing <==>
              forall j :: 0 <= j < |rows| ==> key(rows[j]) != ids[i]
    ensures ByKey(ids, rows, key, missing)[i].Found? ==>
              exists j :: IsLastWithKey(rows, key, ids[i], j) && ByKey(ids, rows, key, missing)[i].value == rows[j]
  {
    LastWithKeyFinds(rows, key, ids[i]);
  }

  /** No two returned rows share a key. */
  ghost predicate UniqueKeys<R>(rows: seq<R>, key: R -> Key)
  {
    forall i, j :: 0 <= i < j < |rows| ==> key(rows[i]) != key(rows[j])
  }

  /** With unique keys, the row found for `k` is simply the returned row with key `k`. */
  lemma UniqueKeyLookup<R>(rows: seq<R>, key: R -> Key, k: Key, r: R)
    requires UniqueKeys(rows, key)
    ensures LastWithKey(rows, key, k) == Some(r) <==> r in rows && key(r) == k
  {
  }

  /** With unique keys, each value occurs at most once. */
  lemma {:induction false} UniqueKeysOccurOnce<R>(rows: seq<R>, key: R -> Key, x: R)
    requires UniqueKeys(rows, key)
    ensures multiset(rows)[x] <= 1
    decreases |rows|
  {
    if rows != [] {
      var n := |rows| - 1;
      var prefix := rows[..n];
      assert rows == prefix + [rows[n]];
      assert UniqueKeys(prefix, key) by {
        assert forall j :: 0 <= j < n ==> prefix[j] == rows[j];
      }
      UniqueKeysOccurOnce(prefix, key, x);
      if rows[n] == x {
        forall p | 0 <= p < n
          ensures prefix[p] != x
        {
          assert key(rows[p]) != key(rows[n]);
        }
        assert x !in prefix;
      }
    }
  }

  /** Two positions holding the same value make its multiplicity at least two. */
  lemma TwiceInSeq<R>(s: seq<R>, i: nat, j: nat)
    requires i < j < |s| && s[i] == s[j]
    ensures multiset(s)[s[i]] >= 2
  {
    assert s == s[..j] + [s[j]] + s[j + 1..];
    assert s[i] in s[..j];
    assert multiset(s[..j])[s[i]] >= 1;
  }

  /** Reordering rows with unique keys keeps the keys unique. */
  lemma UniqueKeysPermutation<R>(rows: seq<R>, rows': seq<R>, key: R -> Key)
    requires UniqueKeys(rows, key) && multiset(rows) == multiset(rows')
    ensures UniqueKeys(rows', key)
  {
    forall i, j | 0 <= i < j < |rows'|
      ensures key(rows'[i]) != key(rows'[j])
    {
      assert rows'[i] != rows'[j] by {
        if rows'[i] == rows'[j] {
          UniqueKeysOccurOnce(rows, key, rows'[i]);
          TwiceInSeq(rows', i, j);
        }
      }
      assert rows'[i] in multiset(rows) && rows'[j] in multiset(rows);
      var p :| 0 <= p < |rows| && rows[p] == rows'[i];
      var q :| 0 <= q < |rows| && rows[q] == rows'[j];
      assert p < q ==> key(rows[p]) != key(rows[q]);
      assert q < p ==> key(rows[q]) != key(rows[p]);
    }
  }

  /**
   * When the returned rows have unique keys, the by-key output does not depend
   * on the order in which storage returned them.
   */
  lemma ByKeyOrderIndependent<R>(ids: seq<Key>, rows: seq<R>, rows': seq<R>, key: R -> Key, missing: Lookup<R>)
    requires UniqueKeys(rows, key) && multiset(rows) == multiset(rows')
    ensures ByKey(ids, rows, key, missing) == ByKey(ids, rows', key, missing)
  {
    UniqueKeysPermutation(rows, rows', key);
    forall i | 0 <= i < |ids|
      ensures LastWithKey(rows, key, ids[i]) == LastWithKey(rows', key, ids[i])
    {
      var k := ids[i];
      LastWithKeyFinds(rows, key, k);
      LastWithKeyFinds(rows', key, k);
      var a := LastWithKey(rows, key, k);
      if a.Some? {
        UniqueKeyLookup(rows, key, k, a.value);
        assert a.value in multiset(rows');
        UniqueKeyLookup(rows', key, k, a.value);
      } else {
        forall j | 0 <= j < |rows'|
          ensures key(rows'[j]) != k
        {
          assert rows'[j] in multiset(rows);
          var p :| 0 <= p < |rows| && rows[p] == rows'[j];
        }
      }
    }
  }

  /** Reference definition: the projections of the rows whose key is `k`, in storage order. */
  function Matching<R, V>(rows: seq<R>, key: R -> Key, proj: R -> V, k: Key): seq<V>
    decreases |rows|
  {
    if rows == [] then []
    else
      var n := |rows| - 1;
      Matching(rows[..n], key, proj, k) + (if key(rows[n]) == k then [proj(rows[n])] else [])
  }

  /** A value is in the bucket for `k` exactly when it projects some row with key `k`. */
  lemma {:induction false} MatchingMembers<R, V>(rows: seq<R>, key: R -> Key, proj: R -> V, k: Key, v: V)
    ensures v in Matching(rows, key, proj, k) <==>
              exists j :: 0 <= j < |rows| && key(rows[j]) == k && proj(rows[j]) == v
    decreases |rows|
  {
    if rows != [] {
      var n := |rows| - 1;
      MatchingMembers(rows[..n], key, proj, k, v);
      assert forall j :: 0 <= j < n ==> rows[..n][j] == rows[j];
    }
  }

  /** The bucket for `k` is empty exactly when no row has key `k`. */
  lemma {:induction false} MatchingEmpty<R, V>(rows: seq<R>, key: R -> Key, proj: R -> V, k: Key)
    ensures Matching(rows, key, proj, k) == [] <==> forall j :: 0 <= j < |rows| ==> key(rows[j]) != k
    decreases |rows|
  {
    if rows != [] {
      var n := |rows| - 1;
      MatchingEmpty(rows[..n], key, proj, k);
      assert forall j :: 0 <= j < n ==> rows[..n][j] == rows[j];
    }
  }

  /** Buckets keep storage order: the rows of `a` come before the rows of `b`. */
  lemma {:induction false} MatchingConcat<R, V>(a: seq<R>, b: seq<R>, key: R -> Key, proj: R -> V, k: Key)
    ensures Matching(a + b, key, proj, k) == Matching(a, key, proj, k) + Matching(b, key, proj, k)
    decreases |b|
  {
    if b == [] {
      assert a + b == a;
    } else {
      var n := |b| - 1;
      assert (a + b)[..|a + b| - 1] == a + b[..n];
      MatchingConcat(a, b[..n], key, proj, k);
    }
  }

  /**
   * The `reduce` that builds a key-to-bucket record: the first row with a key
   * creates its bucket `[proj(cur)]`, later ones are pushed onto it.
   */
  method GroupByKey<R, V>(rows: seq<R>, key: R -> Key, proj: R -> V) returns (acc: map<Key, seq<V>>)
    ensures forall k :: k in acc <==> Matching(rows, key, proj, k) != []
    ensures forall k :: k in acc ==> acc[k] == Matching(rows, key, proj, k)
  {
    acc := map[];
    var i := 0;
    while i < |rows|
      invariant 0 <= i <= |rows|
      invariant forall k :: k in acc <==> Matching(rows[..i], key, proj, k) != []
      invariant forall k :: k in acc ==> acc[k] == Matching(rows[..i], key, proj, k)
    {
      var k := key(rows[i]);
      if k in acc {
        acc := acc[k := acc[k] + [proj(rows[i])]];
      } else {
        acc := acc[k := [proj(rows[i])]];
      }
      i := i + 1;
      assert rows[..i][..i - 1] == rows[..i - 1];
    }
    assert rows[..i] == rows;
  }

  /** The output of a grouping batch function: slot i holds the bucket for `ids[i]`. */
  function Grouped<R, V>(ids: seq<Key>, rows: seq<R>, key: R -> Key, proj: R -> V): (out: seq<seq<V>>)
    ensures |out| == |ids|
    ensures forall i, j :: 0 <= i < |ids| && 0 <= j < |ids| && ids[i] == ids[j] ==> out[i] == out[j]
  {
    seq(|ids|, i requires 0 <= i < |ids| => Matching(rows, key, proj, ids[i]))
  }

  /** The number of values in all buckets together. */
  function TotalSize<V>(buckets: seq<seq<V>>): nat
  {
    if buckets == [] then 0 else |buckets[0]| + TotalSize(buckets[1..])
  }

  /** No key is requested twice. */
  ghost predicate Distinct(ids: seq<Key>)
  {
    forall i, j :: 0 <= i < j < |ids| ==> ids[i] != ids[j]
  }

  /** What a `findMany` with `where key in ids` guarantees: every returned row's key was requested. */
  ghost predicate KeysRequested<R>(rows: seq<R>, key: R -> Key, ids: seq<Key>)
  {
    forall j :: 0 <= j < |rows| ==> key(rows[j]) in ids
  }

  /** Adding one row adds one value to the buckets when its key is requested, and none otherwise. */
  lemma {:induction false} GroupedSnoc<R, V>(ids: seq<Key>, rows: seq<R>, r: R, key: R -> Key, proj: R -> V)
    requires Distinct(ids)
    ensures TotalSize(Grouped(ids, rows + [r], key, proj)) ==
              TotalSize(Grouped(ids, rows, key, proj)) + (if key(r) in ids then 1 else 0)
    decreases |ids|
  {
    if ids != [] {
      var rest := ids[1..];
      assert Distinct(rest) by {
        assert forall j :: 0 <= j < |rest| ==> rest[j] == ids[j + 1];
      }
      GroupedSnoc(rest, rows, r, key, proj);
      assert Grouped(ids, rows + [r], key, proj)[1..] == Grouped(rest, rows + [r], key, proj);
      assert Grouped(ids, rows, key, proj)[1..] == Grouped(rest, rows, key, proj);
      assert (rows + [r])[..|rows|] == rows;
      assert key(r) in ids <==> key(r) == ids[0] || key(r) in rest;
      assert key(r) == ids[0] ==> key(r) !in rest;
    }
  }

  /**
   * Each returned row lands in exactly one bucket: with distinct keys and
   * every row's key requested, the bucket sizes add up to the number of rows.
   */
  lemma {:induction false} EveryRowInOneBucket<R, V>(ids: seq<Key>, rows: seq<R>, key: R -> Key, proj: R -> V)
    requires Distinct(ids) && KeysRequested(rows, key, ids)
    ensures TotalSize(Grouped(ids, rows, key, proj)) == |rows|
    decreases |rows|
  {
    if rows == [] {
      GroupedOfNoRows(ids, key, proj);
    } else {
      var n := |rows| - 1;
      var prefix := rows[..n];
      assert KeysRequested(prefix, key, ids) by {
        assert forall j :: 0 <= j < n ==> prefix[j] == rows[j];
      }
      EveryRowInOneBucket(ids, prefix, key, proj);
      assert rows == prefix + [rows[n]];
      GroupedSnoc(ids, prefix, rows[n], key, proj);
    }
  }

  /** With no rows every bucket is empty. */
  lemma {:induction false} GroupedOfNoRows<R, V>(ids: seq<Key>, key: R -> Key, proj: R -> V)
    ensures TotalSize(Grouped(ids, [], key, proj)) == 0
    decreases |ids|
  {
    if ids != [] {
      assert Grouped(ids, [], key, proj)[1..] == Grouped(ids[1..], [], key, proj);
      GroupedOfNoRows(ids[1..], key, proj);
    }
  }
}
