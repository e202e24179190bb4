/**
 The pandas operations that build_textual_innovation_indicators.py relies
 on: `groupby(key).mean()` over (key, value) rows, `pd.concat` of several
 frames, and a left `merge` on a key column.
 */
module Grouping {
  import opened Options

  /** Rows are grouped and merged on PaperID, a string column. */
  type Key = string

  /** No key occurs twice among the rows. */
  predicate UniqueKeys<V>(rows: seq<(Key, V)>)
  {
    forall i, j | 0 <= i < j < |rows| :: rows[i].0 != rows[j].0
  }

  /** Some row carries key `k`. */
  predicate HasKey<V>(rows: seq<(Key, V)>, k: Key)
  {
    exists i | 0 <= i < |rows| :: rows[i].0 == k
  }

  /** The keys of the rows, each once, in order of first appearance. */
  function DistinctKeys<V>(rows: seq<(Key, V)>): (ks: seq<Key>)
    ensures forall i, j | 0 <= i < j < |ks| :: ks[i] != ks[j]
    ensures forall k :: k in ks <==> HasKey(rows, k)
  {
    if rows == [] then []
    else
      var init := rows[..|rows| - 1];
      var ks := DistinctKeys(init);
      assert forall k | HasKey(init, k) :: HasKey(rows, k) by {
        forall k | HasKey(init, k) ensures HasKey(rows, k) {
          var i :| 0 <= i < |init| && init[i].0 == k;
          assert rows[i].0 == k;
        }
      }
      assert forall k | HasKey(rows, k) && k != rows[|rows| - 1].0 :: HasKey(init, k) by {
        forall k | HasKey(rows, k) && k != rows[|rows| - 1].0 ensures HasKey(init, k) {
          var i :| 0 <= i < |rows| && rows[i].0 == k;
          assert init[i].0 == k;
        }
      }
      if rows[|rows| - 1].0 in ks then ks else ks + [rows[|rows| - 1].0]
  }

  /** The sum of the values of the rows with key `k`. */
  function Sum(rows: seq<(Key, real)>, k: Key): real
  {
    if rows == [] then 0.0
    else Sum(rows[..|rows| - 1], k) + (if rows[|rows| - 1].0 == k then rows[|rows| - 1].1 else 0.0)
  }

  /** The number of rows with key `k`. */
  function Count<V>(rows: seq<(Key, V)>, k: Key): (n: nat)
    ensures n <= |rows|
  {
    if rows == [] then 0
    else Count(rows[..|rows| - 1], k) + (if rows[|rows| - 1].0 == k then 1 else 0)
  }

  lemma {:induction false} CountPositive<V>(rows: seq<(Key, V)>, k: Key)
    ensures Count(rows, k) > 0 <==> HasKey(rows, k)
  {
    if rows != [] {
      var init := rows[..|rows| - 1];
      CountPositive(init, k);
      if HasKey(rows, k) && rows[|rows| - 1].0 != k {
        var i :| 0 <= i < |rows| && rows[i].0 == k;
        assert init[i].0 == k;
      }
      if HasKey(init, k) {
        var i :| 0 <= i < |init| && init[i].0 == k;
        assert rows[i].0 == k;
      }
    }
  }

  /** The mean of the values of the rows with key `k`. */
  function Mean(rows: seq<(Key, real)>, k: Key): real
    requires HasKey(rows, k)
  {
    CountPositive(rows, k);
    Sum(rows, k) / Count(rows, k) as real
  }

  /** `groupby(key)[value].mean().reset_index()`: one row per key with the mean of its values. */
  function GroupMean(rows: seq<(Key, real)>): seq<(Key, real)>
  {
    var ks := DistinctKeys(rows);
    seq(|ks|, j requires 0 <= j < |ks| => (ks[j], Mean(rows, ks[j])))
  }

  /**
   The grouped mean has exactly one row per key of its input, no key twice,
   and each row holds the mean of that key's values.
   */
  lemma GroupMeanRows(rows: seq<(Key, real)>)
    ensures UniqueKeys(GroupMean(rows))
    ensures forall k :: HasKey(GroupMean(rows), k) <==> HasKey(rows, k)
    ensures forall j | 0 <= j < |GroupMean(rows)| ::
      HasKey(rows, GroupMean(rows)[j].0) && GroupMean(rows)[j].1 == Mean(rows, GroupMean(rows)[j].0)
  {
    var g := GroupMean(rows);
    var ks := DistinctKeys(rows);
    forall k
      ensures HasKey(g, k) <==> HasKey(rows, k)
    {
      if HasKey(rows, k) {
        var j :| 0 <= j < |ks| && ks[j] == k;
        assert g[j].0 == k;
      }
    }
  }

  // ---------------------------------------------------------------------
  // Sums and counts over concatenations
  // ---------------------------------------------------------------------

  lemma {:induction false} SumConcat(a: seq<(Key, real)>, b: seq<(Key, real)>, k: Key)
    ensures Sum(a + b, k) == Sum(a, k) + Sum(b, k)
    decreases |b|
  {
    if b == [] {
      assert a + b == a;
    } else {
      var ab := a + b;
      assert ab[..|ab| - 1] == a + b[..|b| - 1];
      assert ab[|ab| - 1] == b[|b| - 1];
      SumConcat(a, b[..|b| - 1], k);
    }
  }

  lemma {:induction false} CountConcat<V>(a: seq<(Key, V)>, b: seq<(Key, V)>, k: Key)
    ensures Count(a + b, k) == Count(a, k) + Count(b, k)
    decreases |b|
  {
    if b == [] {
      assert a + b == a;
    } else {
      var ab := a + b;
      assert ab[..|ab| - 1] == a + b[..|b| - 1];
      assert ab[|ab| - 1] == b[|b| - 1];
      CountConcat(a, b[..|b| - 1], k);
    }
  }

  /** `pd.concat(parts, ignore_index=True)`: the parts' rows, part after part. */
  function Flatten<T>(parts: seq<seq<T>>): (r: seq<T>)
    ensures |parts| == 0 ==> r == []
  {
    if parts == [] then [] else Flatten(parts[..|parts| - 1]) + parts[|parts| - 1]
  }

  /** The value stored under `k` in rows with unique keys, or None. */
  function Lookup<V>(rows: seq<(Key, V)>, k: Key): (r: Option<V>)
    ensures r.Some? <==> HasKey(rows, k)
    ensures r.Some? ==> exists i | 0 <= i < |rows| :: rows[i] == (k, r.value)
  {
    if rows == [] then None
    else if rows[0].0 == k then Some(rows[0].1)
    else
      var r := Lookup(rows[1..], k);
      assert HasKey(rows, k) ==> HasKey(rows[1..], k) by {
        if HasKey(rows, k) {
          var i :| 0 <= i < |rows| && rows[i].0 == k;
          assert rows[1..][i - 1].0 == k;
        }
      }
      assert r.Some? ==> exists i | 0 <= i < |rows| :: rows[i] == (k, r.value) by {
        if r.Some? {
          var i :| 0 <= i < |rows[1..]| && rows[1..][i] == (k, r.value);
          assert rows[i + 1] == (k, r.value);
        }
      }
      r
  }

  /** In rows with unique keys, the row with key `k` contributes its value once to the sum and count. */
  lemma {:induction false} UniqueSumCount(rows: seq<(Key, real)>, k: Key)
    requires UniqueKeys(rows)
    ensures Count(rows, k) == (if HasKey(rows, k) then 1 else 0)
    ensures Sum(rows, k) == (if HasKey(rows, k) then Lookup(rows, k).value else 0.0)
  {
    if rows != [] {
      var init := rows[..|rows| - 1];
      var last := rows[|rows| - 1];
      UniqueSumCount(init, k);
      if last.0 == k {
        assert !HasKey(init, k);
        var i :| 0 <= i < |rows| && rows[i] == (k, Lookup(rows, k).value);
        assert i == |rows| - 1;
      } else {
        assert HasKey(rows, k) <==> HasKey(init, k) by {
          if HasKey(rows, k) {
            var i :| 0 <= i < |rows| && rows[i].0 == k;
            assert init[i].0 == k;
          }
          if HasKey(init, k) {
            var i :| 0 <= i < |init| && init[i].0 == k;
            assert rows[i].0 == k;
          }
        }
        if HasKey(init, k) {
          var i :| 0 <= i < |rows| && rows[i] == (k, Lookup(rows, k).value);
          var j :| 0 <= j < |init| && init[j] == (k, Lookup(init, k).value);
          assert rows[j].0 == k;
        }
      }
    }
  }

  // ---------------------------------------------------------------------
  // Left merge
  // ---------------------------------------------------------------------

  /** The right-hand values whose key is `k`, in order. */
  function Matches<V>(right: seq<(Key, V)>, k: Key): seq<V>
  {
    if right == [] then []
    else (if right[0].0 == k then [right[0].1] else []) + Matches(right[1..], k)
  }

  /**
   `left.merge(right, on=key, how="left")`: every left row in order, once
   per matching right row, or once with a missing value when none matches.
   */
  function LeftMerge<L, V>(left: seq<L>, key: L -> Key, right: seq<(Key, V)>): seq<(L, Option<V>)>
  {
    if left == [] then []
    else
      var ms := Matches(right, key(left[0]));
      var expanded := if ms == [] then [(left[0], None)] else seq(|ms|, j requires 0 <= j < |ms| => (left[0], Some(ms[j])));
      expanded + LeftMerge(left[1..], key, right)
  }

  lemma {:induction false} MatchesOfUnique<V>(right: seq<(Key, V)>, k: Key)
    requires UniqueKeys(right)
    ensures Matches(right, k) == if HasKey(right, k) then [Lookup(right, k).value] else []
  {
    if right != [] {
      var tail := right[1..];
      assert UniqueKeys(tail) by {
        forall i, j | 0 <= i < j < |tail| ensures tail[i].0 != tail[j].0 {
          assert tail[i] == right[i + 1] && tail[j] == right[j + 1];
        }
      }
      MatchesOfUnique(tail, k);
      if right[0].0 == k {
        forall i | 0 <= i < |tail|
          ensures tail[i].0 != k
        {
          assert tail[i] == right[i + 1];
        }
      } else {
        assert HasKey(right, k) ==> HasKey(tail, k) by {
          if HasKey(right, k) {
            var i :| 0 <= i < |right| && right[i].0 == k;
            assert tail[i - 1].0 == k;
          }
        }
        assert HasKey(tail, k) ==> HasKey(right, k) by {
          if HasKey(tail, k) {
            var i :| 0 <= i < |tail| && tail[i].0 == k;
            assert right[i + 1].0 == k;
          }
        }
      }
    }
  }

  /**
   When the right side has unique keys, the left merge keeps every left row,
   in order, exactly once, paired with the value stored under its key or a
   missing value.
   */
  lemma {:induction false} LeftMergeOfUnique<L, V>(left: seq<L>, key: L -> Key, right: seq<(Key, V)>)
    requires UniqueKeys(right)
    ensures |LeftMerge(left, key, right)| == |left|
    ensures forall i | 0 <= i < |left| :: LeftMerge(left, key, right)[i] == (left[i], Lookup(right, key(left[i])))
  {
    if left != [] {
      LeftMergeOfUnique(left[1..], key, right);
      MatchesOfUnique(right, key(left[0]));
      var rest := LeftMerge(left[1..], key, right);
      var m := LeftMerge(left, key, right);
      var ms := Matches(right, key(left[0]));
      var head := [(left[0], Lookup(right, key(left[0])))];
      if ms == [] {
        assert m == head + rest;
      } else {
        var expanded := seq(|ms|, j requires 0 <= j < |ms| => (left[0], Some(ms[j])));
        assert expanded == head;
        assert m == head + rest;
      }
      forall i | 0 <= i < |left|
        ensures m[i] == (left[i], Lookup(right, key(left[i])))
      {
        if i > 0 {
          assert m[i] == rest[i - 1] && left[i] == left[1..][i - 1];
        }
      }
    }
  }

  // ---------------------------------------------------------------------
  // Two-stage grouped mean: within chunks, then across chunks
  // ---------------------------------------------------------------------

  /** The grouped mean of every chunk, in chunk order. */
  function ChunkMeans(chunks: seq<seq<(Key, real)>>): (parts: seq<seq<(Key, real)>>)
    ensures |parts| == |chunks|
  {
    seq(|chunks|, c requires 0 <= c < |chunks| => GroupMean(chunks[c]))
  }

  /** The per-chunk means concatenated and averaged again per key. */
  function TwoStageMean(chunks: seq<seq<(Key, real)>>): seq<(Key, real)>
  {
    GroupMean(Flatten(ChunkMeans(chunks)))
  }

  /** The number of chunks holding key `k`. */
  function ChunksWith(chunks: seq<seq<(Key, real)>>, k: Key): (n: nat)
    ensures n <= |chunks|
  {
    if chunks == [] then 0
    else ChunksWith(chunks[..|chunks| - 1], k) + (if HasKey(chunks[|chunks| - 1], k) then 1 else 0)
  }

  /** The sum, over the chunks holding key `k`, of the chunk's mean for `k`. */
  function SumOfChunkMeans(chunks: seq<seq<(Key, real)>>, k: Key): real
  {
    if chunks == [] then 0.0
    else
      var last := chunks[|chunks| - 1];
      SumOfChunkMeans(chunks[..|chunks| - 1], k) + (if HasKey(last, k) then Mean(last, k) else 0.0)
  }

  /** Looking a key up in a grouped mean gives the key's mean, or None when the key never occurs. */
  lemma LookupGroupMean(rows: seq<(Key, real)>, k: Key)
    ensures Lookup(GroupMean(rows), k) == if HasKey(rows, k) then Some(Mean(rows, k)) else None
  {
    GroupMeanRows(rows);
    var g := GroupMean(rows);
    if HasKey(rows, k) {
      var i :| 0 <= i < |g| && g[i] == (k, Lookup(g, k).value);
      assert g[i].1 == Mean(rows, g[i].0);
    }
  }

  lemma {:induction false} FlattenChunkMeans(chunks: seq<seq<(Key, real)>>, k: Key)
    ensures Sum(Flatten(ChunkMeans(chunks)), k) == SumOfChunkMeans(chunks, k)
    ensures Count(Flatten(ChunkMeans(chunks)), k) == ChunksWith(chunks, k)
  {
    if chunks != [] {
      var init := chunks[..|chunks| - 1];
      var last := chunks[|chunks| - 1];
      FlattenChunkMeans(init, k);
      var parts := ChunkMeans(chunks);
      assert parts[..|parts| - 1] == ChunkMeans(init);
      assert Flatten(parts) == Flatten(ChunkMeans(init)) + GroupMean(last);
      SumConcat(Flatten(ChunkMeans(init)), GroupMean(last), k);
      CountConcat(Flatten(ChunkMeans(init)), GroupMean(last), k);
      GroupMeanRows(last);
      UniqueSumCount(GroupMean(last), k);
      LookupGroupMean(last, k);
    }
  }

  /**
   A key's two-stage mean is the unweighted mean of its per-chunk means over
   the chunks that hold it; a key held by no chunk gets no row.
   */
  lemma TwoStageMeanIsMeanOfChunkMeans(chunks: seq<seq<(Key, real)>>, k: Key)
    ensures Lookup(TwoStageMean(chunks), k) ==
      if ChunksWith(chunks, k) > 0 then Some(SumOfChunkMeans(chunks, k) / ChunksWith(chunks, k) as real) else None
  {
    var flat := Flatten(ChunkMeans(chunks));
    FlattenChunkMeans(chunks, k);
    CountPositive(flat, k);
    LookupGroupMean(flat, k);
  }

  lemma {:induction false} ChunksWithPositive(chunks: seq<seq<(Key, real)>>, k: Key)
    ensures ChunksWith(chunks, k) > 0 <==> exists c | 0 <= c < |chunks| :: HasKey(chunks[c], k)
  {
    if chunks != [] {
      var init := chunks[..|chunks| - 1];
      ChunksWithPositive(init, k);
      if exists c | 0 <= c < |init| :: HasKey(init[c], k) {
        var c :| 0 <= c < |init| && HasKey(init[c], k);
        assert chunks[c] == init[c];
      }
      if exists c | 0 <= c < |chunks| :: HasKey(chunks[c], k) {
        var c :| 0 <= c < |chunks| && HasKey(chunks[c], k);
        if c < |init| {
          assert init[c] == chunks[c];
        }
      }
    }
  }

  /**
   The two-stage mean has one row per key held by some chunk, and no key twice.
   */
  lemma TwoStageMeanRows(chunks: seq<seq<(Key, real)>>)
    ensures UniqueKeys(TwoStageMean(chunks))
    ensures forall k :: HasKey(TwoStageMean(chunks), k) <==> exists c | 0 <= c < |chunks| :: HasKey(chunks[c], k)
  {
    GroupMeanRows(Flatten(ChunkMeans(chunks)));
    forall k
      ensures HasKey(TwoStageMean(chunks), k) <==> exists c | 0 <= c < |chunks| :: HasKey(chunks[c], k)
    {
      TwoStageMeanIsMeanOfChunkMeans(chunks, k);
      ChunksWithPositive(chunks, k);
    }
  }

  lemma {:induction false} OnlyChunk(chunks: seq<seq<(Key, real)>>, c: nat, k: Key)
    requires c < |chunks| && HasKey(chunks[c], k)
    requires forall d | 0 <= d < |chunks| && d != c :: !HasKey(chunks[d], k)
    ensures ChunksWith(chunks, k) == 1 && SumOfChunkMeans(chunks, k) == Mean(chunks[c], k)
  {
    var init := chunks[..|chunks| - 1];
    if c < |init| {
      assert init[c] == chunks[c];
      OnlyChunk(init, c, k);
    } else {
      NoChunk(init, k);
    }
  }

  lemma {:induction false} NoChunk(chunks: seq<seq<(Key, real)>>, k: Key)
    requires forall d | 0 <= d < |chunks| :: !HasKey(chunks[d], k)
    ensures ChunksWith(chunks, k) == 0 && SumOfChunkMeans(chunks, k) == 0.0
  {
    if chunks != [] {
      NoChunk(chunks[..|chunks| - 1], k);
    }
  }

  /** A key confined to one chunk gets the plain mean of its values in that chunk. */
  lemma TwoStageMeanOfOneChunk(chunks: seq<seq<(Key, real)>>, c: nat, k: Key)
    requires c < |chunks| && HasKey(chunks[c], k)
    requires forall d | 0 <= d < |chunks| && d != c :: !HasKey(chunks[d], k)
    ensures Lookup(TwoStageMean(chunks), k) == Some(Mean(chunks[c], k))
  {
    OnlyChunk(chunks, c, k);
    TwoStageMeanIsMeanOfChunkMeans(chunks, k);
    var n := ChunksWith(chunks, k);
    assert SumOfChunkMeans(chunks, k) / n as real == Mean(chunks[c], k);
  }

  lemma PushSumCount(rows: seq<(Key, real)>, k: Key, v: real)
    ensures Sum(rows + [(k, v)], k) == Sum(rows, k) + v
    ensures Count(rows + [(k, v)], k) == Count(rows, k) + 1
  {
    assert (rows + [(k, v)])[..|rows|] == rows;
  }

  lemma TwoChunks(a: seq<(Key, real)>, b: seq<(Key, real)>, k: Key)
    requires HasKey(a, k) && HasKey(b, k)
    ensures ChunksWith([a, b], k) == 2 && SumOfChunkMeans([a, b], k) == Mean(a, k) + Mean(b, k)
  {
    var chunks := [a, b];
    var head := chunks[..1];
    assert head == [a] && head[..0] == [] && head[0] == a && chunks[1] == b;
    assert SumOfChunkMeans(head, k) == Mean(a, k) && ChunksWith(head, k) == 1;
  }

  lemma ExampleChunkMeans(k: Key, first: seq<(Key, real)>, second: seq<(Key, real)>)
    requires first == [(k, 0.0), (k, 0.0)] && second == [(k, 3.0)]
    ensures HasKey(first, k) && HasKey(second, k)
    ensures Mean(first, k) == 0.0 && Mean(second, k) == 3.0
    ensures Count(first, k) == 2 && Count(second, k) == 1
  {
    assert first[0].0 == k && second[0].0 == k;
    PushSumCount([], k, 0.0);
    PushSumCount([(k, 0.0)], k, 0.0);
    PushSumCount([], k, 3.0);
    assert [] + [(k, 0.0)] == [(k, 0.0)] && [(k, 0.0)] + [(k, 0.0)] == first && [] + [(k, 3.0)] == second;
  }

  lemma ExamplePooledMean(k: Key, first: seq<(Key, real)>, second: seq<(Key, real)>)
    requires HasKey(first, k) && Mean(first, k) == 0.0 && Count(first, k) == 2
    requires HasKey(second, k) && Mean(second, k) == 3.0 && Count(second, k) == 1
    ensures HasKey(first + second, k) && Mean(first + second, k) == 1.0
  {
    var i :| 0 <= i < |first| && first[i].0 == k;
    assert (first + second)[i].0 == k;
    SumConcat(first, second, k);
    CountConcat(first, second, k);
  }

  /**
   The across-chunk mean weighs chunks, not rows: two rows of 0.0 in one
   chunk and one row of 3.0 in another give 1.5, where the pooled mean of
   the three rows is 1.0.
   */
  lemma TwoStageMeanIsUnweighted(k: Key, first: seq<(Key, real)>, second: seq<(Key, real)>)
    requires first == [(k, 0.0), (k, 0.0)] && second == [(k, 3.0)]
    ensures Lookup(TwoStageMean([first, second]), k) == Some(1.5)
    ensures HasKey(first + second, k) && Mean(first + second, k) == 1.0
  {
    ExampleChunkMeans(k, first, second);
    ExamplePooledMean(k, first, second);
    TwoChunks(first, second, k);
    TwoStageMeanIsMeanOfChunkMeans([first, second], k);
  }
}
