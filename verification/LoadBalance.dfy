/** How evenly sorting and striding spreads a chunk over the shards. */
module LoadBalance {
  import opened Arithmetic
  import opened Sequences
  import opened Grids
  import opened Sharding
  import opened BalancedSharding

  /** The sum of the first k elements of stride s. */
  function StrideSum(lens: seq<int>, shards: nat, s: nat, k: nat): int
    requires k > 0 ==> s + (k - 1) * shards < |lens|
  {
    if k == 0 then 0 else
      assert k > 1 ==> (k - 2) * shards <= (k - 1) * shards by { if k > 1 { SmallerQuotient(k - 2, k - 1, shards); } }
      StrideSum(lens, shards, s, k - 1) + lens[s + (k - 1) * shards]
  }

  /** Of two strides of an ascending sequence, the later one is ahead, but never by more than the spread. */
  lemma {:induction false} StridesClose(lens: seq<int>, shards: nat, s: nat, t: nat, k: nat)
    requires Ascends(lens) && s <= t < shards && k > 0 && t + (k - 1) * shards < |lens|
    ensures 0 <= StrideSum(lens, shards, t, k) - StrideSum(lens, shards, s, k) <= lens[t + (k - 1) * shards] - lens[s]
  {
    if k == 1 {
      assert 0 * shards == 0;
    } else {
      assert (k - 1) * shards == (k - 2) * shards + shards;
      assert (k - 2) * shards >= 0;
      StridesClose(lens, shards, s, t, k - 1);
      assert lens[t + (k - 2) * shards] <= lens[s + (k - 1) * shards];
      assert lens[s + (k - 1) * shards] <= lens[t + (k - 1) * shards];
    }
  }

  lemma {:induction false} SumIsStrideSum(lens: seq<int>, shards: nat, s: nat, picked: seq<int>)
    requires forall k :: 0 <= k < |picked| ==> 0 <= s + k * shards < |lens| && picked[k] == lens[s + k * shards]
    ensures |picked| > 0 ==> s + (|picked| - 1) * shards < |lens|
    ensures Sum(picked) == StrideSum(lens, shards, s, |picked|)
  {
    if picked == [] {
    } else {
      var n := |picked| - 1;
      assert picked[n] == lens[s + n * shards];
      SumIsStrideSum(lens, shards, s, picked[..n]);
      assert picked == picked[..n] + [picked[n]];
      SumSnoc(picked[..n], picked[n]);
    }
  }

  /** Total input length of shard s within chunk c. */
  function ShardLoad<T>(rows: seq<Row<T>>, p: Plan, shards: nat, c: nat, s: nat): int
    requires Fits(p, |rows|, shards) && c < p.chunks && s < shards
    requires AllBelow(StrideGrid(rows, p, shards)[c][s], |rows|)
  {
    Sum(RowLengths(Gather(rows, StrideGrid(rows, p, shards)[c][s])))
  }

  /** Inside a chunk, every shard's rows come in order of length, and the total lengths of any two shards
      differ by no more than the spread of lengths in the chunk. */
  lemma LoadsAreBalanced<T>(rows: seq<Row<T>>, p: Plan, shards: nat, c: nat, s: nat, t: nat, lo: nat, hi: nat)
    requires Fits(p, |rows|, shards) && p.shardSize * shards == p.batchSize && c < p.chunks && s < shards && t < shards
    requires forall i :: 0 <= i < p.batchSize ==> lo <= ChunkOf(rows, p, shards, c)[i].length <= hi
    ensures var grid := StrideGrid(rows, p, shards);
      && AllBelow(grid[c][s], |rows|) && AllBelow(grid[c][t], |rows|)
      && (forall i, j :: 0 <= i < j < |grid[c][s]| ==> rows[grid[c][s][i]].length <= rows[grid[c][s][j]].length)
      && -(hi - lo) <= ShardLoad(rows, p, shards, c, s) - ShardLoad(rows, p, shards, c, t) <= hi - lo
  {
    ShardIsStride(rows, p, shards, c, s);
    ShardIsStride(rows, p, shards, c, t);
    SortedLengthsBounds(rows, p, shards, c, lo, hi);
    assert p.shardSize > 0 by { assert 0 * shards == 0; }
    LastOfStride(p.shardSize, shards, s);
    LastOfStride(p.shardSize, shards, t);
    AnyStridesClose(SortedLengths(rows, p, shards, c), shards, s, t, p.shardSize, lo, hi);
  }

  lemma AnyStridesClose(lens: seq<int>, shards: nat, s: nat, t: nat, k: nat, lo: nat, hi: nat)
    requires Ascends(lens) && s < shards && t < shards && k > 0
    requires s + (k - 1) * shards < |lens| && t + (k - 1) * shards < |lens|
    requires forall i :: 0 <= i < |lens| ==> lo <= lens[i] <= hi
    ensures -(hi - lo) <= StrideSum(lens, shards, s, k) - StrideSum(lens, shards, t, k) <= hi - lo
  {
    assert s <= s + (k - 1) * shards && t <= t + (k - 1) * shards;
    if s <= t {
      StridesClose(lens, shards, s, t, k);
    } else {
      StridesClose(lens, shards, t, s, k);
    }
  }

  lemma LastOfStride(size: nat, shards: nat, s: nat)
    requires size > 0 && s < shards
    ensures s + (size - 1) * shards < size * shards
  {
    assert size * shards == (size - 1) * shards + shards;
  }

  /** The lengths of chunk c in ascending order. */
  function SortedLengths<T>(rows: seq<Row<T>>, p: Plan, shards: nat, c: nat): (r: seq<int>)
    requires Fits(p, |rows|, shards) && c < p.chunks
    ensures |r| == p.batchSize
  {
    RowLengths(Gather(rows, SortedChunk(rows, p, shards, c)))
  }

  lemma SortedLengthsBounds<T>(rows: seq<Row<T>>, p: Plan, shards: nat, c: nat, lo: nat, hi: nat)
    requires Fits(p, |rows|, shards) && c < p.chunks
    requires forall i :: 0 <= i < p.batchSize ==> lo <= ChunkOf(rows, p, shards, c)[i].length <= hi
    ensures var lens := SortedLengths(rows, p, shards, c);
      Ascends(lens) && forall i :: 0 <= i < |lens| ==> lo <= lens[i] <= hi
  {
    ChunkInside(p, |rows|, shards, c);
    assert ChunkOf(rows, p, shards, c) == rows[c * p.batchSize..c * p.batchSize + p.batchSize];
    SpanBounds(rows, c * p.batchSize, p.batchSize, lo, hi);
  }

  ghost predicate LengthsWithin<T>(rows: seq<Row<T>>, lo: nat, hi: nat) {
    forall i :: 0 <= i < |rows| ==> lo <= rows[i].length <= hi
  }

  lemma SpanBounds<T>(rows: seq<Row<T>>, start: nat, n: nat, lo: nat, hi: nat)
    requires start + n <= |rows| && LengthsWithin(rows[start..start + n], lo, hi)
    ensures var lens := RowLengths(Gather(rows, SortedSpan(rows, start, n)));
      Ascends(lens) && forall i :: 0 <= i < |lens| ==> lo <= lens[i] <= hi
  {
    SortedSpanCorrect(rows, start, n);
    var sorted := SortedSpan(rows, start, n);
    forall i | 0 <= i < n ensures lo <= rows[sorted[i]].length <= hi {
      SpanMember(sorted, start, n, i);
      assert rows[start..start + n][sorted[i] - start] == rows[sorted[i]];
    }
    LengthsAscend(rows, sorted);
  }

  lemma SpanMember(sorted: seq<nat>, start: nat, n: nat, i: nat)
    requires multiset(sorted) == multiset(Span(start, n)) && i < |sorted|
    ensures start <= sorted[i] < start + n
  {
    assert sorted[i] in multiset(Span(start, n));
  }

  lemma LengthsAscend<T>(rows: seq<Row<T>>, sorted: seq<nat>)
    requires AllBelow(sorted, |rows|)
    requires forall i, j :: 0 <= i < j < |sorted| ==> rows[sorted[i]].length <= rows[sorted[j]].length
    ensures Ascends(RowLengths(Gather(rows, sorted)))
  {
  }

  lemma ShardIsStride<T>(rows: seq<Row<T>>, p: Plan, shards: nat, c: nat, s: nat)
    requires Fits(p, |rows|, shards) && p.shardSize * shards == p.batchSize && c < p.chunks && s < shards
    ensures var grid := StrideGrid(rows, p, shards);
      var lens := SortedLengths(rows, p, shards, c);
      && AllBelow(grid[c][s], |rows|) && |grid[c][s]| == p.shardSize
      && (p.shardSize > 0 ==> s + (p.shardSize - 1) * shards < |lens|)
      && ShardLoad(rows, p, shards, c, s) == StrideSum(lens, shards, s, p.shardSize)
      && (forall i, j :: 0 <= i < j < p.shardSize ==> rows[grid[c][s][i]].length <= rows[grid[c][s][j]].length)
  {
    var sorted := SortedChunk(rows, p, shards, c);
    DealEven(sorted, shards, s, p.shardSize);
    ChunkInside(p, |rows|, shards, c);
    SortedSpanCorrect(rows, c * p.batchSize, p.batchSize);
    assert sorted == SortedSpan(rows, c * p.batchSize, p.batchSize);
    StrideOfSorted(rows, sorted, shards, s, StrideGrid(rows, p, shards)[c][s]);
  }

  lemma StrideOfSorted<T>(rows: seq<Row<T>>, sorted: seq<nat>, shards: nat, s: nat, part: seq<nat>)
    requires AllBelow(sorted, |rows|) && shards >= 1
    requires forall i, j :: 0 <= i < j < |sorted| ==> rows[sorted[i]].length <= rows[sorted[j]].length
    requires forall k :: 0 <= k < |part| ==> 0 <= s + k * shards < |sorted| && part[k] == sorted[s + k * shards]
    ensures AllBelow(part, |rows|)
    ensures |part| > 0 ==> s + (|part| - 1) * shards < |sorted|
    ensures Sum(RowLengths(Gather(rows, part))) == StrideSum(RowLengths(Gather(rows, sorted)), shards, s, |part|)
    ensures forall i, j :: 0 <= i < j < |part| ==> rows[part[i]].length <= rows[part[j]].length
  {
    var lens := RowLengths(Gather(rows, sorted));
    var picked := RowLengths(Gather(rows, part));
    SumIsStrideSum(lens, shards, s, picked);
    forall i, j | 0 <= i < j < |part| ensures rows[part[i]].length <= rows[part[j]].length {
      SmallerQuotient(j, i, shards);
      assert s + i * shards < s + j * shards;
    }
  }
}
