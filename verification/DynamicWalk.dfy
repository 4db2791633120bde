/** What the shards see under dynamic batching when they walk through their chunks and microbatches. */
module DynamicWalk {
  import opened Options
  import opened Arithmetic
  import opened Sequences
  import opened Grids
  import opened Sharding
  import opened DynamicBatching
  import opened BatchedData
  import Microbatches

  /** A microbatch is within the token limit and wide enough for each of its rows. */
  ghost predicate GoodMicrobatch<T>(rows: seq<Row<T>>, length: nat, width: nat, cap: nat) {
    && rows != [] && |rows| * length <= cap && length <= width
    && forall i :: 0 <= i < |rows| ==> rows[i].length <= length
  }

  lemma {:induction false} LongestCovers(lens: seq<nat>, a: nat, b: nat, i: nat)
    requires a <= i < b <= |lens|
    ensures lens[i] <= Microbatches.Longest(lens, a, b)
    decreases b
  {
    if i == b - 1 {
    } else {
      LongestCovers(lens, a, b - 1, i);
    }
  }

  lemma {:induction false} LongestWithin(lens: seq<nat>, a: nat, b: nat, bound: nat)
    requires a <= b <= |lens| && forall i :: 0 <= i < |lens| ==> lens[i] <= bound
    ensures Microbatches.Longest(lens, a, b) <= bound
    decreases b
  {
    if a == b {
    } else {
      LongestWithin(lens, a, b - 1, bound);
    }
  }

  /** The microbatches of a chunk are as few as any division of its positions into consecutive pieces within
      the limit allows. */
  lemma ChunkIsOptimal<T>(
      rows: seq<Row<T>>, width: nat, p: Plan, shards: nat, cap: nat, round: nat, d: Dynamic<T>, c: nat,
      ends: seq<nat>)
    requires Fits(p, |rows|, shards) && shards >= 1 && round >= 1 && p.shardSize >= 1
    requires IsDynamic(rows, width, p, shards, cap, round, d) && c < p.chunks && 0 <= c * p.shardSize
    requires forall s :: 0 <= s < |d.shards| ==> c * p.shardSize + p.shardSize <= |d.shards[s]|
    requires Microbatches.IsSplit(ChunkLengths(d.shards, c * p.shardSize, p.shardSize, round, width), cap, ends)
    ensures |d.ranges[c]| <= |ends|
  {
    assert IsChunkSplit(width, p, cap, round, d, c);
    var lens := ChunkLengths(d.shards, c * p.shardSize, p.shardSize, round, width);
    Microbatches.GreedyIsOptimal(lens, cap, d.ranges[c], ends);
  }

  lemma DynamicRowsWithin<T>(
      rows: seq<Row<T>>, width: nat, p: Plan, shards: nat, cap: nat, round: nat, d: Dynamic<T>, s: nat)
    requires Fits(p, |rows|, shards) && shards >= 1 && round >= 1
    requires IsDynamic(rows, width, p, shards, cap, round, d) && s < shards
    requires forall i :: 0 <= i < |rows| ==> rows[i].length <= width
    ensures s < |d.shards| && forall k :: 0 <= k < |d.shards[s]| ==> d.shards[s][k].length <= width
  {
    ShardRowsWithin(rows, width, p, shards, d.order, d.shards, s);
  }

  lemma SplitIsGood<T>(
      shards: seq<seq<Row<T>>>, s: nat, start: nat, size: nat, round: nat, width: nat, cap: nat,
      ranges: seq<(nat, nat)>, lengths: seq<nat>, j: nat)
    requires round >= 1 && size >= 1 && forall t :: 0 <= t < |shards| ==> start + size <= |shards[t]|
    requires s < |shards| && forall k :: 0 <= k < |shards[s]| ==> shards[s][k].length <= width
    requires Microbatches.Splitting(ChunkLengths(shards, start, size, round, width), cap, ranges, lengths, size)
    requires j < |ranges|
    ensures |ranges| == |lengths| && Inside(ranges, size)
    ensures GoodMicrobatch(RangeRows(shards[s][start..start + size], ranges)[j], lengths[j], width, cap)
  {
    var lens := ChunkLengths(shards, start, size, round, width);
    var a, b := ranges[j].0, ranges[j].1;
    ChunkCovered(shards, start, size, round, width, s);
    RangeIsGood(shards[s], start, lens, width, cap, a, b);
    SliceOfSlice(shards[s], start, size, a, b);
  }

  lemma ShardRowsWithin<T>(
      rows: seq<Row<T>>, width: nat, p: Plan, shards: nat, order: seq<nat>, parts: seq<seq<Row<T>>>, s: nat)
    requires Fits(p, |rows|, shards) && IsPermutation(order, |rows|) && s < |parts|
    requires parts == Columns(BlockGrid(Gather(rows, order), p, shards), shards)
    requires forall i :: 0 <= i < |rows| ==> rows[i].length <= width
    ensures forall k :: 0 <= k < |parts[s]| ==> parts[s][k].length <= width
  {
    forall k | 0 <= k < |parts[s]| ensures parts[s][k].length <= width {
      var i := RowAt(rows, p, shards, order, parts, s, k);
    }
  }

  lemma ChunkCovered<T>(shards: seq<seq<Row<T>>>, start: nat, size: nat, round: nat, width: nat, s: nat)
    requires round >= 1 && forall t :: 0 <= t < |shards| ==> start + size <= |shards[t]|
    requires s < |shards| && forall k :: 0 <= k < |shards[s]| ==> shards[s][k].length <= width
    ensures var lens := ChunkLengths(shards, start, size, round, width);
      && (forall i :: 0 <= i < |lens| ==> lens[i] <= width)
      && forall k :: start <= k < start + size ==> shards[s][k].length <= lens[k - start]
  {
    forall k | start <= k < start + size
      ensures shards[s][k].length <= ChunkLengths(shards, start, size, round, width)[k - start]
    {
      PositionCovered(shards, start, size, round, width, s, k - start);
    }
  }

  lemma RangeIsGood<T>(part: seq<Row<T>>, start: nat, lens: seq<nat>, width: nat, cap: nat, a: nat, b: nat)
    requires start + |lens| <= |part| && a < b <= |lens|
    requires forall i :: 0 <= i < |lens| ==> lens[i] <= width
    requires forall k :: start <= k < start + |lens| ==> part[k].length <= lens[k - start]
    requires Microbatches.Cost(lens, a, b) <= cap
    ensures GoodMicrobatch(part[start + a..start + b], Microbatches.Longest(lens, a, b), width, cap)
  {
    var mb := part[start + a..start + b];
    forall i | 0 <= i < |mb| ensures mb[i].length <= Microbatches.Longest(lens, a, b) {
      assert mb[i] == part[start + a + i];
      LongestCovers(lens, a, b, a + i);
    }
    LongestWithin(lens, a, b, width);
  }

  /** The measured length of a position covers the row that any shard holds there. */
  lemma PositionCovered<T>(shards: seq<seq<Row<T>>>, start: nat, size: nat, round: nat, width: nat, s: nat, i: nat)
    requires round >= 1 && forall t :: 0 <= t < |shards| ==> start + size <= |shards[t]|
    requires s < |shards| && i < size && shards[s][start + i].length <= width
    ensures shards[s][start + i].length <= ChunkLengths(shards, start, size, round, width)[i]
  {
    LongestAtBounds(shards, start + i, s);
    PaddedLengthCovers(shards[s][start + i].length, round, width);
    PaddedLengthMonotone(shards[s][start + i].length, LongestAt(shards, start + i), round, width);
  }

  // ----- recorded lengths -----

  /** Of the rows that the shards hold from position lo up to hi, a longest one is at position `top` of shard s. */
  ghost predicate IsLongestRow<T>(shards: seq<seq<Row<T>>>, lo: nat, hi: nat, s: nat, top: nat)
    requires forall t :: 0 <= t < |shards| ==> hi <= |shards[t]|
  {
    s < |shards| && lo <= top < hi &&
    forall t, k :: 0 <= t < |shards| && lo <= k < hi ==> shards[t][k].length <= shards[s][top].length
  }

  lemma {:induction false} LongestRowExists<T>(shards: seq<seq<Row<T>>>, lo: nat, hi: nat) returns (s: nat, top: nat)
    requires lo < hi && shards != [] && forall t :: 0 <= t < |shards| ==> hi <= |shards[t]|
    ensures IsLongestRow(shards, lo, hi, s, top)
    decreases hi
  {
    var last := LongestAtWitness(shards, hi - 1);
    forall t | 0 <= t < |shards| ensures shards[t][hi - 1].length <= shards[last][hi - 1].length {
      LongestAtBounds(shards, hi - 1, t);
    }
    s, top := last, hi - 1;
    if lo < hi - 1 {
      var s', top' := LongestRowExists(shards, lo, hi - 1);
      if shards[s'][top'].length > shards[last][hi - 1].length {
        s, top := s', top';
      }
    }
  }

  /** No measured length exceeds the padded length of a longest row. */
  lemma {:induction false} LongestMeasured<T>(
      shards: seq<seq<Row<T>>>, start: nat, size: nat, round: nat, width: nat, a: nat, b: nat, longest: nat)
    requires round >= 1 && a < b <= size && shards != []
    requires forall t :: 0 <= t < |shards| ==> start + size <= |shards[t]|
    requires forall t, k :: 0 <= t < |shards| && start + a <= k < start + b ==> shards[t][k].length <= longest
    ensures Microbatches.Longest(ChunkLengths(shards, start, size, round, width), a, b) <=
            PaddedLength(longest, round, width)
    decreases b
  {
    var t := LongestAtWitness(shards, start + b - 1);
    PaddedLengthMonotone(shards[t][start + b - 1].length, longest, round, width);
    if a < b - 1 {
      LongestMeasured(shards, start, size, round, width, a, b - 1, longest);
    }
  }

  lemma LongestIsMeasured<T>(
      shards: seq<seq<Row<T>>>, start: nat, size: nat, round: nat, width: nat, a: nat, b: nat, s: nat, top: nat)
    requires round >= 1 && a < b <= size && forall t :: 0 <= t < |shards| ==> start + size <= |shards[t]|
    requires IsLongestRow(shards, start + a, start + b, s, top)
    ensures Microbatches.Longest(ChunkLengths(shards, start, size, round, width), a, b) ==
            PaddedLength(shards[s][top].length, round, width)
  {
    LongestMeasured(shards, start, size, round, width, a, b, shards[s][top].length);
    var lens := ChunkLengths(shards, start, size, round, width);
    LongestCovers(lens, a, b, top - start);
    LongestAtBounds(shards, top, s);
    PaddedLengthMonotone(shards[s][top].length, LongestAt(shards, top), round, width);
    assert lens[top - start] == PaddedLength(LongestAt(shards, start + (top - start)), round, width);
  }

  /** The length is the least multiple that covers a longest row at these positions, but no more than the width. */
  ghost predicate CoversLongestRow<T>(
      shards: seq<seq<Row<T>>>, lo: nat, hi: nat, round: nat, width: nat, length: nat)
    requires round >= 1 && forall t :: 0 <= t < |shards| ==> hi <= |shards[t]|
  {
    exists s: nat, top: nat, m: nat :: IsLongestRow(shards, lo, hi, s, top) &&
      IsLeastMultiple(m, shards[s][top].length, round) && length == Min(m, width)
  }

  /** What is recorded for a microbatch covers its longest row on any shard. */
  lemma RecordedLength<T>(
      rows: seq<Row<T>>, width: nat, p: Plan, shards: nat, cap: nat, round: nat, d: Dynamic<T>, c: nat, j: nat,
      start: nat)
    requires Fits(p, |rows|, shards) && shards >= 1 && round >= 1 && p.shardSize >= 1
    requires IsDynamic(rows, width, p, shards, cap, round, d) && c < p.chunks && j < |d.ranges[c]|
    requires start == c * p.shardSize
    ensures |d.lengths[c]| == |d.ranges[c]| && d.ranges[c][j].0 < d.ranges[c][j].1 <= p.shardSize
    ensures forall t :: 0 <= t < |d.shards| ==> start + d.ranges[c][j].1 <= |d.shards[t]|
    ensures CoversLongestRow(
              d.shards, start + d.ranges[c][j].0, start + d.ranges[c][j].1, round, width, d.lengths[c][j])
  {
    ChunkFits(p, c);
    assert IsChunkSplit(width, p, cap, round, d, c);
    var a, b := d.ranges[c][j].0, d.ranges[c][j].1;
    var s, top := LongestRowExists(d.shards, start + a, start + b);
    LongestIsMeasured(d.shards, start, p.shardSize, round, width, a, b, s, top);
    PaddedLengthMeaning(d.shards[s][top].length, round, width);
  }

  // ----- a whole shard -----

  ghost predicate AllGood<T>(mbs: seq<Microbatch<T>>, width: nat, cap: nat) {
    forall k :: 0 <= k < |mbs| ==> GoodMicrobatch(mbs[k].rows, mbs[k].width, width, cap)
  }

  /** The ranges of chunk c cut the chunk, in order, into good microbatches. */
  ghost predicate ChunkReady<T>(
      part: seq<Row<T>>, size: nat, ranges: seq<(nat, nat)>, lengths: seq<nat>, width: nat, cap: nat, c: nat)
  {
    var start := c * size;
    && start + size <= |part| && |ranges| == |lengths| && Inside(ranges, size)
    && (forall j :: 0 <= j < |lengths| ==> lengths[j] <= width)
    && (forall j :: 0 <= j < |ranges| ==>
          GoodMicrobatch(RangeRows(part[start..start + size], ranges)[j], lengths[j], width, cap))
    && Flat(RangeRows(part[start..start + size], ranges)) == part[start..start + size]
  }

  lemma PartIsGood<T>(
      mbs: seq<Microbatch<T>>, part: seq<Row<T>>, size: nat, ranges: seq<(nat, nat)>, lengths: seq<nat>, width: nat,
      cap: nat, c: nat, start: nat)
    requires start == c * size && ChunkReady(part, size, ranges, lengths, width, cap, c)
    requires RowsOf(mbs) == RangeRows(part[start..start + size], ranges)
    requires forall k :: 0 <= k < |mbs| ==> mbs[k].width == lengths[k]
    ensures AllGood(mbs, width, cap) && Flat(RowsOf(mbs)) == part[start..start + size]
  {
    forall k | 0 <= k < |mbs| ensures GoodMicrobatch(mbs[k].rows, mbs[k].width, width, cap) {
      assert RowsOf(mbs)[k] == mbs[k].rows;
    }
  }

  lemma ReadyToFetch<T>(
      part: seq<Row<T>>, size: nat, ranges: seq<(nat, nat)>, lengths: seq<nat>, width: nat, cap: nat, c: nat,
      start: nat)
    requires start == c * size && ChunkReady(part, size, ranges, lengths, width, cap, c)
    ensures start + size <= |part| && |ranges| == |lengths| && Inside(ranges, size)
    ensures forall j :: 0 <= j < |lengths| ==> lengths[j] <= width
  {
  }

  /** Fetches the chunks of a shard one after another and iterates over the microbatches of each. */
  method WalkChunks<T>(
      part: seq<Row<T>>, width: nat, size: nat, ranges: seq<seq<(nat, nat)>>, lengths: seq<seq<nat>>, ghost cap: nat)
      returns (mbs: seq<Microbatch<T>>)
    requires |ranges| == |lengths| && |part| == |ranges| * size
    requires forall c :: 0 <= c < |ranges| ==> ChunkReady(part, size, ranges[c], lengths[c], width, cap, c)
    ensures Flat(RowsOf(mbs)) == part && AllGood(mbs, width, cap)
  {
    hide ChunkReady, GoodMicrobatch;
    var data := new BatchedDataDict(part, width);
    data.microBatchIndices, data.microBatchLengths := Some(ranges), lengths;
    mbs := [];
    ghost var start := 0;
    for c := 0 to |ranges|
      invariant data.rows == part && data.width == width && data.elemCounts == None
      invariant data.microBatchIndices == Some(ranges) && data.microBatchLengths == lengths
      invariant 0 <= start <= |part| && start == c * size
      invariant Flat(RowsOf(mbs)) == part[..start] && AllGood(mbs, width, cap)
    {
      ReadyToFetch(part, size, ranges[c], lengths[c], width, cap, c, start);
      var more := FetchWithDynamicShapes(data, c, size, start);
      PartIsGood(more, part, size, ranges[c], lengths[c], width, cap, c, start);
      RowsAppend(mbs, more);
      PrefixGrows(part, start, start + size);
      assert (c + 1) * size == start + size;
      start := start + size;
      mbs := mbs + more;
    }
  }

  lemma SplitIsReady<T>(
      shards: seq<seq<Row<T>>>, s: nat, start: nat, size: nat, round: nat, width: nat, cap: nat,
      ranges: seq<(nat, nat)>, lengths: seq<nat>, c: nat)
    requires round >= 1 && size >= 1 && forall t :: 0 <= t < |shards| ==> start + size <= |shards[t]|
    requires s < |shards| && forall k :: 0 <= k < |shards[s]| ==> shards[s][k].length <= width
    requires Microbatches.Splitting(ChunkLengths(shards, start, size, round, width), cap, ranges, lengths, size)
    requires start == c * size
    ensures ChunkReady(shards[s], size, ranges, lengths, width, cap, c)
  {
    var chunk := shards[s][start..start + size];
    TilesGiveRows(chunk, ranges, size);
    assert chunk[..size] == chunk;
    forall j | 0 <= j < |ranges|
      ensures GoodMicrobatch(RangeRows(chunk, ranges)[j], lengths[j], width, cap) && lengths[j] <= width
    {
      SplitIsGood(shards, s, start, size, round, width, cap, ranges, lengths, j);
    }
  }

  /** On every shard, the microbatches of a chunk cut its rows in order, keep every input length, and are
      within the token limit. */
  lemma ChunkIsReady<T>(
      rows: seq<Row<T>>, width: nat, p: Plan, shards: nat, cap: nat, round: nat, d: Dynamic<T>, s: nat, c: nat)
    requires Fits(p, |rows|, shards) && shards >= 1 && round >= 1 && p.shardSize >= 1
    requires IsDynamic(rows, width, p, shards, cap, round, d) && s < shards && c < p.chunks
    requires forall i :: 0 <= i < |rows| ==> rows[i].length <= width
    ensures ChunkReady(d.shards[s], p.shardSize, d.ranges[c], d.lengths[c], width, cap, c)
  {
    ChunkFits(p, c);
    assert IsChunkSplit(width, p, cap, round, d, c);
    DynamicRowsWithin(rows, width, p, shards, cap, round, d, s);
    SplitIsReady(d.shards, s, c * p.shardSize, p.shardSize, round, width, cap, d.ranges[c], d.lengths[c], c);
  }

  /** Walking a shard of a balanced batch yields exactly its rows, in order, in good microbatches. */
  method WalkShard<T>(
      rows: seq<Row<T>>, width: nat, p: Plan, shards: nat, cap: nat, round: nat, d: Dynamic<T>, s: nat)
      returns (mbs: seq<Microbatch<T>>)
    requires Fits(p, |rows|, shards) && shards >= 1 && round >= 1 && p.shardSize >= 1
    requires IsDynamic(rows, width, p, shards, cap, round, d) && s < shards
    requires forall i :: 0 <= i < |rows| ==> rows[i].length <= width
    ensures Flat(RowsOf(mbs)) == d.shards[s] && AllGood(mbs, width, cap)
  {
    forall c | 0 <= c < p.chunks
      ensures ChunkReady(d.shards[s], p.shardSize, d.ranges[c], d.lengths[c], width, cap, c)
    {
      ChunkIsReady(rows, width, p, shards, cap, round, d, s, c);
    }
    mbs := WalkChunks(d.shards[s], width, p.shardSize, d.ranges, d.lengths, cap);
  }

  /** All shards together hold every row of the batch exactly once. */
  lemma ShardsHoldBatch<T>(rows: seq<Row<T>>, width: nat, p: Plan, shards: nat, cap: nat, round: nat, d: Dynamic<T>)
    requires Fits(p, |rows|, shards) && shards >= 1 && round >= 1
    requires IsDynamic(rows, width, p, shards, cap, round, d)
    ensures multiset(Flat(d.shards)) == multiset(rows)
  {
    SameRows(rows, p, shards, d.order);
  }
}
