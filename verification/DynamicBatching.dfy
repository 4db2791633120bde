/** Dynamic batching end to end: balance the rows over the shards, then cut every shard's chunk into
    microbatches at the same positions. */
module DynamicBatching {
  import opened Options
  import opened Arithmetic
  import opened Sequences
  import opened Grids
  import opened Sharding
  import opened BalancedSharding
  import Microbatches

  /** Shards of the reordered batch, the order used, and per chunk the ranges and lengths of microbatches. */
  datatype Dynamic<T> = Dynamic(
    shards: seq<seq<Row<T>>>,
    order: seq<nat>,
    ranges: seq<seq<(nat, nat)>>,
    lengths: seq<seq<nat>>)

  /** A length rounded up to a multiple, but never beyond the width of the batch. */
  function PaddedLength(n: nat, round: nat, width: nat): (r: nat)
    requires round >= 1
    ensures r <= width
  {
    Min(PadTo(n, round), width)
  }

  /** The longest row that any of the shards holds at the given position. */
  function LongestAt<T>(shards: seq<seq<Row<T>>>, position: nat): nat
    requires forall s :: 0 <= s < |shards| ==> position < |shards[s]|
  {
    if shards == [] then 0
    else Max(LongestAt(shards[..|shards| - 1], position), shards[|shards| - 1][position].length)
  }

  /** The lengths that decide about the microbatches of one chunk. */
  function ChunkLengths<T>(shards: seq<seq<Row<T>>>, start: nat, size: nat, round: nat, width: nat): (r: seq<nat>)
    requires round >= 1 && forall s :: 0 <= s < |shards| ==> start + size <= |shards[s]|
    ensures |r| == size && forall i :: 0 <= i < size ==> r[i] <= width
  {
    var r := seq<nat>(size, i requires 0 <= i < size => PaddedLength(LongestAt(shards, start + i), round, width));
    assert forall i :: 0 <= i < size ==> r[i] == PaddedLength(LongestAt(shards, start + i), round, width);
    r
  }

  lemma {:induction false} LongestAtBounds<T>(shards: seq<seq<Row<T>>>, position: nat, s: nat)
    requires forall t :: 0 <= t < |shards| ==> position < |shards[t]|
    requires s < |shards|
    ensures shards[s][position].length <= LongestAt(shards, position)
  {
    if s == |shards| - 1 {
    } else {
      LongestAtBounds(shards[..|shards| - 1], position, s);
    }
  }

  lemma PaddedLengthCovers(n: nat, round: nat, width: nat)
    requires round >= 1 && n <= width
    ensures n <= PaddedLength(n, round, width) <= width
  {
    PadToIsLeast(n, round);
  }

  /** The lesser of the width and the least multiple that covers the length. */
  lemma PaddedLengthMeaning(n: nat, round: nat, width: nat)
    requires round >= 1
    ensures exists m :: IsLeastMultiple(m, n, round) && PaddedLength(n, round, width) == Min(m, width)
  {
    PadToIsLeast(n, round);
  }

  lemma PaddedLengthMonotone(m: nat, n: nat, round: nat, width: nat)
    requires round >= 1 && m <= n
    ensures PaddedLength(m, round, width) <= PaddedLength(n, round, width)
  {
    QuotientMonotone(m + round - 1, n + round - 1, round);
  }

  // ----- sharding -----

  /** The order of rows: every chunk sorted by length and strided over the shards. */
  method BalancedOrder<T>(rows: seq<Row<T>>, p: Plan, shards: nat) returns (order: seq<nat>)
    requires Fits(p, |rows|, shards) && shards >= 1
    ensures order == ChunkMajor(StrideGrid(rows, p, shards))
  {
    hide Fits, SortedChunk, DealAll;
    order := [];
    ghost var parts := FlatEach(StrideGrid(rows, p, shards));
    for c := 0 to p.chunks
      invariant order == Flat(parts[..c])
    {
      var sorted := SortedChunk(rows, p, shards, c);
      var strided := Flat(DealAll(sorted, shards, p.batchSize));
      StridedPart(rows, p, shards, c);
      FlatNext(parts, c);
      order := order + strided;
    }
    assert parts[..p.chunks] == parts;
  }

  lemma StridedPart<T>(rows: seq<Row<T>>, p: Plan, shards: nat, c: nat)
    requires Fits(p, |rows|, shards) && shards >= 1 && c < p.chunks
    ensures FlatEach(StrideGrid(rows, p, shards))[c] ==
            Flat(DealAll(SortedChunk(rows, p, shards, c), shards, p.batchSize))
  {
    hide Fits, SortedChunk, DealAll, Flat;
  }

  ghost predicate AllAsLong<T>(shards: seq<seq<Row<T>>>, n: nat) {
    forall s :: 0 <= s < |shards| ==> |shards[s]| == n
  }

  /** The shards of the reordered batch. */
  function ShardsOf<T>(rows: seq<Row<T>>, order: seq<nat>, p: Plan, shards: nat): (r: seq<seq<Row<T>>>)
    requires Fits(p, |rows|, shards) && IsPermutation(order, |rows|)
  {
    Columns(BlockGrid(Gather(rows, order), p, shards), shards)
  }

  /** The order is that of the strided positions, and the shards are cut from the batch in this order. */
  ghost predicate IsReordered<T>(rows: seq<Row<T>>, p: Plan, shards: nat, d: Dynamic<T>)
    requires Fits(p, |rows|, shards) && shards >= 1
  {
    && d.order == ChunkMajor(StrideGrid(rows, p, shards)) && IsPermutation(d.order, |rows|)
    && d.shards == ShardsOf(rows, d.order, p, shards)
  }

  /** What dynamic batching returns, in terms of the batch. */
  ghost predicate IsDynamic<T>(rows: seq<Row<T>>, width: nat, p: Plan, shards: nat, cap: nat, round: nat, d: Dynamic<T>)
    requires Fits(p, |rows|, shards) && shards >= 1 && round >= 1
  {
    IsReordered(rows, p, shards, d) && IsSplit(width, p, cap, round, d)
  }

  ghost predicate IsSplit<T>(width: nat, p: Plan, cap: nat, round: nat, d: Dynamic<T>)
    requires round >= 1
  {
    && AllAsLong(d.shards, p.chunks * p.shardSize)
    && |d.ranges| == |d.lengths| == p.chunks
    && forall c :: 0 <= c < p.chunks ==> IsChunkSplit(width, p, cap, round, d, c)
  }

  ghost predicate IsChunkSplit<T>(width: nat, p: Plan, cap: nat, round: nat, d: Dynamic<T>, c: nat)
    requires round >= 1 && AllAsLong(d.shards, p.chunks * p.shardSize) && c < p.chunks && c < |d.ranges| &&
              c < |d.lengths|
  {
    ChunkFits(p, c);
    Microbatches.Splitting(ChunkLengths(d.shards, c * p.shardSize, p.shardSize, round, width), cap,
                           d.ranges[c], d.lengths[c], p.shardSize)
  }

  lemma ChunkFits(p: Plan, c: nat)
    requires c < p.chunks
    ensures 0 <= c * p.shardSize
    ensures c * p.shardSize + p.shardSize == (c + 1) * p.shardSize <= p.chunks * p.shardSize
  {
    SmallerQuotient(c + 1, p.chunks, p.shardSize);
  }

  lemma {:induction false} ColumnLength<X>(grid: seq<seq<seq<X>>>, shards: nat, s: nat, size: nat)
    requires IsGrid(grid, shards) && s < shards && forall c :: 0 <= c < |grid| ==> |grid[c][s]| == size
    ensures |Column(grid, shards, s)| == |grid| * size
  {
    if grid == [] {
      assert 0 * size == 0;
    } else {
      ColumnLength(grid[..|grid| - 1], shards, s, size);
      assert |grid| * size == (|grid| - 1) * size + size;
    }
  }

  lemma ShardLengths<X>(data: seq<X>, p: Plan, shards: nat)
    requires Fits(p, |data|, shards) && p.shardSize * shards == p.batchSize
    ensures forall s :: 0 <= s < shards ==> |Column(BlockGrid(data, p, shards), shards, s)| == p.chunks * p.shardSize
  {
    assert p.shardSize > 0 by { assert 0 * shards == 0; }
    forall s | 0 <= s < shards ensures |Column(BlockGrid(data, p, shards), shards, s)| == p.chunks * p.shardSize {
      forall c | 0 <= c < p.chunks ensures |BlockGrid(data, p, shards)[c][s]| == p.shardSize {
        BlockEntry(data, p, shards, c, s, 0);
      }
      ColumnLength(BlockGrid(data, p, shards), shards, s, p.shardSize);
    }
  }

  /** The padded length of every position of a chunk, the maximum taken over the shards. */
  method MeasureChunk<T>(shards: seq<seq<Row<T>>>, start: nat, size: nat, round: nat, width: nat)
      returns (lens: seq<nat>)
    requires round >= 1 && forall s :: 0 <= s < |shards| ==> start + size <= |shards[s]|
    ensures lens == ChunkLengths(shards, start, size, round, width)
  {
    lens := [];
    for i := 0 to size
      invariant lens == ChunkLengths(shards, start, size, round, width)[..i]
    {
      var longest := 0;
      for s := 0 to |shards|
        invariant longest == LongestAt(shards[..s], start + i)
      {
        assert shards[..s + 1][..s] == shards[..s];
        longest := Max(longest, shards[s][start + i].length);
      }
      assert shards[..|shards|] == shards;
      lens := lens + [PaddedLength(longest, round, width)];
    }
  }

  method ShardForDynamicBatching<T>(
      rows: seq<Row<T>>, width: nat, shards: nat, batchSize: Option<nat>, cap: nat, round: nat)
      returns (r: Result<Dynamic<T>>)
    requires shards >= 1 && round >= 1
    ensures var plan := PlanFor(|rows|, shards, batchSize, false);
      && (plan.Failure? ==> r == Failure(plan.error))
      && (plan.Success? && r.Failure? ==> r.error == SequenceExceedsMicrobatch)
      && (plan.Success? ==> (r.Failure? <==> SomeTooLong(rows, cap, round, width)))
      && (plan.Success? && r.Success? ==> IsDynamic(rows, width, plan.value, shards, cap, round, r.value))
  {
    var plan := PlanFor(|rows|, shards, batchSize, false);
    if plan.Failure? {
      return Failure(plan.error);
    }
    r := ShardWithPlan(rows, width, plan.value, shards, batchSize, cap, round);
  }

  method ShardWithPlan<T>(
      rows: seq<Row<T>>, width: nat, p: Plan, shards: nat, batchSize: Option<nat>, cap: nat, round: nat)
      returns (r: Result<Dynamic<T>>)
    requires shards >= 1 && round >= 1 && PlanFor(|rows|, shards, batchSize, false) == Success(p)
    ensures r.Failure? <==> SomeTooLong(rows, cap, round, width)
    ensures r.Failure? ==> r.error == SequenceExceedsMicrobatch
    ensures r.Success? ==> IsDynamic(rows, width, p, shards, cap, round, r.value)
  {
    var order, parts := BalancedShards(rows, p, shards, batchSize);
    var ok, ranges, lengths := SplitChunks(parts, p, cap, round, width);
    if !ok {
      SomeRowTooLong(rows, p, shards, order, parts, cap, round, width);
      return Failure(SequenceExceedsMicrobatch);
    }
    assert p.shardSize >= 1 by { assert 0 * shards == 0; }
    AllRowsWithin(rows, p, shards, order, parts, cap, round, width);
    SplitsKept(width, p, cap, round, Dynamic(parts, [], ranges, lengths), Dynamic(parts, order, ranges, lengths),
      p.chunks);
    return Success(Dynamic(parts, order, ranges, lengths));
  }

  method BalancedShards<T>(rows: seq<Row<T>>, p: Plan, shards: nat, batchSize: Option<nat>)
      returns (order: seq<nat>, parts: seq<seq<Row<T>>>)
    requires shards >= 1 && PlanFor(|rows|, shards, batchSize, false) == Success(p)
    ensures order == ChunkMajor(StrideGrid(rows, p, shards)) && IsPermutation(order, |rows|)
    ensures parts == Columns(BlockGrid(Gather(rows, order), p, shards), shards)
    ensures AllAsLong(parts, p.chunks * p.shardSize)
  {
    order := BalancedOrder(rows, p, shards);
    StridesArePermutations(rows, p, shards);
    var data := Gather(rows, order);
    var sharded := ShardByBatchSize(data, shards, batchSize, false);
    parts := sharded.value;
    ShardLengths(data, p, shards);
  }

  /** Splits the chunks one after the other, and gives up at the first sequence that is too long. */
  method SplitChunks<T>(parts: seq<seq<Row<T>>>, p: Plan, cap: nat, round: nat, width: nat)
      returns (ok: bool, ranges: seq<seq<(nat, nat)>>, lengths: seq<seq<nat>>)
    requires round >= 1 && AllAsLong(parts, p.chunks * p.shardSize)
    ensures ok <==> forall c :: 0 <= c < p.chunks ==> ChunkWithin(parts, p, c, cap, round, width)
    ensures ok ==> |ranges| == |lengths| == p.chunks
    ensures ok ==> forall c :: 0 <= c < p.chunks ==>
              IsChunkSplit(width, p, cap, round, Dynamic(parts, [], ranges, lengths), c)
  {
    ranges, lengths := [], [];
    for c := 0 to p.chunks
      invariant |ranges| == |lengths| == c
      invariant forall k :: 0 <= k < c ==> IsChunkSplit(width, p, cap, round, Dynamic(parts, [], ranges, lengths), k)
      invariant forall k :: 0 <= k < c ==> ChunkWithin(parts, p, k, cap, round, width)
    {
      ChunkFits(p, c);
      var lens := MeasureChunk(parts, c * p.shardSize, p.shardSize, round, width);
      var split := Microbatches.SplitIntoMicrobatches(lens, cap);
      if split.TooLong? {
        assert !ChunkWithin(parts, p, c, cap, round, width);
        return false, [], [];
      }
      ghost var before := Dynamic(parts, [], ranges, lengths);
      ranges, lengths := ranges + [split.ranges], lengths + [split.lengths];
      SplitsKept(width, p, cap, round, before, Dynamic(parts, [], ranges, lengths), c);
    }
    ok := true;
  }

  ghost predicate ChunkWithin<T>(parts: seq<seq<Row<T>>>, p: Plan, c: nat, cap: nat, round: nat, width: nat)
    requires round >= 1 && AllAsLong(parts, p.chunks * p.shardSize) && c < p.chunks
  {
    ChunkFits(p, c);
    var lens := ChunkLengths(parts, c * p.shardSize, p.shardSize, round, width);
    forall i :: 0 <= i < |lens| ==> lens[i] <= cap
  }

  ghost predicate SomeTooLong<T>(rows: seq<Row<T>>, cap: nat, round: nat, width: nat)
    requires round >= 1
  {
    exists i :: 0 <= i < |rows| && cap < PaddedLength(rows[i].length, round, width)
  }

  lemma SplitsKept<T>(width: nat, p: Plan, cap: nat, round: nat, before: Dynamic<T>, after: Dynamic<T>, n: nat)
    requires round >= 1 && AllAsLong(before.shards, p.chunks * p.shardSize) && n <= p.chunks
    requires after.shards == before.shards && before.ranges <= after.ranges && before.lengths <= after.lengths
    requires |before.ranges| == |before.lengths| == n
    requires forall k :: 0 <= k < n ==> IsChunkSplit(width, p, cap, round, before, k)
    ensures forall k :: 0 <= k < n ==> IsChunkSplit(width, p, cap, round, after, k)
  {
    forall k | 0 <= k < n ensures IsChunkSplit(width, p, cap, round, after, k) {
      assert IsChunkSplit(width, p, cap, round, before, k);
    }
  }

  /** The recorded maximum over the shards is the padded length of some row. */
  lemma {:induction false} LongestAtWitness<T>(shards: seq<seq<Row<T>>>, position: nat) returns (s: nat)
    requires shards != [] && forall t :: 0 <= t < |shards| ==> position < |shards[t]|
    ensures s < |shards| && shards[s][position].length == LongestAt(shards, position)
  {
    var last := |shards| - 1;
    if last == 0 || LongestAt(shards[..last], position) <= shards[last][position].length {
      assert last == 0 ==> LongestAt(shards[..0], position) == 0;
      s := last;
    } else {
      s := LongestAtWitness(shards[..last], position);
    }
  }

  /** The shards hold rows of the batch, and all of them. */
  lemma SameRows<T>(rows: seq<Row<T>>, p: Plan, shards: nat, order: seq<nat>)
    requires Fits(p, |rows|, shards) && IsPermutation(order, |rows|)
    ensures multiset(Flat(Columns(BlockGrid(Gather(rows, order), p, shards), shards))) == multiset(rows)
  {
    ShardsKeepRows(Gather(rows, order), p, shards);
    GatherPermutation(rows, order);
  }

  lemma SomeRowTooLong<T>(
      rows: seq<Row<T>>, p: Plan, shards: nat, order: seq<nat>, parts: seq<seq<Row<T>>>, cap: nat, round: nat,
      width: nat)
    requires Fits(p, |rows|, shards) && shards >= 1 && round >= 1
    requires IsPermutation(order, |rows|) && parts == Columns(BlockGrid(Gather(rows, order), p, shards), shards)
    requires AllAsLong(parts, p.chunks * p.shardSize)
    requires exists c :: 0 <= c < p.chunks && !ChunkWithin(parts, p, c, cap, round, width)
    ensures SomeTooLong(rows, cap, round, width)
  {
    var s, position := TooLongPosition(parts, p, cap, round, width);
    var k := RowAt(rows, p, shards, order, parts, s, position);
  }

  lemma TooLongPosition<T>(parts: seq<seq<Row<T>>>, p: Plan, cap: nat, round: nat, width: nat)
      returns (s: nat, position: nat)
    requires round >= 1 && parts != [] && AllAsLong(parts, p.chunks * p.shardSize)
    requires exists c :: 0 <= c < p.chunks && !ChunkWithin(parts, p, c, cap, round, width)
    ensures s < |parts| && position < |parts[s]| && cap < PaddedLength(parts[s][position].length, round, width)
  {
    var c :| 0 <= c < p.chunks && !ChunkWithin(parts, p, c, cap, round, width);
    ChunkFits(p, c);
    var lens := ChunkLengths(parts, c * p.shardSize, p.shardSize, round, width);
    var i :| 0 <= i < |lens| && lens[i] > cap;
    position := c * p.shardSize + i;
    s := LongestAtWitness(parts, position);
  }

  lemma RowAt<T>(
      rows: seq<Row<T>>, p: Plan, shards: nat, order: seq<nat>, parts: seq<seq<Row<T>>>, s: nat, position: nat)
      returns (k: nat)
    requires Fits(p, |rows|, shards) && IsPermutation(order, |rows|)
    requires parts == Columns(BlockGrid(Gather(rows, order), p, shards), shards)
    requires s < |parts| && position < |parts[s]|
    ensures k < |rows| && rows[k] == parts[s][position]
  {
    FlatMember(parts, s, position);
    SameRows(rows, p, shards, order);
    assert parts[s][position] in multiset(rows);
    k :| 0 <= k < |rows| && rows[k] == parts[s][position];
  }

  lemma AllRowsWithin<T>(
      rows: seq<Row<T>>, p: Plan, shards: nat, order: seq<nat>, parts: seq<seq<Row<T>>>, cap: nat, round: nat,
      width: nat)
    requires Fits(p, |rows|, shards) && shards >= 1 && round >= 1 && p.shardSize >= 1
    requires IsPermutation(order, |rows|) && parts == Columns(BlockGrid(Gather(rows, order), p, shards), shards)
    requires AllAsLong(parts, p.chunks * p.shardSize)
    requires forall c :: 0 <= c < p.chunks ==> ChunkWithin(parts, p, c, cap, round, width)
    ensures !SomeTooLong(rows, cap, round, width)
  {
    SameRows(rows, p, shards, order);
    forall i | 0 <= i < |rows| ensures PaddedLength(rows[i].length, round, width) <= cap {
      assert rows[i] in multiset(Flat(parts));
      var s, position := FlatElement(parts, rows[i]);
      PositionWithin(parts, p, s, position, cap, round, width);
    }
  }

  lemma PositionWithin<T>(parts: seq<seq<Row<T>>>, p: Plan, s: nat, position: nat, cap: nat, round: nat, width: nat)
    requires round >= 1 && p.shardSize >= 1 && AllAsLong(parts, p.chunks * p.shardSize)
    requires s < |parts| && position < |parts[s]|
    requires forall c :: 0 <= c < p.chunks ==> ChunkWithin(parts, p, c, cap, round, width)
    ensures PaddedLength(parts[s][position].length, round, width) <= cap
  {
    var c, i := position / p.shardSize, position % p.shardSize;
    assert position == c * p.shardSize + i;
    SmallerQuotient(p.chunks, c, p.shardSize);
    ChunkFits(p, c);
    assert ChunkWithin(parts, p, c, cap, round, width);
    assert ChunkLengths(parts, c * p.shardSize, p.shardSize, round, width)[i] <= cap;
    LongestAtBounds(parts, position, s);
    PaddedLengthMonotone(parts[s][position].length, LongestAt(parts, position), round, width);
  }
}
