/** The order of rows for dynamic batching: each chunk is sorted by input length and dealt out to the
    shards, so that all shards hold sequences of about equal lengths. */
module BalancedSharding {
  import opened Arithmetic
  import opened Sequences
  import opened Sorting
  import opened Grids
  import opened Sharding

  /** Positions of chunk c, shortest row first. */
  function SortedChunk<T>(rows: seq<Row<T>>, p: Plan, shards: nat, c: nat): (r: seq<nat>)
    requires Fits(p, |rows|, shards) && c < p.chunks
    ensures |r| == p.batchSize && AllBelow(r, |rows|)
  {
    ChunkInside(p, |rows|, shards, c);
    SortedSpan(rows, c * p.batchSize, p.batchSize)
  }

  /** The n positions from start on, shortest row first. */
  function SortedSpan<T>(rows: seq<Row<T>>, start: nat, n: nat): (r: seq<nat>)
    requires start + n <= |rows|
    ensures |r| == n && AllBelow(r, |rows|)
  {
    Gather(Span(start, n), AscendingPositions(RowLengths(rows[start..start + n])))
  }

  function Span(start: nat, n: nat): (r: seq<nat>)
    ensures |r| == n && AllBelow(r, start + n)
  {
    seq(n, i requires 0 <= i < n => start + i)
  }

  function RowLengths<T>(rows: seq<Row<T>>): (r: seq<int>)
    ensures |r| == |rows|
  {
    seq(|rows|, i requires 0 <= i < |rows| => rows[i].length)
  }

  /** Positions by chunk and shard: the sorted chunk, strided over the shards. */
  function StrideGrid<T>(rows: seq<Row<T>>, p: Plan, shards: nat): (grid: seq<seq<seq<nat>>>)
    requires Fits(p, |rows|, shards) && shards >= 1
    ensures IsGrid(grid, shards)
  {
    seq(p.chunks, c requires 0 <= c < p.chunks =>
      DealAll(SortedChunk(rows, p, shards, c), shards, p.batchSize))
  }

  lemma SortedSpanCorrect<T>(rows: seq<Row<T>>, start: nat, n: nat)
    requires start + n <= |rows|
    ensures var r := SortedSpan(rows, start, n);
      && (forall i, j :: 0 <= i < j < n ==> rows[r[i]].length <= rows[r[j]].length)
      && multiset(r) == multiset(Span(start, n))
  {
    var lens := RowLengths(rows[start..start + n]);
    var local := AscendingPositions(lens);
    GatherPermutation(Span(start, n), local);
    forall i, j | 0 <= i < j < n
      ensures rows[SortedSpan(rows, start, n)[i]].length <= rows[SortedSpan(rows, start, n)[j]].length
    {
      SortedSpanEntry(rows, start, n, i);
      SortedSpanEntry(rows, start, n, j);
      assert lens[local[i]] <= lens[local[j]];
    }
  }

  lemma SortedSpanEntry<T>(rows: seq<Row<T>>, start: nat, n: nat, i: nat)
    requires start + n <= |rows| && i < n
    ensures var lens := RowLengths(rows[start..start + n]);
      rows[SortedSpan(rows, start, n)[i]].length == lens[AscendingPositions(lens)[i]]
  {
  }

  // ----- the returned indices are a permutation -----

  ghost predicate CoversSpan(part: seq<nat>, c: nat, size: nat) {
    multiset(part) == multiset(Span(c * size, size))
  }

  /** Parts that cover consecutive spans of equal size cover everything below their end. */
  lemma {:induction false} SpansCover(parts: seq<seq<nat>>, size: nat, n: nat, end: nat)
    requires n <= |parts| && end == n * size && forall c :: 0 <= c < n ==> CoversSpan(parts[c], c, size)
    ensures multiset(Flat(parts[..n])) == multiset(Iota(end))
  {
    if n == 0 {
      assert parts[..0] == [];
    } else {
      hide CoversSpan, Flat;
      OneMore(n - 1, size);
      SpansCover(parts, size, n - 1, end - size);
      LastSpan(parts[n - 1], n - 1, size, end - size);
      OneMoreSpan(parts, n, end - size, size);
    }
  }

  lemma LastSpan(part: seq<nat>, c: nat, size: nat, start: nat)
    requires CoversSpan(part, c, size) && start == c * size
    ensures multiset(part) == multiset(Span(start, size))
  {
  }

  lemma OneMoreSpan(parts: seq<seq<nat>>, n: nat, m: nat, size: nat)
    requires 1 <= n <= |parts| && multiset(parts[n - 1]) == multiset(Span(m, size))
    requires multiset(Flat(parts[..n - 1])) == multiset(Iota(m))
    ensures multiset(Flat(parts[..n])) == multiset(Iota(m + size))
  {
    assert parts[..n] == parts[..n - 1] + [parts[n - 1]];
    FlatSnoc(parts[..n - 1], parts[n - 1]);
    IotaSpan(m, size);
  }

  lemma IotaSpan(m: nat, n: nat)
    ensures Iota(m + n) == Iota(m) + Span(m, n)
  {
  }

  lemma StridesCoverChunk<T>(rows: seq<Row<T>>, p: Plan, shards: nat, c: nat)
    requires Fits(p, |rows|, shards) && shards >= 1 && c < p.chunks
    ensures CoversSpan(FlatEach(StrideGrid(rows, p, shards))[c], c, p.batchSize)
  {
    var sorted := SortedChunk(rows, p, shards, c);
    ChunkInside(p, |rows|, shards, c);
    SortedSpanCorrect(rows, c * p.batchSize, p.batchSize);
    DealSinglesKeepsAll(sorted, shards, p.batchSize);
    assert sorted[..p.batchSize] == sorted;
  }

  /** In either reading, the strided positions list every row once. */
  lemma StridesArePermutations<T>(rows: seq<Row<T>>, p: Plan, shards: nat)
    requires Fits(p, |rows|, shards) && shards >= 1
    ensures IsPermutation(ChunkMajor(StrideGrid(rows, p, shards)), |rows|)
    ensures IsPermutation(ShardMajor(StrideGrid(rows, p, shards), shards), |rows|)
  {
    var grid := StrideGrid(rows, p, shards);
    StridesCover(rows, p, shards);
    ReadingsAgree(grid, shards);
    PermutationIffMultiset(ChunkMajor(grid), |rows|);
    PermutationIffMultiset(ShardMajor(grid, shards), |rows|);
  }

  lemma StridesCover<T>(rows: seq<Row<T>>, p: Plan, shards: nat)
    requires Fits(p, |rows|, shards) && shards >= 1
    ensures multiset(ChunkMajor(StrideGrid(rows, p, shards))) == multiset(Iota(|rows|))
  {
    var grid := StrideGrid(rows, p, shards);
    forall c | 0 <= c < |FlatEach(grid)| ensures CoversSpan(FlatEach(grid)[c], c, p.batchSize) {
      StridesCoverChunk(rows, p, shards, c);
    }
    AllSpansCover(FlatEach(grid), p.batchSize);
    ChunksFill(p, |rows|, shards);
  }

  lemma AllSpansCover(parts: seq<seq<nat>>, size: nat)
    requires forall c :: 0 <= c < |parts| ==> CoversSpan(parts[c], c, size)
    ensures multiset(Flat(parts)) == multiset(Iota(|parts| * size))
  {
    SpansCover(parts, size, |parts|, |parts| * size);
    assert parts[..|parts|] == parts;
  }

  // ----- the shards of the reordered batch -----

  lemma StridePartsEven<T>(rows: seq<Row<T>>, p: Plan, shards: nat)
    requires Fits(p, |rows|, shards) && shards >= 1 && p.shardSize * shards == p.batchSize
    ensures var grid := StrideGrid(rows, p, shards);
      && (forall c, s :: 0 <= c < p.chunks && 0 <= s < shards ==> |grid[c][s]| == p.shardSize)
      && (forall c :: 0 <= c < p.chunks ==> |FlatEach(grid)[c]| == p.batchSize)
  {
    var grid := StrideGrid(rows, p, shards);
    forall c | 0 <= c < p.chunks
      ensures forall s :: 0 <= s < shards ==> |grid[c][s]| == p.shardSize
      ensures |FlatEach(grid)[c]| == p.batchSize
    {
      EvenParts(SortedChunk(rows, p, shards, c), shards, p.batchSize, p.shardSize);
    }
  }

  lemma EvenParts(chunk: seq<nat>, shards: nat, n: nat, size: nat)
    requires shards >= 1 && |chunk| == n == size * shards
    ensures var parts := DealAll(chunk, shards, n);
      && |parts| == shards && (forall s :: 0 <= s < shards ==> |parts[s]| == size)
      && |Flat(parts)| == n
  {
    var parts := DealAll(chunk, shards, n);
    forall s | 0 <= s < shards ensures |parts[s]| == size {
      DealEven(chunk, shards, s, size);
    }
    FlatLength(parts, size);
  }

  /** Entry (c, s) of the strided positions is where the chunk-by-chunk reading has block (c, s). */
  lemma StrideEntry<T>(rows: seq<Row<T>>, p: Plan, shards: nat, c: nat, s: nat, i: nat)
    requires Fits(p, |rows|, shards) && shards >= 1 && p.shardSize * shards == p.batchSize
    requires c < p.chunks && s < shards && i < p.shardSize
    ensures var grid := StrideGrid(rows, p, shards);
      && |grid[c][s]| == p.shardSize
      && 0 <= c * p.batchSize + s * p.shardSize + i < |ChunkMajor(grid)|
      && ChunkMajor(grid)[c * p.batchSize + s * p.shardSize + i] == grid[c][s][i]
  {
    var grid := StrideGrid(rows, p, shards);
    StridePartsEven(rows, p, shards);
    EqualParts(FlatEach(grid), p.batchSize, c);
    EqualParts(grid[c], p.shardSize, s);
    var chunk := Flat(grid[c]);
    SmallerQuotient(s + 1, shards, p.shardSize);
    assert (s + 1) * p.shardSize == s * p.shardSize + p.shardSize;
    assert grid[c][s][i] == chunk[s * p.shardSize..(s + 1) * p.shardSize][i] == chunk[s * p.shardSize + i];
    assert chunk[s * p.shardSize + i] == ChunkMajor(grid)[c * p.batchSize..(c + 1) * p.batchSize][s * p.shardSize + i];
  }

  /** With even shards, block (c, s) of the reordered batch is entry (c, s) of the strided positions. */
  lemma BlockOfReordered<T>(rows: seq<Row<T>>, p: Plan, shards: nat, c: nat, s: nat)
    requires Fits(p, |rows|, shards) && shards >= 1 && p.shardSize * shards == p.batchSize && c < p.chunks && s < shards
    requires var order := ChunkMajor(StrideGrid(rows, p, shards)); IsPermutation(order, |rows|)
    ensures var grid := StrideGrid(rows, p, shards);
      && AllBelow(grid[c][s], |rows|)
      && BlockOf(Gather(rows, ChunkMajor(grid)), p, shards, c, s) == Gather(rows, grid[c][s])
  {
    var grid := StrideGrid(rows, p, shards);
    var data := Gather(rows, ChunkMajor(grid));
    var block := BlockOf(data, p, shards, c, s);
    StridePartsEven(rows, p, shards);
    assert p.shardSize > 0 by { assert 0 * shards == 0; }
    BlockEntry(data, p, shards, c, s, 0);
    forall i | 0 <= i < p.shardSize ensures grid[c][s][i] < |rows| && block[i] == rows[grid[c][s][i]] {
      StrideEntry(rows, p, shards, c, s, i);
      BlockEntry(data, p, shards, c, s, i);
    }
  }

  lemma BlockEntry<X>(data: seq<X>, p: Plan, shards: nat, c: nat, s: nat, i: nat)
    requires Fits(p, |data|, shards) && c < p.chunks && s < shards && p.shardSize * shards == p.batchSize &&
              i < p.shardSize
    ensures |BlockOf(data, p, shards, c, s)| == p.shardSize
    ensures 0 <= c * p.batchSize + s * p.shardSize + i < |data|
    ensures BlockOf(data, p, shards, c, s)[i] == data[c * p.batchSize + s * p.shardSize + i]
  {
    ChunkInside(p, |data|, shards, c);
    EvenCuts(p, shards, s);
    OneMore(s, p.shardSize);
    var m, k := c * p.batchSize, s * p.shardSize;
    assert k + p.shardSize <= p.batchSize && m + p.batchSize <= |data|;
    assert BlockOf(data, p, shards, c, s) == data[m..m + p.batchSize][k..k + p.shardSize];
    PartEntry(data, m, p.batchSize, k, p.shardSize, i);
  }

  lemma PartEntry<X>(data: seq<X>, m: nat, n: nat, k: nat, size: nat, i: nat)
    requires m + n <= |data| && k + size <= n && i < size
    ensures data[m..m + n][k..k + size][i] == data[m + k + i]
  {
    var part := data[m..m + n];
    assert part[k..k + size][i] == part[k + i] == data[m + k + i];
  }

  lemma {:induction false} ColumnOfGather<X>(
      rows: seq<X>, grid: seq<seq<seq<nat>>>, blocks: seq<seq<seq<X>>>, shards: nat, s: nat)
    requires IsGrid(grid, shards) && IsGrid(blocks, shards) && |grid| == |blocks| && s < shards
    requires forall c :: 0 <= c < |grid| ==> AllBelow(grid[c][s], |rows|) && blocks[c][s] == Gather(rows, grid[c][s])
    ensures AllBelow(Column(grid, shards, s), |rows|)
    ensures Column(blocks, shards, s) == Gather(rows, Column(grid, shards, s))
  {
    if grid == [] {
    } else {
      ColumnOfGather(rows, grid[..|grid| - 1], blocks[..|grid| - 1], shards, s);
    }
  }

  /** The shards, one after the other, hold the rows in shard-by-shard order of the strided positions. */
  lemma ShardsOfReordered<T>(rows: seq<Row<T>>, p: Plan, shards: nat)
    requires Fits(p, |rows|, shards) && shards >= 1 && p.shardSize * shards == p.batchSize
    ensures var grid := StrideGrid(rows, p, shards);
      && AllBelow(ChunkMajor(grid), |rows|) && |ChunkMajor(grid)| == |rows| &&
            AllBelow(ShardMajor(grid, shards), |rows|)
      && (forall s :: 0 <= s < shards ==> AllBelow(Column(grid, shards, s), |rows|))
      && (forall s :: 0 <= s < shards ==>
            Column(BlockGrid(Gather(rows, ChunkMajor(grid)), p, shards), shards, s) ==
              Gather(rows, Column(grid, shards, s)))
      && ShardMajor(BlockGrid(Gather(rows, ChunkMajor(grid)), p, shards), shards) ==
            Gather(rows, ShardMajor(grid, shards))
  {
    var grid := StrideGrid(rows, p, shards);
    StridesArePermutations(rows, p, shards);
    var blocks := BlockGrid(Gather(rows, ChunkMajor(grid)), p, shards);
    forall s | 0 <= s < shards
      ensures AllBelow(Column(grid, shards, s), |rows|)
      ensures Column(blocks, shards, s) == Gather(rows, Column(grid, shards, s))
    {
      forall c | 0 <= c < p.chunks ensures AllBelow(grid[c][s], |rows|) && blocks[c][s] == Gather(rows, grid[c][s]) {
        BlockOfReordered(rows, p, shards, c, s);
      }
      ColumnOfGather(rows, grid, blocks, shards, s);
    }
    FlatGather(rows, Columns(grid, shards));
    assert Columns(blocks, shards) ==
           seq(shards, s requires 0 <= s < shards => Gather(rows, Columns(grid, shards)[s]));
  }

  /** Reordering the concatenated shards with the returned indices restores the batch when there is a
      single chunk or a single shard, and only then if its rows can be told apart. */
  lemma BalancedRoundTrip<T>(rows: seq<Row<T>>, p: Plan, shards: nat)
    requires Fits(p, |rows|, shards) && shards >= 1 && p.shardSize * shards == p.batchSize && rows != []
    ensures var order := ChunkMajor(StrideGrid(rows, p, shards));
      && AllBelow(order, |rows|) && |order| == |rows|
      && var restored := Reordered(ShardMajor(BlockGrid(Gather(rows, order), p, shards), shards), order);
      && (p.chunks == 1 || shards == 1 ==> restored == rows)
      && (Distinct(rows) && restored == rows ==> p.chunks == 1 || shards == 1)
  {
    var grid := StrideGrid(rows, p, shards);
    ShardsOfReordered(rows, p, shards);
    StridesArePermutations(rows, p, shards);
    if p.chunks == 1 || shards == 1 {
      ReadingsEqual(grid, shards);
      ReorderRestores(rows, ChunkMajor(grid));
    } else {
      assert p.chunks >= 2 by { assert p.chunks != 0 by { assert p.batchSize * 0 == 0; } }
      SeveralChunksAndShards(rows, p, shards);
      if Distinct(rows) {
        ReorderRestoresIff(rows, ShardMajor(grid, shards), ChunkMajor(grid));
      }
    }
  }

  lemma SeveralChunksAndShards<T>(rows: seq<Row<T>>, p: Plan, shards: nat)
    requires Fits(p, |rows|, shards) && p.shardSize * shards == p.batchSize && p.chunks >= 2 && shards >= 2
    ensures ShardMajor(StrideGrid(rows, p, shards), shards) != ChunkMajor(StrideGrid(rows, p, shards))
  {
    var grid := StrideGrid(rows, p, shards);
    assert p.shardSize >= 1 by { assert 0 * shards == 0; }
    StridePartsEven(rows, p, shards);
    ReadingsDiffer(grid, shards, p.shardSize);
    StridesArePermutations(rows, p, shards);
    FlatMemberOfGrid(grid, 0, 1, 0);
    FirstOfSecondChunk(rows, p, shards);
  }

  lemma FlatMemberOfGrid(grid: seq<seq<seq<nat>>>, c: nat, s: nat, k: nat)
    requires c < |grid| && s < |grid[c]| && k < |grid[c][s]|
    ensures grid[c][s][k] in Flat(grid[c])
  {
    FlatMember(grid[c], s, k);
  }

  /** Positions of different chunks are different. */
  lemma FirstOfSecondChunk<T>(rows: seq<Row<T>>, p: Plan, shards: nat)
    requires Fits(p, |rows|, shards) && p.shardSize * shards == p.batchSize && p.chunks >= 2 && shards >= 2
    requires p.shardSize >= 1
    ensures var grid := StrideGrid(rows, p, shards);
      && |grid[0][1]| >= 1 && |grid[1][0]| >= 1 && grid[0][1][0] < p.batchSize <= grid[1][0][0]
  {
    var grid := StrideGrid(rows, p, shards);
    DealEven(SortedChunk(rows, p, shards, 0), shards, 1, p.shardSize);
    DealEven(SortedChunk(rows, p, shards, 1), shards, 0, p.shardSize);
    var a, b := SortedChunk(rows, p, shards, 0), SortedChunk(rows, p, shards, 1);
    assert grid[0][1][0] == a[1 + 0 * shards] && grid[1][0][0] == b[0 + 0 * shards];
    assert 0 * p.batchSize == 0 && 1 * p.batchSize == p.batchSize;
  }
}
