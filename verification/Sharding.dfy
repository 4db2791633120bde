/** Splitting a batch over data-parallel shards: chunk by chunk, and inside a chunk by position, in the
    plain, the uneven and the length-balanced mode; and putting results back into their original order. */
module Sharding {
  import opened Options
  import opened Arithmetic
  import opened Sequences
  import opened Sorting
  import opened Grids

  /** One position of a batch: what all its columns hold there, and its input length. */
  datatype Row<+T> = Row(payload: T, length: nat)

  datatype ShardError =
    | BatchSizeWithUneven | ZeroBatchSize | NotAMultipleOfBatchSize | NotAMultipleOfShards
    | SequenceExceedsMicrobatch | NotPackable

  datatype Result<+R> = Success(value: R) | Failure(error: ShardError)

  // ----- restoring the original order -----

  /** Sorts positions by the given indices and gathers the rows in that order. */
  function Reordered<X>(rows: seq<X>, indices: seq<nat>): seq<X> {
    var n := Min(|rows|, |indices|);
    Gather(rows, AscendingPositions(Keys(indices[..n])))
  }

  function Keys(indices: seq<nat>): (r: seq<int>)
    ensures |r| == |indices| && forall i :: 0 <= i < |r| ==> r[i] == indices[i]
  {
    indices
  }

  /** A permutation listed in increasing order is the identity. */
  lemma {:induction false} SortedPermutation(q: seq<nat>, n: nat, k: nat)
    requires IsPermutation(q, n) && k < n
    requires forall i, j :: 0 <= i < j < n ==> q[i] <= q[j]
    ensures q[k] == k
  {
    AtLeastPosition(q, k);
    AtMostPosition(q, n, k);
  }

  lemma {:induction false} AtLeastPosition(q: seq<nat>, k: nat)
    requires Distinct(q) && k < |q| && forall i, j :: 0 <= i < j < |q| ==> q[i] <= q[j]
    ensures q[k] >= k
  {
    if k == 0 {
    } else {
      AtLeastPosition(q, k - 1);
    }
  }

  lemma {:induction false} AtMostPosition(q: seq<nat>, n: nat, k: nat)
    requires IsPermutation(q, n) && k < n && forall i, j :: 0 <= i < j < n ==> q[i] <= q[j]
    ensures q[k] <= k
    decreases n - k
  {
    if k == n - 1 {
    } else {
      AtMostPosition(q, n, k + 1);
    }
  }

  /** The positions that sort a permutation invert it. */
  lemma ArgSortInverts(indices: seq<nat>)
    requires IsPermutation(indices, |indices|)
    ensures var p := AscendingPositions(Keys(indices));
      IsPermutation(p, |indices|) && forall k :: 0 <= k < |indices| ==> indices[p[k]] == k
  {
    var p := AscendingPositions(Keys(indices));
    var q := Gather(indices, p);
    GatherPermutation(indices, p);
    PermutationIffMultiset(indices, |indices|);
    PermutationIffMultiset(q, |indices|);
    forall k | 0 <= k < |indices| ensures indices[p[k]] == k {
      SortedPermutation(q, |indices|, k);
    }
  }

  /** Reordering by a permutation moves the row at position i to where the i-th index says. */
  lemma ReorderPlaces<X>(rows: seq<X>, indices: seq<nat>)
    requires IsPermutation(indices, |rows|)
    ensures |Reordered(rows, indices)| == |rows|
    ensures forall i :: 0 <= i < |rows| ==> Reordered(rows, indices)[indices[i]] == rows[i]
  {
    assert indices[..|rows|] == indices;
    ArgSortInverts(indices);
    var p := AscendingPositions(Keys(indices));
    forall i | 0 <= i < |rows| ensures Reordered(rows, indices)[indices[i]] == rows[i] {
      PermutationCovers(p, |rows|, i);
      var k :| 0 <= k < |rows| && p[k] == i;
      assert indices[i] == k;
    }
  }

  /** Reordering by the indices along which rows were gathered brings every row back to its place,
      whatever was computed from the rows in between. */
  lemma ReorderRestores<X>(rows: seq<X>, indices: seq<nat>)
    requires IsPermutation(indices, |rows|)
    ensures Reordered(Gather(rows, indices), indices) == rows
  {
    assert indices[..|rows|] == indices;
    ArgSortInverts(indices);
  }

  /** For rows that can be told apart, rows gathered along `order` are restored by reordering with
      `indices` only if these are the same. */
  lemma ReorderRestoresIff<X>(rows: seq<X>, order: seq<nat>, indices: seq<nat>)
    requires Distinct(rows) && IsPermutation(order, |rows|) && IsPermutation(indices, |rows|)
    ensures Reordered(Gather(rows, order), indices) == rows <==> order == indices
  {
    assert indices[..|rows|] == indices;
    ReorderRestores(rows, indices);
    ArgSortInverts(indices);
    if Reordered(Gather(rows, order), indices) == rows {
      var p := AscendingPositions(Keys(indices));
      forall i | 0 <= i < |rows| ensures order[i] == indices[i] {
        PermutationCovers(p, |rows|, i);
        var k :| 0 <= k < |rows| && p[k] == i;
        assert rows[k] == Gather(rows, order)[p[k]] == rows[order[i]];
      }
    }
  }

  // ----- chunks and blocks -----

  /** Batch size per chunk, number of chunks, and rows per shard and chunk. */
  datatype Plan = Plan(batchSize: nat, chunks: nat, shardSize: nat)

  /** m is the least number of rows that, given to every shard, makes room for n rows. */
  ghost predicate IsLeastShare(m: nat, n: nat, shards: nat) {
    n <= m * shards && forall k: nat :: n <= k * shards ==> m <= k
  }

  lemma ShardsCover(size: nat, shards: nat, shardSize: nat, uneven: bool)
    requires shards >= 1 && shardSize == if uneven then (size + shards - 1) / shards else size / shards
    requires !uneven ==> size % shards == 0
    ensures IsLeastShare(shardSize, size, shards) && (!uneven ==> shardSize * shards == size)
  {
    if uneven {
      assert size + shards - 1 == shardSize * shards + (size + shards - 1) % shards;
    } else {
      assert size == shardSize * shards + size % shards;
    }
    forall k: nat | size <= k * shards ensures shardSize <= k {
      FewerIsLess(k, shardSize, size, shards);
    }
  }

  lemma FewerIsLess(k: nat, m: nat, size: nat, shards: nat)
    requires size <= k * shards && m * shards < size + shards
    ensures m <= k
  {
    if k < m {
      SmallerQuotient(k + 1, m, shards);
      OneMore(k, shards);
    }
  }

  /** The size of a chunk: the given one, or the whole batch. */
  function ChunkSize(total: nat, batchSize: Option<nat>): nat {
    if batchSize.Some? then batchSize.value else total
  }

  function PlanFor(total: nat, shards: nat, batchSize: Option<nat>, uneven: bool): (r: Result<Plan>)
    requires shards >= 1
    ensures r == Failure(BatchSizeWithUneven) <==> uneven && batchSize.Some?
    ensures r == Failure(ZeroBatchSize) <==> !(uneven && batchSize.Some?) && ChunkSize(total, batchSize) == 0
    ensures r == Failure(NotAMultipleOfBatchSize) <==>
            !uneven && ChunkSize(total, batchSize) > 0 && total % ChunkSize(total, batchSize) != 0
    ensures r == Failure(NotAMultipleOfShards) <==>
            !uneven && ChunkSize(total, batchSize) > 0 && total % ChunkSize(total, batchSize) == 0 &&
            ChunkSize(total, batchSize) % shards != 0
    ensures r.Success? <==>
            ChunkSize(total, batchSize) > 0 && total % ChunkSize(total, batchSize) == 0 &&
            if uneven then batchSize.None? else ChunkSize(total, batchSize) % shards == 0
    ensures r.Success? ==> Fits(r.value, total, shards)
    ensures r.Success? ==> r.value.batchSize == ChunkSize(total, batchSize)
    ensures r.Success? ==> IsLeastShare(r.value.shardSize, r.value.batchSize, shards)
    ensures r.Success? && !uneven ==> r.value.shardSize * shards == r.value.batchSize
    ensures r.Success? && batchSize.None? ==> r.value.chunks == 1
  {
    if uneven && batchSize.Some? then Failure(BatchSizeWithUneven) else
      var size := ChunkSize(total, batchSize);
      if size == 0 then Failure(ZeroBatchSize)
      else if total % size != 0 then Failure(NotAMultipleOfBatchSize)
      else if !uneven && size % shards != 0 then Failure(NotAMultipleOfShards)
      else
        var shardSize := if uneven then (size + shards - 1) / shards else size / shards;
        ShardsCover(size, shards, shardSize, uneven);
        if batchSize.None? then DivisionIsUnique(total, size, 1, 0); Success(Plan(size, total / size, shardSize))
        else Success(Plan(size, total / size, shardSize))
  }

  ghost predicate Fits(p: Plan, total: nat, shards: nat) {
    p.batchSize >= 1 && p.batchSize * p.chunks == total && p.shardSize * shards >= p.batchSize
  }

  lemma ChunksFill(p: Plan, total: nat, shards: nat)
    requires Fits(p, total, shards)
    ensures p.chunks * p.batchSize == total
  {
  }

  /** Where the block of shard s starts inside its chunk. */
  function CutAt(p: Plan, s: nat): nat {
    Min(s * p.shardSize, p.batchSize)
  }

  lemma ChunkInside(p: Plan, total: nat, shards: nat, c: nat)
    requires Fits(p, total, shards) && c < p.chunks
    ensures 0 <= c * p.batchSize <= (c + 1) * p.batchSize == c * p.batchSize + p.batchSize <= total
  {
    SmallerQuotient(c + 1, p.chunks, p.batchSize);
    assert (c + 1) * p.batchSize == c * p.batchSize + p.batchSize;
  }

  function ChunkOf<X>(data: seq<X>, p: Plan, shards: nat, c: nat): (r: seq<X>)
    requires Fits(p, |data|, shards) && c < p.chunks
    ensures |r| == p.batchSize
  {
    ChunkInside(p, |data|, shards, c);
    data[c * p.batchSize..(c + 1) * p.batchSize]
  }

  lemma CutsOrdered(p: Plan, s: nat)
    ensures CutAt(p, s) <= CutAt(p, s + 1) <= p.batchSize
  {
    assert (s + 1) * p.shardSize == s * p.shardSize + p.shardSize;
  }

  function BlockOf<X>(data: seq<X>, p: Plan, shards: nat, c: nat, s: nat): seq<X>
    requires Fits(p, |data|, shards) && c < p.chunks
  {
    CutsOrdered(p, s);
    ChunkOf(data, p, shards, c)[CutAt(p, s)..CutAt(p, s + 1)]
  }

  function BlocksOf<X>(data: seq<X>, p: Plan, shards: nat, c: nat): seq<seq<X>>
    requires Fits(p, |data|, shards) && c < p.chunks
  {
    seq(shards, s requires 0 <= s < shards => BlockOf(data, p, shards, c, s))
  }

  function BlockGrid<X>(data: seq<X>, p: Plan, shards: nat): (grid: seq<seq<seq<X>>>)
    requires Fits(p, |data|, shards)
    ensures IsGrid(grid, shards)
  {
    seq(p.chunks, c requires 0 <= c < p.chunks => BlocksOf(data, p, shards, c))
  }

  lemma {:induction false} BlocksTileChunk<X>(data: seq<X>, p: Plan, shards: nat, c: nat, n: nat)
    requires Fits(p, |data|, shards) && c < p.chunks && n <= shards
    ensures CutAt(p, n) <= p.batchSize
    ensures Flat(BlocksOf(data, p, shards, c)[..n]) == ChunkOf(data, p, shards, c)[..CutAt(p, n)]
  {
    var blocks := BlocksOf(data, p, shards, c);
    var chunk := ChunkOf(data, p, shards, c);
    if n == 0 {
      assert 0 * p.shardSize == 0;
    } else {
      BlocksTileChunk(data, p, shards, c, n - 1);
      CutsOrdered(p, n - 1);
      assert blocks[..n] == blocks[..n - 1] + [blocks[n - 1]];
      FlatSnoc(blocks[..n - 1], blocks[n - 1]);
      assert chunk[..CutAt(p, n - 1)] + chunk[CutAt(p, n - 1)..CutAt(p, n)] == chunk[..CutAt(p, n)];
    }
  }

  /** The blocks, read chunk by chunk, are the batch. */
  lemma BlocksTile<X>(data: seq<X>, p: Plan, shards: nat)
    requires Fits(p, |data|, shards)
    ensures Flat(FlatEach(BlockGrid(data, p, shards))) == data[..p.chunks * p.batchSize]
  {
    var parts := FlatEach(BlockGrid(data, p, shards));
    forall c | 0 <= c < |parts| ensures LiesAt(data, parts[c], c * p.batchSize, p.batchSize) {
      BlocksGiveChunk(data, p, shards, c);
    }
    PartsTile(data, parts, p.batchSize, p.chunks, p.chunks * p.batchSize);
    assert parts[..p.chunks] == parts;
  }

  /** The part is the stretch of the data of this size that starts here. */
  ghost predicate LiesAt<X>(data: seq<X>, part: seq<X>, start: int, size: nat) {
    0 <= start && start + size <= |data| && part == data[start..start + size]
  }

  lemma BlocksGiveChunk<X>(data: seq<X>, p: Plan, shards: nat, c: nat)
    requires Fits(p, |data|, shards) && c < p.chunks
    ensures LiesAt(data, Flat(BlocksOf(data, p, shards, c)), c * p.batchSize, p.batchSize)
  {
    ChunkInside(p, |data|, shards, c);
    BlocksTileChunk(data, p, shards, c, shards);
    var blocks, chunk := BlocksOf(data, p, shards, c), ChunkOf(data, p, shards, c);
    assert blocks[..shards] == blocks && chunk[..p.batchSize] == chunk;
  }

  /** Stretches of equal size, one after the other, make up the data. */
  lemma {:induction false} PartsTile<X>(data: seq<X>, parts: seq<seq<X>>, size: nat, n: nat, end: nat)
    requires n <= |parts| && end == n * size
    requires forall c :: 0 <= c < n ==> LiesAt(data, parts[c], c * size, size)
    ensures end <= |data| && Flat(parts[..n]) == data[..end]
  {
    if n == 0 {
    } else {
      OneMore(n - 1, size);
      var start := end - size;
      assert LiesAt(data, parts[n - 1], start, size);
      PartsTile(data, parts, size, n - 1, start);
      NextPart(data, parts, n, start, end);
    }
  }

  lemma NextPart<X>(data: seq<X>, parts: seq<seq<X>>, n: nat, start: nat, end: nat)
    requires 1 <= n <= |parts| && start <= end <= |data|
    requires Flat(parts[..n - 1]) == data[..start] && parts[n - 1] == data[start..end]
    ensures Flat(parts[..n]) == data[..end]
  {
    assert parts[..n] == parts[..n - 1] + [parts[n - 1]];
    FlatSnoc(parts[..n - 1], parts[n - 1]);
  }

  lemma BlocksAreBatch<X>(data: seq<X>, p: Plan, shards: nat)
    requires Fits(p, |data|, shards)
    ensures ChunkMajor(BlockGrid(data, p, shards)) == data
  {
    BlocksTile(data, p, shards);
    assert p.chunks * p.batchSize == |data| && data[..|data|] == data;
  }

  /** Sharding keeps every row exactly once; with a single chunk it also keeps the order. */
  lemma ShardsKeepRows<X>(data: seq<X>, p: Plan, shards: nat)
    requires Fits(p, |data|, shards)
    ensures multiset(ShardMajor(BlockGrid(data, p, shards), shards)) == multiset(data)
    ensures p.chunks == 1 || shards == 1 ==> ShardMajor(BlockGrid(data, p, shards), shards) == data
  {
    BlocksAreBatch(data, p, shards);
    ReadingsAgree(BlockGrid(data, p, shards), shards);
    if p.chunks == 1 || shards == 1 {
      ReadingsEqual(BlockGrid(data, p, shards), shards);
    }
  }

  /** With uneven shards, shard s has the rows from s * m up to (s + 1) * m, as far as there are any. */
  ghost predicate IsShare<X>(data: seq<X>, m: nat, s: nat, part: seq<X>) {
    var lo, hi := Min(s * m, |data|), Min((s + 1) * m, |data|);
    lo <= hi && part == data[lo..hi]
  }

  /** The m elements of a from i on are the m elements of b from j on. */
  ghost predicate SameStretch<X>(a: seq<X>, i: int, b: seq<X>, j: int, m: nat) {
    0 <= i && i + m <= |a| && 0 <= j && j + m <= |b| && a[i..i + m] == b[j..j + m]
  }

  /** With even shards, shard s has, chunk after chunk, m rows of each of the n chunks, from s * m on. */
  ghost predicate IsShareOfChunks<X>(data: seq<X>, size: nat, n: nat, m: nat, s: nat, part: seq<X>) {
    |part| == n * m && forall c :: 0 <= c < n ==> SameStretch(part, c * m, data, c * size + s * m, m)
  }

  ghost predicate AreUnevenShares<X>(data: seq<X>, shards: nat, m: nat, parts: seq<seq<X>>) {
    && IsLeastShare(m, |data|, shards) && |parts| == shards
    && forall s :: 0 <= s < shards ==> IsShare(data, m, s, parts[s])
  }

  ghost predicate AreEvenShares<X>(data: seq<X>, size: nat, shards: nat, n: nat, m: nat, parts: seq<seq<X>>) {
    && m * shards == size && n * size == |data| && |parts| == shards
    && forall s :: 0 <= s < shards ==> IsShareOfChunks(data, size, n, m, s, parts[s])
  }

  lemma UnevenShare<X>(data: seq<X>, p: Plan, shards: nat, s: nat)
    requires Fits(p, |data|, shards) && p.chunks == 1 && s < shards
    ensures IsShare(data, p.shardSize, s, Column(BlockGrid(data, p, shards), shards, s))
  {
    var grid := BlockGrid(data, p, shards);
    OneChunk(p, |data|, shards, 0);
    CutsOrdered(p, s);
    assert ChunkOf(data, p, shards, 0) == data;
    assert grid[..0] == [] && Column(grid, shards, s) == [] + grid[0][s];
  }

  lemma EvenShare<X>(data: seq<X>, p: Plan, shards: nat, s: nat)
    requires Fits(p, |data|, shards) && p.shardSize * shards == p.batchSize && s < shards
    ensures IsShareOfChunks(
              data, p.batchSize, p.chunks, p.shardSize, s, Column(BlockGrid(data, p, shards), shards, s))
  {
    var grid := BlockGrid(data, p, shards);
    var pieces := ColumnParts(grid, shards, s);
    ColumnIsFlat(grid, shards, s);
    forall c | 0 <= c < |pieces| ensures LiesAt(data, pieces[c], c * p.batchSize + s * p.shardSize, p.shardSize) {
      EvenPiece(data, p, shards, c, s);
    }
    FlatLength(pieces, p.shardSize);
    forall c | 0 <= c < p.chunks
      ensures SameStretch(Flat(pieces), c * p.shardSize, data, c * p.batchSize + s * p.shardSize, p.shardSize)
    {
      PieceInPlace(data, pieces, p.shardSize, c, c * p.shardSize, c * p.batchSize + s * p.shardSize);
    }
  }

  lemma PieceInPlace<X>(data: seq<X>, pieces: seq<seq<X>>, m: nat, c: nat, at: int, from: int)
    requires c < |pieces| && at == c * m && LiesAt(data, pieces[c], from, m)
    requires forall k :: 0 <= k < |pieces| ==> |pieces[k]| == m
    ensures SameStretch(Flat(pieces), at, data, from, m)
  {
    EqualParts(pieces, m, c);
    OneMore(c, m);
  }

  lemma EvenPiece<X>(data: seq<X>, p: Plan, shards: nat, c: nat, s: nat)
    requires Fits(p, |data|, shards) && p.shardSize * shards == p.batchSize && s < shards && c < p.chunks
    ensures LiesAt(data, BlockGrid(data, p, shards)[c][s], c * p.batchSize + s * p.shardSize, p.shardSize)
  {
    ChunkInside(p, |data|, shards, c);
    EvenCuts(p, shards, s);
    OneMore(s, p.shardSize);
    SliceOfSlice(data, c * p.batchSize, p.batchSize, s * p.shardSize, (s + 1) * p.shardSize);
  }

  /** The shards of a batch: shard s collects block s of every chunk. */
  method ShardByBatchSize<X>(data: seq<X>, shards: nat, batchSize: Option<nat>, uneven: bool)
      returns (r: Result<seq<seq<X>>>)
    requires shards >= 1
    ensures r.Success? ==> |r.value| == shards
    ensures r.Success? && uneven ==> exists m :: AreUnevenShares(data, shards, m, r.value)
    ensures r.Success? && !uneven ==>
              var size := if batchSize.Some? then batchSize.value else |data|;
              exists n, m :: AreEvenShares(data, size, shards, n, m, r.value)
    ensures var plan := PlanFor(|data|, shards, batchSize, uneven);
      && (r.Failure? <==> plan.Failure?) && (r.Failure? ==> r.error == plan.error)
      && (r.Success? ==> r.value == Columns(BlockGrid(data, plan.value, shards), shards))
  {
    var plan := PlanFor(|data|, shards, batchSize, uneven);
    if plan.Failure? {
      return Failure(plan.error);
    }
    var p := plan.value;
    var aggregated: seq<seq<X>> := [];
    for s := 0 to shards
      invariant aggregated == Columns(BlockGrid(data, p, shards), shards)[..s]
    {
      var rows := CollectShard(data, p, shards, uneven, s);
      aggregated := aggregated + [rows];
    }
    assert aggregated == Columns(BlockGrid(data, p, shards), shards);
    SharesOf(data, p, shards, uneven);
    return Success(aggregated);
  }

  lemma SharesOf<X>(data: seq<X>, p: Plan, shards: nat, uneven: bool)
    requires Fits(p, |data|, shards)
    requires IsLeastShare(p.shardSize, p.batchSize, shards)
    requires if uneven then p.chunks == 1 else p.shardSize * shards == p.batchSize
    ensures var parts := Columns(BlockGrid(data, p, shards), shards);
      if uneven then AreUnevenShares(data, shards, p.shardSize, parts)
      else AreEvenShares(data, p.batchSize, shards, p.chunks, p.shardSize, parts)
  {
    hide Column, BlockGrid, IsShare, IsShareOfChunks;
    var parts := Columns(BlockGrid(data, p, shards), shards);
    if uneven {
      OneChunk(p, |data|, shards, 0);
      forall s | 0 <= s < shards ensures IsShare(data, p.shardSize, s, parts[s]) {
        UnevenShare(data, p, shards, s);
      }
    } else {
      ChunksFill(p, |data|, shards);
      forall s | 0 <= s < shards ensures IsShareOfChunks(data, p.batchSize, p.chunks, p.shardSize, s, parts[s]) {
        EvenShare(data, p, shards, s);
      }
    }
  }

  /** Shard s collects its range of every chunk. */
  method CollectShard<X>(data: seq<X>, p: Plan, shards: nat, uneven: bool, s: nat) returns (rows: seq<X>)
    requires Fits(p, |data|, shards) && s < shards
    requires if uneven then p.chunks == 1 else p.shardSize * shards == p.batchSize
    ensures rows == Column(BlockGrid(data, p, shards), shards, s)
  {
    ghost var grid := BlockGrid(data, p, shards);
    rows := [];
    for c := 0 to p.chunks
      invariant rows == Column(grid[..c], shards, s)
    {
      var (shardStart, shardEnd) := ShardRange(p, |data|, uneven, c, s);
      RangeIsBlock(data, p, shards, uneven, c, s);
      assert grid[..c + 1][..c] == grid[..c];
      assert grid[c][s] == BlockOf(data, p, shards, c, s);
      if shardStart < shardEnd {
        rows := rows + data[shardStart..shardEnd];
      }
    }
    assert grid[..p.chunks] == grid;
  }

  /** The rows of chunk c that belong to shard s. */
  function ShardRange(p: Plan, total: nat, uneven: bool, c: nat, s: nat): (nat, nat) {
    var chunkStart := c * p.batchSize;
    var shardStart, shardEnd := chunkStart + s * p.shardSize, chunkStart + (s + 1) * p.shardSize;
    if uneven then (Min(shardStart, total), Min(shardEnd, total)) else (shardStart, shardEnd)
  }

  lemma RangeIsBlock<X>(data: seq<X>, p: Plan, shards: nat, uneven: bool, c: nat, s: nat)
    requires Fits(p, |data|, shards) && c < p.chunks && s < shards
    requires if uneven then p.chunks == 1 else p.shardSize * shards == p.batchSize
    ensures var (lo, hi) := ShardRange(p, |data|, uneven, c, s);
      0 <= lo <= hi <= |data| && BlockOf(data, p, shards, c, s) == data[lo..hi]
  {
    if uneven {
      OneChunk(p, |data|, shards, c);
      CutsOrdered(p, s);
      assert ChunkOf(data, p, shards, c) == data;
    } else {
      ChunkInside(p, |data|, shards, c);
      EvenCuts(p, shards, s);
      SliceOfSlice(data, c * p.batchSize, p.batchSize, s * p.shardSize, (s + 1) * p.shardSize);
    }
  }

  lemma OneChunk(p: Plan, total: nat, shards: nat, c: nat)
    requires Fits(p, total, shards) && p.chunks == 1 && c == 0
    ensures p.batchSize == total && c * p.batchSize == 0 && (c + 1) * p.batchSize == total
  {
  }

  lemma EvenCuts(p: Plan, shards: nat, s: nat)
    requires p.shardSize * shards == p.batchSize && s < shards
    ensures CutAt(p, s) == s * p.shardSize <= (s + 1) * p.shardSize == CutAt(p, s + 1) <= p.batchSize
  {
    SmallerQuotient(s + 1, shards, p.shardSize);
    assert shards * p.shardSize == p.batchSize;
    assert (s + 1) * p.shardSize == s * p.shardSize + p.shardSize;
    assert 0 <= s * p.shardSize <= (s + 1) * p.shardSize <= p.batchSize;
    assert CutAt(p, s) == s * p.shardSize;
    assert CutAt(p, s + 1) == (s + 1) * p.shardSize;
  }

}
