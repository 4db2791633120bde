/** What the shards see under sequence packing, and putting results back in order. */
module PackedWalk {
  import opened Options
  import opened Arithmetic
  import opened Sequences
  import opened Grids
  import opened Sharding
  import opened BatchedData
  import opened Packing
  import opened PackedSharding

  /** Concatenating the shards and reordering by the returned indices restores the batch, for any number
      of chunks, and so it does for whatever was computed from each row. */
  lemma PackedRoundTrip<T, U>(
      rows: seq<Row<T>>, padded: seq<nat>, bins: seq<seq<seq<nat>>>, shards: nat, r: PackedShards<T>, f: Row<T> -> U)
    requires shards >= 1 && IsPacked(rows, padded, bins, shards, r)
    ensures Flat(r.shards) == Gather(rows, r.order)
    ensures Reordered(Flat(r.shards), r.order) == rows
    ensures Reordered(Mapped(f, Flat(r.shards)), r.order) == Mapped(f, rows)
  {
    var grid := BinGrid(bins, shards);
    forall s | 0 <= s < shards
      ensures AllBelow(Column(grid, shards, s), |rows|) && r.shards[s] == Gather(rows, Column(grid, shards, s))
    {
      assert IsPackedShard(rows, padded, bins, shards, r, s);
    }
    FlatGather(rows, Columns(grid, shards));
    assert r.shards == seq(shards, s requires 0 <= s < shards => Gather(rows, Columns(grid, shards)[s]));
    ReorderRestores(rows, r.order);
    ReorderRestores(Mapped(f, rows), r.order);
    assert Mapped(f, Flat(r.shards)) == Gather(Mapped(f, rows), r.order);
  }

  function Mapped<X, Y>(f: X -> Y, xs: seq<X>): (r: seq<Y>)
    ensures |r| == |xs|
  {
    seq(|xs|, i requires 0 <= i < |xs| => f(xs[i]))
  }

  // ----- walking -----

  lemma {:induction false} CountsLocateChunks<X>(
      rows: seq<X>, grid: seq<seq<seq<nat>>>, shards: nat, s: nat, counts: seq<nat>, c: nat)
    requires IsGrid(grid, shards) && s < shards && |counts| == |grid| && c < |grid|
    requires forall k :: 0 <= k < |grid| ==> counts[k] == |grid[k][s]|
    ensures |Column(grid, shards, s)| == Cumulative(counts, |grid|)
    ensures Cumulative(counts, c) <= Cumulative(counts, c + 1) <= |Column(grid, shards, s)|
    ensures Column(grid, shards, s)[Cumulative(counts, c)..Cumulative(counts, c + 1)] == grid[c][s]
    decreases |grid|
  {
    var last := |grid| - 1;
    ColumnLengthFromCounts(grid, shards, s, counts);
    ColumnLengthFromCounts(grid[..last], shards, s, counts[..last]);
    CumulativePrefix(counts, last, last);
    if c == last {
    } else {
      CountsLocateChunks(rows, grid[..last], shards, s, counts[..last], c);
      CumulativePrefix(counts, last, c);
      CumulativePrefix(counts, last, c + 1);
      CumulativeMonotone(counts, c + 1, last);
    }
  }

  lemma {:induction false} CumulativePrefix(counts: seq<nat>, n: nat, k: nat)
    requires k <= n <= |counts|
    ensures Cumulative(counts[..n], k) == Cumulative(counts, k)
    decreases k
  {
    if k == 0 {
    } else {
      CumulativePrefix(counts, n, k - 1);
    }
  }

  lemma {:induction false} ColumnLengthFromCounts(grid: seq<seq<seq<nat>>>, shards: nat, s: nat, counts: seq<nat>)
    requires IsGrid(grid, shards) && s < shards && |counts| == |grid|
    requires forall k :: 0 <= k < |grid| ==> counts[k] == |grid[k][s]|
    ensures |Column(grid, shards, s)| == Cumulative(counts, |grid|)
  {
    if grid == [] {
    } else {
      var last := |grid| - 1;
      ColumnLengthFromCounts(grid[..last], shards, s, counts[..last]);
      CumulativePrefix(counts, last, last);
    }
  }

  /** Fetching chunk c on shard s and iterating over its microbatches yields exactly the bins dealt to
      that shard: bins s, s + shards, s + 2 * shards and so on, one microbatch per bin, every padded total
      within the capacity, and equally many on every shard. */
  lemma ChunkWalk<T>(
      rows: seq<Row<T>>, padded: seq<nat>, p: Plan, bins: seq<seq<seq<nat>>>, shards: nat, cap: int,
      r: PackedShards<T>, s: nat, c: nat)
    requires shards >= 1 && IsPacked(rows, padded, bins, shards, r) && |padded| == |rows|
    requires AllChunkBins(bins, padded, p, shards, cap) && s < shards && c < |bins|
    ensures |r.counts[s]| == |bins| && |r.ranges[s]| == |bins| && |r.lengths[s]| == |bins|
    ensures Cumulative(r.counts[s], c) <= Cumulative(r.counts[s], c + 1) <= |r.shards[s]|
    ensures var batch := r.shards[s][Cumulative(r.counts[s], c)..Cumulative(r.counts[s], c + 1)];
      var n := |bins[c]| / shards;
      && |r.ranges[s][c]| == |r.lengths[s][c]| == n && n * shards == |bins[c]|
      && Inside(r.ranges[s][c], |batch|)
      && (forall j :: 0 <= j < n ==>
            0 <= s + j * shards < |bins[c]| && AllBelow(bins[c][s + j * shards], |rows|) &&
            RangeRows(batch, r.ranges[s][c])[j] == Gather(rows, bins[c][s + j * shards]))
      && (forall j :: 0 <= j < n ==>
            r.lengths[s][c][j] <= cap && r.lengths[s][c][j] == Load(padded, bins[c][s + j * shards]))
  {
    var grid := BinGrid(bins, shards);
    assert IsPackedShard(rows, padded, bins, shards, r, s);
    forall k | 0 <= k < |bins| ensures r.counts[s][k] == |grid[k][s]| {
      assert IsPackedChunk(padded, bins[k], shards, r.ranges[s][k], r.lengths[s][k], r.counts[s][k], s);
    }
    CountsLocateChunks(rows, grid, shards, s, r.counts[s], c);
    var column := Column(grid, shards, s);
    var a, b := Cumulative(r.counts[s], c), Cumulative(r.counts[s], c + 1);
    GatherSlice(rows, column, a, b);
    ChunkIsDealtBins(rows, padded, p, bins[c], shards, cap, r.ranges[s][c], r.lengths[s][c], r.counts[s][c], s, c);
  }

  lemma ChunkIsDealtBins<T>(
      rows: seq<Row<T>>, padded: seq<nat>, p: Plan, bins: seq<seq<nat>>, shards: nat, cap: int,
      ranges: seq<(nat, nat)>, lengths: seq<nat>, count: nat, s: nat, c: nat)
    requires shards >= 1 && s < shards && ChunkBins(bins, padded, p, shards, cap, c) && |padded| == |rows|
    requires IsPackedChunk(padded, bins, shards, ranges, lengths, count, s)
    requires AllBelow(Flat(Deal(bins, shards, s, |bins|)), |rows|)
    ensures var batch := Gather(rows, Flat(Deal(bins, shards, s, |bins|)));
      var n := |bins| / shards;
      && |ranges| == |lengths| == n && n * shards == |bins| && Inside(ranges, |batch|)
      && (forall j :: 0 <= j < n ==>
            0 <= s + j * shards < |bins| && AllBelow(bins[s + j * shards], |rows|) &&
            RangeRows(batch, ranges)[j] == Gather(rows, bins[s + j * shards]))
      && (forall j :: 0 <= j < n ==> lengths[j] <= cap && lengths[j] == Load(padded, bins[s + j * shards]))
  {
    var n := |bins| / shards;
    DealEven(bins, shards, s, n);
    CutsGiveBins(rows, Deal(bins, shards, s, |bins|));
  }

  // ----- tokens -----

  /** The tokens that the rows hold. */
  ghost function Tokens<T>(rows: seq<Row<T>>): nat {
    if rows == [] then 0 else Tokens(rows[..|rows| - 1]) + rows[|rows| - 1].length
  }

  /** The tokens once every row is padded to the least multiple that covers it. */
  ghost predicate PadsTo<T>(rows: seq<Row<T>>, multiple: nat, total: int)
    requires multiple >= 1
  {
    if rows == [] then total == 0
    else
      var last := |rows| - 1;
      exists m :: IsLeastMultiple(m, rows[last].length, multiple) && PadsTo(rows[..last], multiple, total - m)
  }

  lemma {:induction false} LoadIsPadded<T>(rows: seq<Row<T>>, multiple: nat, bin: seq<nat>)
    requires multiple >= 1 && AllBelow(bin, |rows|)
    ensures PadsTo(Gather(rows, bin), multiple, Load(PaddedLengths(rows, multiple), bin))
    ensures Tokens(Gather(rows, bin)) <= Load(PaddedLengths(rows, multiple), bin)
  {
    var padded := PaddedLengths(rows, multiple);
    if bin == [] {
    } else {
      var last := |bin| - 1;
      var m := PadTo(rows[bin[last]].length, multiple);
      LoadIsPadded(rows, multiple, bin[..last]);
      PadToIsLeast(rows[bin[last]].length, multiple);
      LoadSnoc(padded, bin[..last], bin[last]);
      assert bin == bin[..last] + [bin[last]];
      assert Gather(rows, bin)[..last] == Gather(rows, bin[..last]) && Gather(rows, bin)[last] == rows[bin[last]];
      assert padded[bin[last]] == m;
    }
  }

  /** The rows of a recorded microbatch hold no more tokens than its recorded total, which is what they pad to and
      within the capacity. */
  ghost predicate IsWithin<T>(mb: seq<Row<T>>, multiple: nat, total: int, cap: int)
    requires multiple >= 1
  {
    Tokens(mb) <= total <= cap && PadsTo(mb, multiple, total)
  }

  /** Sequence packing with rows padded to a multiple: every microbatch of every chunk on every shard is within the
      capacity, counted in tokens of its padded rows. */
  lemma MicrobatchesAreWithin<T>(
      rows: seq<Row<T>>, multiple: nat, p: Plan, bins: seq<seq<seq<nat>>>, shards: nat, cap: int,
      r: PackedShards<T>, s: nat, c: nat, j: nat)
    requires shards >= 1 && multiple >= 1 && IsPacked(rows, PaddedLengths(rows, multiple), bins, shards, r)
    requires AllChunkBins(bins, PaddedLengths(rows, multiple), p, shards, cap) && s < shards && c < |bins|
    requires |r.ranges[s]| == |bins| && j < |r.ranges[s][c]|
    ensures |r.counts[s]| == |r.lengths[s]| == |bins| && j < |r.lengths[s][c]|
    ensures Cumulative(r.counts[s], c) <= Cumulative(r.counts[s], c + 1) <= |r.shards[s]|
    ensures var batch := r.shards[s][Cumulative(r.counts[s], c)..Cumulative(r.counts[s], c + 1)];
      Inside(r.ranges[s][c], |batch|) &&
      IsWithin(RangeRows(batch, r.ranges[s][c])[j], multiple, r.lengths[s][c][j], cap)
  {
    hide IsPacked, AllChunkBins;
    ChunkWalk(rows, PaddedLengths(rows, multiple), p, bins, shards, cap, r, s, c);
    LoadIsPadded(rows, multiple, bins[c][s + j * shards]);
  }

  // ----- walking a shard -----

  /** The rows of every part are those at the positions of one bin. */
  ghost predicate OneBinEach<X>(rows: seq<X>, bins: seq<seq<nat>>, parts: seq<seq<X>>) {
    |parts| == |bins| && forall k :: 0 <= k < |bins| ==> AllBelow(bins[k], |rows|) && parts[k] == Gather(rows, bins[k])
  }

  /** The microbatches of a chunk are all its rows, one bin each. */
  lemma RangesGiveChunk<X>(rows: seq<X>, parts: seq<seq<nat>>)
    requires AllBelow(Flat(parts), |rows|)
    ensures Inside(Cuts(parts), |Flat(parts)|)
    ensures Flat(RangeRows(Gather(rows, Flat(parts)), Cuts(parts))) == Gather(rows, Flat(parts))
    ensures OneBinEach(rows, parts, RangeRows(Gather(rows, Flat(parts)), Cuts(parts)))
  {
    CutsGiveBins(rows, parts);
    FlatGather(rows, parts);
    assert RangeRows(Gather(rows, Flat(parts)), Cuts(parts)) ==
           seq(|parts|, i requires 0 <= i < |parts| => Gather(rows, parts[i]));
  }

  lemma ChunkGivesRows<T>(
      rows: seq<Row<T>>, padded: seq<nat>, bins: seq<seq<seq<nat>>>, shards: nat, r: PackedShards<T>, s: nat, c: nat)
    requires shards >= 1 && IsPacked(rows, padded, bins, shards, r) && s < shards && c < |bins|
    ensures |r.counts[s]| == |r.ranges[s]| == |r.lengths[s]| == |bins|
    ensures |r.ranges[s][c]| == |r.lengths[s][c]|
    ensures Cumulative(r.counts[s], c) <= Cumulative(r.counts[s], c + 1) <= |r.shards[s]| ==
              Cumulative(r.counts[s], |bins|)
    ensures var batch := r.shards[s][Cumulative(r.counts[s], c)..Cumulative(r.counts[s], c + 1)];
      && Inside(r.ranges[s][c], |batch|) && Flat(RangeRows(batch, r.ranges[s][c])) == batch
      && OneBinEach(rows, Deal(bins[c], shards, s, |bins[c]|), RangeRows(batch, r.ranges[s][c]))
  {
    var grid := BinGrid(bins, shards);
    assert IsPackedShard(rows, padded, bins, shards, r, s);
    forall k | 0 <= k < |bins| ensures r.counts[s][k] == |grid[k][s]| {
      assert IsPackedChunk(padded, bins[k], shards, r.ranges[s][k], r.lengths[s][k], r.counts[s][k], s);
    }
    CountsLocateChunks(rows, grid, shards, s, r.counts[s], c);
    var column := Column(grid, shards, s);
    GatherSlice(rows, column, Cumulative(r.counts[s], c), Cumulative(r.counts[s], c + 1));
    assert IsPackedChunk(padded, bins[c], shards, r.ranges[s][c], r.lengths[s][c], r.counts[s][c], s);
    RangesGiveChunk(rows, Deal(bins[c], shards, s, |bins[c]|));
  }

  /** The bins that shard s is dealt, chunk after chunk. */
  function DealtTo(bins: seq<seq<seq<nat>>>, shards: nat, s: nat): seq<seq<nat>>
    requires shards >= 1
  {
    if bins == [] then []
    else
      var last := |bins| - 1;
      DealtTo(bins[..last], shards, s) + Deal(bins[last], shards, s, |bins[last]|)
  }

  /** What a shard is dealt stays within the capacity. */
  lemma {:induction false} DealtFits(padded: seq<nat>, bins: seq<seq<seq<nat>>>, shards: nat, cap: int, s: nat)
    requires shards >= 1 && s < shards
    requires forall c :: 0 <= c < |bins| ==> |bins[c]| % shards == 0 && FitAll(padded, cap, bins[c])
    ensures FitAll(padded, cap, DealtTo(bins, shards, s))
  {
    if bins == [] {
    } else {
      var last := |bins| - 1;
      DealtFits(padded, bins[..last], shards, cap, s);
      DealtOfChunk(padded, bins[last], shards, cap, s);
    }
  }

  lemma DealtOfChunk(padded: seq<nat>, bins: seq<seq<nat>>, shards: nat, cap: int, s: nat)
    requires shards >= 1 && s < shards && |bins| % shards == 0 && FitAll(padded, cap, bins)
    ensures FitAll(padded, cap, Deal(bins, shards, s, |bins|))
  {
    var n := |bins| / shards;
    DealEven(bins, shards, s, n);
    var dealt := Deal(bins, shards, s, |bins|);
    forall k | 0 <= k < |dealt| ensures AllBelow(dealt[k], |padded|) && Load(padded, dealt[k]) <= cap {
      assert dealt[k] == bins[s + k * shards];
    }
  }

  /** Every shard is dealt equally many bins. */
  lemma {:induction false} DealtEvenly(bins: seq<seq<seq<nat>>>, shards: nat, s: nat)
    requires shards >= 1 && s < shards && forall c :: 0 <= c < |bins| ==> |bins[c]| % shards == 0
    ensures |DealtTo(bins, shards, s)| * shards == |Flat(bins)|
  {
    if bins == [] {
    } else {
      var last := |bins| - 1;
      DealtEvenly(bins[..last], shards, s);
      DealCount(bins[last], shards, s);
      assert bins == bins[..last] + [bins[last]];
      FlatSnoc(bins[..last], bins[last]);
      Distribute(|DealtTo(bins[..last], shards, s)|, |Deal(bins[last], shards, s, |bins[last]|)|, shards);
    }
  }

  lemma DealCount(bins: seq<seq<nat>>, shards: nat, s: nat)
    requires shards >= 1 && s < shards && |bins| % shards == 0
    ensures |Deal(bins, shards, s, |bins|)| * shards == |bins|
  {
    DealEven(bins, shards, s, |bins| / shards);
  }

  lemma Distribute(a: nat, b: nat, m: nat)
    ensures (a + b) * m == a * m + b * m
  {
  }

  lemma OneBinAppend<X>(rows: seq<X>, a: seq<seq<nat>>, x: seq<seq<X>>, b: seq<seq<nat>>, y: seq<seq<X>>)
    requires OneBinEach(rows, a, x) && OneBinEach(rows, b, y)
    ensures OneBinEach(rows, a + b, x + y)
  {
  }

  /** A shard fetches its chunks one after another and iterates over the microbatches of each: it sees
      exactly its rows, in order and uncut, every microbatch being one of the bins it was dealt. */
  method WalkShard<T>(
      rows: seq<Row<T>>, width: nat, ghost padded: seq<nat>, ghost bins: seq<seq<seq<nat>>>, shards: nat,
      r: PackedShards<T>, s: nat, ghost p: Plan, ghost cap: int)
      returns (mbs: seq<Microbatch<T>>)
    requires shards >= 1 && IsPacked(rows, padded, bins, shards, r) && s < shards
    ensures Flat(RowsOf(mbs)) == r.shards[s]
    ensures OneBinEach(rows, DealtTo(bins, shards, s), RowsOf(mbs))
    ensures AllChunkBins(bins, padded, p, shards, cap) ==>
              FitAll(padded, cap, DealtTo(bins, shards, s)) && |mbs| * shards == |Flat(bins)|
    ensures forall k :: 0 <= k < |mbs| ==> mbs[k].width == width
  {
    hide AllChunkBins, FitAll, Flat, OneBinEach;
    assert IsPackedShard(rows, padded, bins, shards, r, s);
    var data := new BatchedDataDict(r.shards[s], width);
    data.microBatchIndices, data.microBatchLengths := Some(r.ranges[s]), r.lengths[s];
    data.elemCounts := Some(r.counts[s]);
    mbs := [];
    NothingWalked(rows, width, padded, bins, shards, r, s);
    for c := 0 to |r.counts[s]|
      invariant data.rows == r.shards[s] && data.width == width && data.elemCounts == Some(r.counts[s])
      invariant data.microBatchIndices == Some(r.ranges[s]) && data.microBatchLengths == r.lengths[s]
      invariant Walked(rows, width, bins, shards, r, s, c, mbs)
    {
      ChunkGivesRows(rows, padded, bins, shards, r, s, c);
      var part := FetchPackable(data, c);
      WalkOn(rows, width, padded, bins, shards, r, s, c, mbs, part);
      mbs := mbs + part;
    }
    AllWalked(rows, width, padded, bins, shards, r, s, mbs);
    if AllChunkBins(bins, padded, p, shards, cap) {
      DealtWithin(padded, bins, shards, cap, s, p);
    }
  }

  lemma DealtWithin(padded: seq<nat>, bins: seq<seq<seq<nat>>>, shards: nat, cap: int, s: nat, p: Plan)
    requires shards >= 1 && s < shards && AllChunkBins(bins, padded, p, shards, cap)
    ensures FitAll(padded, cap, DealtTo(bins, shards, s)) && |DealtTo(bins, shards, s)| * shards == |Flat(bins)|
  {
    assert forall c :: 0 <= c < |bins| ==> ChunkBins(bins[c], padded, p, shards, cap, c);
    DealtFits(padded, bins, shards, cap, s);
    DealtEvenly(bins, shards, s);
  }

  /** What shard s has seen after its first c chunks. */
  ghost predicate Walked<T>(
      rows: seq<Row<T>>, width: nat, bins: seq<seq<seq<nat>>>, shards: nat, r: PackedShards<T>, s: nat, c: nat,
      mbs: seq<Microbatch<T>>)
  {
    && shards >= 1 && s < |r.shards| == |r.counts| && c <= |r.counts[s]| == |bins|
    && Cumulative(r.counts[s], c) <= |r.shards[s]|
    && Flat(RowsOf(mbs)) == r.shards[s][..Cumulative(r.counts[s], c)]
    && OneBinEach(rows, DealtTo(bins[..c], shards, s), RowsOf(mbs))
    && forall k :: 0 <= k < |mbs| ==> mbs[k].width == width
  }

  lemma NothingWalked<T>(
      rows: seq<Row<T>>, width: nat, padded: seq<nat>, bins: seq<seq<seq<nat>>>, shards: nat, r: PackedShards<T>,
      s: nat)
    requires shards >= 1 && IsPacked(rows, padded, bins, shards, r) && s < shards
    ensures Walked(rows, width, bins, shards, r, s, 0, [])
  {
    assert IsPackedShard(rows, padded, bins, shards, r, s);
  }

  lemma AllWalked<T>(
      rows: seq<Row<T>>, width: nat, padded: seq<nat>, bins: seq<seq<seq<nat>>>, shards: nat, r: PackedShards<T>,
      s: nat, mbs: seq<Microbatch<T>>)
    requires shards >= 1 && IsPacked(rows, padded, bins, shards, r) && s < shards
    requires Walked(rows, width, bins, shards, r, s, |r.counts[s]|, mbs)
    ensures Flat(RowsOf(mbs)) == r.shards[s]
    ensures OneBinEach(rows, DealtTo(bins, shards, s), RowsOf(mbs)) && |mbs| == |DealtTo(bins, shards, s)|
    ensures forall k :: 0 <= k < |mbs| ==> mbs[k].width == width
  {
    hide AllBelow, Deal;
    WholeShard(rows, padded, bins, shards, r, s);
    assert bins[..|bins|] == bins;
  }

  lemma OneMoreChunk<T>(
      rows: seq<Row<T>>, bins: seq<seq<seq<nat>>>, shards: nat, s: nat, c: nat, mbs: seq<Microbatch<T>>,
      part: seq<Microbatch<T>>)
    requires shards >= 1 && c < |bins|
    requires OneBinEach(rows, DealtTo(bins[..c], shards, s), RowsOf(mbs))
    requires OneBinEach(rows, Deal(bins[c], shards, s, |bins[c]|), RowsOf(part))
    ensures OneBinEach(rows, DealtTo(bins[..c + 1], shards, s), RowsOf(mbs + part))
  {
    assert bins[..c + 1][..c] == bins[..c] && bins[..c + 1][c] == bins[c];
    assert RowsOf(mbs + part) == RowsOf(mbs) + RowsOf(part);
    OneBinAppend(rows, DealtTo(bins[..c], shards, s), RowsOf(mbs), Deal(bins[c], shards, s, |bins[c]|), RowsOf(part));
  }

  lemma WalkOn<T>(
      rows: seq<Row<T>>, width: nat, padded: seq<nat>, bins: seq<seq<seq<nat>>>, shards: nat, r: PackedShards<T>,
      s: nat, c: nat, mbs: seq<Microbatch<T>>, part: seq<Microbatch<T>>)
    requires shards >= 1 && IsPacked(rows, padded, bins, shards, r) && s < shards && c < |bins|
    requires Walked(rows, width, bins, shards, r, s, c, mbs)
    requires Cumulative(r.counts[s], c) <= Cumulative(r.counts[s], c + 1) <= |r.shards[s]| && c < |r.ranges[s]|
    requires var batch := r.shards[s][Cumulative(r.counts[s], c)..Cumulative(r.counts[s], c + 1)];
      Inside(r.ranges[s][c], |batch|) && RowsOf(part) == RangeRows(batch, r.ranges[s][c])
    requires forall k :: 0 <= k < |part| ==> part[k].width == width
    ensures Walked(rows, width, bins, shards, r, s, c + 1, mbs + part)
  {
    ChunkGivesRows(rows, padded, bins, shards, r, s, c);
    RowsAppend(mbs, part);
    OneMoreChunk(rows, bins, shards, s, c, mbs, part);
    PrefixGrows(r.shards[s], Cumulative(r.counts[s], c), Cumulative(r.counts[s], c + 1));
  }

  lemma WholeShard<T>(
      rows: seq<Row<T>>, padded: seq<nat>, bins: seq<seq<seq<nat>>>, shards: nat, r: PackedShards<T>, s: nat)
    requires shards >= 1 && IsPacked(rows, padded, bins, shards, r) && s < shards
    ensures |r.counts[s]| == |bins| && Cumulative(r.counts[s], |bins|) == |r.shards[s]|
  {
    var grid := BinGrid(bins, shards);
    assert IsPackedShard(rows, padded, bins, shards, r, s);
    forall k | 0 <= k < |bins| ensures r.counts[s][k] == |grid[k][s]| {
      assert IsPackedChunk(padded, bins[k], shards, r.ranges[s][k], r.lengths[s][k], r.counts[s][k], s);
    }
    ColumnLengthFromCounts(grid, shards, s, r.counts[s]);
  }

  /** All shards together see every row of the batch exactly once. */
  lemma ShardsHoldBatch<T>(
      rows: seq<Row<T>>, padded: seq<nat>, bins: seq<seq<seq<nat>>>, shards: nat, r: PackedShards<T>)
    requires shards >= 1 && IsPacked(rows, padded, bins, shards, r)
    ensures multiset(Flat(r.shards)) == multiset(rows)
  {
    PackedRoundTrip(rows, padded, bins, shards, r, (x: Row<T>) => x);
    GatherPermutation(rows, r.order);
  }
}
