/** Sharding for sequence packing: every chunk is packed into bins, the bins are dealt out to the shards,
    and every bin is one microbatch of its shard. */
module PackedSharding {
  import opened Arithmetic
  import opened Sequences
  import opened Grids
  import opened Sharding
  import opened BalancedSharding
  import opened BatchedData
  import opened Packing
  import Packers

  /** Per shard: its rows, and per chunk the ranges, padded totals and row counts of its microbatches. */
  datatype PackedShards<T> = PackedShards(
    shards: seq<seq<Row<T>>>,
    order: seq<nat>,
    ranges: seq<seq<seq<(nat, nat)>>>,
    lengths: seq<seq<seq<nat>>>,
    counts: seq<seq<nat>>)

  function PaddedLengths<T>(rows: seq<Row<T>>, multiple: nat): (r: seq<nat>)
    requires multiple >= 1
    ensures |r| == |rows|
  {
    seq<nat>(|rows|, i requires 0 <= i < |rows| => PadTo(rows[i].length, multiple))
  }

  function Shift(bin: seq<nat>, offset: nat): (r: seq<nat>)
    ensures |r| == |bin| && forall i :: 0 <= i < |r| ==> r[i] == bin[i] + offset
  {
    seq<nat>(|bin|, i requires 0 <= i < |bin| => bin[i] + offset)
  }

  /** Bins of local positions, as positions in the whole batch. */
  function ShiftAll(bins: seq<seq<nat>>, offset: nat): (r: seq<seq<nat>>)
    ensures |r| == |bins|
  {
    seq(|bins|, b requires 0 <= b < |bins| => Shift(bins[b], offset))
  }

  lemma {:induction false} FlatShift(bins: seq<seq<nat>>, offset: nat)
    ensures Flat(ShiftAll(bins, offset)) == Shift(Flat(bins), offset)
  {
    if bins == [] {
    } else {
      FlatShift(bins[1..], offset);
      assert ShiftAll(bins, offset)[1..] == ShiftAll(bins[1..], offset);
    }
  }

  /** Bins that partition a chunk cover the chunk's span of the batch. */
  lemma ShiftedCover(bins: seq<seq<nat>>, n: nat, offset: nat)
    requires IsPermutation(Flat(bins), n)
    ensures multiset(Flat(ShiftAll(bins, offset))) == multiset(Span(offset, n))
  {
    FlatShift(bins, offset);
    GatherPermutation(Span(offset, n), Flat(bins));
    assert Shift(Flat(bins), offset) == Gather(Span(offset, n), Flat(bins));
  }

  // ----- ranges of dealt bins -----

  /** Where each part lies in the concatenation of the parts. */
  function Cuts(parts: seq<seq<nat>>): (r: seq<(nat, nat)>)
    ensures |r| == |parts|
  {
    if parts == [] then [] else
      var front := parts[..|parts| - 1];
      Cuts(front) + [(|Flat(front)|, |Flat(front)| + |parts[|parts| - 1]|)]
  }

  lemma {:induction false} CutsLocateParts(parts: seq<seq<nat>>, j: nat)
    requires j < |parts|
    ensures 0 <= Cuts(parts)[j].0 <= Cuts(parts)[j].1 <= |Flat(parts)|
    ensures Flat(parts)[Cuts(parts)[j].0..Cuts(parts)[j].1] == parts[j]
  {
    var last := |parts| - 1;
    var front := parts[..last];
    assert parts == front + [parts[last]];
    FlatSnoc(front, parts[last]);
    if j == last {
    } else {
      CutsLocateParts(front, j);
    }
  }

  /** The microbatches cut from a shard's chunk are the bins it was dealt. */
  lemma CutsGiveBins<X>(rows: seq<X>, parts: seq<seq<nat>>)
    requires AllBelow(Flat(parts), |rows|)
    ensures Inside(Cuts(parts), |Flat(parts)|)
    ensures forall j :: 0 <= j < |parts| ==> AllBelow(parts[j], |rows|)
    ensures forall j :: 0 <= j < |parts| ==>
              RangeRows(Gather(rows, Flat(parts)), Cuts(parts))[j] == Gather(rows, parts[j])
  {
    var cuts, flat := Cuts(parts), Flat(parts);
    forall j | 0 <= j < |parts|
      ensures 0 <= cuts[j].0 <= cuts[j].1 <= |flat|
      ensures AllBelow(parts[j], |rows|)
      ensures Gather(rows, flat)[cuts[j].0..cuts[j].1] == Gather(rows, parts[j])
    {
      CutsLocateParts(parts, j);
      GatherSlice(rows, flat, cuts[j].0, cuts[j].1);
    }
  }

  // ----- dealing one chunk -----

  /** What each shard has been dealt of one chunk: positions, ranges and padded totals. */
  datatype Dealt = Dealt(indices: seq<seq<nat>>, ranges: seq<seq<(nat, nat)>>, lengths: seq<seq<nat>>)

  ghost predicate IsDealt(bins: seq<seq<nat>>, padded: seq<nat>, shards: nat, n: nat, d: Dealt)
    requires shards >= 1 && n <= |bins|
  {
    && |d.indices| == |d.ranges| == |d.lengths| == shards
    && forall s :: 0 <= s < shards ==> ShardDealt(bins, padded, shards, n, d, s)
  }

  ghost predicate ShardDealt(bins: seq<seq<nat>>, padded: seq<nat>, shards: nat, n: nat, d: Dealt, s: nat)
    requires shards >= 1 && n <= |bins| && s < shards == |d.indices| == |d.ranges| == |d.lengths|
  {
    Holds(padded, Deal(bins, shards, s, n), d.indices[s], d.ranges[s], d.lengths[s])
  }

  /** Positions, ranges and padded totals are those of these bins. */
  ghost predicate Holds(
      padded: seq<nat>, parts: seq<seq<nat>>, indices: seq<nat>, ranges: seq<(nat, nat)>, lengths: seq<nat>)
  {
    && indices == Flat(parts) && ranges == Cuts(parts)
    && |lengths| == |parts|
    && forall j :: 0 <= j < |parts| ==> AllBelow(parts[j], |padded|) && lengths[j] == Load(padded, parts[j])
  }

  function EndOf(ranges: seq<(nat, nat)>): nat {
    if ranges == [] then 0 else ranges[|ranges| - 1].1
  }

  method DealBins(bins: seq<seq<nat>>, padded: seq<nat>, shards: nat) returns (d: Dealt)
    requires shards >= 1 && forall b :: 0 <= b < |bins| ==> AllBelow(bins[b], |padded|)
    ensures IsDealt(bins, padded, shards, |bins|, d)
  {
    d := Dealt(seq(shards, _ => []), seq(shards, _ => []), seq(shards, _ => []));
    for b := 0 to |bins|
      invariant IsDealt(bins, padded, shards, b, d)
    {
      var s := b % shards;
      var end := EndOf(d.ranges[s]);
      SumNonNegative(Gather(padded, bins[b]));
      var total: nat := Load(padded, bins[b]);
      DealOneBin(bins, padded, shards, b, d);
      d := Dealt(d.indices[s := d.indices[s] + bins[b]],
                 d.ranges[s := d.ranges[s] + [(end, end + |bins[b]|)]],
                 d.lengths[s := d.lengths[s] + [total]]);
    }
  }

  lemma LastCutEnds(parts: seq<seq<nat>>)
    ensures |Flat(parts)| == EndOf(Cuts(parts))
  {
    if parts == [] {
    } else {
      var last := |parts| - 1;
      assert parts == parts[..last] + [parts[last]];
      FlatSnoc(parts[..last], parts[last]);
    }
  }

  lemma HoldsOneMore(
      padded: seq<nat>, parts: seq<seq<nat>>, indices: seq<nat>, ranges: seq<(nat, nat)>, lengths: seq<nat>,
      bin: seq<nat>)
    requires Holds(padded, parts, indices, ranges, lengths) && AllBelow(bin, |padded|) && Load(padded, bin) >= 0
    ensures Holds(padded, parts + [bin], indices + bin, ranges + [(EndOf(ranges), EndOf(ranges) + |bin|)],
              lengths + [Load(padded, bin)])
  {
    LastCutEnds(parts);
    CutsSnoc(parts, bin);
  }

  lemma DealOneBin(bins: seq<seq<nat>>, padded: seq<nat>, shards: nat, b: nat, d: Dealt)
    requires shards >= 1 && b < |bins| && IsDealt(bins, padded, shards, b, d)
    requires AllBelow(bins[b], |padded|) && Load(padded, bins[b]) >= 0
    ensures var s := b % shards;
      var end := EndOf(d.ranges[s]);
      IsDealt(bins, padded, shards, b + 1,
              Dealt(d.indices[s := d.indices[s] + bins[b]],
                    d.ranges[s := d.ranges[s] + [(end, end + |bins[b]|)]],
                    d.lengths[s := d.lengths[s] + [Load(padded, bins[b])]]))
  {
    hide Holds, Load, AllBelow;
    var s := b % shards;
    assert ShardDealt(bins, padded, shards, b, d, s);
    HoldsOneMore(padded, Deal(bins, shards, s, b), d.indices[s], d.ranges[s], d.lengths[s], bins[b]);
    forall t | 0 <= t < shards && t != s
      ensures Holds(padded, Deal(bins, shards, t, b + 1), d.indices[t], d.ranges[t], d.lengths[t])
    {
      assert ShardDealt(bins, padded, shards, b, d, t);
    }
  }

  lemma CutsSnoc(parts: seq<seq<nat>>, part: seq<nat>)
    ensures Flat(parts + [part]) == Flat(parts) + part
    ensures Cuts(parts + [part]) == Cuts(parts) + [(|Flat(parts)|, |Flat(parts)| + |part|)]
  {
    FlatSnoc(parts, part);
    var all := parts + [part];
    assert all != [] && all[..|all| - 1] == parts && all[|all| - 1] == part;
  }

  // ----- the whole batch -----

  /** Bins of every chunk, in positions of the whole batch, that pack the chunks within the capacity. */
  ghost predicate ChunkBins(bins: seq<seq<nat>>, padded: seq<nat>, p: Plan, shards: nat, cap: int, c: nat)
    requires shards >= 1
  {
    && |bins| % shards == 0 && |bins| >= shards
    && CoversSpan(Flat(bins), c, p.batchSize)
    && FitAll(padded, cap, bins) && NoEmptyBin(bins)
  }

  ghost predicate AllChunkBins(bins: seq<seq<seq<nat>>>, padded: seq<nat>, p: Plan, shards: nat, cap: int)
    requires shards >= 1
  {
    forall c :: 0 <= c < |bins| ==> ChunkBins(bins[c], padded, p, shards, cap, c)
  }

  lemma ShiftedLoad(padded: seq<nat>, local: seq<nat>, bin: seq<nat>, offset: nat)
    requires offset + |local| <= |padded| && local == padded[offset..offset + |local|] && AllBelow(bin, |local|)
    ensures AllBelow(Shift(bin, offset), |padded|) && Load(padded, Shift(bin, offset)) == Load(local, bin)
  {
    assert Gather(padded, Shift(bin, offset)) == Gather(local, bin);
  }

  lemma ChunkBinsFromPacking(
      padded: seq<nat>, p: Plan, shards: nat, cap: int, c: nat, total: nat, local: seq<nat>, bins: seq<seq<nat>>)
    requires shards >= 1 && Fits(p, total, shards) && c < p.chunks && |padded| == total
    requires 0 <= c * p.batchSize && c * p.batchSize + p.batchSize <= total
    requires local == padded[c * p.batchSize..c * p.batchSize + p.batchSize]
    requires IsPacking(local, cap, bins) && NoEmptyBin(bins) && |bins| % shards == 0 && |bins| >= shards
    ensures ChunkBins(ShiftAll(bins, c * p.batchSize), padded, p, shards, cap, c)
  {
    ShiftedCover(bins, p.batchSize, c * p.batchSize);
    forall b | 0 <= b < |bins|
      ensures AllBelow(Shift(bins[b], c * p.batchSize), |padded|) &&
                Load(padded, Shift(bins[b], c * p.batchSize)) <= cap
    {
      ShiftedLoad(padded, local, bins[b], c * p.batchSize);
    }
  }

  /** Which chunks can be packed at all. */
  predicate ChunkPackable(padded: seq<nat>, p: Plan, shards: nat, cap: int, algorithms: seq<Packers.Algorithm>, c: nat)
    requires Fits(p, |padded|, shards) && c < p.chunks && c < |algorithms|
  {
    Packers.Packable(algorithms[c], ChunkOf(padded, p, shards, c), cap)
  }

  /** A chunk is accepted if it can be packed and has a sequence for every bin that is asked for, given the
      bins that its algorithm used. */
  ghost predicate Accepts(
      padded: seq<nat>, p: Plan, shards: nat, cap: int, algorithms: seq<Packers.Algorithm>, used: seq<seq<nat>>, c: nat)
    requires shards >= 1 && Fits(p, |padded|, shards) && c < p.chunks && c < |algorithms|
  {
    ChunkPackable(padded, p, shards, cap, algorithms, c) &&
    p.batchSize >= Packers.BinsFor(|used|, shards)
  }

  /** If the chunk can be packed, its algorithm packed it into these bins. */
  ghost predicate UsedBy(
      padded: seq<nat>, p: Plan, shards: nat, cap: int, algorithms: seq<Packers.Algorithm>, used: seq<seq<nat>>, c: nat)
    requires Fits(p, |padded|, shards) && c < p.chunks && c < |algorithms|
  {
    var lens := ChunkOf(padded, p, shards, c);
    ChunkPackable(padded, p, shards, cap, algorithms, c) ==>
      IsPacking(lens, cap, used) && NoEmptyBin(used) &&
      (!algorithms[c].Concatenative? ==> PairwiseFull(lens, cap, used))
  }

  /** The chunks were packed one after the other, up to the first one that is not accepted. */
  ghost predicate Tried(
      padded: seq<nat>, p: Plan, shards: nat, cap: int, algorithms: seq<Packers.Algorithm>,
      used: seq<seq<seq<nat>>>, ok: bool)
    requires shards >= 1 && Fits(p, |padded|, shards) && |algorithms| == p.chunks
  {
    && |used| <= p.chunks
    && (forall c :: 0 <= c < |used| ==> UsedBy(padded, p, shards, cap, algorithms, used[c], c))
    && (forall c :: 0 <= c < |used| ==>
          (Accepts(padded, p, shards, cap, algorithms, used[c], c) <==> ok || c < |used| - 1))
    && (if ok then |used| == p.chunks else used != [])
  }

  method PackChunks(padded: seq<nat>, p: Plan, shards: nat, cap: int, algorithms: seq<Packers.Algorithm>)
      returns (ok: bool, bins: seq<seq<seq<nat>>>, ghost used: seq<seq<seq<nat>>>)
    requires shards >= 1 && Fits(p, |padded|, shards) && |algorithms| == p.chunks
    requires forall c :: 0 <= c < p.chunks && algorithms[c].FirstFitShuffle? ==>
              IsPermutation(algorithms[c].order, p.batchSize)
    ensures ok ==> |bins| == p.chunks && AllChunkBins(bins, padded, p, shards, cap)
    ensures Tried(padded, p, shards, cap, algorithms, used, ok)
    ensures ok ==> forall c :: 0 <= c < p.chunks ==>
              |bins[c]| == Packers.BinsFor(|used[c]|, shards)
    ensures ok ==> forall c :: 0 <= c < p.chunks ==> ChunkPackable(padded, p, shards, cap, algorithms, c)
    ensures p.shardSize * shards == p.batchSize && !ok ==>
              exists c :: 0 <= c < p.chunks && !ChunkPackable(padded, p, shards, cap, algorithms, c)
  {
    bins, used := [], [];
    for c := 0 to p.chunks
      invariant |bins| == c && AllChunkBins(bins, padded, p, shards, cap)
      invariant Accepted(padded, p, shards, cap, algorithms, used, bins, c)
    {
      var accepted, packed, unadjusted := PackChunk(padded, p, shards, cap, algorithms, c);
      if !accepted {
        RefusedChunk(padded, p, shards, cap, algorithms, used, bins, c, unadjusted);
        return false, [], used + [unadjusted];
      }
      AcceptedChunk(padded, p, shards, cap, algorithms, used, bins, c, unadjusted, packed);
      bins, used := bins + [packed], used + [unadjusted];
    }
    AllAccepted(padded, p, shards, cap, algorithms, used, bins);
    ok := true;
  }

  /** Packs one chunk, in positions of the whole batch. */
  method PackChunk(padded: seq<nat>, p: Plan, shards: nat, cap: int, algorithms: seq<Packers.Algorithm>, c: nat)
      returns (ok: bool, bins: seq<seq<nat>>, ghost used: seq<seq<nat>>)
    requires shards >= 1 && Fits(p, |padded|, shards) && |algorithms| == p.chunks && c < p.chunks
    requires algorithms[c].FirstFitShuffle? ==> IsPermutation(algorithms[c].order, p.batchSize)
    ensures UsedBy(padded, p, shards, cap, algorithms, used, c)
    ensures ok <==> Accepts(padded, p, shards, cap, algorithms, used, c)
    ensures ok ==> ChunkBins(bins, padded, p, shards, cap, c) && |bins| == Packers.BinsFor(|used|, shards)
  {
    ChunkInside(p, |padded|, shards, c);
    var local := ChunkOf(padded, p, shards, c);
    var packed, unadjusted := Packers.Pack(algorithms[c], local, cap, shards);
    used := unadjusted;
    if packed.Rejected? {
      return false, [], used;
    }
    ChunkBinsFromPacking(padded, p, shards, cap, c, |padded|, local, packed.bins);
    return true, ShiftAll(packed.bins, c * p.batchSize), used;
  }

  /** The first c chunks were accepted, and packed into as many bins as asked for. */
  ghost predicate Accepted(
      padded: seq<nat>, p: Plan, shards: nat, cap: int, algorithms: seq<Packers.Algorithm>,
      used: seq<seq<seq<nat>>>, bins: seq<seq<seq<nat>>>, c: nat)
    requires shards >= 1 && Fits(p, |padded|, shards) && |algorithms| == p.chunks
  {
    && c == |used| == |bins| <= p.chunks
    && forall k :: 0 <= k < c ==>
         && UsedBy(padded, p, shards, cap, algorithms, used[k], k)
         && Accepts(padded, p, shards, cap, algorithms, used[k], k)
         && |bins[k]| == Packers.BinsFor(|used[k]|, shards)
  }

  lemma AcceptedChunk(
      padded: seq<nat>, p: Plan, shards: nat, cap: int, algorithms: seq<Packers.Algorithm>,
      used: seq<seq<seq<nat>>>, bins: seq<seq<seq<nat>>>, c: nat, more: seq<seq<nat>>, packed: seq<seq<nat>>)
    requires shards >= 1 && Fits(p, |padded|, shards) && |algorithms| == p.chunks && c < p.chunks
    requires Accepted(padded, p, shards, cap, algorithms, used, bins, c)
    requires UsedBy(padded, p, shards, cap, algorithms, more, c)
    requires Accepts(padded, p, shards, cap, algorithms, more, c) && |packed| == Packers.BinsFor(|more|, shards)
    ensures Accepted(padded, p, shards, cap, algorithms, used + [more], bins + [packed], c + 1)
  {
  }

  /** With even shards, a chunk that is not accepted cannot be packed. */
  lemma RefusedChunk(
      padded: seq<nat>, p: Plan, shards: nat, cap: int, algorithms: seq<Packers.Algorithm>,
      used: seq<seq<seq<nat>>>, bins: seq<seq<seq<nat>>>, c: nat, more: seq<seq<nat>>)
    requires shards >= 1 && Fits(p, |padded|, shards) && |algorithms| == p.chunks && c < p.chunks
    requires Accepted(padded, p, shards, cap, algorithms, used, bins, c)
    requires UsedBy(padded, p, shards, cap, algorithms, more, c)
    requires !Accepts(padded, p, shards, cap, algorithms, more, c)
    ensures Tried(padded, p, shards, cap, algorithms, used + [more], false)
    ensures p.shardSize * shards == p.batchSize ==> !ChunkPackable(padded, p, shards, cap, algorithms, c)
  {
    if p.shardSize * shards == p.batchSize && ChunkPackable(padded, p, shards, cap, algorithms, c) {
      DivisionIsUnique(p.batchSize, shards, p.shardSize, 0);
      Packers.EnoughForShards(ChunkOf(padded, p, shards, c), cap, shards, more);
    }
  }

  lemma AllAccepted(
      padded: seq<nat>, p: Plan, shards: nat, cap: int, algorithms: seq<Packers.Algorithm>,
      used: seq<seq<seq<nat>>>, bins: seq<seq<seq<nat>>>)
    requires shards >= 1 && Fits(p, |padded|, shards) && |algorithms| == p.chunks
    requires Accepted(padded, p, shards, cap, algorithms, used, bins, p.chunks)
    ensures Tried(padded, p, shards, cap, algorithms, used, true)
    ensures forall c :: 0 <= c < p.chunks ==> ChunkPackable(padded, p, shards, cap, algorithms, c)
    ensures forall c :: 0 <= c < p.chunks ==> |bins[c]| == Packers.BinsFor(|used[c]|, shards)
  {
    forall c | 0 <= c < p.chunks ensures ChunkPackable(padded, p, shards, cap, algorithms, c) {
      assert Accepts(padded, p, shards, cap, algorithms, used[c], c);
    }
  }

  /** Positions by chunk and shard: the concatenation of the bins that the shard is dealt. */
  function BinGrid(bins: seq<seq<seq<nat>>>, shards: nat): (grid: seq<seq<seq<nat>>>)
    requires shards >= 1
    ensures IsGrid(grid, shards) && |grid| == |bins|
  {
    seq(|bins|, c requires 0 <= c < |bins| => FlatEach(DealAll(bins[c], shards, |bins[c]|)))
  }

  /** In either reading, the dealt bins list every row once. */
  lemma BinGridIsPermutation(bins: seq<seq<seq<nat>>>, padded: seq<nat>, p: Plan, shards: nat, cap: int)
    requires shards >= 1 && |bins| == p.chunks && Fits(p, |padded|, shards) &&
              AllChunkBins(bins, padded, p, shards, cap)
    ensures IsPermutation(ShardMajor(BinGrid(bins, shards), shards), |padded|)
  {
    forall c | 0 <= c < |bins| ensures CoversSpan(Flat(bins[c]), c, p.batchSize) {
      assert ChunkBins(bins[c], padded, p, shards, cap, c);
    }
    ChunksFill(p, |padded|, shards);
    BinsCover(bins, shards, p.batchSize, |padded|);
  }

  lemma BinsCover(bins: seq<seq<seq<nat>>>, shards: nat, size: nat, total: nat)
    requires shards >= 1 && total == |bins| * size
    requires forall c :: 0 <= c < |bins| ==> CoversSpan(Flat(bins[c]), c, size)
    ensures IsPermutation(ShardMajor(BinGrid(bins, shards), shards), total)
  {
    var grid := BinGrid(bins, shards);
    forall c | 0 <= c < |bins| ensures CoversSpan(FlatEach(grid)[c], c, size) {
      DealKeepsAll(bins[c], shards, |bins[c]|);
      assert bins[c][..|bins[c]|] == bins[c];
    }
    AllSpansCover(FlatEach(grid), size);
    ReadingsAgree(grid, shards);
    PermutationIffMultiset(ShardMajor(grid, shards), total);
  }

  /** What sequence packing returns, in terms of the bins of every chunk. */
  ghost predicate IsPacked<T>(
      rows: seq<Row<T>>, padded: seq<nat>, bins: seq<seq<seq<nat>>>, shards: nat, r: PackedShards<T>)
    requires shards >= 1
  {
    && |r.shards| == |r.ranges| == |r.lengths| == |r.counts| == shards
    && r.order == ShardMajor(BinGrid(bins, shards), shards) && IsPermutation(r.order, |rows|)
    && forall s :: 0 <= s < shards ==> IsPackedShard(rows, padded, bins, shards, r, s)
  }

  ghost predicate IsPackedShard<T>(
      rows: seq<Row<T>>, padded: seq<nat>, bins: seq<seq<seq<nat>>>, shards: nat, r: PackedShards<T>, s: nat)
    requires shards >= 1 && s < shards == |r.shards| == |r.ranges| == |r.lengths| == |r.counts|
  {
    && AllBelow(Column(BinGrid(bins, shards), shards, s), |rows|)
    && r.shards[s] == Gather(rows, Column(BinGrid(bins, shards), shards, s))
    && |r.ranges[s]| == |r.lengths[s]| == |r.counts[s]| == |bins|
    && forall c :: 0 <= c < |bins| ==>
          IsPackedChunk(padded, bins[c], shards, r.ranges[s][c], r.lengths[s][c], r.counts[s][c], s)
  }

  ghost predicate IsPackedChunk(
      padded: seq<nat>, bins: seq<seq<nat>>, shards: nat, ranges: seq<(nat, nat)>, lengths: seq<nat>, count: nat,
      s: nat)
    requires shards >= 1
  {
    var parts := Deal(bins, shards, s, |bins|);
    && ranges == Cuts(parts) && count == |Flat(parts)|
    && |lengths| == |parts|
    && forall j :: 0 <= j < |parts| ==> AllBelow(parts[j], |padded|) && lengths[j] == Load(padded, parts[j])
  }

  /** The shards filled so far, from the first c chunks. */
  ghost predicate Filling(
      padded: seq<nat>, bins: seq<seq<seq<nat>>>, shards: nat, c: nat, indices: seq<seq<nat>>,
      ranges: seq<seq<seq<(nat, nat)>>>, lengths: seq<seq<seq<nat>>>, counts: seq<seq<nat>>)
    requires shards >= 1 && c <= |bins|
  {
    && |indices| == |ranges| == |lengths| == |counts| == shards
    && forall s :: 0 <= s < shards ==>
          ShardFilling(padded, bins, shards, c, indices[s], ranges[s], lengths[s], counts[s], s)
  }

  ghost predicate ShardFilling(
      padded: seq<nat>, bins: seq<seq<seq<nat>>>, shards: nat, c: nat, indices: seq<nat>,
      ranges: seq<seq<(nat, nat)>>, lengths: seq<seq<nat>>, counts: seq<nat>, s: nat)
    requires shards >= 1 && c <= |bins| && s < shards
  {
    && indices == Column(BinGrid(bins, shards)[..c], shards, s)
    && |ranges| == |lengths| == |counts| == c
    && forall k :: 0 <= k < c ==> IsPackedChunk(padded, bins[k], shards, ranges[k], lengths[k], counts[k], s)
  }

  method FillShards(padded: seq<nat>, bins: seq<seq<seq<nat>>>, shards: nat)
      returns (indices: seq<seq<nat>>, ranges: seq<seq<seq<(nat, nat)>>>, lengths: seq<seq<seq<nat>>>,
          counts: seq<seq<nat>>)
    requires shards >= 1
    requires forall c :: 0 <= c < |bins| ==> |bins[c]| >= shards && forall b :: 0 <= b < |bins[c]| ==>
              AllBelow(bins[c][b], |padded|)
    ensures Filling(padded, bins, shards, |bins|, indices, ranges, lengths, counts)
  {
    indices, ranges := seq(shards, _ => []), seq(shards, _ => []);
    lengths, counts := seq(shards, _ => []), seq(shards, _ => []);
    for c := 0 to |bins|
      invariant Filling(padded, bins, shards, c, indices, ranges, lengths, counts)
    {
      var d := DealBins(bins[c], padded, shards);
      for s := 0 to shards
        invariant HalfFilled(padded, bins, shards, c, s, indices, ranges, lengths, counts)
      {
        FillNext(padded, bins, shards, c, s, indices, ranges, lengths, counts, d);
        // every shard has been dealt at least one bin, so the last range exists
        var count := d.ranges[s][|d.ranges[s]| - 1].1;
        indices := indices[s := indices[s] + d.indices[s]];
        ranges := ranges[s := ranges[s] + [d.ranges[s]]];
        lengths := lengths[s := lengths[s] + [d.lengths[s]]];
        counts := counts[s := counts[s] + [count]];
      }
    }
  }

  /** The first n shards hold chunk c as well. */
  ghost predicate HalfFilled(
      padded: seq<nat>, bins: seq<seq<seq<nat>>>, shards: nat, c: nat, n: nat, indices: seq<seq<nat>>,
      ranges: seq<seq<seq<(nat, nat)>>>, lengths: seq<seq<seq<nat>>>, counts: seq<seq<nat>>)
    requires shards >= 1 && c < |bins|
  {
    && |indices| == |ranges| == |lengths| == |counts| == shards
    && forall s :: 0 <= s < shards ==>
          ShardFilling(padded, bins, shards, if s < n then c + 1 else c, indices[s], ranges[s], lengths[s],
                       counts[s], s)
  }

  lemma FillNext(
      padded: seq<nat>, bins: seq<seq<seq<nat>>>, shards: nat, c: nat, s: nat, indices: seq<seq<nat>>,
      ranges: seq<seq<seq<(nat, nat)>>>, lengths: seq<seq<seq<nat>>>, counts: seq<seq<nat>>, d: Dealt)
    requires shards >= 1 && c < |bins| && s < shards && |bins[c]| >= shards
    requires HalfFilled(padded, bins, shards, c, s, indices, ranges, lengths, counts)
    requires IsDealt(bins[c], padded, shards, |bins[c]|, d)
    ensures d.ranges[s] != []
    ensures HalfFilled(padded, bins, shards, c, s + 1, indices[s := indices[s] + d.indices[s]],
              ranges[s := ranges[s] + [d.ranges[s]]], lengths[s := lengths[s] + [d.lengths[s]]],
              counts[s := counts[s] + [d.ranges[s][|d.ranges[s]| - 1].1]])
  {
    assert ShardFilling(padded, bins, shards, c, indices[s], ranges[s], lengths[s], counts[s], s);
    FillOne(padded, bins, shards, c, indices[s], ranges[s], lengths[s], counts[s], s, d);
    forall t | 0 <= t < shards && t != s
      ensures ShardFilling(padded, bins, shards, if t < s + 1 then c + 1 else c, indices[t], ranges[t], lengths[t],
                counts[t], t)
    {
      assert ShardFilling(padded, bins, shards, if t < s then c + 1 else c, indices[t], ranges[t], lengths[t],
                          counts[t], t);
    }
  }

  lemma FillOne(
      padded: seq<nat>, bins: seq<seq<seq<nat>>>, shards: nat, c: nat, indices: seq<nat>,
      ranges: seq<seq<(nat, nat)>>, lengths: seq<seq<nat>>, counts: seq<nat>, s: nat, d: Dealt)
    requires shards >= 1 && c < |bins| && s < shards && |bins[c]| >= shards
    requires ShardFilling(padded, bins, shards, c, indices, ranges, lengths, counts, s)
    requires IsDealt(bins[c], padded, shards, |bins[c]|, d)
    ensures d.ranges[s] != []
    ensures ShardFilling(padded, bins, shards, c + 1, indices + d.indices[s], ranges + [d.ranges[s]],
              lengths + [d.lengths[s]], counts + [d.ranges[s][|d.ranges[s]| - 1].1], s)
  {
    assert ShardDealt(bins[c], padded, shards, |bins[c]|, d, s);
    var parts := Deal(bins[c], shards, s, |bins[c]|);
    EveryShardIsDealt(bins[c], shards, s);
    LastCutEnds(parts);
    var grid := BinGrid(bins, shards);
    assert grid[..c + 1][..c] == grid[..c];
    assert grid[c][s] == Flat(parts);
  }

  lemma EveryShardIsDealt<X>(bins: seq<X>, shards: nat, s: nat)
    requires shards >= 1 && |bins| >= shards && s < shards
    ensures Deal(bins, shards, s, |bins|) != []
  {
    var q, r := |bins| / shards, |bins| % shards;
    assert |bins| == q * shards + r;
    SmallerQuotient(q, 0, shards);
    DealMeaning(bins, shards, s, q, r);
  }

  method ShardForSequencePacking<T>(
      rows: seq<Row<T>>, p: Plan, shards: nat, cap: int, multiple: nat, algorithms: seq<Packers.Algorithm>)
      returns (r: Result<PackedShards<T>>, ghost bins: seq<seq<seq<nat>>>, ghost used: seq<seq<seq<nat>>>)
    requires shards >= 1 && multiple >= 1 && Fits(p, |rows|, shards) && |algorithms| == p.chunks
    requires forall c :: 0 <= c < p.chunks && algorithms[c].FirstFitShuffle? ==>
              IsPermutation(algorithms[c].order, p.batchSize)
    ensures r.Failure? ==> r.error == NotPackable
    ensures Tried(PaddedLengths(rows, multiple), p, shards, cap, algorithms, used, r.Success?)
    ensures r.Success? ==> forall c :: 0 <= c < p.chunks ==>
              ChunkPackable(PaddedLengths(rows, multiple), p, shards, cap, algorithms, c)
    ensures p.shardSize * shards == p.batchSize && r.Failure? ==>
              exists c :: 0 <= c < p.chunks &&
                !ChunkPackable(PaddedLengths(rows, multiple), p, shards, cap, algorithms, c)
    ensures r.Success? ==> |bins| == p.chunks && AllChunkBins(bins, PaddedLengths(rows, multiple), p, shards, cap)
    ensures r.Success? ==> IsPacked(rows, PaddedLengths(rows, multiple), bins, shards, r.value)
  {
    var padded := PaddedLengths(rows, multiple);
    var ok, packed, unadjusted := PackChunks(padded, p, shards, cap, algorithms);
    bins, used := packed, unadjusted;
    if !ok {
      return Failure(NotPackable), [], used;
    }
    assert forall c :: 0 <= c < |bins| ==> ChunkBins(bins[c], padded, p, shards, cap, c);
    var indices, ranges, lengths, counts := FillShards(padded, packed, shards);
    BinGridIsPermutation(bins, padded, p, shards, cap);
    FilledIsPacked(rows, padded, packed, shards, indices, ranges, lengths, counts);
    var parts := seq(shards, s requires 0 <= s < shards => Gather(rows, indices[s]));
    r := Success(PackedShards(parts, Flat(indices), ranges, lengths, counts));
  }

  lemma FilledIsPacked<T>(
      rows: seq<Row<T>>, padded: seq<nat>, bins: seq<seq<seq<nat>>>, shards: nat, indices: seq<seq<nat>>,
      ranges: seq<seq<seq<(nat, nat)>>>, lengths: seq<seq<seq<nat>>>, counts: seq<seq<nat>>)
    requires shards >= 1 && Filling(padded, bins, shards, |bins|, indices, ranges, lengths, counts)
    requires IsPermutation(ShardMajor(BinGrid(bins, shards), shards), |rows|)
    ensures forall s :: 0 <= s < shards ==> AllBelow(indices[s], |rows|)
    ensures IsPacked(rows, padded, bins, shards,
              PackedShards(seq(shards, s requires 0 <= s < shards => Gather(rows, indices[s])), Flat(indices), ranges,
                lengths, counts))
  {
    var grid := BinGrid(bins, shards);
    assert grid[..|bins|] == grid;
    forall s | 0 <= s < shards ensures indices[s] == Column(grid, shards, s) && AllBelow(indices[s], |rows|) {
      assert ShardFilling(padded, bins, shards, |bins|, indices[s], ranges[s], lengths[s], counts[s], s);
      PartBelow(Columns(grid, shards), s, |rows|);
    }
    assert indices == Columns(grid, shards);
    var r := PackedShards(seq(shards, s requires 0 <= s < shards => Gather(rows, indices[s])), Flat(indices), ranges,
      lengths, counts);
    forall s | 0 <= s < shards ensures IsPackedShard(rows, padded, bins, shards, r, s) {
      assert ShardFilling(padded, bins, shards, |bins|, indices[s], ranges[s], lengths[s], counts[s], s);
    }
  }

  lemma PartBelow(parts: seq<seq<nat>>, s: nat, n: nat)
    requires s < |parts| && AllBelow(Flat(parts), n)
    ensures AllBelow(parts[s], n)
  {
    forall k | 0 <= k < |parts[s]| ensures parts[s][k] < n {
      FlatMember(parts, s, k);
    }
  }
}
