/** The batch object: reordering and truncation in place, slicing, and the microbatch iterators. */
module BatchedData {
  import opened Options
  import opened Sequences
  import opened Sharding
  import Microbatches

  /** One microbatch: its rows, and the width its sequences are cut to. */
  datatype Microbatch<T> = Microbatch(rows: seq<Row<T>>, width: nat)

  /** The rows of each microbatch. */
  function RowsOf<T>(mbs: seq<Microbatch<T>>): (r: seq<seq<Row<T>>>) {
    seq(|mbs|, k requires 0 <= k < |mbs| => mbs[k].rows)
  }

  lemma RowsAppend<T>(a: seq<Microbatch<T>>, b: seq<Microbatch<T>>)
    ensures Flat(RowsOf(a + b)) == Flat(RowsOf(a)) + Flat(RowsOf(b))
  {
    assert RowsOf(a + b) == RowsOf(a) + RowsOf(b);
    FlatAppend(RowsOf(a), RowsOf(b));
  }

  /** Ranges that lie inside a batch of n rows. */
  ghost predicate Inside(ranges: seq<(nat, nat)>, n: nat) {
    forall j :: 0 <= j < |ranges| ==> ranges[j].0 <= ranges[j].1 <= n
  }

  function RangeRows<X>(rows: seq<X>, ranges: seq<(nat, nat)>): seq<seq<X>>
    requires Inside(ranges, |rows|)
  {
    seq(|ranges|, j requires 0 <= j < |ranges| => rows[ranges[j].0..ranges[j].1])
  }

  /** Ranges that tile a batch cut it into its rows, in order. */
  lemma {:induction false} TilesGiveRows<X>(rows: seq<X>, ranges: seq<(nat, nat)>, n: nat)
    requires Microbatches.Tiles(ranges, n) && n <= |rows|
    ensures Inside(ranges, |rows|) && Flat(RangeRows(rows, ranges)) == rows[..n]
  {
    if ranges == [] {
    } else {
      var last := |ranges| - 1;
      var front := ranges[..last];
      forall j | 0 <= j < last ensures ranges[j].1 <= ranges[last].0 {
        TilesOrdered(ranges, n, j, last);
      }
      if last > 0 {
        assert ranges[last].0 == ranges[last - 1].1;
      }
      TilesGiveRows(rows, front, ranges[last].0);
      assert RangeRows(rows, ranges) == RangeRows(rows, front) + [rows[ranges[last].0..n]];
      FlatSnoc(RangeRows(rows, front), rows[ranges[last].0..n]);
    }
  }

  lemma {:induction false} TilesOrdered(ranges: seq<(nat, nat)>, n: nat, i: nat, j: nat)
    requires Microbatches.Tiles(ranges, n) && i < j < |ranges|
    ensures ranges[i].1 <= ranges[j].0
    decreases j
  {
    assert ranges[j].0 == ranges[j - 1].1;
    if i == j - 1 {
    } else {
      TilesOrdered(ranges, n, i, j - 1);
    }
  }

  /** The sum of the first k counts: where batch k starts. */
  function Cumulative(counts: seq<nat>, k: nat): nat
    requires k <= |counts|
  {
    if k == 0 then 0 else Cumulative(counts, k - 1) + counts[k - 1]
  }

  lemma {:induction false} CumulativeMonotone(counts: seq<nat>, j: nat, k: nat)
    requires j <= k <= |counts|
    ensures Cumulative(counts, j) <= Cumulative(counts, k)
    decreases k
  {
    if j == k {
    } else {
      CumulativeMonotone(counts, j, k - 1);
    }
  }

  class BatchedDataDict<T> {
    var rows: seq<Row<T>>
    var width: nat
    var microBatchIndices: Option<seq<seq<(nat, nat)>>>
    var microBatchLengths: seq<seq<nat>>
    var elemCounts: Option<seq<nat>>

    constructor (rows: seq<Row<T>>, width: nat)
      ensures this.rows == rows && this.width == width
      ensures microBatchIndices == None && microBatchLengths == [] && elemCounts == None
    {
      this.rows, this.width := rows, width;
      microBatchIndices, microBatchLengths, elemCounts := None, [], None;
    }

    /** Puts rows back in place: position i goes to where the i-th index says. */
    method ReorderData(indices: seq<nat>)
      modifies this`rows
      ensures rows == Reordered(old(rows), indices)
      ensures IsPermutation(indices, |old(rows)|) ==>
                |rows| == |old(rows)| && forall i :: 0 <= i < |rows| ==> rows[indices[i]] == old(rows)[i]
    {
      if IsPermutation(indices, |rows|) {
        ReorderPlaces(rows, indices);
      }
      rows := Reordered(rows, indices);
    }

    method Slice(start: nat, end: nat) returns (b: BatchedDataDict<T>)
      requires start <= end <= |rows|
      ensures fresh(b) && b.rows == rows[start..end] && b.width == width
      ensures b.microBatchIndices == None && b.microBatchLengths == [] && b.elemCounts == None
    {
      b := new BatchedDataDict(rows[start..end], width);
    }

    method TruncateTensors(length: nat)
      requires length <= width
      modifies this`width
      ensures width == length
    {
      width := length;
    }

    /** The rows and microbatches of one chunk, located by the recorded counts or by a fixed size. */
    method GetBatch(batchIdx: nat, batchSize: nat) returns (b: BatchedDataDict<T>)
      requires elemCounts.Some? ==>
                 microBatchIndices.Some? && batchIdx < |elemCounts.value| &&
                 Cumulative(elemCounts.value, batchIdx + 1) <= |rows|
      requires elemCounts.None? ==> 0 <= batchSize * batchIdx <= batchSize * (batchIdx + 1) <= |rows|
      requires microBatchIndices.Some? ==> batchIdx < |microBatchIndices.value| && batchIdx < |microBatchLengths|
      ensures fresh(b) && b.width == width
      ensures elemCounts.Some? ==>
                Cumulative(elemCounts.value, batchIdx) <= Cumulative(elemCounts.value, batchIdx + 1) &&
                b.rows == rows[Cumulative(elemCounts.value, batchIdx)..Cumulative(elemCounts.value, batchIdx + 1)] &&
                b.elemCounts == Some([elemCounts.value[batchIdx]])
      ensures elemCounts.None? ==>
                b.rows == rows[batchSize * batchIdx..batchSize * (batchIdx + 1)] && b.elemCounts == None
      ensures if microBatchIndices.None? then b.microBatchIndices == None
              else b.microBatchIndices == Some([microBatchIndices.value[batchIdx]]) &&
                   b.microBatchLengths == [microBatchLengths[batchIdx]]
    {
      if elemCounts.Some? {
        var counts := elemCounts.value;
        var cumulative := [0];
        for i := 0 to |counts|
          invariant |cumulative| == i + 1
          invariant forall k :: 0 <= k <= i ==> cumulative[k] == Cumulative(counts, k)
        {
          cumulative := cumulative + [cumulative[i] + counts[i]];
        }
        CumulativeMonotone(counts, batchIdx, batchIdx + 1);
        b := Slice(cumulative[batchIdx], cumulative[batchIdx + 1]);
        b.microBatchIndices := Some([microBatchIndices.value[batchIdx]]);
        b.microBatchLengths := [microBatchLengths[batchIdx]];
        b.elemCounts := Some([counts[batchIdx]]);
        return;
      }
      b := Slice(batchSize * batchIdx, batchSize * (batchIdx + 1));
      if microBatchIndices.Some? {
        b.microBatchIndices := Some([microBatchIndices.value[batchIdx]]);
        b.microBatchLengths := [microBatchLengths[batchIdx]];
      }
    }

    /** Slices the batch at the recorded ranges and cuts every slice to its recorded length. */
    method MicrobatchesWithDynamicShapes() returns (mbs: seq<Microbatch<T>>)
      requires microBatchIndices.Some? && |microBatchIndices.value| == 1 && |microBatchLengths| == 1
      requires |microBatchIndices.value[0]| == |microBatchLengths[0]|
      requires Inside(microBatchIndices.value[0], |rows|)
      requires forall j :: 0 <= j < |microBatchLengths[0]| ==> microBatchLengths[0][j] <= width
      ensures |mbs| == |microBatchIndices.value[0]|
      ensures forall j :: 0 <= j < |mbs| ==>
                mbs[j] == Microbatch(RangeRows(rows, microBatchIndices.value[0])[j], microBatchLengths[0][j])
    {
      mbs := [];
      var ranges, lengths := microBatchIndices.value[0], microBatchLengths[0];
      for j := 0 to |ranges|
        invariant |mbs| == j
        invariant forall k :: 0 <= k < j ==> mbs[k] == Microbatch(RangeRows(rows, ranges)[k], lengths[k])
      {
        var mb := Slice(ranges[j].0, ranges[j].1);
        mb.TruncateTensors(lengths[j]);
        mbs := mbs + [Microbatch(mb.rows, mb.width)];
      }
    }

    /** Slices the batch at the recorded ranges; packing happens later, so nothing is cut. */
    method MicrobatchesForPackableSequences() returns (mbs: seq<Microbatch<T>>)
      requires microBatchIndices.Some? && |microBatchIndices.value| == 1 && |microBatchLengths| == 1
      requires |microBatchIndices.value[0]| == |microBatchLengths[0]|
      requires Inside(microBatchIndices.value[0], |rows|)
      ensures |mbs| == |microBatchIndices.value[0]|
      ensures forall j :: 0 <= j < |mbs| ==>
                mbs[j] == Microbatch(RangeRows(rows, microBatchIndices.value[0])[j], width)
    {
      mbs := [];
      var ranges := microBatchIndices.value[0];
      for j := 0 to |ranges|
        invariant |mbs| == j
        invariant forall k :: 0 <= k < j ==> mbs[k] == Microbatch(RangeRows(rows, ranges)[k], width)
      {
        var mb := Slice(ranges[j].0, ranges[j].1);
        mbs := mbs + [Microbatch(mb.rows, mb.width)];
      }
    }
  }

  /** Fetches chunk c of a batch by size, and its microbatches. */
  method FetchWithDynamicShapes<T>(data: BatchedDataDict<T>, c: nat, size: nat, ghost start: nat)
      returns (part: seq<Microbatch<T>>)
    requires data.elemCounts == None && data.microBatchIndices.Some?
    requires c < |data.microBatchIndices.value| && c < |data.microBatchLengths|
    requires start == c * size && start + size <= |data.rows|
    requires |data.microBatchIndices.value[c]| == |data.microBatchLengths[c]|
    requires Inside(data.microBatchIndices.value[c], size)
    requires forall j :: 0 <= j < |data.microBatchLengths[c]| ==> data.microBatchLengths[c][j] <= data.width
    ensures RowsOf(part) == RangeRows(data.rows[start..start + size], data.microBatchIndices.value[c])
    ensures |part| == |data.microBatchLengths[c]|
    ensures forall k :: 0 <= k < |part| ==> part[k].width == data.microBatchLengths[c][k]
  {
    assert size * c == start && size * (c + 1) == start + size;
    var chunk := data.GetBatch(c, size);
    part := chunk.MicrobatchesWithDynamicShapes();
    assert RowsOf(part) == RangeRows(chunk.rows, data.microBatchIndices.value[c]);
  }

  /** Fetches chunk c of a batch by its recorded counts, and its microbatches. */
  method FetchPackable<T>(data: BatchedDataDict<T>, c: nat) returns (part: seq<Microbatch<T>>)
    requires data.elemCounts.Some? && data.microBatchIndices.Some? && c < |data.elemCounts.value|
    requires c < |data.microBatchIndices.value| && c < |data.microBatchLengths|
    requires Cumulative(data.elemCounts.value, c) <= Cumulative(data.elemCounts.value, c + 1) <= |data.rows|
    requires |data.microBatchIndices.value[c]| == |data.microBatchLengths[c]|
    requires Inside(data.microBatchIndices.value[c],
                    Cumulative(data.elemCounts.value, c + 1) - Cumulative(data.elemCounts.value, c))
    ensures var a, b := Cumulative(data.elemCounts.value, c), Cumulative(data.elemCounts.value, c + 1);
      RowsOf(part) == RangeRows(data.rows[a..b], data.microBatchIndices.value[c])
    ensures forall k :: 0 <= k < |part| ==> part[k].width == data.width
  {
    var chunk := data.GetBatch(c, 0);
    part := chunk.MicrobatchesForPackableSequences();
    assert RowsOf(part) == RangeRows(chunk.rows, data.microBatchIndices.value[c]);
  }
}
