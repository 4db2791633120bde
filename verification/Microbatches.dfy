/** Cutting a shard's chunk into microbatches: rows are added in order while the number of rows times
    the longest length stays within the token limit. */
module Microbatches {
  import opened Arithmetic

  datatype Split = TooLong | Split(ranges: seq<(nat, nat)>, lengths: seq<nat>)

  /** The longest of positions a to b (exclusive). */
  function Longest(lens: seq<nat>, a: nat, b: nat): nat
    requires a <= b <= |lens|
  {
    if a == b then 0 else Max(Longest(lens, a, b - 1), lens[b - 1])
  }

  /** Tokens of a microbatch of positions a to b, padding included. */
  function Cost(lens: seq<nat>, a: nat, b: nat): nat
    requires a <= b <= |lens|
  {
    (b - a) * Longest(lens, a, b)
  }

  /** The ranges are consecutive, not empty, and cover exactly the positions below n. */
  ghost predicate Tiles(ranges: seq<(nat, nat)>, n: nat) {
    && (forall j :: 0 <= j < |ranges| ==> ranges[j].0 < ranges[j].1 <= n)
    && (forall i, j :: 0 <= i && j == i + 1 < |ranges| ==> ranges[j].0 == ranges[i].1)
    && (if ranges == [] then n == 0 else ranges[0].0 == 0 && ranges[|ranges| - 1].1 == n)
  }

  /** Every recorded length is the longest of its range, and every range is within the limit. */
  ghost predicate Affordable(lens: seq<nat>, cap: nat, ranges: seq<(nat, nat)>, lengths: seq<nat>) {
    && |ranges| == |lengths|
    && (forall j :: 0 <= j < |ranges| ==>
          ranges[j].0 <= ranges[j].1 <= |lens| && lengths[j] == Longest(lens, ranges[j].0, ranges[j].1) &&
          (ranges[j].1 - ranges[j].0) * lengths[j] <= cap)
  }

  /** No range but the last could have taken one more position. */
  ghost predicate Greedy(lens: seq<nat>, cap: nat, ranges: seq<(nat, nat)>) {
    forall j :: 0 <= j < |ranges| - 1 ==>
      ranges[j].0 <= ranges[j].1 < |lens| && Cost(lens, ranges[j].0, ranges[j].1 + 1) > cap
  }

  /** The split made so far, of which the last range ends at i. */
  ghost predicate Splitting(lens: seq<nat>, cap: nat, ranges: seq<(nat, nat)>, lengths: seq<nat>, i: nat) {
    && i <= |lens| && ranges != []
    && Affordable(lens, cap, ranges, lengths) && Greedy(lens, cap, ranges)
    && (if i == 0 then ranges == [(0, 0)] else Tiles(ranges, i))
  }

  /** So many sequences, padded to one length, stay within the limit. */
  predicate Fits(size: int, length: nat, cap: nat) {
    size * length <= cap
  }

  method SplitIntoMicrobatches(lens: seq<nat>, cap: nat) returns (r: Split)
    ensures r.TooLong? <==> exists i :: 0 <= i < |lens| && lens[i] > cap
    ensures r.Split? ==> Splitting(lens, cap, r.ranges, r.lengths, |lens|)
  {
    hide Greedy, Tiles, Longest, Fits;
    var ranges: seq<(nat, nat)> := [(0, 0)];
    var lengths: seq<nat> := [0];
    var longest := 0;
    NothingSplit(lens, cap);
    for i := 0 to |lens|
      invariant Splitting(lens, cap, ranges, lengths, i)
      invariant longest == lengths[|lengths| - 1]
      invariant forall k :: 0 <= k < i ==> lens[k] <= cap
    {
      if lens[i] > cap {
        return TooLong;
      }
      var last := |ranges| - 1;
      assert ranges[last].0 <= ranges[last].1;
      var size := ranges[last].1 - ranges[last].0 + 1;
      longest := Max(longest, lens[i]);
      if Fits(size, longest, cap) {
        Extend(lens, cap, ranges, lengths, i);
        ranges, lengths := ranges[last := (ranges[last].0, ranges[last].1 + 1)], lengths[last := longest];
      } else {
        Open(lens, cap, ranges, lengths, i);
        longest := lens[i];
        ranges, lengths := ranges + [(i, i + 1)], lengths + [longest];
      }
    }
    return Split(ranges, lengths);
  }

  lemma NothingSplit(lens: seq<nat>, cap: nat)
    ensures Splitting(lens, cap, [(0, 0)], [0], 0)
  {
  }

  lemma Extend(lens: seq<nat>, cap: nat, ranges: seq<(nat, nat)>, lengths: seq<nat>, i: nat)
    requires i < |lens| && Splitting(lens, cap, ranges, lengths, i)
    requires var last := |ranges| - 1;
      Fits(ranges[last].1 - ranges[last].0 + 1, Max(lengths[last], lens[i]), cap)
    ensures var last := |ranges| - 1;
      Splitting(lens, cap, ranges[last := (ranges[last].0, ranges[last].1 + 1)],
        lengths[last := Max(lengths[last], lens[i])], i + 1)
  {
  }

  lemma Open(lens: seq<nat>, cap: nat, ranges: seq<(nat, nat)>, lengths: seq<nat>, i: nat)
    requires i < |lens| && lens[i] <= cap && Splitting(lens, cap, ranges, lengths, i)
    requires var last := |ranges| - 1;
      !Fits(ranges[last].1 - ranges[last].0 + 1, Max(lengths[last], lens[i]), cap)
    ensures Splitting(lens, cap, ranges + [(i, i + 1)], lengths + [lens[i]], i + 1)
  {
    assert Longest(lens, i, i + 1) == Max(Longest(lens, i, i), lens[i]);
    assert 1 * lens[i] == lens[i];
  }

  // ----- no split uses fewer microbatches -----

  lemma {:induction false} LongestMonotone(lens: seq<nat>, a: nat, b: nat, c: nat, d: nat)
    requires c <= a <= b <= d <= |lens|
    ensures Longest(lens, a, b) <= Longest(lens, c, d)
    decreases d
  {
    if b < d {
      LongestMonotone(lens, a, b, c, d - 1);
    } else if a < b {
      LongestMonotone(lens, a, b - 1, c, d - 1);
    }
  }

  lemma CostMonotone(lens: seq<nat>, a: nat, b: nat, c: nat, d: nat)
    requires c <= a <= b <= d <= |lens|
    ensures Cost(lens, a, b) <= Cost(lens, c, d)
  {
    LongestMonotone(lens, a, b, c, d);
    ProductMonotone(b - a, d - c, Longest(lens, a, b), Longest(lens, c, d));
  }

  lemma ProductMonotone(x: nat, u: nat, y: nat, v: nat)
    requires x <= u && y <= v
    ensures x * y <= u * v
  {
    assert (u - x) * v >= 0 && x * (v - y) >= 0;
  }

  function StartOf(ends: seq<nat>, i: nat): nat
    requires i < |ends|
  {
    if i == 0 then 0 else ends[i - 1]
  }

  ghost predicate IsPiece(lens: seq<nat>, cap: nat, a: nat, b: nat) {
    a <= b <= |lens| && Cost(lens, a, b) <= cap
  }

  /** Any way to cut the positions into consecutive pieces within the limit, given by where pieces end. */
  ghost predicate IsSplit(lens: seq<nat>, cap: nat, ends: seq<nat>) {
    && (forall i :: 0 <= i < |ends| ==> IsPiece(lens, cap, StartOf(ends, i), ends[i]))
    && (if ends == [] then lens == [] else ends[|ends| - 1] == |lens|)
  }

  /** After equally many pieces, the greedy split is never behind. */
  lemma {:induction false} GreedyStaysAhead(lens: seq<nat>, cap: nat, ranges: seq<(nat, nat)>, ends: seq<nat>, j: nat)
    requires Tiles(ranges, |lens|) && Greedy(lens, cap, ranges) && IsSplit(lens, cap, ends)
    requires j < |ranges| && j < |ends|
    ensures ends[j] <= ranges[j].1
  {
    if j == |ranges| - 1 || ends[j] <= ranges[j].1 {
    } else {
      if j > 0 {
        GreedyStaysAhead(lens, cap, ranges, ends, j - 1);
        assert ranges[j].0 == ranges[j - 1].1;
      }
      PieceOverLimit(lens, cap, ranges, ends, j);
    }
  }

  /** A piece that starts no later and ends later than a greedy range costs too much. */
  lemma PieceOverLimit(lens: seq<nat>, cap: nat, ranges: seq<(nat, nat)>, ends: seq<nat>, j: nat)
    requires Greedy(lens, cap, ranges) && j < |ranges| - 1 && j < |ends|
    requires StartOf(ends, j) <= ranges[j].0 && ranges[j].1 < ends[j] <= |lens|
    ensures !IsPiece(lens, cap, StartOf(ends, j), ends[j])
  {
    CostMonotone(lens, ranges[j].0, ranges[j].1 + 1, StartOf(ends, j), ends[j]);
  }

  /** The greedy split has the least number of microbatches. */
  lemma GreedyIsOptimal(lens: seq<nat>, cap: nat, ranges: seq<(nat, nat)>, ends: seq<nat>)
    requires Tiles(ranges, |lens|) && Greedy(lens, cap, ranges) && IsSplit(lens, cap, ends)
    ensures |ranges| <= |ends|
  {
    if 0 < |ends| < |ranges| {
      GreedyStaysAhead(lens, cap, ranges, ends, |ends| - 1);
    }
  }
}
