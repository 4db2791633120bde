/** The packing front end: choose an algorithm, pack, then adjust the number of bins. */
module Packers {
  import opened Options
  import opened Sequences
  import opened Packing
  import opened BinCounts
  import ModifiedFirstFit

  /** The shuffling packer draws its order at random; the order is a parameter here. */
  datatype Algorithm =
    | Concatenative
    | FirstFitDecreasing
    | FirstFitShuffle(order: seq<nat>)
    | ModifiedFirstFitDecreasing

  /** Inputs that the chosen algorithm packs at all. */
  predicate Packable(algorithm: Algorithm, lens: seq<nat>, cap: int) {
    AllFit(lens, cap) &&
    (algorithm.ModifiedFirstFitDecreasing? ==> cap > 0 && forall i :: 0 <= i < |lens| ==> lens[i] > 0)
  }

  /** How the algorithm arrives at its bins. */
  ghost predicate PackedBy(algorithm: Algorithm, lens: seq<nat>, cap: int, bins: seq<seq<nat>>)
    requires algorithm.FirstFitShuffle? ==> IsPermutation(algorithm.order, |lens|)
  {
    match algorithm
    case Concatenative => Concatenated(lens, cap, -1, bins)
    case FirstFitDecreasing => exists order :: IsDecreasingOrder(lens, order) && IsFirstFit(lens, cap, order, bins)
    case FirstFitShuffle(order) => IsFirstFit(lens, cap, order, bins)
    case ModifiedFirstFitDecreasing => ModifiedFirstFit.IsModifiedFirstFit(lens, cap, bins)
  }

  method PackUnadjusted(algorithm: Algorithm, lens: seq<nat>, cap: int) returns (r: PackResult)
    requires algorithm.FirstFitShuffle? ==> IsPermutation(algorithm.order, |lens|)
    ensures r.Packed? <==> Packable(algorithm, lens, cap)
    ensures r.Rejected? ==> r.error in {SequenceTooLong, NonPositive}
    ensures r.Packed? ==> IsPacking(lens, cap, r.bins) && NoEmptyBin(r.bins)
    ensures r.Packed? && !algorithm.Concatenative? ==> PairwiseFull(lens, cap, r.bins)
    ensures r.Packed? ==> PackedBy(algorithm, lens, cap, r.bins)
  {
    match algorithm {
      case Concatenative =>
        r := PackConcatenative(lens, cap, -1);
      case FirstFitDecreasing =>
        r := PackFirstFitDecreasing(lens, cap);
        if r.Packed? { FirstFitIsPairwiseFull(lens, cap, r.bins); }
      case FirstFitShuffle(order) =>
        r := PackFirstFit(lens, cap, order);
        if r.Packed? { FirstFitIsPairwiseFull(lens, cap, r.bins); }
      case ModifiedFirstFitDecreasing =>
        r := ModifiedFirstFit.PackModifiedFirstFit(lens, cap);
    }
  }

  /** The least positive multiple of the shards that is not below n. */
  function BinsFor(n: nat, shards: nat): nat
    requires shards >= 1
  {
    TargetCount(n, Some(shards), Some(shards))
  }

  /** Packs into a number of bins that is at least `shards` and a multiple of it: the least such number
      that is not below what the algorithm used. It is refused if the algorithm refuses, or if there are
      fewer sequences than that. */
  method Pack(algorithm: Algorithm, lens: seq<nat>, cap: int, shards: nat)
      returns (r: PackResult, ghost unadjusted: seq<seq<nat>>)
    requires shards >= 1
    requires algorithm.FirstFitShuffle? ==> IsPermutation(algorithm.order, |lens|)
    ensures Packable(algorithm, lens, cap) ==> IsPacking(lens, cap, unadjusted) && NoEmptyBin(unadjusted)
    ensures Packable(algorithm, lens, cap) && !algorithm.Concatenative? ==> PairwiseFull(lens, cap, unadjusted)
    ensures Packable(algorithm, lens, cap) ==> PackedBy(algorithm, lens, cap, unadjusted)
    ensures var target := BinsFor(|unadjusted|, shards);
      && (r.Packed? <==> Packable(algorithm, lens, cap) && |lens| >= target)
      && (r == Rejected(TooFewSequences) <==> Packable(algorithm, lens, cap) && |lens| < target)
      && (r.Packed? ==> |r.bins| == target >= |unadjusted|)
      && (r.Packed? ==> Spread(unadjusted, r.bins, target) && FromLargest(unadjusted, r.bins))
    ensures r.Packed? ==> IsPacking(lens, cap, r.bins) && NoEmptyBin(r.bins)
    ensures r.Packed? ==> |r.bins| >= shards && |r.bins| % shards == 0
    ensures Packable(algorithm, lens, cap) && lens != [] && |lens| % shards == 0 ==> r.Packed?
  {
    hide PairwiseFull, PackedBy, FromLargest, Spread;
    r := PackUnadjusted(algorithm, lens, cap);
    unadjusted := [];
    if r.Packed? {
      var bins := r.bins;
      unadjusted := bins;
      TargetCountIsLeast(|bins|, Some(shards), Some(shards), |lens|);
      NoEmptyBinCount(bins);
      if lens != [] && |lens| % shards == 0 { EnoughForShards(lens, cap, shards, bins); }
      r := AdjustBinCount(bins, Some(shards), Some(shards));
      if r.Packed? {
        SpreadKeepsPacking(lens, cap, bins, r.bins);
      }
    }
  }

  /** A positive multiple of the shards is enough for the bins that are asked for. */
  lemma EnoughForShards(lens: seq<nat>, cap: int, shards: nat, bins: seq<seq<nat>>)
    requires shards >= 1 && lens != [] && |lens| % shards == 0
    requires IsPacking(lens, cap, bins) && NoEmptyBin(bins)
    ensures |lens| >= BinsFor(|bins|, shards)
  {
    NoEmptyBinCount(bins);
    PositiveMultiple(|lens|, shards);
    TargetCountIsLeast(|bins|, Some(shards), Some(shards), |lens|);
  }

  lemma {:induction false} NoEmptyBinCount(bins: seq<seq<nat>>)
    requires NoEmptyBin(bins)
    ensures |bins| <= |Flat(bins)|
  {
    if bins == [] {
    } else {
      NoEmptyBinCount(bins[1..]);
    }
  }

  lemma PositiveMultiple(n: nat, m: nat)
    requires n > 0 && m >= 1 && n % m == 0
    ensures n >= m
  {
  }
}
