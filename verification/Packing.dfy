/** Sequence packing: the packers that turn sequence lengths into bins, and the adjustment of the
    number of bins. Every packer is proved against one contract, `IsPacking`. */
module Packing {
  import opened Arithmetic
  import opened Sequences
  import opened Sorting

  datatype PackError = SequenceTooLong | NonPositive | TooFewSequences | CannotRedistribute

  datatype PackResult = Packed(bins: seq<seq<nat>>) | Rejected(error: PackError)

  /** The total length of the sequences in a bin. */
  function Load(lens: seq<nat>, bin: seq<nat>): int
    requires AllBelow(bin, |lens|)
  {
    Sum(Gather(lens, bin))
  }

  /** Every sequence is in exactly one bin, and no bin exceeds the capacity. */
  ghost predicate IsPacking(lens: seq<nat>, cap: int, bins: seq<seq<nat>>) {
    && IsPermutation(Flat(bins), |lens|)
    && FitAll(lens, cap, bins)
  }

  ghost predicate FitAll(lens: seq<nat>, cap: int, bins: seq<seq<nat>>) {
    forall b :: 0 <= b < |bins| ==> AllBelow(bins[b], |lens|) && Load(lens, bins[b]) <= cap
  }

  predicate AllFit(lens: seq<nat>, cap: int) {
    forall i :: 0 <= i < |lens| ==> lens[i] <= cap
  }

  lemma LoadSnoc(lens: seq<nat>, bin: seq<nat>, x: nat)
    requires AllBelow(bin, |lens|) && x < |lens|
    ensures Load(lens, bin + [x]) == Load(lens, bin) + lens[x]
  {
    assert Gather(lens, bin + [x]) == Gather(lens, bin) + [lens[x]];
    SumSnoc(Gather(lens, bin), lens[x]);
  }

  lemma LoadSingle(lens: seq<nat>, x: nat)
    requires x < |lens|
    ensures Load(lens, [x]) == lens[x]
  {
    assert Gather(lens, []) == [];
    assert [] + [x] == [x];
    LoadSnoc(lens, [], x);
  }

  lemma AddToBin<T>(bins: seq<seq<T>>, i: nat, x: T)
    requires i < |bins|
    ensures multiset(Flat(bins[i := bins[i] + [x]])) == multiset(Flat(bins)) + multiset{x}
  {
    FlatReplace(bins, i, bins[i] + [x]);
    CancelCommon(multiset(Flat(bins[i := bins[i] + [x]])), multiset(Flat(bins)) + multiset{x}, multiset(bins[i]));
  }

  // ----- concatenative -----

  /** A bin ends only where the first sequence of the next bin does not fit. */
  ghost predicate Tight(lens: seq<nat>, cap: int, bins: seq<seq<nat>>)
    requires FitAll(lens, cap, bins) && NoEmptyBin(bins)
  {
    forall a, b :: 0 <= a < b < |bins| && b == a + 1 ==> Load(lens, bins[a]) + lens[bins[b][0]] > cap
  }

  ghost predicate NoEmptyBin(bins: seq<seq<nat>>) {
    forall b :: 0 <= b < |bins| ==> bins[b] != []
  }

  /** What concatenative packing promises: the bins cut the input into consecutive runs that fit,
      respect the limit on sequences per bin, and are as long as they can be when there is no limit. */
  ghost predicate Concatenated(lens: seq<nat>, cap: int, maxPerBin: int, bins: seq<seq<nat>>) {
    && IsPacking(lens, cap, bins) && Flat(bins) == Iota(|lens|) && NoEmptyBin(bins)
    && (maxPerBin >= 1 ==> forall b :: 0 <= b < |bins| ==> |bins[b]| <= maxPerBin)
    && (maxPerBin == -1 ==> Tight(lens, cap, bins))
  }

  /** Fills bins in input order, starting a new bin when the next sequence does not fit. */
  method PackConcatenative(lens: seq<nat>, cap: int, maxPerBin: int) returns (r: PackResult)
    ensures r.Rejected? <==> !AllFit(lens, cap)
    ensures r.Rejected? ==> r.error == SequenceTooLong
    ensures r.Packed? ==> Concatenated(lens, cap, maxPerBin, r.bins)
  {
    if !AllFit(lens, cap) {
      return Rejected(SequenceTooLong);
    }
    var bins, current := FillConcatenative(lens, cap, maxPerBin);
    CloseLastBin(lens, cap, maxPerBin, bins, current);
    if current != [] {
      bins := bins + [current];
    }
    return Packed(bins);
  }

  method FillConcatenative(lens: seq<nat>, cap: int, maxPerBin: int) returns (bins: seq<seq<nat>>, current: seq<nat>)
    requires AllFit(lens, cap)
    ensures Concatenating(lens, cap, maxPerBin, bins, current, |lens|)
  {
    hide Flat, FitAll, NoEmptyBin, Tight, Iota;
    bins, current := [], [];
    var currentLength := 0;
    NothingPlaced(lens, cap, maxPerBin);
    for i := 0 to |lens|
      invariant Concatenating(lens, cap, maxPerBin, bins, current, i)
      invariant currentLength == Load(lens, current)
    {
      var exceedsCapacity := currentLength + lens[i] > cap;
      var exceedsLimit := maxPerBin != -1 && |current| >= maxPerBin;
      if exceedsCapacity || exceedsLimit {
        StartBin(lens, cap, maxPerBin, bins, current, i);
        if current != [] {
          bins := bins + [current];
        }
        current, currentLength := [i], lens[i];
      } else {
        ExtendBin(lens, cap, maxPerBin, bins, current, i);
        current, currentLength := current + [i], currentLength + lens[i];
      }
    }
  }

  /** The first n sequences are in the closed bins and the current one, in order. */
  ghost predicate Concatenating(
      lens: seq<nat>, cap: int, maxPerBin: int, bins: seq<seq<nat>>, current: seq<nat>, n: nat) {
    && Flat(bins) + current == Iota(n)
    && FitAll(lens, cap, bins) && NoEmptyBin(bins)
    && AllBelow(current, |lens|) && (current != [] ==> Load(lens, current) <= cap)
    && (current == [] ==> n == 0 && bins == [])
    && (maxPerBin >= 1 ==> |current| <= maxPerBin && forall b :: 0 <= b < |bins| ==> |bins[b]| <= maxPerBin)
    && (maxPerBin == -1 && current != [] ==>
          Tight(lens, cap, bins) && (bins != [] ==> Load(lens, bins[|bins| - 1]) + lens[current[0]] > cap))
  }

  lemma NothingPlaced(lens: seq<nat>, cap: int, maxPerBin: int)
    ensures Concatenating(lens, cap, maxPerBin, [], [], 0)
  {
  }

  lemma CloseLastBin(lens: seq<nat>, cap: int, maxPerBin: int, bins: seq<seq<nat>>, current: seq<nat>)
    requires Concatenating(lens, cap, maxPerBin, bins, current, |lens|)
    ensures Concatenated(lens, cap, maxPerBin, if current == [] then bins else bins + [current])
  {
    hide Flat, Load, AllFit;
    FlatSnoc(bins, current);
  }

  lemma StartBin(lens: seq<nat>, cap: int, maxPerBin: int, bins: seq<seq<nat>>, current: seq<nat>, i: nat)
    requires AllFit(lens, cap) && i < |lens| && Concatenating(lens, cap, maxPerBin, bins, current, i)
    requires Load(lens, current) + lens[i] > cap || (maxPerBin != -1 && |current| >= maxPerBin)
    ensures Concatenating(lens, cap, maxPerBin, if current == [] then bins else bins + [current], [i], i + 1)
    ensures Load(lens, [i]) == lens[i]
  {
    hide Flat;
    LoadSingle(lens, i);
    FlatSnoc(bins, current);
    assert Iota(i + 1) == Iota(i) + [i];
  }

  lemma ExtendBin(lens: seq<nat>, cap: int, maxPerBin: int, bins: seq<seq<nat>>, current: seq<nat>, i: nat)
    requires i < |lens| && Concatenating(lens, cap, maxPerBin, bins, current, i)
    requires Load(lens, current) + lens[i] <= cap && (maxPerBin == -1 || |current| < maxPerBin)
    ensures Concatenating(lens, cap, maxPerBin, bins, current + [i], i + 1)
    ensures Load(lens, current + [i]) == Load(lens, current) + lens[i]
  {
    hide Flat, Load;
    LoadSnoc(lens, current, i);
    assert Flat(bins) + (current + [i]) == Flat(bins) + current + [i];
    assert Iota(i + 1) == Iota(i) + [i];
  }

  // ----- first fit -----

  /** Of any two bins, the later one was opened by a sequence that the earlier one cannot hold. */
  ghost predicate FirstFitBins(lens: seq<nat>, cap: int, bins: seq<seq<nat>>) {
    && FitAll(lens, cap, bins)
    && NoEmptyBin(bins)
    && (forall a, b :: 0 <= a < b < |bins| ==> Load(lens, bins[a]) + lens[bins[b][0]] > cap)
  }

  /** The sequences placed so far are in first-fit bins, and the free space of each bin is known. */
  ghost predicate Placing(lens: seq<nat>, cap: int, bins: seq<seq<nat>>, remaining: seq<int>, placed: seq<nat>) {
    && FirstFitBins(lens, cap, bins)
    && |bins| == |remaining|
    && (forall b :: 0 <= b < |bins| ==> remaining[b] == cap - Load(lens, bins[b]))
    && multiset(Flat(bins)) == multiset(placed)
  }

  lemma FirstFitPlace(
      lens: seq<nat>, cap: int, bins: seq<seq<nat>>, remaining: seq<int>, placed: seq<nat>, i: nat, x: nat)
    requires Placing(lens, cap, bins, remaining, placed) && i < |bins| && x < |lens| && lens[x] <= remaining[i]
    ensures Placing(lens, cap, bins[i := bins[i] + [x]], remaining[i := remaining[i] - lens[x]], placed + [x])
  {
    AddToBin(bins, i, x);
    LoadSnoc(lens, bins[i], x);
    FirstFitGrows(lens, cap, bins, i, x);
  }

  lemma FirstFitGrows(lens: seq<nat>, cap: int, bins: seq<seq<nat>>, i: nat, x: nat)
    requires FirstFitBins(lens, cap, bins) && i < |bins| && x < |lens| && Load(lens, bins[i]) + lens[x] <= cap
    ensures FirstFitBins(lens, cap, bins[i := bins[i] + [x]])
  {
    LoadSnoc(lens, bins[i], x);
    var after := bins[i := bins[i] + [x]];
    assert forall b :: 0 <= b < |bins| ==> after[b][0] == bins[b][0];
  }

  lemma FirstFitOpen(lens: seq<nat>, cap: int, bins: seq<seq<nat>>, remaining: seq<int>, placed: seq<nat>, x: nat)
    requires Placing(lens, cap, bins, remaining, placed) && x < |lens| && lens[x] <= cap
    requires forall b :: 0 <= b < |remaining| ==> remaining[b] < lens[x]
    ensures Placing(lens, cap, bins + [[x]], remaining + [cap - lens[x]], placed + [x])
  {
    hide Flat, Load;
    FlatSnoc(bins, [x]);
    LoadSingle(lens, x);
  }

  /** The part of an increasing list that is below k. */
  function Prior(slot: seq<nat>, k: nat): (r: seq<nat>)
    ensures r <= slot
  {
    if slot == [] || slot[|slot| - 1] < k then slot else Prior(slot[..|slot| - 1], k)
  }

  /** When the k-th sequence of the order came, the bin filled from these places of the order had no room for it. */
  ghost predicate NoRoom(lens: seq<nat>, cap: int, order: seq<nat>, slot: seq<nat>, k: nat)
    requires AllBelow(order, |lens|) && AllBelow(slot, |order|) && k < |order|
  {
    Load(lens, Gather(order, Prior(slot, k))) + lens[order[k]] > cap
  }

  /** Bins are filled in order, and every sequence went into the first bin that had room for it when it came. */
  ghost predicate FirstFitting(lens: seq<nat>, cap: int, order: seq<nat>, slots: seq<seq<nat>>, n: nat)
    requires AllBelow(order, |lens|) && n <= |order|
  {
    && (forall b :: 0 <= b < |slots| ==> slots[b] != [] && Increasing(slots[b]) && AllBelow(slots[b], n))
    && (forall a, b, q :: 0 <= a < b < |slots| && 0 <= q < |slots[b]| ==>
          NoRoom(lens, cap, order, slots[a], slots[b][q]))
  }

  /** These bins hold the sequences at these places of the order. */
  ghost predicate FilledFrom(order: seq<nat>, slots: seq<seq<nat>>, bins: seq<seq<nat>>) {
    |slots| == |bins| &&
    forall b :: 0 <= b < |bins| ==> AllBelow(slots[b], |order|) && bins[b] == Gather(order, slots[b])
  }

  /** What first fit does with sequences that come in this order. */
  ghost predicate IsFirstFit(lens: seq<nat>, cap: int, order: seq<nat>, bins: seq<seq<nat>>)
    requires AllBelow(order, |lens|)
  {
    exists slots :: FirstFitting(lens, cap, order, slots, |order|) && FilledFrom(order, slots, bins)
  }

  lemma PriorNext(slot: seq<nat>, k: nat, j: nat)
    requires AllBelow(slot, k)
    ensures Prior(slot, k) == slot && (j <= k ==> Prior(slot + [k], j) == Prior(slot, j))
  {
    assert (slot + [k])[..|slot|] == slot;
  }

  /** Element x goes to part i, a new one if there is none. */
  function Placed<X>(parts: seq<seq<X>>, i: nat, x: X): (r: seq<seq<X>>)
    requires i <= |parts|
  {
    if i < |parts| then parts[i := parts[i] + [x]] else parts + [[x]]
  }

  /** Sequence k goes to the first bin that has room for it. */
  lemma FirstFitNext(
      lens: seq<nat>, cap: int, order: seq<nat>, slots: seq<seq<nat>>, bins: seq<seq<nat>>, k: nat, i: nat)
    requires AllBelow(order, |lens|) && k < |order| && i <= |slots|
    requires FirstFitting(lens, cap, order, slots, k) && FilledFrom(order, slots, bins)
    requires forall a :: 0 <= a < i ==> AllBelow(bins[a], |lens|) && Load(lens, bins[a]) + lens[order[k]] > cap
    ensures FirstFitting(lens, cap, order, Placed(slots, i, k), k + 1)
    ensures FilledFrom(order, Placed(slots, i, k), Placed(bins, i, order[k]))
  {
    hide Load, Prior, NoRoom;
    var slots' := Placed(slots, i, k);
    forall a, b, q | 0 <= a < b < |slots'| && 0 <= q < |slots'[b]|
      ensures NoRoom(lens, cap, order, slots'[a], slots'[b][q])
    {
      if b < |slots| && q < |slots[b]| {
        assert NoRoom(lens, cap, order, slots[a], slots[b][q]);
        NoRoomStays(lens, cap, order, slots[a], slots'[a], slots[b][q], k);
      } else {
        NoRoomNow(lens, cap, order, slots[a], bins[a], k);
      }
    }
  }

  lemma NoRoomStays(lens: seq<nat>, cap: int, order: seq<nat>, slot: seq<nat>, slot': seq<nat>, j: nat, k: nat)
    requires AllBelow(order, |lens|) && j < k < |order| && AllBelow(slot, k) && (slot' == slot || slot' == slot + [k])
    requires NoRoom(lens, cap, order, slot, j)
    ensures NoRoom(lens, cap, order, slot', j)
  {
    hide Load;
    PriorNext(slot, k, j);
  }

  lemma NoRoomNow(lens: seq<nat>, cap: int, order: seq<nat>, slot: seq<nat>, bin: seq<nat>, k: nat)
    requires AllBelow(order, |lens|) && k < |order| && AllBelow(slot, k) && bin == Gather(order, slot)
    requires Load(lens, bin) + lens[order[k]] > cap
    ensures NoRoom(lens, cap, order, slot, k)
  {
    hide Load;
    PriorNext(slot, k, k);
  }

  /** Longest first, and of two equally long sequences the later one first. */
  ghost predicate IsDecreasingOrder(lens: seq<nat>, order: seq<nat>) {
    && IsPermutation(order, |lens|)
    && forall i, j :: 0 <= i < j < |order| ==>
         lens[order[i]] > lens[order[j]] || (lens[order[i]] == lens[order[j]] && order[i] > order[j])
  }

  /** The first bin with room for so much, or the number of bins. */
  method FirstWithRoom(remaining: seq<int>, length: int) returns (i: nat)
    ensures i <= |remaining| && (i < |remaining| ==> length <= remaining[i])
    ensures forall b :: 0 <= b < i ==> remaining[b] < length
  {
    i := 0;
    while i < |remaining| && remaining[i] < length
      invariant 0 <= i <= |remaining|
      invariant forall b :: 0 <= b < i ==> remaining[b] < length
    {
      i := i + 1;
    }
  }

  /** The first n sequences of the order fit, and first fit has put them into these bins with so much room left. */
  ghost predicate Fitted(
      lens: seq<nat>, cap: int, order: seq<nat>, slots: seq<seq<nat>>, bins: seq<seq<nat>>, remaining: seq<int>, n: nat)
    requires AllBelow(order, |lens|) && n <= |order|
  {
    && Placing(lens, cap, bins, remaining, order[..n])
    && FirstFitting(lens, cap, order, slots, n) && FilledFrom(order, slots, bins)
    && forall j :: 0 <= j < n ==> lens[order[j]] <= cap
  }

  lemma NothingFitted(lens: seq<nat>, cap: int, order: seq<nat>)
    requires AllBelow(order, |lens|)
    ensures Fitted(lens, cap, order, [], [], [], 0)
  {
  }

  lemma NoEarlierRoom(
      lens: seq<nat>, cap: int, bins: seq<seq<nat>>, remaining: seq<int>, placed: seq<nat>, i: nat, length: nat)
    requires Placing(lens, cap, bins, remaining, placed) && i <= |remaining| == |bins|
    requires forall b :: 0 <= b < i ==> remaining[b] < length
    ensures forall a :: 0 <= a < i ==> AllBelow(bins[a], |lens|) && Load(lens, bins[a]) + length > cap
  {
    hide Load, Flat;
  }

  lemma FitNext(
      lens: seq<nat>, cap: int, order: seq<nat>, slots: seq<seq<nat>>, bins: seq<seq<nat>>, remaining: seq<int>,
      n: nat, i: nat)
    requires AllBelow(order, |lens|) && n < |order| && Fitted(lens, cap, order, slots, bins, remaining, n)
    requires lens[order[n]] <= cap && i <= |remaining| == |bins| == |slots|
    requires i < |remaining| ==> lens[order[n]] <= remaining[i]
    requires forall b :: 0 <= b < i ==> remaining[b] < lens[order[n]]
    ensures var x := order[n];
      var remaining' := if i < |remaining| then remaining[i := remaining[i] - lens[x]] else remaining + [cap - lens[x]];
      Fitted(lens, cap, order, Placed(slots, i, n), Placed(bins, i, x), remaining', n + 1)
  {
    hide FirstFitting, FilledFrom, Placing, Load;
    var x := order[n];
    assert order[..n + 1] == order[..n] + [x];
    NoEarlierRoom(lens, cap, bins, remaining, order[..n], i, lens[x]);
    FirstFitNext(lens, cap, order, slots, bins, n, i);
    if i < |remaining| {
      FirstFitPlace(lens, cap, bins, remaining, order[..n], i, x);
    } else {
      FirstFitOpen(lens, cap, bins, remaining, order[..n], x);
    }
  }

  method PackFirstFit(lens: seq<nat>, cap: int, order: seq<nat>) returns (r: PackResult)
    requires IsPermutation(order, |lens|)
    ensures r.Rejected? <==> !AllFit(lens, cap)
    ensures r.Rejected? ==> r.error == SequenceTooLong
    ensures r.Packed? ==> IsPacking(lens, cap, r.bins) && FirstFitBins(lens, cap, r.bins)
    ensures r.Packed? ==> IsFirstFit(lens, cap, order, r.bins)
  {
    hide Placing, FirstFitting, FilledFrom;
    var bins: seq<seq<nat>> := [];
    var remaining: seq<int> := [];
    ghost var slots: seq<seq<nat>> := [];
    NothingFitted(lens, cap, order);
    for k := 0 to |order|
      invariant Fitted(lens, cap, order, slots, bins, remaining, k)
      invariant |bins| == |remaining| == |slots|
    {
      var idx := order[k];
      var length := lens[idx];
      if length > cap {
        return Rejected(SequenceTooLong);
      }
      var i := FirstWithRoom(remaining, length);
      FitNext(lens, cap, order, slots, bins, remaining, k, i);
      slots := Placed(slots, i, k);
      if i < |remaining| {
        bins := bins[i := bins[i] + [idx]];
        remaining := remaining[i := remaining[i] - length];
      } else {
        bins := bins + [[idx]];
        remaining := remaining + [cap - length];
      }
    }
    AllFitted(lens, cap, order, slots, bins, remaining);
    return Packed(bins);
  }

  lemma AllFitted(
      lens: seq<nat>, cap: int, order: seq<nat>, slots: seq<seq<nat>>, bins: seq<seq<nat>>, remaining: seq<int>)
    requires IsPermutation(order, |lens|) && Fitted(lens, cap, order, slots, bins, remaining, |order|)
    ensures AllFit(lens, cap) && IsPacking(lens, cap, bins) && FirstFitBins(lens, cap, bins)
    ensures IsFirstFit(lens, cap, order, bins)
  {
    hide Load, Flat, NoRoom, Prior;
    EveryLengthSeen(lens, cap, order, bins);
  }

  lemma EveryLengthSeen(lens: seq<nat>, cap: int, order: seq<nat>, bins: seq<seq<nat>>)
    requires IsPermutation(order, |lens|) && multiset(Flat(bins)) == multiset(order[..|order|])
    requires forall j :: 0 <= j < |order| ==> lens[order[j]] <= cap
    ensures AllFit(lens, cap) && IsPermutation(Flat(bins), |lens|)
  {
    assert order[..|order|] == order;
    PermutationIffMultiset(order, |lens|);
    PermutationIffMultiset(Flat(bins), |lens|);
    forall i | 0 <= i < |lens| ensures lens[i] <= cap {
      PermutationCovers(order, |lens|, i);
    }
  }

  /** Longest first, and of two equally long sequences the later one first. */
  predicate DecreasingPair(a: (int, int), b: (int, int)) {
    a.0 > b.0 || (a.0 == b.0 && a.1 >= b.1)
  }

  method PackFirstFitDecreasing(lens: seq<nat>, cap: int) returns (r: PackResult)
    ensures r.Rejected? <==> !AllFit(lens, cap)
    ensures r.Rejected? ==> r.error == SequenceTooLong
    ensures r.Packed? ==> IsPacking(lens, cap, r.bins) && FirstFitBins(lens, cap, r.bins)
    ensures r.Packed? ==> exists order :: IsDecreasingOrder(lens, order) && IsFirstFit(lens, cap, order, r.bins)
  {
    var keys := seq(|lens|, i requires 0 <= i < |lens| => (lens[i] as int, i as int));
    var order := ArgSort(keys, DecreasingPair);
    ArgSortCorrect(keys, DecreasingPair);
    assert IsDecreasingOrder(lens, order);
    r := PackFirstFit(lens, cap, order);
  }

  function Loads(lens: seq<nat>, bins: seq<seq<nat>>): seq<int>
    requires forall b :: 0 <= b < |bins| ==> AllBelow(bins[b], |lens|)
  {
    seq(|bins|, b requires 0 <= b < |bins| => Load(lens, bins[b]))
  }

  /** If any two of the numbers exceed cap together, the total exceeds half of cap times all but one. */
  lemma {:induction false} PairsOverflow(s: seq<int>, cap: nat)
    requires forall i :: 0 <= i < |s| ==> s[i] >= 0
    requires forall i, j :: 0 <= i < j < |s| ==> s[i] + s[j] > cap
    ensures |s| > 1 ==> 2 * Sum(s) > (|s| - 1) * cap
    decreases |s|
  {
    if |s| <= 1 {
    } else {
      var rest := s[2..];
      assert s == [s[0], s[1]] + rest;
      SumAppend([s[0], s[1]], rest);
      assert [s[0], s[1]] == [s[0]] + [s[1]];
      SumSnoc([s[0]], s[1]);
      assert Sum([s[0]]) == s[0] + Sum([]);
      PairsOverflow(rest, cap);
      SumNonNegative(rest);
      OnePairMore(s[0] + s[1], Sum(rest), |s|, cap);
    }
  }

  lemma OnePairMore(pair: int, rest: int, n: nat, cap: nat)
    requires pair > cap && rest >= 0 && n >= 2 && (n > 3 ==> 2 * rest > (n - 3) * cap)
    ensures 2 * (pair + rest) > (n - 1) * cap
  {
    if n > 3 {
      OneMore(n - 3, cap);
      OneMore(n - 2, cap);
    }
  }

  /** Any two bins together hold more than one bin can. */
  ghost predicate PairwiseFull(lens: seq<nat>, cap: int, bins: seq<seq<nat>>)
    requires forall b :: 0 <= b < |bins| ==> AllBelow(bins[b], |lens|)
  {
    forall a, b :: 0 <= a < b < |bins| ==> Load(lens, bins[a]) + Load(lens, bins[b]) > cap
  }

  lemma FirstFitIsPairwiseFull(lens: seq<nat>, cap: int, bins: seq<seq<nat>>)
    requires FirstFitBins(lens, cap, bins)
    ensures PairwiseFull(lens, cap, bins)
  {
    forall a, b | 0 <= a < b < |bins| ensures Load(lens, bins[a]) + Load(lens, bins[b]) > cap {
      HeadFits(lens, bins[b]);
    }
  }

  /** Such bins are more than half full on average, all but one, so there are fewer than twice the
      ideal number of them plus one. */
  lemma PairwiseFullIsHalfFull(lens: seq<nat>, cap: nat, bins: seq<seq<nat>>)
    requires FitAll(lens, cap, bins) && PairwiseFull(lens, cap, bins)
    ensures |bins| > 1 ==> 2 * Sum(Loads(lens, bins)) > (|bins| - 1) * cap
  {
    var loads := Loads(lens, bins);
    forall b | 0 <= b < |bins| ensures loads[b] >= 0 {
      SumNonNegative(Gather(lens, bins[b]));
    }
    PairsOverflow(loads, cap);
  }

  lemma HeadFits(lens: seq<nat>, bin: seq<nat>)
    requires AllBelow(bin, |lens|) && bin != []
    ensures lens[bin[0]] <= Load(lens, bin)
  {
    SumNonNegative(Gather(lens, bin)[1..]);
  }

  lemma {:induction false} SumNonNegative(s: seq<int>)
    requires forall i :: 0 <= i < |s| ==> s[i] >= 0
    ensures Sum(s) >= 0
  {
    if s == [] {
    } else {
      SumNonNegative(s[1..]);
    }
  }
}
