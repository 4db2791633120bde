/** Top-k and top-p filtering of logits: sort, mask, scatter back, in chunks of rows.

    Logits are reals or minus infinity. Softmax enters through a weight function that is zero at minus
    infinity and positive and increasing elsewhere; a probability is a weight divided by the row's total. */
module TopKTopP {
  import opened Arithmetic
  import opened Options
  import opened Reals
  import opened Sequences
  import Sorting

  datatype Logit = NegInf | Fin(value: real)

  datatype FilterError = KExceedsVocabulary | ZeroStep

  datatype Result<+T> = Success(value: T) | Failure(error: FilterError)

  predicate Ge(a: Logit, b: Logit) {
    b.NegInf? || (a.Fin? && a.value >= b.value)
  }

  ghost predicate IsWeight(w: Logit -> real) {
    && w(NegInf) == 0.0
    && (forall x :: w(Fin(x)) > 0.0)
    && (forall x, y :: x < y ==> w(Fin(x)) < w(Fin(y)))
  }

  /** The positions of a row in ascending order of logit; any order of equal logits will do. */
  ghost predicate Sorts(row: seq<Logit>, p: seq<nat>) {
    IsPermutation(p, |row|) && forall i, j :: 0 <= i <= j < |row| ==> Ge(row[p[j]], row[p[i]])
  }

  /** There is such a weight: it need not be an exponential. */
  lemma WeightExists()
    ensures exists w :: IsWeight(w)
  {
    var w := (l: Logit) =>
      match l case NegInf => 0.0 case Fin(x) => if x < 0.0 then 1.0 / (1.0 - x) else 1.0 + x;
    forall x, y | x < y ensures w(Fin(x)) < w(Fin(y)) {
      if x < 0.0 {
        SmallerReciprocal(1.0 - x, if y < 0.0 then 1.0 - y else 1.0);
      }
    }
    forall x ensures w(Fin(x)) > 0.0 {
      if x < 0.0 {
        SmallerReciprocal(2.0 - x, 1.0 - x);
      }
    }
    assert IsWeight(w);
  }

  lemma SmallerReciprocal(a: real, b: real)
    requires 0.0 < b < a
    ensures 0.0 < 1.0 / a < 1.0 / b
  {
    var p, q := 1.0 / a, 1.0 / b;
    assert p * a == 1.0 && q * b == 1.0;
  }

  /** Every row can be sorted. */
  lemma CanBeSorted(row: seq<Logit>)
    ensures exists p :: Sorts(row, p)
  {
    var le := (a: Logit, b: Logit) => Ge(b, a);
    var p := Sorting.ArgSort(row, le);
    Sorting.ArgSortCorrect(row, le);
    assert Sorts(row, p);
  }

  predicate NeedTopK(topK: Option<int>) { topK.Some? && topK.value > 0 }

  predicate NeedTopP(topP: real) { topP != 1.0 }

  // ----- one row -----

  function TopKMask(sorted: seq<Logit>, topK: Option<int>): (r: seq<bool>)
    requires NeedTopK(topK) ==> topK.value <= |sorted|
    ensures |r| == |sorted|
  {
    var n := |sorted|;
    if NeedTopK(topK)
    then seq(n, i requires 0 <= i < n => Ge(sorted[i], sorted[n - topK.value]))
    else seq(n, i => true)
  }

  function Masked(xs: seq<Logit>, mask: seq<bool>): (r: seq<Logit>)
    requires |xs| == |mask|
    ensures |r| == |xs|
  {
    seq(|xs|, i requires 0 <= i < |xs| => if mask[i] then xs[i] else NegInf)
  }

  function Weights(xs: seq<Logit>, w: Logit -> real): (r: seq<real>)
    ensures |r| == |xs|
  {
    seq(|xs|, i requires 0 <= i < |xs| => w(xs[i]))
  }

  /** The sum of the first k elements. */
  function Prefix(xs: seq<real>, k: nat): real
    requires k <= |xs|
  {
    if k == 0 then 0.0 else Prefix(xs, k - 1) + xs[k - 1]
  }

  /** Keeps a position when the probabilities up to and including it sum to more than 1 - top_p, and
      always keeps the last. The comparison is multiplied by the total, so a row without any weight keeps
      only its last position, as a comparison with an undefined number is false. */
  function TopPMask(weights: seq<real>, topP: real): (r: seq<bool>)
    ensures |r| == |weights|
  {
    MaskAbove(weights, Threshold(Total(weights), topP))
  }

  function Threshold(total: real, topP: real): real {
    (1.0 - topP) * total
  }

  function MaskAbove(weights: seq<real>, threshold: real): (r: seq<bool>)
    ensures |r| == |weights|
  {
    var n := |weights|;
    seq(n, i requires 0 <= i < n => i == n - 1 || Prefix(weights, i + 1) > threshold)
  }

  function And(a: seq<bool>, b: seq<bool>): (r: seq<bool>)
    requires |a| == |b|
    ensures |r| == |a|
  {
    seq(|a|, i requires 0 <= i < |a| => a[i] && b[i])
  }

  /** Writes source elements 0 to n - 1 to their positions, one after the other. */
  function Scatter<X>(base: seq<X>, index: seq<nat>, source: seq<X>, n: nat): (r: seq<X>)
    requires |index| == |source| == |base| && AllBelow(index, |base|) && n <= |index|
    ensures |r| == |base|
  {
    if n == 0 then base else Scatter(base, index, source, n - 1)[index[n - 1] := source[n - 1]]
  }

  datatype Filtered = Filtered(logits: seq<Logit>, mask: seq<bool>)

  /** What happens to one row, given the positions its sort returned. */
  function FilterRow(row: seq<Logit>, p: seq<nat>, topK: Option<int>, topP: real, w: Logit -> real): Filtered
    requires IsPermutation(p, |row|) && (NeedTopK(topK) ==> topK.value <= |row|)
  {
    var sorted := Gather(row, p);
    var keepK := TopKMask(sorted, topK);
    var limited := Masked(sorted, keepK);
    var keepP := TopPMask(Weights(limited, w), topP);
    var out := Masked(limited, keepP);
    var keep := And(keepK, keepP);
    Filtered(Scatter(out, p, out, |row|), Scatter(keep, p, keep, |row|))
  }

  // ----- scattering undoes sorting -----

  lemma {:induction false} ScatterMeaning<X>(base: seq<X>, index: seq<nat>, source: seq<X>, n: nat)
    requires |index| == |source| == |base| && AllBelow(index, |base|) && Distinct(index) && n <= |index|
    ensures forall i :: 0 <= i < n ==> Scatter(base, index, source, n)[index[i]] == source[i]
  {
    if n == 0 {
    } else {
      ScatterMeaning(base, index, source, n - 1);
    }
  }

  /** Every position holds its own logit where the mask is true, and minus infinity elsewhere. */
  lemma FilterKeepsOrDrops(row: seq<Logit>, p: seq<nat>, topK: Option<int>, topP: real, w: Logit -> real)
    requires IsPermutation(p, |row|) && (NeedTopK(topK) ==> topK.value <= |row|)
    ensures var r := FilterRow(row, p, topK, topP, w);
      && |r.logits| == |r.mask| == |row|
      && forall j :: 0 <= j < |row| ==> r.logits[j] == if r.mask[j] then row[j] else NegInf
  {
    var r := FilterRow(row, p, topK, topP, w);
    forall j | 0 <= j < |row| ensures r.logits[j] == if r.mask[j] then row[j] else NegInf {
      PermutationCovers(p, |row|, j);
      var i :| 0 <= i < |row| && p[i] == j;
      FilteredAt(row, p, topK, topP, w, i);
    }
  }

  /** The masks at sorted position i. */
  function KeepKAt(row: seq<Logit>, p: seq<nat>, topK: Option<int>, i: nat): bool
    requires IsPermutation(p, |row|) && (NeedTopK(topK) ==> topK.value <= |row|) && i < |row|
  {
    TopKMask(Gather(row, p), topK)[i]
  }

  function LimitedWeights(row: seq<Logit>, p: seq<nat>, topK: Option<int>, w: Logit -> real): (r: seq<real>)
    requires IsPermutation(p, |row|) && (NeedTopK(topK) ==> topK.value <= |row|)
    ensures |r| == |row|
  {
    Weights(Masked(Gather(row, p), TopKMask(Gather(row, p), topK)), w)
  }

  function KeepPAt(row: seq<Logit>, p: seq<nat>, topK: Option<int>, topP: real, w: Logit -> real, i: nat): bool
    requires IsPermutation(p, |row|) && (NeedTopK(topK) ==> topK.value <= |row|) && i < |row|
  {
    TopPMask(LimitedWeights(row, p, topK, w), topP)[i]
  }

  lemma FilteredAt(row: seq<Logit>, p: seq<nat>, topK: Option<int>, topP: real, w: Logit -> real, i: nat)
    requires IsPermutation(p, |row|) && (NeedTopK(topK) ==> topK.value <= |row|) && i < |row|
    ensures var r := FilterRow(row, p, topK, topP, w);
      var keep := KeepKAt(row, p, topK, i) && KeepPAt(row, p, topK, topP, w, i);
      && |r.logits| == |r.mask| == |row|
      && r.mask[p[i]] == keep
      && r.logits[p[i]] == if keep then row[p[i]] else NegInf
  {
    var sorted := Gather(row, p);
    var keepK := TopKMask(sorted, topK);
    var limited := Masked(sorted, keepK);
    var keepP := TopPMask(Weights(limited, w), topP);
    var out := Masked(limited, keepP);
    var keep := And(keepK, keepP);
    ScatterMeaning(out, p, out, |row|);
    ScatterMeaning(keep, p, keep, |row|);
  }

  // ----- the chunk loop -----

  /** Filters all rows, a chunk at a time, into preallocated outputs. */
  method ApplyTopKTopP(
      rows: seq<seq<Logit>>, perms: seq<seq<nat>>, topK: Option<int>, topP: real, chunkSize: Option<nat>,
      w: Logit -> real)
      returns (r: Result<(seq<seq<Logit>>, seq<seq<bool>>)>)
    requires NeedTopP(topP) && |perms| == |rows|
    requires forall i :: 0 <= i < |rows| ==> IsPermutation(perms[i], |rows[i]|)
    ensures var size := if chunkSize.Some? then chunkSize.value else |rows|;
      && (r == Failure(ZeroStep) <==> size == 0)
      && (r == Failure(KExceedsVocabulary) <==>
            size > 0 && NeedTopK(topK) && exists i :: 0 <= i < |rows| && topK.value > |rows[i]|)
    ensures r.Success? ==>
              |r.value.0| == |r.value.1| == |rows| &&
              forall i :: 0 <= i < |rows| ==>
                (NeedTopK(topK) ==> topK.value <= |rows[i]|) &&
                Filtered(r.value.0[i], r.value.1[i]) == FilterRow(rows[i], perms[i], topK, topP, w)
  {
    hide FilterRow, IsPermutation;
    var numTokens := |rows|;
    var size := if chunkSize.Some? then chunkSize.value else numTokens;
    if size == 0 {
      return Failure(ZeroStep);
    }
    var filtered := new seq<Logit>[numTokens](_ => []);
    var keepMask := new seq<bool>[numTokens](_ => []);
    var start := 0;
    while start < numTokens
      invariant 0 <= start
      invariant forall i :: 0 <= i < Min(start, numTokens) ==>
                RowDone(rows, perms, topK, topP, w, filtered[i], keepMask[i], i)
    {
      var end := Min(start + size, numTokens);
      var ok := FilterChunk(rows, perms, topK, topP, w, filtered, keepMask, start, end);
      if !ok {
        return Failure(KExceedsVocabulary);
      }
      start := start + size;
    }
    AllRowsDone(rows, perms, topK, topP, w, filtered[..], keepMask[..]);
    return Success((filtered[..], keepMask[..]));
  }

  /** Filters the rows from start to end into the outputs, unless k exceeds the vocabulary. */
  method FilterChunk(
      rows: seq<seq<Logit>>, perms: seq<seq<nat>>, topK: Option<int>, topP: real, w: Logit -> real,
      filtered: array<seq<Logit>>, keepMask: array<seq<bool>>, start: nat, end: nat)
      returns (ok: bool)
    requires |perms| == |rows| == filtered.Length == keepMask.Length && start <= end <= |rows|
    requires forall i :: 0 <= i < |rows| ==> IsPermutation(perms[i], |rows[i]|)
    requires forall i :: 0 <= i < start ==> RowDone(rows, perms, topK, topP, w, filtered[i], keepMask[i], i)
    modifies filtered, keepMask
    ensures ok ==> forall i :: 0 <= i < end ==> RowDone(rows, perms, topK, topP, w, filtered[i], keepMask[i], i)
    ensures !ok ==> NeedTopK(topK) && exists i :: start <= i < end && topK.value > |rows[i]|
  {
    hide FilterRow, IsPermutation;
    for t := start to end
      invariant forall i :: 0 <= i < t ==> RowDone(rows, perms, topK, topP, w, filtered[i], keepMask[i], i)
    {
      if NeedTopK(topK) && topK.value > |rows[t]| {
        return false;
      }
      var out := FilterRow(rows[t], perms[t], topK, topP, w);
      filtered[t], keepMask[t] := out.logits, out.mask;
      assert RowDone(rows, perms, topK, topP, w, filtered[t], keepMask[t], t);
    }
    return true;
  }

  lemma AllRowsDone(
      rows: seq<seq<Logit>>, perms: seq<seq<nat>>, topK: Option<int>, topP: real, w: Logit -> real,
      filtered: seq<seq<Logit>>, masks: seq<seq<bool>>)
    requires |perms| == |filtered| == |masks| == |rows|
    requires forall i :: 0 <= i < |rows| ==> IsPermutation(perms[i], |rows[i]|)
    requires forall i :: 0 <= i < |rows| ==> RowDone(rows, perms, topK, topP, w, filtered[i], masks[i], i)
    ensures forall i :: 0 <= i < |rows| ==> NeedTopK(topK) ==> topK.value <= |rows[i]|
    ensures forall i :: 0 <= i < |rows| ==>
              Filtered(filtered[i], masks[i]) == FilterRow(rows[i], perms[i], topK, topP, w)
  {
    hide FilterRow, IsPermutation;
    forall i | 0 <= i < |rows| ensures NeedTopK(topK) ==> topK.value <= |rows[i]| {
      assert RowDone(rows, perms, topK, topP, w, filtered[i], masks[i], i);
    }
    forall i | 0 <= i < |rows|
      ensures Filtered(filtered[i], masks[i]) == FilterRow(rows[i], perms[i], topK, topP, w)
    {
      assert RowDone(rows, perms, topK, topP, w, filtered[i], masks[i], i);
    }
  }

  ghost predicate RowDone(
      rows: seq<seq<Logit>>, perms: seq<seq<nat>>, topK: Option<int>, topP: real, w: Logit -> real,
      logits: seq<Logit>, mask: seq<bool>, i: nat)
    requires i < |rows| == |perms| && IsPermutation(perms[i], |rows[i]|)
  {
    (NeedTopK(topK) ==> topK.value <= |rows[i]|) &&
    Filtered(logits, mask) == FilterRow(rows[i], perms[i], topK, topP, w)
  }

  // ----- sums -----

  lemma {:induction false} PrefixOfPrefix(xs: seq<real>, n: nat, k: nat)
    requires k <= n <= |xs|
    ensures Prefix(xs[..n], k) == Prefix(xs, k)
  {
    if k == 0 {
    } else {
      PrefixOfPrefix(xs, n, k - 1);
    }
  }

  lemma {:induction false} PrefixMonotone(xs: seq<real>, j: nat, k: nat)
    requires j <= k <= |xs| && forall i :: 0 <= i < |xs| ==> xs[i] >= 0.0
    ensures 0.0 <= Prefix(xs, j) <= Prefix(xs, k)
    decreases k
  {
    if j < k {
      PrefixMonotone(xs, j, k - 1);
    } else if j > 0 {
      PrefixMonotone(xs, j - 1, j - 1);
    }
  }

  lemma {:induction false} PrefixIsTotal(xs: seq<real>, k: nat)
    requires k <= |xs|
    ensures Prefix(xs, k) == Total(xs[..k])
  {
    if k == 0 {
    } else {
      PrefixIsTotal(xs, k - 1);
      assert xs[..k] == xs[..k - 1] + [xs[k - 1]];
      TotalSnoc(xs[..k - 1], xs[k - 1]);
    }
  }

  lemma {:induction false} TotalOfNothing(xs: seq<real>)
    requires forall i :: 0 <= i < |xs| ==> xs[i] == 0.0
    ensures Total(xs) == 0.0
  {
    if xs == [] {
    } else {
      TotalOfNothing(xs[1..]);
    }
  }

  // ----- top-p: what the kept tokens carry -----

  /** The weights of the tokens a mask keeps. */
  function KeptWeights(row: seq<Logit>, mask: seq<bool>, w: Logit -> real): (r: seq<real>)
    requires |row| == |mask|
    ensures |r| == |row|
  {
    seq(|row|, j requires 0 <= j < |row| => if mask[j] then w(row[j]) else 0.0)
  }

  /** The mask of top-k alone, in original order. */
  function TopKOnlyMask(row: seq<Logit>, p: seq<nat>, topK: Option<int>): (r: seq<bool>)
    requires IsPermutation(p, |row|) && (NeedTopK(topK) ==> topK.value <= |row|)
    ensures |r| == |row|
  {
    var keep := TopKMask(Gather(row, p), topK);
    Scatter(keep, p, keep, |row|)
  }

  /** Both masks keep an upper part of the sorted row, and both keep its last element. */
  lemma MasksKeepTop(row: seq<Logit>, p: seq<nat>, topK: Option<int>, topP: real, w: Logit -> real, i: nat, j: nat)
    requires Sorts(row, p) && IsWeight(w) && (NeedTopK(topK) ==> topK.value <= |row|) && i <= j < |row|
    ensures KeepKAt(row, p, topK, i) ==> KeepKAt(row, p, topK, j)
    ensures KeepPAt(row, p, topK, topP, w, i) ==> KeepPAt(row, p, topK, topP, w, j)
    ensures j == |row| - 1 ==> KeepKAt(row, p, topK, j) && KeepPAt(row, p, topK, topP, w, j)
  {
    TopKKeepsTop(row, p, topK, i, j);
    LimitedNonNegative(row, p, topK, w);
    TopPKeepsTop(LimitedWeights(row, p, topK, w), topP, i, j);
  }

  lemma TopKKeepsTop(row: seq<Logit>, p: seq<nat>, topK: Option<int>, i: nat, j: nat)
    requires Sorts(row, p) && (NeedTopK(topK) ==> topK.value <= |row|) && i <= j < |row|
    ensures KeepKAt(row, p, topK, i) ==> KeepKAt(row, p, topK, j)
    ensures j == |row| - 1 ==> KeepKAt(row, p, topK, j)
  {
    assert Ge(row[p[j]], row[p[i]]);
  }

  lemma LimitedNonNegative(row: seq<Logit>, p: seq<nat>, topK: Option<int>, w: Logit -> real)
    requires IsPermutation(p, |row|) && IsWeight(w) && (NeedTopK(topK) ==> topK.value <= |row|)
    ensures forall k :: 0 <= k < |row| ==> LimitedWeights(row, p, topK, w)[k] >= 0.0
  {
    forall k | 0 <= k < |row| ensures LimitedWeights(row, p, topK, w)[k] >= 0.0 {
      WeightNonNegative(Masked(Gather(row, p), TopKMask(Gather(row, p), topK))[k], w);
    }
  }

  lemma WeightNonNegative(x: Logit, w: Logit -> real)
    requires IsWeight(w)
    ensures w(x) >= 0.0 && (w(x) > 0.0 <==> x.Fin?)
  {
    match x {
      case NegInf =>
      case Fin(v) => assert w(Fin(v)) > 0.0;
    }
  }

  /** What top-k leaves at sorted position i. */
  lemma LimitedAt(row: seq<Logit>, p: seq<nat>, topK: Option<int>, w: Logit -> real, i: nat)
    requires IsPermutation(p, |row|) && IsWeight(w) && (NeedTopK(topK) ==> topK.value <= |row|) && i < |row|
    ensures LimitedWeights(row, p, topK, w)[i] == if KeepKAt(row, p, topK, i) then w(row[p[i]]) else 0.0
  {
  }

  lemma TopPKeepsTop(weights: seq<real>, topP: real, i: nat, j: nat)
    requires i <= j < |weights| && forall k :: 0 <= k < |weights| ==> weights[k] >= 0.0
    ensures TopPMask(weights, topP)[i] ==> TopPMask(weights, topP)[j]
  {
    PrefixMonotone(weights, i + 1, j + 1);
  }

  /** If a threshold keeps exactly the positions from `first` on, the weight before `first` does not exceed
      it, and the weight up to and including `first` does. */
  lemma FirstAbove(weights: seq<real>, threshold: real, first: nat)
    requires threshold >= 0.0 && first < |weights|
    requires forall i :: 0 <= i < |weights| ==> (MaskAbove(weights, threshold)[i] <==> first <= i)
    ensures Prefix(weights, first) <= threshold
    ensures threshold < Total(weights) ==> threshold < Prefix(weights, first + 1) && weights[first] > 0.0
  {
    PrefixIsTotal(weights, |weights|);
    assert weights[..|weights|] == weights;
    if first > 0 {
      assert !MaskAbove(weights, threshold)[first - 1];
    }
    assert MaskAbove(weights, threshold)[first];
  }

  /** No dropped token has a larger logit than a kept one, and a token with the largest logit is kept. */
  lemma KeptAreLargest(row: seq<Logit>, p: seq<nat>, topK: Option<int>, topP: real, w: Logit -> real)
    requires Sorts(row, p) && IsWeight(w) && (NeedTopK(topK) ==> topK.value <= |row|)
    ensures var mask := FilterRow(row, p, topK, topP, w).mask;
      && |mask| == |row|
      && (forall a, b :: 0 <= a < |row| && 0 <= b < |row| && mask[a] && !mask[b] ==> Ge(row[a], row[b]))
      && (row != [] ==> exists a :: 0 <= a < |row| && mask[a] && forall b :: 0 <= b < |row| ==> Ge(row[a], row[b]))
  {
    var mask := FilterRow(row, p, topK, topP, w).mask;
    forall a, b | 0 <= a < |row| && 0 <= b < |row| && mask[a] && !mask[b] ensures Ge(row[a], row[b]) {
      var i := SortedPosition(row, p, a);
      var j := SortedPosition(row, p, b);
      FilteredAt(row, p, topK, topP, w, i);
      FilteredAt(row, p, topK, topP, w, j);
      if i < j { MasksKeepTop(row, p, topK, topP, w, i, j); }
    }
    if row != [] {
      var last := |row| - 1;
      FilteredAt(row, p, topK, topP, w, last);
      MasksKeepTop(row, p, topK, topP, w, last, last);
      forall b | 0 <= b < |row| ensures Ge(row[p[last]], row[b]) {
        var j := SortedPosition(row, p, b);
      }
    }
  }

  lemma SortedPosition(row: seq<Logit>, p: seq<nat>, j: nat) returns (i: nat)
    requires IsPermutation(p, |row|) && j < |row|
    ensures i < |row| && p[i] == j
  {
    PermutationCovers(p, |row|, j);
    i :| 0 <= i < |row| && p[i] == j;
  }

  // ----- what top-k leaves -----

  ghost function AtLeast(row: seq<Logit>, v: Logit): set<nat> {
    set j: nat | 0 <= j < |row| && Ge(row[j], v)
  }

  ghost function Above(row: seq<Logit>, v: Logit): set<nat> {
    set j: nat | 0 <= j < |row| && !Ge(v, row[j])
  }

  /** v is the k-th largest logit of the row, ties counted. */
  ghost predicate IsKthLargest(row: seq<Logit>, k: nat, v: Logit) {
    |Above(row, v)| < k <= |AtLeast(row, v)|
  }

  lemma KthLargestIsUnique(row: seq<Logit>, k: nat, u: Logit, v: Logit)
    requires IsKthLargest(row, k, u) && IsKthLargest(row, k, v)
    ensures u == v
  {
    if !Ge(u, v) {
      CardinalityMonotone(AtLeast(row, v), Above(row, u));
    } else if !Ge(v, u) {
      CardinalityMonotone(AtLeast(row, u), Above(row, v));
    }
  }

  lemma DistinctSlice(p: seq<nat>, a: nat, b: nat)
    requires Distinct(p) && a <= b <= |p|
    ensures |Elements(p[a..b])| == b - a
  {
    DistinctCount(p[a..b]);
  }

  /** The element k places from the end of an ascending order is the k-th largest. */
  lemma AscendingThreshold(row: seq<Logit>, p: seq<nat>, k: nat)
    requires Sorts(row, p) && 1 <= k <= |row|
    ensures IsKthLargest(row, k, row[p[|row| - k]])
  {
    var n := |row|;
    var v := row[p[n - k]];
    DistinctSlice(p, n - k, n);
    DistinctSlice(p, n - k + 1, n);
    CardinalityMonotone(Elements(p[n - k..n]), AtLeast(row, v));
    forall j | j in Above(row, v) ensures j in Elements(p[n - k + 1..n]) {
      var i := SortedPosition(row, p, j);
      assert p[n - k + 1..n][i - (n - k + 1)] == j;
    }
    CardinalityMonotone(Above(row, v), Elements(p[n - k + 1..n]));
  }

  /** What top-k allows: everything without a positive k, and otherwise whatever reaches the k-th largest. */
  ghost predicate Allowed(row: seq<Logit>, topK: Option<int>, keep: seq<bool>) {
    && |keep| == |row|
    && match topK
       case None => forall j :: 0 <= j < |row| ==> keep[j]
       case Some(k) =>
         if k <= 0 then forall j :: 0 <= j < |row| ==> keep[j]
         else exists v :: IsKthLargest(row, k, v) && forall j :: 0 <= j < |row| ==> (keep[j] <==> j in AtLeast(row, v))
  }

  lemma AllowedIsUnique(row: seq<Logit>, topK: Option<int>, a: seq<bool>, b: seq<bool>)
    requires Allowed(row, topK, a) && Allowed(row, topK, b)
    ensures a == b
  {
    if topK.Some? && topK.value > 0 {
      var k := topK.value;
      var u :| IsKthLargest(row, k, u) && forall j :: 0 <= j < |row| ==> (a[j] <==> j in AtLeast(row, u));
      var v :| IsKthLargest(row, k, v) && forall j :: 0 <= j < |row| ==> (b[j] <==> j in AtLeast(row, v));
      KthLargestIsUnique(row, k, u, v);
    }
  }

  /** The threshold taken from the sorted row allows exactly this. */
  lemma TopKMaskIsAllowed(row: seq<Logit>, p: seq<nat>, topK: Option<int>)
    requires Sorts(row, p) && (NeedTopK(topK) ==> topK.value <= |row|)
    ensures Allowed(row, topK, TopKOnlyMask(row, p, topK))
  {
    var keep, mask := TopKMask(Gather(row, p), topK), TopKOnlyMask(row, p, topK);
    ScatterMeaning(keep, p, keep, |row|);
    forall j | 0 <= j < |row|
      ensures mask[j] <==> NeedTopK(topK) ==> Ge(row[j], row[p[|row| - topK.value]])
    {
      var i := SortedPosition(row, p, j);
      assert mask[p[i]] == keep[i];
    }
    if NeedTopK(topK) {
      AscendingThreshold(row, p, topK.value);
      var v := row[p[|row| - topK.value]];
      assert forall j :: 0 <= j < |row| ==> (mask[j] <==> j in AtLeast(row, v));
    }
  }

  /** The weights kept in sorted order: those after the first kept position. */
  lemma SuffixTotal(weights: seq<real>, kept: seq<real>, first: nat)
    requires |weights| == |kept| && first <= |weights|
    requires forall i :: 0 <= i < |weights| ==> kept[i] == if i < first then 0.0 else weights[i]
    ensures Total(kept) == Total(weights) - Prefix(weights, first)
  {
    PrefixIsTotal(weights, first);
    TotalOfNothing(kept[..first]);
    TotalAppend(weights[..first], weights[first..]);
    TotalAppend(kept[..first], kept[first..]);
    assert weights == weights[..first] + weights[first..];
    assert kept == kept[..first] + kept[first..] && kept[first..] == weights[first..];
  }

  /** Kept weights in sorted order. */
  function SortedKept(row: seq<Logit>, p: seq<nat>, topK: Option<int>, topP: real, w: Logit -> real): (r: seq<real>)
    requires IsPermutation(p, |row|) && (NeedTopK(topK) ==> topK.value <= |row|)
    ensures |r| == |row|
  {
    seq(|row|, i requires 0 <= i < |row| =>
      if KeepKAt(row, p, topK, i) && KeepPAt(row, p, topK, topP, w, i) then w(row[p[i]]) else 0.0)
  }

  lemma SortedKeptIsGathered(row: seq<Logit>, p: seq<nat>, topK: Option<int>, topP: real, w: Logit -> real)
    requires IsPermutation(p, |row|) && (NeedTopK(topK) ==> topK.value <= |row|)
    ensures var mask := FilterRow(row, p, topK, topP, w).mask;
      |mask| == |row| && Total(SortedKept(row, p, topK, topP, w)) == Total(KeptWeights(row, mask, w))
  {
    var mask := FilterRow(row, p, topK, topP, w).mask;
    var kept := KeptWeights(row, mask, w);
    forall i | 0 <= i < |row| ensures SortedKept(row, p, topK, topP, w)[i] == kept[p[i]] {
      FilteredAt(row, p, topK, topP, w, i);
    }
    assert SortedKept(row, p, topK, topP, w) == Gather(kept, p);
    GatherPermutation(kept, p);
    TotalOfMultiset(Gather(kept, p), kept);
  }

  lemma LimitedIsGathered(row: seq<Logit>, p: seq<nat>, topK: Option<int>, w: Logit -> real)
    requires IsPermutation(p, |row|) && IsWeight(w) && (NeedTopK(topK) ==> topK.value <= |row|)
    ensures Total(LimitedWeights(row, p, topK, w)) == Total(KeptWeights(row, TopKOnlyMask(row, p, topK), w))
  {
    var keep := TopKMask(Gather(row, p), topK);
    var kept := KeptWeights(row, TopKOnlyMask(row, p, topK), w);
    ScatterMeaning(keep, p, keep, |row|);
    assert LimitedWeights(row, p, topK, w) == Gather(kept, p);
    GatherPermutation(kept, p);
    TotalOfMultiset(Gather(kept, p), kept);
  }

  /** The first sorted position that top-p keeps. */
  lemma FirstKept(row: seq<Logit>, p: seq<nat>, topK: Option<int>, topP: real, w: Logit -> real) returns (first: nat)
    requires Sorts(row, p) && IsWeight(w) && (NeedTopK(topK) ==> topK.value <= |row|) && row != []
    ensures first < |row|
    ensures forall i :: 0 <= i < |row| ==> (KeepPAt(row, p, topK, topP, w, i) <==> first <= i)
  {
    first := |row| - 1;
    MasksKeepTop(row, p, topK, topP, w, first, first);
    while first > 0 && KeepPAt(row, p, topK, topP, w, first - 1)
      invariant 0 <= first < |row|
      invariant forall i :: first <= i < |row| ==> KeepPAt(row, p, topK, topP, w, i)
    {
      first := first - 1;
    }
    forall i | 0 <= i < first ensures !KeepPAt(row, p, topK, topP, w, i) {
      MasksKeepTop(row, p, topK, topP, w, i, first - 1);
    }
  }

  /** Nothing is kept that top-k does not allow. */
  lemma KeptAreAllowed(
      row: seq<Logit>, p: seq<nat>, topK: Option<int>, topP: real, w: Logit -> real, allowed: seq<bool>)
    requires Sorts(row, p) && (NeedTopK(topK) ==> topK.value <= |row|) && Allowed(row, topK, allowed)
    ensures var mask := FilterRow(row, p, topK, topP, w).mask;
      |mask| == |row| && forall j :: 0 <= j < |row| && mask[j] ==> allowed[j]
  {
    TopKMaskIsAllowed(row, p, topK);
    AllowedIsUnique(row, topK, allowed, TopKOnlyMask(row, p, topK));
    var keep, mask := TopKMask(Gather(row, p), topK), FilterRow(row, p, topK, topP, w).mask;
    ScatterMeaning(keep, p, keep, |row|);
    FilterKeepsOrDrops(row, p, topK, topP, w);
    forall j | 0 <= j < |row| && mask[j] ensures allowed[j] {
      var i := SortedPosition(row, p, j);
      FilteredAt(row, p, topK, topP, w, i);
    }
  }

  /** With 0 < top_p < 1, the kept tokens carry at least top_p of the weight of all tokens that top-k allows. */
  lemma KeptMass(row: seq<Logit>, p: seq<nat>, topK: Option<int>, topP: real, w: Logit -> real, allowed: seq<bool>)
    requires Sorts(row, p) && IsWeight(w) && (NeedTopK(topK) ==> topK.value <= |row|) && 0.0 < topP < 1.0
    requires Allowed(row, topK, allowed)
    ensures var mask := FilterRow(row, p, topK, topP, w).mask;
      |mask| == |row| && Total(KeptWeights(row, mask, w)) >= topP * Total(KeptWeights(row, allowed, w))
  {
    hide FilterRow, Total, TopKOnlyMask, Allowed;
    TopKMaskIsAllowed(row, p, topK);
    AllowedIsUnique(row, topK, allowed, TopKOnlyMask(row, p, topK));
    SortedKeptIsGathered(row, p, topK, topP, w);
    LimitedIsGathered(row, p, topK, w);
    var kept := Total(KeptWeights(row, FilterRow(row, p, topK, topP, w).mask, w));
    SortedMass(row, p, topK, topP, w, kept, Total(KeptWeights(row, allowed, w)));
  }

  lemma SortedMass(
      row: seq<Logit>, p: seq<nat>, topK: Option<int>, topP: real, w: Logit -> real, kept: real, total: real)
    requires Sorts(row, p) && IsWeight(w) && (NeedTopK(topK) ==> topK.value <= |row|) && 0.0 < topP < 1.0
    requires kept == Total(SortedKept(row, p, topK, topP, w)) && total == Total(LimitedWeights(row, p, topK, w))
    ensures kept >= topP * total
  {
    var threshold := SortedShare(row, p, topK, topP, w);
    ShareLeft(kept, total, threshold, topP);
  }

  lemma SortedShare(row: seq<Logit>, p: seq<nat>, topK: Option<int>, topP: real, w: Logit -> real)
      returns (threshold: real)
    requires Sorts(row, p) && IsWeight(w) && (NeedTopK(topK) ==> topK.value <= |row|) && 0.0 < topP < 1.0
    ensures threshold == Threshold(Total(LimitedWeights(row, p, topK, w)), topP)
    ensures Total(SortedKept(row, p, topK, topP, w)) >= Total(LimitedWeights(row, p, topK, w)) - threshold
  {
    LimitedNonNegative(row, p, topK, w);
    TotalNonNegative(LimitedWeights(row, p, topK, w));
    if row == [] {
      threshold := Threshold(0.0, topP);
      assert SortedKept(row, p, topK, topP, w) == [] && LimitedWeights(row, p, topK, w) == [];
    } else {
      var first;
      first, threshold := KeptFrom(row, p, topK, topP, w);
      ThresholdInside(Total(LimitedWeights(row, p, topK, w)), threshold, topP);
      MassAbove(LimitedWeights(row, p, topK, w), SortedKept(row, p, topK, topP, w), threshold, first);
    }
  }

  lemma ThresholdInside(total: real, threshold: real, topP: real)
    requires total >= 0.0 && 0.0 < topP < 1.0 && threshold == Threshold(total, topP)
    ensures 0.0 <= threshold && (total > 0.0 ==> threshold < total)
  {
    Shares(total, topP);
  }

  /** What is above the threshold is the share of top-p. */
  lemma ShareLeft(kept: real, total: real, threshold: real, topP: real)
    requires threshold == Threshold(total, topP)
    ensures kept >= total - threshold <==> kept >= topP * total
  {
  }

  /** And without any least likely one of them, they would carry less. */
  lemma KeptMassIsMinimal(
      row: seq<Logit>, p: seq<nat>, topK: Option<int>, topP: real, w: Logit -> real, allowed: seq<bool>, a: nat)
    requires Sorts(row, p) && IsWeight(w) && (NeedTopK(topK) ==> topK.value <= |row|) && 0.0 < topP < 1.0
    requires Allowed(row, topK, allowed) && Total(KeptWeights(row, allowed, w)) > 0.0
    requires var mask := FilterRow(row, p, topK, topP, w).mask; |mask| == |row| && LeastKept(row, mask, a)
    ensures Total(KeptWeights(row, FilterRow(row, p, topK, topP, w).mask, w)) - w(row[a]) <
            topP * Total(KeptWeights(row, allowed, w))
  {
    hide FilterRow, Total, TopKOnlyMask, Allowed;
    TopKMaskIsAllowed(row, p, topK);
    AllowedIsUnique(row, topK, allowed, TopKOnlyMask(row, p, topK));
    SortedKeptIsGathered(row, p, topK, topP, w);
    LimitedIsGathered(row, p, topK, w);
    var threshold := SortedIsMinimal(row, p, topK, topP, w, a);
    var kept := Total(KeptWeights(row, FilterRow(row, p, topK, topP, w).mask, w));
    ShareWithout(kept, w(row[a]), Total(KeptWeights(row, allowed, w)), threshold, topP);
  }

  lemma ShareWithout(kept: real, lost: real, total: real, threshold: real, topP: real)
    requires threshold == Threshold(total, topP) && kept - lost < total - threshold
    ensures kept - lost < topP * total
  {
    ShareLeft(kept - lost, total, threshold, topP);
  }

  lemma SortedIsMinimal(row: seq<Logit>, p: seq<nat>, topK: Option<int>, topP: real, w: Logit -> real, a: nat)
      returns (threshold: real)
    requires Sorts(row, p) && IsWeight(w) && (NeedTopK(topK) ==> topK.value <= |row|) && 0.0 < topP < 1.0
    requires var mask := FilterRow(row, p, topK, topP, w).mask; |mask| == |row| && LeastKept(row, mask, a)
    ensures threshold == Threshold(Total(LimitedWeights(row, p, topK, w)), topP)
    ensures var total := Total(LimitedWeights(row, p, topK, w));
      total > 0.0 ==> Total(SortedKept(row, p, topK, topP, w)) - w(row[a]) < total - threshold
  {
    var first;
    first, threshold := LeastFrom(row, p, topK, topP, w, a);
    LimitedNonNegative(row, p, topK, w);
    TotalNonNegative(LimitedWeights(row, p, topK, w));
    ThresholdInside(Total(LimitedWeights(row, p, topK, w)), threshold, topP);
    MassAbove(LimitedWeights(row, p, topK, w), SortedKept(row, p, topK, topP, w), threshold, first);
  }

  /** Where the kept positions begin in sorted order, and the threshold they are kept by. */
  lemma KeptFrom(row: seq<Logit>, p: seq<nat>, topK: Option<int>, topP: real, w: Logit -> real)
      returns (first: nat, threshold: real)
    requires Sorts(row, p) && IsWeight(w) && (NeedTopK(topK) ==> topK.value <= |row|) && row != []
    ensures threshold == Threshold(Total(LimitedWeights(row, p, topK, w)), topP)
    ensures KeepsSuffix(LimitedWeights(row, p, topK, w), SortedKept(row, p, topK, topP, w), threshold, first)
  {
    first := FirstKept(row, p, topK, topP, w);
    threshold := SortedKeepsSuffix(row, p, topK, topP, w, first);
  }

  /** The same, and what a least likely kept token weighs. */
  lemma LeastFrom(row: seq<Logit>, p: seq<nat>, topK: Option<int>, topP: real, w: Logit -> real, a: nat)
      returns (first: nat, threshold: real)
    requires Sorts(row, p) && IsWeight(w) && (NeedTopK(topK) ==> topK.value <= |row|) && row != []
    requires var mask := FilterRow(row, p, topK, topP, w).mask; |mask| == |row| && LeastKept(row, mask, a)
    ensures threshold == Threshold(Total(LimitedWeights(row, p, topK, w)), topP)
    ensures KeepsSuffix(LimitedWeights(row, p, topK, w), SortedKept(row, p, topK, topP, w), threshold, first)
    ensures LimitedWeights(row, p, topK, w)[first] > 0.0 ==> LimitedWeights(row, p, topK, w)[first] == w(row[a])
  {
    first := FirstKept(row, p, topK, topP, w);
    threshold := SortedKeepsSuffix(row, p, topK, topP, w, first);
    LimitedAt(row, p, topK, w, first);
    if KeepKAt(row, p, topK, first) {
      LeastKeptWeight(row, p, topK, topP, w, first, a);
    }
  }

  /** Any least likely kept token weighs as much as the first kept one in sorted order. */
  lemma LeastKeptWeight(
      row: seq<Logit>, p: seq<nat>, topK: Option<int>, topP: real, w: Logit -> real, first: nat, a: nat)
    requires Sorts(row, p) && IsWeight(w) && (NeedTopK(topK) ==> topK.value <= |row|)
    requires first < |row| && forall i :: 0 <= i < |row| ==> (KeepPAt(row, p, topK, topP, w, i) <==> first <= i)
    requires KeepKAt(row, p, topK, first)
    requires |FilterRow(row, p, topK, topP, w).mask| == |row| &&
              LeastKept(row, FilterRow(row, p, topK, topP, w).mask, a)
    ensures w(row[a]) == w(row[p[first]])
  {
    FilteredAt(row, p, topK, topP, w, first);
    var i := SortedPosition(row, p, a);
    FilteredAt(row, p, topK, topP, w, i);
    assert Ge(row[p[i]], row[p[first]]);
    SameWeight(row[a], row[p[first]], w);
  }

  /** A kept token with the smallest logit among the kept ones. */
  ghost predicate LeastKept(row: seq<Logit>, mask: seq<bool>, a: int)
    requires |row| == |mask|
  {
    0 <= a < |row| && mask[a] && forall b :: 0 <= b < |row| && mask[b] ==> Ge(row[b], row[a])
  }

  lemma SameWeight(a: Logit, b: Logit, w: Logit -> real)
    requires IsWeight(w) && Ge(a, b) && Ge(b, a)
    ensures w(a) == w(b)
  {
  }

  /** Top-p keeps the positions from `first` on, and with them their weights. */
  ghost predicate KeepsSuffix(weights: seq<real>, kept: seq<real>, threshold: real, first: nat) {
    && |weights| == |kept| && first < |weights|
    && (forall k :: 0 <= k < |weights| ==> weights[k] >= 0.0)
    && (forall i :: 0 <= i < |weights| ==> (MaskAbove(weights, threshold)[i] <==> first <= i))
    && (forall i :: 0 <= i < |weights| ==> kept[i] == if i < first then 0.0 else weights[i])
  }

  lemma SortedKeepsSuffix(row: seq<Logit>, p: seq<nat>, topK: Option<int>, topP: real, w: Logit -> real, first: nat)
      returns (threshold: real)
    requires Sorts(row, p) && IsWeight(w) && (NeedTopK(topK) ==> topK.value <= |row|)
    requires first < |row| && forall i :: 0 <= i < |row| ==> (KeepPAt(row, p, topK, topP, w, i) <==> first <= i)
    ensures threshold == Threshold(Total(LimitedWeights(row, p, topK, w)), topP)
    ensures KeepsSuffix(LimitedWeights(row, p, topK, w), SortedKept(row, p, topK, topP, w), threshold, first)
  {
    KeptIsSuffix(row, p, topK, topP, w, first);
    LimitedNonNegative(row, p, topK, w);
    threshold := MaskIsSuffix(LimitedWeights(row, p, topK, w), topP, first);
  }

  lemma MaskIsSuffix(weights: seq<real>, topP: real, first: nat) returns (threshold: real)
    requires forall i :: 0 <= i < |weights| ==> (TopPMask(weights, topP)[i] <==> first <= i)
    ensures threshold == Threshold(Total(weights), topP)
    ensures forall i :: 0 <= i < |weights| ==> (MaskAbove(weights, threshold)[i] <==> first <= i)
  {
    threshold := Threshold(Total(weights), topP);
    forall i | 0 <= i < |weights| ensures MaskAbove(weights, threshold)[i] <==> first <= i {
      assert TopPMask(weights, topP)[i] == MaskAbove(weights, threshold)[i];
    }
  }

  lemma MassAbove(weights: seq<real>, kept: seq<real>, threshold: real, first: nat)
    requires threshold >= 0.0 && KeepsSuffix(weights, kept, threshold, first)
    ensures Total(kept) >= Total(weights) - threshold
    ensures threshold < Total(weights) ==>
              weights[first] > 0.0 && Total(kept) - weights[first] < Total(weights) - threshold
  {
    SuffixTotal(weights, kept, first);
    FirstAbove(weights, threshold, first);
  }

  /** The threshold and the share of top-p make up the total. */
  lemma Shares(total: real, topP: real)
    requires total >= 0.0 && 0.0 < topP < 1.0
    ensures 0.0 <= Threshold(total, topP) && total - Threshold(total, topP) == topP * total
    ensures total > 0.0 ==> Threshold(total, topP) < total
  {
    ProductNonNegative(1.0 - topP, total);
    if total > 0.0 {
      ProductPositive(topP, total);
    }
  }

  lemma ProductNonNegative(x: real, y: real)
    requires x >= 0.0 && y >= 0.0
    ensures x * y >= 0.0
  {
  }

  lemma ProductPositive(x: real, y: real)
    requires x > 0.0 && y > 0.0
    ensures x * y > 0.0
  {
  }

  lemma {:induction false} TotalNonNegative(xs: seq<real>)
    requires forall i :: 0 <= i < |xs| ==> xs[i] >= 0.0
    ensures Total(xs) >= 0.0
  {
    if xs == [] {
    } else {
      TotalNonNegative(xs[1..]);
    }
  }

  lemma KeptIsSuffix(row: seq<Logit>, p: seq<nat>, topK: Option<int>, topP: real, w: Logit -> real, first: nat)
    requires IsPermutation(p, |row|) && IsWeight(w) && (NeedTopK(topK) ==> topK.value <= |row|)
    requires first < |row| && forall i :: 0 <= i < |row| ==> (KeepPAt(row, p, topK, topP, w, i) <==> first <= i)
    ensures forall i :: 0 <= i < |row| ==>
              SortedKept(row, p, topK, topP, w)[i] == if i < first then 0.0 else LimitedWeights(row, p, topK, w)[i]
  {
    forall i | 0 <= i < |row|
      ensures SortedKept(row, p, topK, topP, w)[i] == if i < first then 0.0 else LimitedWeights(row, p, topK, w)[i]
    {
      LimitedAt(row, p, topK, w, i);
    }
  }
}
