/** Top-k without sorting the row: a threshold comparison, and why it agrees with the sorted path. */
module TopKOnly {
  import opened Options
  import opened Sequences
  import opened TopKTopP

  /** The positions of a row in descending order of logit, as a top-k selection lists them. */
  ghost predicate SortsDescending(row: seq<Logit>, d: seq<nat>) {
    IsPermutation(d, |row|) && forall i, j :: 0 <= i <= j < |row| ==> Ge(row[d[i]], row[d[j]])
  }

  /** Keeps everything that reaches the k-th largest logit. Without a positive k the row is returned as it
      is, with no mask. */
  function ApplyTopKOnly(row: seq<Logit>, d: seq<nat>, topK: Option<int>): Result<(seq<Logit>, Option<seq<bool>>)>
    requires IsPermutation(d, |row|)
  {
    if !NeedTopK(topK) then Success((row, None))
    else if topK.value > |row| then Failure(KExceedsVocabulary)
    else
      var threshold := row[d[topK.value - 1]];
      var mask := seq(|row|, j requires 0 <= j < |row| => Ge(row[j], threshold));
      Success((Masked(row, mask), Some(mask)))
  }

  lemma DescendingThreshold(row: seq<Logit>, d: seq<nat>, k: nat)
    requires SortsDescending(row, d) && 1 <= k <= |row|
    ensures IsKthLargest(row, k, row[d[k - 1]])
  {
    var v := row[d[k - 1]];
    DistinctSlice(d, 0, k);
    DistinctSlice(d, 0, k - 1);
    CardinalityMonotone(Elements(d[0..k]), AtLeast(row, v));
    forall j | j in Above(row, v) ensures j in Elements(d[0..k - 1]) {
      var i := SortedPosition(row, d, j);
      assert d[0..k - 1][i] == j;
    }
    CardinalityMonotone(Above(row, v), Elements(d[0..k - 1]));
  }

  /** Position by position, the sort-free mask is the top-k mask of the sorted path scattered back. */
  lemma TopKPathsAgree(row: seq<Logit>, p: seq<nat>, d: seq<nat>, k: int)
    requires Sorts(row, p) && SortsDescending(row, d) && 1 <= k <= |row|
    ensures ApplyTopKOnly(row, d, Some(k)).value.1 == Some(TopKOnlyMask(row, p, Some(k)))
    ensures ApplyTopKOnly(row, d, Some(k)).value.0 == Masked(row, TopKOnlyMask(row, p, Some(k)))
  {
    hide IsKthLargest, Masked, AtLeast;
    AscendingThreshold(row, p, k);
    DescendingThreshold(row, d, k);
    KthLargestIsUnique(row, k, row[p[|row| - k]], row[d[k - 1]]);
    var keep := TopKMask(Gather(row, p), Some(k));
    ScatterMeaning(keep, p, keep, |row|);
    forall j | 0 <= j < |row| ensures TopKOnlyMask(row, p, Some(k))[j] == Ge(row[j], row[d[k - 1]]) {
      var i := SortedPosition(row, p, j);
    }
    assert ApplyTopKOnly(row, d, Some(k)).value.1.value == TopKOnlyMask(row, p, Some(k));
  }

  /** The threshold comparison allows exactly what top-k allows. */
  lemma TopKOnlyIsAllowed(row: seq<Logit>, d: seq<nat>, topK: Option<int>)
    requires SortsDescending(row, d) && topK.Some? && 1 <= topK.value <= |row|
    ensures ApplyTopKOnly(row, d, topK).Success? && ApplyTopKOnly(row, d, topK).value.1.Some?
    ensures Allowed(row, topK, ApplyTopKOnly(row, d, topK).value.1.value)
  {
    DescendingThreshold(row, d, topK.value);
    var mask, v := ApplyTopKOnly(row, d, topK).value.1.value, row[d[topK.value - 1]];
    assert forall j :: 0 <= j < |row| ==> (mask[j] <==> j in AtLeast(row, v));
  }

  /** The tokens that top-k keeps. */
  ghost function KeptSet(mask: seq<bool>): set<nat> {
    set j: nat | 0 <= j < |mask| && mask[j]
  }

  /** Top-k keeps at least k tokens, and exactly k when no further token ties with the k-th largest. */
  lemma TopKCount(row: seq<Logit>, p: seq<nat>, d: seq<nat>, k: int)
    requires Sorts(row, p) && SortsDescending(row, d) && 1 <= k <= |row|
    ensures ApplyTopKOnly(row, d, Some(k)).Success? && ApplyTopKOnly(row, d, Some(k)).value.1.Some?
    ensures var kept := |KeptSet(ApplyTopKOnly(row, d, Some(k)).value.1.value)|;
      && kept >= k
      && (kept == k <==> k == |row| || !Ge(row[p[|row| - k - 1]], row[p[|row| - k]]))
  {
    var n := |row|;
    var v := row[d[k - 1]];
    AscendingThreshold(row, p, k);
    DescendingThreshold(row, d, k);
    KthLargestIsUnique(row, k, row[p[n - k]], v);
    assert KeptSet(ApplyTopKOnly(row, d, Some(k)).value.1.value) == AtLeast(row, v);
    DistinctSlice(p, n - k, n);
    if k < n && Ge(row[p[n - k - 1]], v) {
      DistinctSlice(p, n - k - 1, n);
      CardinalityMonotone(Elements(p[n - k - 1..n]), AtLeast(row, v));
    } else {
      assert forall i :: 0 <= i < n - k ==> Ge(row[p[n - k - 1]], row[p[i]]);
      forall j | j in AtLeast(row, v) ensures j in Elements(p[n - k..n]) {
        var i := SortedPosition(row, p, j);
        assert p[n - k..n][i - (n - k)] == j;
      }
      CardinalityMonotone(AtLeast(row, v), Elements(p[n - k..n]));
    }
  }

  /** Filters every row without sorting it. */
  method ApplyTopKOnlyToAll(rows: seq<seq<Logit>>, descending: seq<seq<nat>>, topK: Option<int>)
      returns (r: Result<(seq<seq<Logit>>, seq<seq<bool>>)>)
    requires NeedTopK(topK) && |descending| == |rows|
    requires forall i :: 0 <= i < |rows| ==> IsPermutation(descending[i], |rows[i]|)
    ensures r.Failure? <==> exists i :: 0 <= i < |rows| && topK.value > |rows[i]|
    ensures r.Success? ==> |r.value.0| == |r.value.1| == |rows|
    ensures r.Success? ==> forall i :: 0 <= i < |rows| ==>
              ApplyTopKOnly(rows[i], descending[i], topK) == Success((r.value.0[i], Some(r.value.1[i])))
  {
    var filtered: seq<seq<Logit>>, masks: seq<seq<bool>> := [], [];
    for t := 0 to |rows|
      invariant |filtered| == |masks| == t
      invariant forall i :: 0 <= i < t ==>
                  topK.value <= |rows[i]| &&
                  ApplyTopKOnly(rows[i], descending[i], topK) == Success((filtered[i], Some(masks[i])))
    {
      var out := ApplyTopKOnly(rows[t], descending[t], topK);
      if out.Failure? {
        return Failure(out.error);
      }
      filtered, masks := filtered + [out.value.0], masks + [out.value.1.value];
    }
    return Success((filtered, masks));
  }

  /** The entry point: rows are sorted only when top-p asks for it. */
  method FilterLogits(
      rows: seq<seq<Logit>>, perms: seq<seq<nat>>, descending: seq<seq<nat>>, topK: Option<int>, topP: real,
      chunkSize: Option<nat>, w: Logit -> real)
      returns (r: Result<(seq<seq<Logit>>, Option<seq<seq<bool>>>)>)
    requires |perms| == |descending| == |rows|
    requires forall i :: 0 <= i < |rows| ==>
              IsPermutation(perms[i], |rows[i]|) && IsPermutation(descending[i], |rows[i]|)
    ensures topP == 1.0 && !NeedTopK(topK) ==> r == Success((rows, None))
    ensures topP != 1.0 || NeedTopK(topK) ==> r.Success? ==>
              r.value.1.Some? && |r.value.0| == |r.value.1.value| == |rows|
    ensures topP == 1.0 && NeedTopK(topK) && r.Success? ==> forall i :: 0 <= i < |rows| ==>
              ApplyTopKOnly(rows[i], descending[i], topK) == Success((r.value.0[i], Some(r.value.1.value[i])))
    ensures topP != 1.0 && r.Success? ==> forall i :: 0 <= i < |rows| ==>
              (NeedTopK(topK) ==> topK.value <= |rows[i]|) &&
              Filtered(r.value.0[i], r.value.1.value[i]) == FilterRow(rows[i], perms[i], topK, topP, w)
    ensures r == Failure(ZeroStep) <==> topP != 1.0 && (if chunkSize.Some? then chunkSize.value else |rows|) == 0
    ensures r.Failure? && r.error == KExceedsVocabulary ==>
              NeedTopK(topK) && exists i :: 0 <= i < |rows| && topK.value > |rows[i]|
  {
    if !NeedTopP(topP) {
      if !NeedTopK(topK) {
        return Success((rows, None));
      }
      var plain := ApplyTopKOnlyToAll(rows, descending, topK);
      if plain.Failure? {
        return Failure(KExceedsVocabulary);
      }
      return Success((plain.value.0, Some(plain.value.1)));
    }
    var sorted := ApplyTopKTopP(rows, perms, topK, topP, chunkSize, w);
    if sorted.Failure? {
      return Failure(sorted.error);
    }
    return Success((sorted.value.0, Some(sorted.value.1)));
  }
}
