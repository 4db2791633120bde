/** Modified first-fit decreasing: large sequences open the bins, medium and small ones fill them, and
    what is left over is packed into further bins kept in order of load. */
module ModifiedFirstFit {
  import opened Sequences
  import opened Sorting
  import opened Packing

  ghost predicate LongestFirst(lens: seq<nat>, items: seq<nat>)
    requires AllBelow(items, |lens|)
  {
    forall i, j :: 0 <= i < j < |items| ==> lens[items[i]] >= lens[items[j]]
  }

  ghost predicate ShortestFirst(lens: seq<nat>, items: seq<nat>)
    requires AllBelow(items, |lens|)
  {
    forall i, j :: 0 <= i < j < |items| ==> lens[items[i]] <= lens[items[j]]
  }

  datatype Kind = Large | Medium | Small | Tiny

  /** Large: above half the capacity; medium: above a third; small: above a sixth. */
  function KindOf(length: int, cap: int): Kind {
    if 2 * length > cap then Large
    else if 3 * length > cap then Medium
    else if 6 * length > cap then Small
    else Tiny
  }

  predicate Descending(a: int, b: int) { a >= b }

  /** The given sequences ordered by length; equally long ones keep their order. */
  function SortedByLength(lens: seq<nat>, items: seq<nat>, le: (int, int) -> bool): (r: seq<nat>)
    requires AllBelow(items, |lens|)
    ensures AllBelow(r, |lens|) && |r| == |items|
  {
    Gather(items, ArgSort(Lengths(lens, items), le))
  }

  function Lengths(lens: seq<nat>, items: seq<nat>): (r: seq<int>)
    requires AllBelow(items, |lens|)
    ensures |r| == |items|
  {
    seq(|items|, i requires 0 <= i < |items| => lens[items[i]])
  }

  lemma SortedByLengthPermutes(lens: seq<nat>, items: seq<nat>, le: (int, int) -> bool)
    requires AllBelow(items, |lens|) && TotalPreorder(le)
    ensures multiset(SortedByLength(lens, items, le)) == multiset(items)
    ensures var r := SortedByLength(lens, items, le);
      forall i, j :: 0 <= i < j < |r| ==> le(lens[r[i]], lens[r[j]])
  {
    ArgSortCorrect(Lengths(lens, items), le);
    GatherPermutation(items, ArgSort(Lengths(lens, items), le));
  }

  function SortDescending(lens: seq<nat>, items: seq<nat>): (r: seq<nat>)
    requires AllBelow(items, |lens|)
    ensures AllBelow(r, |lens|) && multiset(r) == multiset(items) && LongestFirst(lens, r)
  {
    SortedByLengthPermutes(lens, items, Descending);
    SortedByLength(lens, items, Descending)
  }

  function SortAscending(lens: seq<nat>, items: seq<nat>): (r: seq<nat>)
    requires AllBelow(items, |lens|)
    ensures AllBelow(r, |lens|) && multiset(r) == multiset(items) && ShortestFirst(lens, r)
  {
    SortedByLengthPermutes(lens, items, AtMost);
    SortedByLength(lens, items, AtMost)
  }

  /** The sequences of one kind among the first n, in input order. */
  function OfKind(lens: seq<nat>, cap: int, kind: Kind, n: nat): (r: seq<nat>)
    requires n <= |lens|
    ensures AllBelow(r, |lens|) && forall i :: 0 <= i < |r| ==> KindOf(lens[r[i]], cap) == kind
  {
    if n == 0 then []
    else if KindOf(lens[n - 1], cap) == kind then OfKind(lens, cap, kind, n - 1) + [n - 1]
    else OfKind(lens, cap, kind, n - 1)
  }

  /** Splits all sequences into four classes by length. */
  method Classify(lens: seq<nat>, cap: int) returns (large: seq<nat>, medium: seq<nat>, small: seq<nat>, tiny: seq<nat>)
    ensures large == OfKind(lens, cap, Large, |lens|) && medium == OfKind(lens, cap, Medium, |lens|)
    ensures small == OfKind(lens, cap, Small, |lens|) && tiny == OfKind(lens, cap, Tiny, |lens|)
  {
    large, medium, small, tiny := [], [], [], [];
    for k := 0 to |lens|
      invariant large == OfKind(lens, cap, Large, k) && medium == OfKind(lens, cap, Medium, k)
      invariant small == OfKind(lens, cap, Small, k) && tiny == OfKind(lens, cap, Tiny, k)
    {
      if 2 * lens[k] > cap {
        large := large + [k];
      } else if 3 * lens[k] > cap {
        medium := medium + [k];
      } else if 6 * lens[k] > cap {
        small := small + [k];
      } else {
        tiny := tiny + [k];
      }
    }
  }

  lemma {:induction false} OfKindCount(lens: seq<nat>, cap: int, kind: Kind, n: nat, v: nat)
    requires n <= |lens|
    ensures multiset(OfKind(lens, cap, kind, n))[v] == if v < n && KindOf(lens[v], cap) == kind then 1 else 0
  {
    hide KindOf;
    if n == 0 {
    } else {
      hide OfKind;
      OfKindCount(lens, cap, kind, n - 1, v);
      OfKindNext(lens, cap, kind, n - 1, v);
    }
  }

  lemma OfKindNext(lens: seq<nat>, cap: int, kind: Kind, n: nat, v: nat)
    requires n < |lens|
    ensures multiset(OfKind(lens, cap, kind, n + 1))[v] ==
      multiset(OfKind(lens, cap, kind, n))[v] + if KindOf(lens[n], cap) == kind && v == n then 1 else 0
  {
    hide KindOf;
    CountSnoc(OfKind(lens, cap, kind, n), n, v);
  }

  lemma CountSnoc(s: seq<nat>, x: nat, v: nat)
    ensures multiset(s + [x])[v] == multiset(s)[v] + if v == x then 1 else 0
  {
  }

  /** Every sequence is in exactly one class. */
  lemma KindsPartition(lens: seq<nat>, cap: int)
    ensures var n := |lens|;
      multiset(OfKind(lens, cap, Large, n)) + multiset(OfKind(lens, cap, Medium, n)) +
      multiset(OfKind(lens, cap, Small, n)) + multiset(OfKind(lens, cap, Tiny, n)) == multiset(Iota(n))
  {
    var n := |lens|;
    forall v: nat
      ensures multiset(OfKind(lens, cap, Large, n))[v] + multiset(OfKind(lens, cap, Medium, n))[v] +
              multiset(OfKind(lens, cap, Small, n))[v] + multiset(OfKind(lens, cap, Tiny, n))[v] == multiset(Iota(n))[v]
    {
      OfKindCount(lens, cap, Large, n, v);
      OfKindCount(lens, cap, Medium, n, v);
      OfKindCount(lens, cap, Small, n, v);
      OfKindCount(lens, cap, Tiny, n, v);
      DistinctOnce(Iota(n), v);
      if v < n { assert Iota(n)[v] == v; }
    }
  }

  // ----- moving sequences into open bins -----

  /** Sequences moved from `rest` to the ends of bins; no bin overflows and none is lost. */
  ghost predicate Moved(
      lens: seq<nat>, cap: int, bins: seq<seq<nat>>, rest: seq<nat>, bins': seq<seq<nat>>, rest': seq<nat>) {
    && FitAll(lens, cap, bins') && AllBelow(rest', |lens|)
    && |bins'| == |bins| && (forall b :: 0 <= b < |bins| ==> bins[b] <= bins'[b])
    && multiset(Flat(bins')) + multiset(rest') == multiset(Flat(bins)) + multiset(rest)
  }

  lemma MovedOne(lens: seq<nat>, cap: int, bins: seq<seq<nat>>, rest: seq<nat>, b: nat, i: nat)
    requires FitAll(lens, cap, bins) && AllBelow(rest, |lens|) && b < |bins| && i < |rest|
    requires Load(lens, bins[b]) + lens[rest[i]] <= cap
    ensures Moved(lens, cap, bins, rest, bins[b := bins[b] + [rest[i]]], Without(rest, i))
    ensures Load(lens, bins[b] + [rest[i]]) == Load(lens, bins[b]) + lens[rest[i]]
  {
    LoadSnoc(lens, bins[b], rest[i]);
    MovedOneKeepsAll(bins, rest, b, i);
    StillFits(lens, cap, bins, b, rest[i]);
    assert AllBelow(Without(rest, i), |lens|);
  }

  lemma StillFits(lens: seq<nat>, cap: int, bins: seq<seq<nat>>, b: nat, x: nat)
    requires FitAll(lens, cap, bins) && b < |bins| && x < |lens| && Load(lens, bins[b]) + lens[x] <= cap
    ensures FitAll(lens, cap, bins[b := bins[b] + [x]])
  {
    LoadSnoc(lens, bins[b], x);
  }

  lemma MovedOneKeepsAll(bins: seq<seq<nat>>, rest: seq<nat>, b: nat, i: nat)
    requires b < |bins| && i < |rest|
    ensures multiset(Flat(bins[b := bins[b] + [rest[i]]])) + multiset(Without(rest, i)) ==
            multiset(Flat(bins)) + multiset(rest)
  {
    AddToBin(bins, b, rest[i]);
    MultisetWithout(rest, i);
  }

  lemma MovedTrans(
      lens: seq<nat>, cap: int, b0: seq<seq<nat>>, r0: seq<nat>, b1: seq<seq<nat>>, r1: seq<nat>, b2: seq<seq<nat>>,
      r2: seq<nat>)
    requires Moved(lens, cap, b0, r0, b1, r1) && Moved(lens, cap, b1, r1, b2, r2)
    ensures Moved(lens, cap, b0, r0, b2, r2)
  {
  }

  /** The first sequence of `rest` that is at most `space` long, or |rest|. */
  function FirstThatFits(lens: seq<nat>, rest: seq<nat>, space: int): (i: nat)
    requires AllBelow(rest, |lens|)
    ensures i <= |rest| && (i < |rest| ==> lens[rest[i]] <= space)
    ensures forall j :: 0 <= j < i ==> lens[rest[j]] > space
  {
    if rest == [] || lens[rest[0]] <= space then 0 else
      var i := FirstThatFits(lens, rest[1..], space);
      assert forall j :: 1 <= j < i + 1 ==> rest[j] == rest[1..][j - 1];
      i + 1
  }

  /** No sequence of `rest` fits into the given bin. */
  ghost predicate Saturated(lens: seq<nat>, cap: int, bin: seq<nat>, rest: seq<nat>)
    requires AllBelow(bin, |lens|) && AllBelow(rest, |lens|)
  {
    forall i :: 0 <= i < |rest| ==> Load(lens, bin) + lens[rest[i]] > cap
  }

  lemma SaturatedAfterRemoval(lens: seq<nat>, cap: int, bin: seq<nat>, rest: seq<nat>, i: nat)
    requires AllBelow(bin, |lens|) && AllBelow(rest, |lens|) && i < |rest|
    ensures Saturated(lens, cap, bin, rest) ==> Saturated(lens, cap, bin, Without(rest, i))
    ensures LongestFirst(lens, rest) ==> LongestFirst(lens, Without(rest, i))
  {
  }

  // ----- what the passes choose -----

  /** In a forward pass, y is still there after place q of bin b has been filled: it stays, or is added later. */
  ghost predicate ComesLater(bins0: seq<seq<nat>>, bins: seq<seq<nat>>, rest: seq<nat>, b: nat, q: nat, y: nat)
    requires |bins0| == |bins| && b < |bins|
  {
    || y in rest
    || (exists p :: q < p < |bins[b]| && bins[b][p] == y)
    || (exists c, p :: b < c < |bins| && |bins0[c]| <= p < |bins[c]| && bins[c][p] == y)
  }

  /** What is added at place q of bin b is a longest one of those that fit there. */
  ghost predicate LongestTaken(
      lens: seq<nat>, cap: int, bins0: seq<seq<nat>>, bins: seq<seq<nat>>, rest: seq<nat>, b: nat, q: nat)
    requires |bins0| == |bins| && b < |bins| && q < |bins[b]| && AllBelow(bins[b], |lens|)
  {
    forall y: nat :: y < |lens| && ComesLater(bins0, bins, rest, b, q, y) && lens[y] > lens[bins[b][q]] ==>
      Load(lens, bins[b][..q]) + lens[y] > cap
  }

  /** Nothing that is left when the pass goes on fits into bin b; if it takes one at most, it may have taken one. */
  ghost predicate Exhausted(
      lens: seq<nat>, cap: int, once: bool, bins0: seq<seq<nat>>, bins: seq<seq<nat>>, rest: seq<nat>, b: nat)
    requires |bins0| == |bins| && b < |bins| && AllBelow(bins[b], |lens|)
  {
    if once && |bins[b]| == |bins0[b]| + 1 then true
    else forall y: nat :: y < |lens| && ComesLater(bins0, bins, rest, b, |bins[b]|, y) ==>
           Load(lens, bins[b]) + lens[y] > cap
  }

  /** A forward pass that has done n bins, is at the next one and has not touched those after it. */
  ghost predicate Forward(
      lens: seq<nat>, cap: int, once: bool, bins0: seq<seq<nat>>, bins: seq<seq<nat>>, rest: seq<nat>, n: nat)
  {
    && |bins0| == |bins| && FitAll(lens, cap, bins)
    && (forall b, q :: 0 <= b < |bins| && |bins0[b]| <= q < |bins[b]| ==>
          LongestTaken(lens, cap, bins0, bins, rest, b, q))
    && (forall b :: 0 <= b < n && b < |bins| ==> Exhausted(lens, cap, once, bins0, bins, rest, b))
    && (forall c :: n < c < |bins| ==> bins[c] == bins0[c])
  }

  lemma ForwardStart(lens: seq<nat>, cap: int, once: bool, bins0: seq<seq<nat>>, rest: seq<nat>)
    requires FitAll(lens, cap, bins0)
    ensures Forward(lens, cap, once, bins0, bins0, rest, 0)
  {
  }

  /** Whatever comes later after a sequence was moved came later before. */
  lemma StillLater(
      bins0: seq<seq<nat>>, bins: seq<seq<nat>>, rest: seq<nat>, n: nat, i: nat, b: nat, q: nat, y: nat)
    requires |bins0| == |bins| && n < |bins| && i < |rest| && b <= n
    requires b == n ==> q < |bins[n]|
    requires ComesLater(bins0, bins[n := bins[n] + [rest[i]]], Without(rest, i), b, q, y)
    ensures ComesLater(bins0, bins, rest, b, q, y)
  {
    var bins' := bins[n := bins[n] + [rest[i]]];
    if y in Without(rest, i) {
      var k :| 0 <= k < |rest| - 1 && Without(rest, i)[k] == y;
      assert rest[if k < i then k else k + 1] == y;
    } else if p :| q < p < |bins'[b]| && bins'[b][p] == y {
      if b == n && p == |bins[n]| {
        assert y == rest[i];
      } else {
        assert bins[b][p] == y;
      }
    } else {
      var c, p :| b < c < |bins'| && |bins0[c]| <= p < |bins'[c]| && bins'[c][p] == y;
      if c == n && p == |bins[n]| {
        assert y == rest[i];
      } else {
        assert bins[c][p] == y;
      }
    }
  }

  /** Taking the first sequence that fits, longest first. */
  lemma ForwardTake(
      lens: seq<nat>, cap: int, once: bool, bins0: seq<seq<nat>>, bins: seq<seq<nat>>, rest: seq<nat>, n: nat, i: nat)
    requires Forward(lens, cap, once, bins0, bins, rest, n) && n < |bins| && i < |rest|
    requires AllBelow(rest, |lens|) && LongestFirst(lens, rest) && |bins0[n]| <= |bins[n]|
    requires Load(lens, bins[n]) + lens[rest[i]] <= cap
    requires forall j :: 0 <= j < i ==> Load(lens, bins[n]) + lens[rest[j]] > cap
    ensures Forward(lens, cap, once, bins0, bins[n := bins[n] + [rest[i]]], Without(rest, i), n)
  {
    hide ComesLater, Load;
    var bins', rest' := bins[n := bins[n] + [rest[i]]], Without(rest, i);
    StillFits(lens, cap, bins, n, rest[i]);
    forall b, q | 0 <= b < |bins'| && |bins0[b]| <= q < |bins'[b]|
      ensures LongestTaken(lens, cap, bins0, bins', rest', b, q)
    {
      if b == n && q == |bins[n]| {
        FirstIsLongest(lens, cap, bins0, bins, rest, n, i);
      } else {
        LongestStays(lens, cap, bins0, bins, rest, n, i, b, q);
      }
    }
    forall b | 0 <= b < n ensures Exhausted(lens, cap, once, bins0, bins', rest', b) {
      ExhaustedStays(lens, cap, once, bins0, bins, rest, n, i, b);
    }
  }

  lemma FirstIsLongest(
      lens: seq<nat>, cap: int, bins0: seq<seq<nat>>, bins: seq<seq<nat>>, rest: seq<nat>, n: nat, i: nat)
    requires |bins0| == |bins| && n < |bins| && i < |rest| && AllBelow(rest, |lens|) && AllBelow(bins[n], |lens|)
    requires LongestFirst(lens, rest) && forall c :: n < c < |bins| ==> bins[c] == bins0[c]
    requires forall j :: 0 <= j < i ==> Load(lens, bins[n]) + lens[rest[j]] > cap
    ensures LongestTaken(lens, cap, bins0, bins[n := bins[n] + [rest[i]]], Without(rest, i), n, |bins[n]|)
  {
    hide Load;
    var bins', rest' := bins[n := bins[n] + [rest[i]]], Without(rest, i);
    assert bins'[n][..|bins[n]|] == bins[n];
    forall y: nat | y < |lens| && ComesLater(bins0, bins', rest', n, |bins[n]|, y) && lens[y] > lens[rest[i]]
      ensures Load(lens, bins[n]) + lens[y] > cap
    {
      var k :| 0 <= k < |rest'| && rest'[k] == y;
      assert rest[if k < i then k else k + 1] == y;
    }
  }

  lemma LongestStays(
      lens: seq<nat>, cap: int, bins0: seq<seq<nat>>, bins: seq<seq<nat>>, rest: seq<nat>, n: nat, i: nat, b: nat,
      q: nat)
    requires |bins0| == |bins| && n < |bins| && i < |rest| && AllBelow(rest, |lens|)
    requires b < |bins| && AllBelow(bins[b], |lens|) && |bins0[b]| <= q < |bins[b]|
    requires forall c :: n < c < |bins| ==> bins[c] == bins0[c]
    requires LongestTaken(lens, cap, bins0, bins, rest, b, q)
    ensures LongestTaken(lens, cap, bins0, bins[n := bins[n] + [rest[i]]], Without(rest, i), b, q)
  {
    hide Load, ComesLater;
    var bins' := bins[n := bins[n] + [rest[i]]];
    assert bins'[b][..q] == bins[b][..q];
    forall y: nat | y < |lens| && ComesLater(bins0, bins', Without(rest, i), b, q, y) && lens[y] > lens[bins[b][q]]
      ensures Load(lens, bins[b][..q]) + lens[y] > cap
    {
      StillLater(bins0, bins, rest, n, i, b, q, y);
    }
  }

  lemma ExhaustedStays(
      lens: seq<nat>, cap: int, once: bool, bins0: seq<seq<nat>>, bins: seq<seq<nat>>, rest: seq<nat>, n: nat, i: nat,
      b: nat)
    requires |bins0| == |bins| && b < n < |bins| && i < |rest| && AllBelow(rest, |lens|) && AllBelow(bins[b], |lens|)
    requires Exhausted(lens, cap, once, bins0, bins, rest, b)
    ensures Exhausted(lens, cap, once, bins0, bins[n := bins[n] + [rest[i]]], Without(rest, i), b)
  {
    hide Load, ComesLater;
    forall y: nat | y < |lens| && ComesLater(bins0, bins[n := bins[n] + [rest[i]]], Without(rest, i), b, |bins[b]|, y)
      ensures ComesLater(bins0, bins, rest, b, |bins[b]|, y)
    {
      StillLater(bins0, bins, rest, n, i, b, |bins[b]|, y);
    }
  }

  /** Going on to the next bin. */
  lemma ForwardNext(
      lens: seq<nat>, cap: int, once: bool, bins0: seq<seq<nat>>, bins: seq<seq<nat>>, rest: seq<nat>, n: nat)
    requires Forward(lens, cap, once, bins0, bins, rest, n) && n < |bins| && AllBelow(rest, |lens|)
    requires |bins0[n]| <= |bins[n]|
    requires (once && |bins[n]| == |bins0[n]| + 1) || Saturated(lens, cap, bins[n], rest)
    ensures Forward(lens, cap, once, bins0, bins, rest, n + 1)
  {
    hide Load;
    assert Exhausted(lens, cap, once, bins0, bins, rest, n);
  }

  /** Forward pass: one medium sequence, a longest one that fits, into each bin where one fits. */
  method AddMedium(lens: seq<nat>, cap: int, bins0: seq<seq<nat>>, medium0: seq<nat>)
      returns (bins: seq<seq<nat>>, medium: seq<nat>)
    requires FitAll(lens, cap, bins0) && AllBelow(medium0, |lens|) && LongestFirst(lens, medium0)
    ensures Moved(lens, cap, bins0, medium0, bins, medium)
    ensures Forward(lens, cap, true, bins0, bins, medium, |bins0|)
    ensures forall b :: 0 <= b < |bins| ==> |bins[b]| <= |bins0[b]| + 1
  {
    hide Load, Flat, LongestTaken, Exhausted;
    bins, medium := bins0, medium0;
    ForwardStart(lens, cap, true, bins0, medium0);
    for b := 0 to |bins0|
      invariant Moved(lens, cap, bins0, medium0, bins, medium) && LongestFirst(lens, medium)
      invariant Forward(lens, cap, true, bins0, bins, medium, b)
      invariant forall c :: 0 <= c < |bins| ==> |bins[c]| <= |bins0[c]| + if c < b then 1 else 0
    {
      var i := FirstThatFits(lens, medium, cap - Load(lens, bins[b]));
      if i < |medium| {
        TakeMedium(lens, cap, bins0, medium0, bins, medium, b, i);
        bins, medium := bins[b := bins[b] + [medium[i]]], Without(medium, i);
      }
      ForwardNext(lens, cap, true, bins0, bins, medium, b);
    }
  }

  lemma TakeMedium(
      lens: seq<nat>, cap: int, bins0: seq<seq<nat>>, medium0: seq<nat>, bins: seq<seq<nat>>, medium: seq<nat>, b: nat,
      i: nat)
    requires Moved(lens, cap, bins0, medium0, bins, medium) && LongestFirst(lens, medium)
    requires Forward(lens, cap, true, bins0, bins, medium, b) && b < |bins| && i < |medium| && bins[b] == bins0[b]
    requires Load(lens, bins[b]) + lens[medium[i]] <= cap
    requires forall j :: 0 <= j < i ==> Load(lens, bins[b]) + lens[medium[j]] > cap
    ensures var bins', medium' := bins[b := bins[b] + [medium[i]]], Without(medium, i);
      && Moved(lens, cap, bins0, medium0, bins', medium') && LongestFirst(lens, medium')
      && Forward(lens, cap, true, bins0, bins', medium', b)
  {
    hide Load, Flat, LongestTaken, Exhausted;
    MovedOne(lens, cap, bins, medium, b, i);
    MovedTrans(lens, cap, bins0, medium0, bins, medium, bins[b := bins[b] + [medium[i]]], Without(medium, i));
    SaturatedAfterRemoval(lens, cap, [], medium, i);
    ForwardTake(lens, cap, true, bins0, bins, medium, b, i);
  }

  /** The last sequence of `rest` that is at most `space` long, or -1. */
  function LastThatFits(lens: seq<nat>, rest: seq<nat>, space: int): (i: int)
    requires AllBelow(rest, |lens|)
    ensures -1 <= i < |rest| && (i >= 0 ==> lens[rest[i]] <= space)
    ensures forall j :: i < j < |rest| ==> lens[rest[j]] > space
  {
    if rest == [] then -1
    else if lens[rest[|rest| - 1]] <= space then |rest| - 1
    else LastThatFits(lens, rest[..|rest| - 1], space)
  }

  /** In the backward pass, y is still there after bin b: it stays, or is added to a bin that comes earlier. */
  ghost predicate ComesAfter(bins0: seq<seq<nat>>, bins: seq<seq<nat>>, rest: seq<nat>, b: nat, y: nat)
    requires |bins0| == |bins|
  {
    y in rest || exists c, p :: 0 <= c < b && c < |bins| && |bins0[c]| <= p < |bins[c]| && bins[c][p] == y
  }

  /** The bin holds a sequence that is above a third of the capacity, but not above half of it. */
  ghost predicate HoldsMedium(lens: seq<nat>, cap: int, bin: seq<nat>)
    requires AllBelow(bin, |lens|)
  {
    exists k :: 0 <= k < |bin| && 3 * lens[bin[k]] > cap && 2 * lens[bin[k]] <= cap
  }

  /** Of what is there, no two sequences fit into the bin together. */
  ghost predicate NoPairFits(
      lens: seq<nat>, cap: int, bins0: seq<seq<nat>>, bins: seq<seq<nat>>, rest: seq<nat>, b: nat)
    requires |bins0| == |bins| && b < |bins| && AllBelow(bins[b], |lens|)
  {
    forall x: nat, y: nat ::
      (x < |lens| && y < |lens| && x != y &&
       ComesAfter(bins0, bins, rest, b, x) && ComesAfter(bins0, bins, rest, b, y)) ==>
        Load(lens, bins[b]) + lens[x] + lens[y] > cap
  }

  /** The bin has been given a shortest sequence of those there, and beside it a longest one that fits. */
  ghost predicate PairTaken(
      lens: seq<nat>, cap: int, bins0: seq<seq<nat>>, bins: seq<seq<nat>>, rest: seq<nat>, b: nat)
    requires |bins0| == |bins| && b < |bins| && AllBelow(bins[b], |lens|)
  {
    var n := |bins0[b]|;
    && |bins[b]| == n + 2
    && lens[bins[b][n]] <= lens[bins[b][n + 1]]
    && forall y: nat :: y < |lens| && ComesAfter(bins0, bins, rest, b, y) ==>
         && lens[bins[b][n]] <= lens[y]
         && (lens[y] > lens[bins[b][n + 1]] ==> Load(lens, bins[b][..n + 1]) + lens[y] > cap)
  }

  /** A bin without a medium sequence gets a pair if one fits. */
  ghost predicate PairDone(
      lens: seq<nat>, cap: int, bins0: seq<seq<nat>>, bins: seq<seq<nat>>, rest: seq<nat>, b: nat)
    requires |bins0| == |bins| && b < |bins| && AllBelow(bins0[b], |lens|) && AllBelow(bins[b], |lens|)
  {
    if bins[b] == bins0[b] then HoldsMedium(lens, cap, bins0[b]) || NoPairFits(lens, cap, bins0, bins, rest, b)
    else !HoldsMedium(lens, cap, bins0[b]) && PairTaken(lens, cap, bins0, bins, rest, b)
  }

  /** A backward pass that has done the bins from n on and not touched those before. */
  ghost predicate Backward(
      lens: seq<nat>, cap: int, bins0: seq<seq<nat>>, bins: seq<seq<nat>>, rest: seq<nat>, n: nat)
  {
    && |bins0| == |bins| && FitAll(lens, cap, bins0) && FitAll(lens, cap, bins)
    && (forall b :: n <= b < |bins| ==> PairDone(lens, cap, bins0, bins, rest, b))
    && (forall c :: 0 <= c < n && c < |bins| ==> bins[c] == bins0[c])
  }

  /** Nothing is left in the bins before: what comes after bin b is what is left. */
  lemma OnlyRest(bins0: seq<seq<nat>>, bins: seq<seq<nat>>, rest: seq<nat>, b: nat, y: nat)
    requires |bins0| == |bins| && b <= |bins| && forall c :: 0 <= c < b ==> bins[c] == bins0[c]
    requires ComesAfter(bins0, bins, rest, b, y)
    ensures y in rest
  {
  }

  /** Leaving a bin as it is. */
  lemma SkipBin(lens: seq<nat>, cap: int, bins0: seq<seq<nat>>, bins: seq<seq<nat>>, rest: seq<nat>, b: nat)
    requires Backward(lens, cap, bins0, bins, rest, b + 1) && b < |bins|
    requires AllBelow(rest, |lens|) && ShortestFirst(lens, rest)
    requires HoldsMedium(lens, cap, bins[b]) || |rest| < 2 ||
              Load(lens, bins[b]) + lens[rest[0]] + lens[rest[1]] > cap
    ensures Backward(lens, cap, bins0, bins, rest, b)
  {
    hide Load, ComesAfter, HoldsMedium;
    if !HoldsMedium(lens, cap, bins0[b]) {
      forall x: nat, y: nat | x < |lens| && y < |lens| && x != y &&
        ComesAfter(bins0, bins, rest, b, x) && ComesAfter(bins0, bins, rest, b, y)
        ensures Load(lens, bins[b]) + lens[x] + lens[y] > cap
      {
        OnlyRest(bins0, bins, rest, b, x);
        OnlyRest(bins0, bins, rest, b, y);
        TwoLongest(lens, rest, x, y);
      }
    }
    assert PairDone(lens, cap, bins0, bins, rest, b);
  }

  /** Any two sequences together are as long as the two shortest. */
  lemma TwoLongest(lens: seq<nat>, rest: seq<nat>, x: nat, y: nat)
    requires AllBelow(rest, |lens|) && ShortestFirst(lens, rest) && x in rest && y in rest && x != y
    ensures |rest| >= 2 && lens[x] + lens[y] >= lens[rest[0]] + lens[rest[1]]
  {
    var i :| 0 <= i < |rest| && rest[i] == x;
    var j :| 0 <= j < |rest| && rest[j] == y;
  }

  /** Giving a bin the shortest sequence and the longest one that fits beside it. */
  lemma PairBin(
      lens: seq<nat>, cap: int, bins0: seq<seq<nat>>, bins: seq<seq<nat>>, rest: seq<nat>, b: nat, second: nat,
      bins': seq<seq<nat>>, rest': seq<nat>)
    requires Backward(lens, cap, bins0, bins, rest, b + 1) && b < |bins|
    requires AllBelow(rest, |lens|) && ShortestFirst(lens, rest) && second < |rest| - 1
    requires !HoldsMedium(lens, cap, bins[b])
    requires Load(lens, bins[b]) + lens[rest[0]] + lens[rest[1..][second]] <= cap
    requires forall j :: second < j < |rest| - 1 ==> Load(lens, bins[b]) + lens[rest[0]] + lens[rest[1..][j]] > cap
    requires bins' == bins[b := bins[b] + [rest[0]] + [rest[1..][second]]] && rest' == Without(rest[1..], second)
    requires FitAll(lens, cap, bins')
    ensures Backward(lens, cap, bins0, bins', rest', b) && AllBelow(rest', |lens|) && ShortestFirst(lens, rest')
  {
    hide Load, ComesAfter, HoldsMedium;
    PairIsTaken(lens, cap, bins0, bins, rest, b, second, bins', rest');
    forall a | b < a < |bins| ensures PairDone(lens, cap, bins0, bins', rest', a) {
      assert PairDone(lens, cap, bins0, bins, rest, a);
      forall y: nat | ComesAfter(bins0, bins', rest', a, y) ensures ComesAfter(bins0, bins, rest, a, y) {
        StillAfter(bins0, bins, rest, b, second, bins', rest', a, y);
      }
      assert bins'[a] == bins[a];
    }
  }

  lemma PairIsTaken(
      lens: seq<nat>, cap: int, bins0: seq<seq<nat>>, bins: seq<seq<nat>>, rest: seq<nat>, b: nat, second: nat,
      bins': seq<seq<nat>>, rest': seq<nat>)
    requires |bins0| == |bins| && b < |bins| && forall c :: 0 <= c <= b ==> bins[c] == bins0[c]
    requires AllBelow(rest, |lens|) && ShortestFirst(lens, rest) && second < |rest| - 1 && AllBelow(bins[b], |lens|)
    requires forall j :: second < j < |rest| - 1 ==> Load(lens, bins[b]) + lens[rest[0]] + lens[rest[1..][j]] > cap
    requires bins' == bins[b := bins[b] + [rest[0]] + [rest[1..][second]]] && rest' == Without(rest[1..], second)
    ensures AllBelow(bins'[b], |lens|) && PairTaken(lens, cap, bins0, bins', rest', b)
    ensures AllBelow(rest', |lens|) && ShortestFirst(lens, rest')
  {
    hide Load, ComesAfter;
    var n := |bins0[b]|;
    assert bins'[b][..n + 1] == bins[b] + [rest[0]];
    LoadSnoc(lens, bins[b], rest[0]);
    forall y: nat | y < |lens| && ComesAfter(bins0, bins', rest', b, y)
      ensures lens[rest[0]] <= lens[y]
      ensures lens[y] > lens[rest[1..][second]] ==> Load(lens, bins[b] + [rest[0]]) + lens[y] > cap
    {
      OnlyRest(bins0, bins', rest', b, y);
      var k :| 0 <= k < |rest'| && rest'[k] == y;
      assert rest[1..][if k < second then k else k + 1] == y;
    }
  }

  lemma StillAfter(
      bins0: seq<seq<nat>>, bins: seq<seq<nat>>, rest: seq<nat>, b: nat, second: nat, bins': seq<seq<nat>>,
      rest': seq<nat>, a: nat, y: nat)
    requires |bins0| == |bins| && b < a < |bins| && bins[b] == bins0[b] && second < |rest| - 1
    requires bins' == bins[b := bins[b] + [rest[0]] + [rest[1..][second]]] && rest' == Without(rest[1..], second)
    requires ComesAfter(bins0, bins', rest', a, y)
    ensures ComesAfter(bins0, bins, rest, a, y)
  {
    if y in rest' {
      var k :| 0 <= k < |rest'| && rest'[k] == y;
      assert rest[1..][if k < second then k else k + 1] == y;
    } else {
      var c, p :| 0 <= c < a && |bins0[c]| <= p < |bins'[c]| && bins'[c][p] == y;
      if c == b {
        assert y == rest[0] || y == rest[1..][second];
      } else {
        assert bins[c][p] == y;
      }
    }
  }

  /** Backward pass: two small sequences into each bin without a medium one where two fit. The first
      is the shortest; the second is the last that fits beside it, and there always is one, so no
      sequence is taken out without being placed. */
  method AddSmallPairs(lens: seq<nat>, cap: int, bins0: seq<seq<nat>>, small0: seq<nat>)
      returns (bins: seq<seq<nat>>, small: seq<nat>)
    requires FitAll(lens, cap, bins0) && AllBelow(small0, |lens|) && ShortestFirst(lens, small0)
    ensures Moved(lens, cap, bins0, small0, bins, small)
    ensures Backward(lens, cap, bins0, bins, small, 0)
  {
    hide Load, Flat, PairDone;
    bins, small := bins0, small0;
    var b := |bins0|;
    while b > 0
      invariant 0 <= b <= |bins0|
      invariant Moved(lens, cap, bins0, small0, bins, small)
      invariant Backward(lens, cap, bins0, bins, small, b) && ShortestFirst(lens, small)
    {
      b := b - 1;
      var hasMedium := exists k :: 0 <= k < |bins[b]| && KindOf(lens[bins[b][k]], cap) == Medium;
      if hasMedium || |small| < 2 {
        SkipBin(lens, cap, bins0, bins, small, b);
        continue;
      }
      var remaining := cap - Load(lens, bins[b]);
      if lens[small[0]] + lens[small[1]] > remaining {
        SkipBin(lens, cap, bins0, bins, small, b);
        continue;
      }
      var first, others := small[0], small[1..];
      var second := LastThatFits(lens, others, remaining - lens[first]);
      assert others[0] == small[1];
      if second < 0 {
        // small[1] fits beside the first, so the first is never dropped here
        assert false;
      }
      MovedPair(lens, cap, bins, small, b, second);
      PairBin(lens, cap, bins0, bins, small, b, second,
              bins[b := bins[b] + [first] + [others[second]]], Without(others, second));
      MovedTrans(lens, cap, bins0, small0, bins, small,
                 bins[b := bins[b] + [first] + [others[second]]], Without(others, second));
      bins, small := bins[b := bins[b] + [first] + [others[second]]], Without(others, second);
    }
  }

  lemma MovedPair(lens: seq<nat>, cap: int, bins: seq<seq<nat>>, small: seq<nat>, b: nat, second: nat)
    requires FitAll(lens, cap, bins) && AllBelow(small, |lens|) && b < |bins| && second < |small| - 1
    requires Load(lens, bins[b]) + lens[small[0]] + lens[small[1..][second]] <= cap
    ensures Moved(lens, cap, bins, small,
                  bins[b := bins[b] + [small[0]] + [small[1..][second]]], Without(small[1..], second))
  {
    var first, others := small[0], small[1..];
    assert Without(small, 0) == others;
    var middle := bins[b := bins[b] + [first]];
    MovedOne(lens, cap, bins, small, b, 0);
    MovedOne(lens, cap, middle, others, b, second);
    assert middle[b := middle[b] + [others[second]]] == bins[b := bins[b] + [first] + [others[second]]];
    MovedTrans(lens, cap, bins, small, middle, others,
               middle[b := middle[b] + [others[second]]], Without(others, second));
  }

  /** Greedy pass: each bin in turn takes the longest sequence that fits until none does. */
  method FillGreedily(lens: seq<nat>, cap: int, bins0: seq<seq<nat>>, rest0: seq<nat>)
      returns (bins: seq<seq<nat>>, rest: seq<nat>)
    requires FitAll(lens, cap, bins0) && AllBelow(rest0, |lens|) && LongestFirst(lens, rest0)
    ensures Moved(lens, cap, bins0, rest0, bins, rest)
    ensures Forward(lens, cap, false, bins0, bins, rest, |bins0|)
    ensures forall b :: 0 <= b < |bins| ==> Saturated(lens, cap, bins[b], rest)
  {
    hide Load, Flat, LongestTaken, Exhausted;
    bins, rest := bins0, rest0;
    ForwardStart(lens, cap, false, bins0, rest0);
    for b := 0 to |bins0|
      invariant Moved(lens, cap, bins0, rest0, bins, rest) && LongestFirst(lens, rest)
      invariant Forward(lens, cap, false, bins0, bins, rest, b)
      invariant forall a :: 0 <= a < b ==> Saturated(lens, cap, bins[a], rest)
    {
      while rest != []
        invariant Moved(lens, cap, bins0, rest0, bins, rest) && LongestFirst(lens, rest)
        invariant Forward(lens, cap, false, bins0, bins, rest, b)
        invariant forall a :: 0 <= a < b ==> Saturated(lens, cap, bins[a], rest)
        decreases |rest|
      {
        var space := cap - Load(lens, bins[b]);
        if space < lens[rest[|rest| - 1]] {
          break;
        }
        var i := FirstThatFits(lens, rest, space);
        TakeOne(lens, cap, bins0, rest0, bins, rest, b, i);
        ForwardTake(lens, cap, false, bins0, bins, rest, b, i);
        bins, rest := bins[b := bins[b] + [rest[i]]], Without(rest, i);
      }
      ForwardNext(lens, cap, false, bins0, bins, rest, b);
    }
  }

  lemma TakeOne(
      lens: seq<nat>, cap: int, bins0: seq<seq<nat>>, rest0: seq<nat>, bins: seq<seq<nat>>, rest: seq<nat>, b: nat,
      i: nat)
    requires Moved(lens, cap, bins0, rest0, bins, rest) && LongestFirst(lens, rest)
    requires b < |bins| && i < |rest| && Load(lens, bins[b]) + lens[rest[i]] <= cap
    requires forall a :: 0 <= a < b ==> Saturated(lens, cap, bins[a], rest)
    ensures var bins', rest' := bins[b := bins[b] + [rest[i]]], Without(rest, i);
      && Moved(lens, cap, bins0, rest0, bins', rest') && LongestFirst(lens, rest')
      && forall a :: 0 <= a < b ==> Saturated(lens, cap, bins'[a], rest')
  {
    MovedOne(lens, cap, bins, rest, b, i);
    MovedTrans(lens, cap, bins0, rest0, bins, rest, bins[b := bins[b] + [rest[i]]], Without(rest, i));
    forall a | 0 <= a < b ensures Saturated(lens, cap, bins[a], Without(rest, i)) {
      SaturatedAfterRemoval(lens, cap, bins[a], rest, i);
    }
    SaturatedAfterRemoval(lens, cap, [], rest, i);
  }

  // ----- leftovers -----

  /** Where a new size belongs in an ascending list: after every size that is not larger. */
  function BisectRight(sizes: seq<int>, x: int): (i: nat)
    ensures i <= |sizes|
    ensures forall j :: 0 <= j < i ==> sizes[j] <= x
    ensures i < |sizes| ==> x < sizes[i]
  {
    if sizes == [] || x < sizes[0] then 0 else
      var i := BisectRight(sizes[1..], x);
      assert forall j :: 1 <= j < i + 1 ==> sizes[j] == sizes[1..][j - 1];
      i + 1
  }

  function InsertAt<T>(s: seq<T>, i: nat, x: T): seq<T>
    requires i <= |s|
  {
    s[..i] + [x] + s[i..]
  }

  /** Bins in ascending order of load, their loads, and the sequences they hold. */
  ghost predicate Shelved(lens: seq<nat>, cap: int, bins: seq<seq<nat>>, sizes: seq<int>, placed: seq<nat>) {
    && FitAll(lens, cap, bins) && PairwiseFull(lens, cap, bins) && NoEmptyBin(bins)
    && |sizes| == |bins| && Ascends(sizes)
    && (forall b :: 0 <= b < |bins| ==> sizes[b] == Load(lens, bins[b]))
    && multiset(Flat(bins)) == multiset(placed)
  }

  lemma FlatInsert(bins: seq<seq<nat>>, i: nat, bin: seq<nat>)
    requires i <= |bins|
    ensures multiset(Flat(InsertAt(bins, i, bin))) == multiset(Flat(bins)) + multiset(bin)
  {
    hide Flat;
    FlatAppend(bins[..i] + [bin], bins[i..]);
    FlatSnoc(bins[..i], bin);
    FlatAppend(bins[..i], bins[i..]);
    assert bins[..i] + bins[i..] == bins;
  }

  /** Shelving a bin that overflows together with every other bin. */
  lemma ShelveBin(
      lens: seq<nat>, cap: int, bins: seq<seq<nat>>, sizes: seq<int>, placed: seq<nat>, bin: seq<nat>,
      placed': seq<nat>)
    requires Shelved(lens, cap, bins, sizes, placed)
    requires bin != [] && AllBelow(bin, |lens|) && Load(lens, bin) <= cap
    requires forall b :: 0 <= b < |bins| ==> Load(lens, bin) + sizes[b] > cap
    requires multiset(placed') == multiset(placed) + multiset(bin)
    ensures var i := BisectRight(sizes, Load(lens, bin));
      Shelved(lens, cap, InsertAt(bins, i, bin), InsertAt(sizes, i, Load(lens, bin)), placed')
  {
    var i := BisectRight(sizes, Load(lens, bin));
    FlatInsert(bins, i, bin);
    ShelvePairs(lens, cap, bins, sizes, bin, i);
    InsertAscends(sizes, Load(lens, bin));
    InsertParts(lens, cap, bins, sizes, bin, i);
  }

  lemma InsertAscends(sizes: seq<int>, x: int)
    requires Ascends(sizes)
    ensures Ascends(InsertAt(sizes, BisectRight(sizes, x), x))
  {
  }

  lemma InsertParts(lens: seq<nat>, cap: int, bins: seq<seq<nat>>, sizes: seq<int>, bin: seq<nat>, i: nat)
    requires FitAll(lens, cap, bins) && NoEmptyBin(bins) && i <= |bins| == |sizes|
    requires forall b :: 0 <= b < |bins| ==> sizes[b] == Load(lens, bins[b])
    requires bin != [] && AllBelow(bin, |lens|) && Load(lens, bin) <= cap
    ensures var bins', sizes' := InsertAt(bins, i, bin), InsertAt(sizes, i, Load(lens, bin));
      && FitAll(lens, cap, bins') && NoEmptyBin(bins') && |bins'| == |sizes'|
      && forall b :: 0 <= b < |bins'| ==> sizes'[b] == Load(lens, bins'[b])
  {
  }

  lemma ShelvePairs(lens: seq<nat>, cap: int, bins: seq<seq<nat>>, sizes: seq<int>, bin: seq<nat>, i: nat)
    requires FitAll(lens, cap, bins) && PairwiseFull(lens, cap, bins) && i <= |bins| == |sizes|
    requires forall b :: 0 <= b < |bins| ==> sizes[b] == Load(lens, bins[b])
    requires AllBelow(bin, |lens|) && forall b :: 0 <= b < |bins| ==> Load(lens, bin) + sizes[b] > cap
    ensures forall b :: 0 <= b < |bins| + 1 ==> AllBelow(InsertAt(bins, i, bin)[b], |lens|)
    ensures PairwiseFull(lens, cap, InsertAt(bins, i, bin))
  {
  }

  lemma UnshelveFirst(lens: seq<nat>, cap: int, bins: seq<seq<nat>>, sizes: seq<int>, placed: seq<nat>)
      returns (rest: seq<nat>)
    requires Shelved(lens, cap, bins, sizes, placed) && bins != []
    ensures Shelved(lens, cap, bins[1..], sizes[1..], rest)
    ensures multiset(placed) == multiset(rest) + multiset(bins[0])
    ensures forall b :: 0 <= b < |bins[1..]| ==> sizes[0] <= sizes[1..][b] && sizes[0] + sizes[1..][b] > cap
  {
    rest := Flat(bins[1..]);
    assert Flat(bins) == bins[0] + rest;
  }

  /** Adds one sequence to the bin with the smallest load if it fits there, and to a new bin otherwise:
      only the first bin is looked at, because the bins are kept in ascending order of load. */
  function Shelve(lens: seq<nat>, cap: int, bins: seq<seq<nat>>, sizes: seq<int>, x: nat): (seq<seq<nat>>, seq<int>)
    requires |bins| == |sizes| > 0 && x < |lens|
  {
    if lens[x] <= cap - sizes[0] then
      var size := sizes[0] + lens[x];
      var i := BisectRight(sizes[1..], size);
      (InsertAt(bins[1..], i, bins[0] + [x]), InsertAt(sizes[1..], i, size))
    else
      var i := BisectRight(sizes, lens[x]);
      (InsertAt(bins, i, [x]), InsertAt(sizes, i, lens[x]))
  }

  /** The bins and loads after shelving the first n sequences of the order, starting from one empty bin. */
  function ShelveAll(lens: seq<nat>, cap: int, order: seq<nat>, n: nat): (r: (seq<seq<nat>>, seq<int>))
    requires AllBelow(order, |lens|) && n <= |order|
    ensures |r.0| == |r.1| > 0
  {
    if n == 0 then ([[]], [0]) else
      var before := ShelveAll(lens, cap, order, n - 1);
      Shelve(lens, cap, before.0, before.1, order[n - 1])
  }

  /** The place q of bin x, against another bin y: when sequence x[q] of the order came, either y was not there, or
      x was no fuller than y, or y had no room and x was opened for the sequence. */
  ghost predicate Chosen(lens: seq<nat>, cap: int, order: seq<nat>, x: seq<nat>, q: nat, y: seq<nat>)
    requires AllBelow(order, |lens|) && AllBelow(x, |order|) && AllBelow(y, |order|) && q < |x|
  {
    var earlier := Prior(y, x[q]);
    || earlier == []
    || if q > 0 then Load(lens, Gather(order, x[..q])) <= Load(lens, Gather(order, earlier))
       else Load(lens, Gather(order, earlier)) + lens[order[x[q]]] > cap
  }

  /** These bins, given by places of the order, have been filled in order, each sequence going to a bin that was
      least full, or to a new one if it did not fit there. */
  ghost predicate LeastFull(lens: seq<nat>, cap: int, order: seq<nat>, slots: seq<seq<nat>>, n: nat)
    requires AllBelow(order, |lens|) && n <= |order|
  {
    && (forall b :: 0 <= b < |slots| ==> slots[b] != [] && Increasing(slots[b]) && AllBelow(slots[b], n))
    && (forall x, y, q :: x in slots && y in slots && x != y && 0 <= q < |x| ==> Chosen(lens, cap, order, x, q, y))
  }

  lemma InsertMembers<T>(s: seq<T>, i: nat, x: T)
    requires i <= |s|
    ensures forall y :: y in InsertAt(s, i, x) <==> y == x || y in s
  {
    assert s == s[..i] + s[i..];
  }

  lemma OtherMembers<T>(s: seq<T>)
    requires s != []
    ensures forall y :: y in s <==> y == s[0] || y in s[1..]
  {
    assert s == [s[0]] + s[1..];
  }

  /** What was chosen before stays chosen when sequence k joins either bin. */
  lemma ChosenStays(
      lens: seq<nat>, cap: int, order: seq<nat>, x: seq<nat>, q: nat, y: seq<nat>, k: nat, x': seq<nat>, y': seq<nat>)
    requires AllBelow(order, |lens|) && k < |order| && AllBelow(x, k) && AllBelow(y, k) && q < |x|
    requires (x' == x || x' == x + [k]) && (y' == y || y' == y + [k])
    requires Chosen(lens, cap, order, x, q, y)
    ensures Chosen(lens, cap, order, x', q, y')
  {
    hide Load;
    PriorNext(y, k, x[q]);
    assert x'[q] == x[q] && x'[..q] == x[..q];
  }

  /** Sequence k of the order is put on the first of the bins, which are in ascending order of load. */
  lemma LeastFullOnTop(
      lens: seq<nat>, cap: int, order: seq<nat>, slots: seq<seq<nat>>, k: nat, i: nat)
    requires AllBelow(order, |lens|) && k < |order| && LeastFull(lens, cap, order, slots, k)
    requires slots != [] && i <= |slots| - 1
    requires forall b :: 0 < b < |slots| ==>
               Load(lens, Gather(order, slots[0])) <= Load(lens, Gather(order, slots[b]))
    ensures LeastFull(lens, cap, order, InsertAt(slots[1..], i, slots[0] + [k]), k + 1)
  {
    hide Load, Chosen;
    var more, slots' := slots[0] + [k], InsertAt(slots[1..], i, slots[0] + [k]);
    InsertMembers(slots[1..], i, more);
    OtherMembers(slots);
    forall x, y, q | x in slots' && y in slots' && x != y && 0 <= q < |x| ensures Chosen(lens, cap, order, x, q, y) {
      if x == more && q == |slots[0]| {
        var b :| 0 < b < |slots| && slots[b] == y;
        TopIsChosen(lens, cap, order, slots[0], y, k);
      } else {
        var x0, y0 := if x == more then slots[0] else x, if y == more then slots[0] else y;
        if x0 == y0 {
          SameSlot(lens, cap, order, x, y, x0, k, q);
        } else {
          ChosenStays(lens, cap, order, x0, q, y0, k, x, y);
        }
      }
    }
  }

  /** A bin and the same bin with one more sequence do not get in each other's way. */
  lemma SameSlot(
      lens: seq<nat>, cap: int, order: seq<nat>, x: seq<nat>, y: seq<nat>, slot: seq<nat>, k: nat, q: nat)
    requires AllBelow(order, |lens|) && k < |order| && AllBelow(slot, k) && Increasing(slot) && q < |slot|
    requires (x == slot || x == slot + [k]) && (y == slot || y == slot + [k])
    ensures Chosen(lens, cap, order, x, q, y)
  {
    hide Load;
    PriorNext(slot, k, slot[q]);
    PriorOwn(slot, q);
    assert x[q] == slot[q] && x[..q] == slot[..q];
  }

  lemma {:induction false} PriorOwn(slot: seq<nat>, q: nat)
    requires Increasing(slot) && q < |slot|
    ensures Prior(slot, slot[q]) == slot[..q]
  {
    if q == |slot| - 1 {
      assert Prior(slot[..q], slot[q]) == slot[..q];
    } else {
      PriorOwn(slot[..|slot| - 1], q);
      assert slot[..|slot| - 1][..q] == slot[..q];
    }
  }

  lemma TopIsChosen(lens: seq<nat>, cap: int, order: seq<nat>, first: seq<nat>, y: seq<nat>, k: nat)
    requires AllBelow(order, |lens|) && k < |order| && AllBelow(first, k) && AllBelow(y, k) && first != []
    requires Load(lens, Gather(order, first)) <= Load(lens, Gather(order, y))
    ensures Chosen(lens, cap, order, first + [k], |first|, y)
  {
    hide Load;
    PriorNext(y, k, k);
    assert (first + [k])[..|first|] == first;
  }

  /** Sequence k of the order opens a bin, as it does not fit into any. */
  lemma LeastFullOpened(lens: seq<nat>, cap: int, order: seq<nat>, slots: seq<seq<nat>>, k: nat, i: nat)
    requires AllBelow(order, |lens|) && k < |order| && LeastFull(lens, cap, order, slots, k) && i <= |slots|
    requires forall b :: 0 <= b < |slots| ==> Load(lens, Gather(order, slots[b])) + lens[order[k]] > cap
    ensures LeastFull(lens, cap, order, InsertAt(slots, i, [k]), k + 1)
  {
    hide Load, Chosen;
    var slots' := InsertAt(slots, i, [k]);
    InsertMembers(slots, i, [k]);
    forall x, y, q | x in slots' && y in slots' && x != y && 0 <= q < |x| ensures Chosen(lens, cap, order, x, q, y) {
      if x == [k] {
        var b :| 0 <= b < |slots| && slots[b] == y;
        OpenedIsChosen(lens, cap, order, y, k);
      } else if y == [k] {
        NewIsLater(lens, cap, order, x, q, k);
      }
    }
  }

  lemma OpenedIsChosen(lens: seq<nat>, cap: int, order: seq<nat>, y: seq<nat>, k: nat)
    requires AllBelow(order, |lens|) && k < |order| && AllBelow(y, k)
    requires Load(lens, Gather(order, y)) + lens[order[k]] > cap
    ensures Chosen(lens, cap, order, [k], 0, y)
  {
    hide Load;
    PriorNext(y, k, k);
  }

  lemma NewIsLater(lens: seq<nat>, cap: int, order: seq<nat>, x: seq<nat>, q: nat, k: nat)
    requires AllBelow(order, |lens|) && k < |order| && AllBelow(x, k) && q < |x|
    ensures Chosen(lens, cap, order, x, q, [k])
  {
    hide Load;
    assert Prior([k], x[q]) == Prior([], x[q]);
  }

  /** The bins hold the sequences at these places, and the places have been filled as they should. */
  ghost predicate ShelvedFrom(
      lens: seq<nat>, cap: int, order: seq<nat>, slots: seq<seq<nat>>, bins: seq<seq<nat>>, n: nat)
    requires AllBelow(order, |lens|) && n <= |order|
  {
    LeastFull(lens, cap, order, slots, n) && FilledFrom(order, slots, bins)
  }

  /** Where `Shelve` puts the place of the next sequence. */
  function ShelveSlot(lens: seq<nat>, cap: int, slots: seq<seq<nat>>, sizes: seq<int>, x: nat, k: nat): seq<seq<nat>>
    requires |slots| == |sizes| > 0 && x < |lens|
  {
    if lens[x] <= cap - sizes[0]
    then InsertAt(slots[1..], BisectRight(sizes[1..], sizes[0] + lens[x]), slots[0] + [k])
    else InsertAt(slots, BisectRight(sizes, lens[x]), [k])
  }

  lemma ShelveSlotNext(
      lens: seq<nat>, cap: int, order: seq<nat>, slots: seq<seq<nat>>, bins: seq<seq<nat>>, sizes: seq<int>, k: nat)
    requires AllBelow(order, |lens|) && k < |order| && ShelvedFrom(lens, cap, order, slots, bins, k)
    requires |bins| == |sizes| > 0 && Ascends(sizes)
    requires forall b :: 0 <= b < |bins| ==> AllBelow(bins[b], |lens|) && sizes[b] == Load(lens, bins[b])
    ensures |slots| == |bins|
    ensures ShelvedFrom(lens, cap, order, ShelveSlot(lens, cap, slots, sizes, order[k], k),
              Shelve(lens, cap, bins, sizes, order[k]).0, k + 1)
  {
    hide Load, LeastFull, FilledFrom, InsertAt;
    SlotLoads(lens, order, slots, bins, sizes);
    hide BisectRight;
    var x := order[k];
    if lens[x] <= cap - sizes[0] {
      var i := BisectRight(sizes[1..], sizes[0] + lens[x]);
      LeastFullOnTop(lens, cap, order, slots, k, i);
      FilledOnTop(order, slots, bins, i, k);
    } else {
      var i := BisectRight(sizes, lens[x]);
      LeastFullOpened(lens, cap, order, slots, k, i);
      FilledInsert(order, slots, bins, i, [k], [x]);
    }
  }

  lemma SlotLoads(
      lens: seq<nat>, order: seq<nat>, slots: seq<seq<nat>>, bins: seq<seq<nat>>, sizes: seq<int>)
    requires AllBelow(order, |lens|) && FilledFrom(order, slots, bins) && |bins| == |sizes|
    requires forall b :: 0 <= b < |bins| ==> AllBelow(bins[b], |lens|) && sizes[b] == Load(lens, bins[b])
    ensures |slots| == |bins|
    ensures forall b :: 0 <= b < |slots| ==>
              AllBelow(slots[b], |order|) && Load(lens, Gather(order, slots[b])) == sizes[b]
  {
    hide Load;
  }

  lemma FilledOnTop(order: seq<nat>, slots: seq<seq<nat>>, bins: seq<seq<nat>>, i: nat, k: nat)
    requires FilledFrom(order, slots, bins) && i < |slots| == |bins| && k < |order|
    ensures FilledFrom(order, InsertAt(slots[1..], i, slots[0] + [k]), InsertAt(bins[1..], i, bins[0] + [order[k]]))
  {
    assert Gather(order, slots[0] + [k]) == Gather(order, slots[0]) + [order[k]];
    FilledInsert(order, slots[1..], bins[1..], i, slots[0] + [k], bins[0] + [order[k]]);
  }

  lemma FilledInsert(
      order: seq<nat>, slots: seq<seq<nat>>, bins: seq<seq<nat>>, i: nat, slot: seq<nat>, bin: seq<nat>)
    requires FilledFrom(order, slots, bins) && i <= |slots| && AllBelow(slot, |order|) && bin == Gather(order, slot)
    ensures FilledFrom(order, InsertAt(slots, i, slot), InsertAt(bins, i, bin))
  {
  }

  /** Longest first, every leftover goes to a bin that is least full, or to a new one if it does not fit there. */
  ghost predicate IsLeastFull(lens: seq<nat>, cap: int, order: seq<nat>, bins: seq<seq<nat>>)
    requires AllBelow(order, |lens|)
  {
    exists slots :: ShelvedFrom(lens, cap, order, slots, bins, |order|)
  }

  /** What the first k leftovers, shelved, have become. */
  ghost predicate Shelving(
      lens: seq<nat>, cap: int, order: seq<nat>, k: nat, bins: seq<seq<nat>>, sizes: seq<int>, slots: seq<seq<nat>>)
    requires AllBelow(order, |lens|) && k <= |order|
  {
    && (bins, sizes) == ShelveAll(lens, cap, order, k)
    && (k > 0 ==> Shelved(lens, cap, bins, sizes, order[..k]) && ShelvedFrom(lens, cap, order, slots, bins, k))
  }

  lemma ShelvingNext(
      lens: seq<nat>, cap: int, order: seq<nat>, k: nat, bins: seq<seq<nat>>, sizes: seq<int>, slots: seq<seq<nat>>)
      returns (slots': seq<seq<nat>>)
    requires AllBelow(order, |lens|) && k < |order| && lens[order[k]] <= cap
    requires |bins| == |sizes| > 0 && Shelving(lens, cap, order, k, bins, sizes, slots)
    ensures var next := Shelve(lens, cap, bins, sizes, order[k]);
      Shelving(lens, cap, order, k + 1, next.0, next.1, slots')
  {
    hide Shelved, ShelvedFrom, Shelve, ShelveSlot;
    assert order[..k + 1] == order[..k] + [order[k]];
    if k == 0 {
      assert order[..1] == [order[0]];
      ShelveFirst(lens, cap, order[0]);
      FirstShelf(lens, cap, order);
      slots' := [[0]];
    } else {
      ShelveNext(lens, cap, bins, sizes, order[..k], order[k]);
      Ascending(lens, cap, bins, sizes, order[..k]);
      ShelveSlotNext(lens, cap, order, slots, bins, sizes, k);
      slots' := ShelveSlot(lens, cap, slots, sizes, order[k], k);
    }
  }

  lemma Ascending(lens: seq<nat>, cap: int, bins: seq<seq<nat>>, sizes: seq<int>, placed: seq<nat>)
    requires Shelved(lens, cap, bins, sizes, placed)
    ensures |bins| == |sizes| && Ascends(sizes)
    ensures forall b :: 0 <= b < |bins| ==> AllBelow(bins[b], |lens|) && sizes[b] == Load(lens, bins[b])
  {
  }

  /** Packs the leftovers in the given order, starting from one empty bin. */
  method PackLeftovers(lens: seq<nat>, cap: int, order: seq<nat>) returns (bins: seq<seq<nat>>)
    requires AllBelow(order, |lens|) && AllFit(lens, cap)
    ensures order == [] ==> bins == [[]]
    ensures order != [] ==> exists sizes :: Shelved(lens, cap, bins, sizes, order)
    ensures order != [] ==> IsLeastFull(lens, cap, order, bins)
    ensures bins == ShelveAll(lens, cap, order, |order|).0
  {
    hide Shelved, ShelvedFrom, Shelve;
    bins := [[]];
    var sizes := [0];
    ghost var slots: seq<seq<nat>> := [];
    for k := 0 to |order|
      invariant |bins| == |sizes| > 0 && Shelving(lens, cap, order, k, bins, sizes, slots)
    {
      slots := ShelvingNext(lens, cap, order, k, bins, sizes, slots);
      var next := Shelve(lens, cap, bins, sizes, order[k]);
      bins, sizes := next.0, next.1;
    }
    assert order[..|order|] == order;
  }

  ghost predicate ShelvesAre(
      lens: seq<nat>, cap: int, order: seq<nat>, n: nat, bins: seq<seq<nat>>, sizes: seq<int>)
    requires AllBelow(order, |lens|) && n <= |order|
  {
    ShelveAll(lens, cap, order, n).0 == bins && ShelveAll(lens, cap, order, n).1 == sizes
  }

  lemma ShelvedOnTop(
      lens: seq<nat>, cap: int, order: seq<nat>, n: nat, bin: seq<nat>, bins: seq<seq<nat>>, size: int,
      sizes: seq<int>, i: nat, more: seq<nat>, larger: int)
    requires AllBelow(order, |lens|) && n < |order| && i <= |bins| == |sizes|
    requires ShelvesAre(lens, cap, order, n, [bin] + bins, [size] + sizes)
    requires more == bin + [order[n]] && larger == size + lens[order[n]] <= cap && BisectRight(sizes, larger) == i
    ensures ShelvesAre(lens, cap, order, n + 1, InsertAt(bins, i, more), InsertAt(sizes, i, larger))
  {
    hide Shelve;
    PutOnTop(lens, cap, bin, bins, size, sizes, order[n], i, more, larger);
  }

  lemma PutOnTop(
      lens: seq<nat>, cap: int, bin: seq<nat>, bins: seq<seq<nat>>, size: int, sizes: seq<int>, x: nat, i: nat,
      more: seq<nat>, larger: int)
    requires x < |lens| && i <= |bins| == |sizes|
    requires more == bin + [x] && larger == size + lens[x] <= cap && BisectRight(sizes, larger) == i
    ensures Shelve(lens, cap, [bin] + bins, [size] + sizes, x) == (InsertAt(bins, i, more), InsertAt(sizes, i, larger))
  {
    hide BisectRight, InsertAt;
    assert ([bin] + bins)[1..] == bins && ([size] + sizes)[1..] == sizes;
  }

  /** Looking only at the least full bin can take more bins than first fit does for the same order. */
  lemma ShelvingTakesMoreBins(lens: seq<nat>, order: seq<nat>)
    requires lens == [9, 9, 7, 7, 6, 5, 5] && order == [0, 1, 2, 3, 4, 5, 6]
    ensures LongestFirst(lens, order)
    ensures ShelveAll(lens, 24, order, 7).0 == [[6], [2, 3, 4], [0, 1, 5]]
    ensures IsFirstFit(lens, 24, order, [[0, 1, 4], [2, 3, 5, 6]]) && FitAll(lens, 24, [[0, 1, 4], [2, 3, 5, 6]])
  {
    hide ShelveAll, Load;
    FirstShelves(lens, order);
    MoreShelves(lens, order);
    TwoBinsDo(lens, order);
  }

  lemma FirstShelves(lens: seq<nat>, order: seq<nat>)
    requires lens == [9, 9, 7, 7, 6, 5, 5] && order == [0, 1, 2, 3, 4, 5, 6]
    ensures ShelvesAre(lens, 24, order, 4, [[2, 3], [0, 1]], [14, 18])
  {
    assert ShelvesAre(lens, 24, order, 0, [[]] + [], [0] + []);
    hide ShelveAll;
    ShelvedOnTop(lens, 24, order, 0, [], [], 0, [], 0, [0], 9);
    assert ShelvesAre(lens, 24, order, 1, [[0]] + [], [9] + []);
    ShelvedOnTop(lens, 24, order, 1, [0], [], 9, [], 0, [0, 1], 18);
    assert ShelvesAre(lens, 24, order, 2, [[0, 1]], [18]);
    ShelvedApart(lens, 24, order, 2, [[0, 1]], [18], 0);
    assert ShelvesAre(lens, 24, order, 3, [[2]] + [[0, 1]], [7] + [18]);
    ShelvedOnTop(lens, 24, order, 3, [2], [[0, 1]], 7, [18], 0, [2, 3], 14);
  }

  lemma ShelvedApart(
      lens: seq<nat>, cap: int, order: seq<nat>, n: nat, bins: seq<seq<nat>>, sizes: seq<int>, i: nat)
    requires AllBelow(order, |lens|) && n < |order| && i <= |bins| == |sizes| && bins != []
    requires ShelvesAre(lens, cap, order, n, bins, sizes) && sizes[0] + lens[order[n]] > cap
    requires BisectRight(sizes, lens[order[n]]) == i
    ensures ShelvesAre(lens, cap, order, n + 1, InsertAt(bins, i, [order[n]]), InsertAt(sizes, i, lens[order[n]]))
  {
  }

  lemma MoreShelves(lens: seq<nat>, order: seq<nat>)
    requires lens == [9, 9, 7, 7, 6, 5, 5] && order == [0, 1, 2, 3, 4, 5, 6]
    requires ShelvesAre(lens, 24, order, 4, [[2, 3], [0, 1]], [14, 18])
    ensures ShelveAll(lens, 24, order, 7).0 == [[6], [2, 3, 4], [0, 1, 5]]
  {
    hide ShelveAll;
    assert ShelvesAre(lens, 24, order, 4, [[2, 3]] + [[0, 1]], [14] + [18]);
    ShelvedOnTop(lens, 24, order, 4, [2, 3], [[0, 1]], 14, [18], 1, [2, 3, 4], 20);
    assert ShelvesAre(lens, 24, order, 5, [[0, 1]] + [[2, 3, 4]], [18] + [20]);
    ShelvedOnTop(lens, 24, order, 5, [0, 1], [[2, 3, 4]], 18, [20], 1, [0, 1, 5], 23);
    assert ShelvesAre(lens, 24, order, 6, [[2, 3, 4], [0, 1, 5]], [20, 23]);
    ShelvedApart(lens, 24, order, 6, [[2, 3, 4], [0, 1, 5]], [20, 23], 0);
  }

  lemma TwoBinsDo(lens: seq<nat>, order: seq<nat>)
    requires lens == [9, 9, 7, 7, 6, 5, 5] && order == [0, 1, 2, 3, 4, 5, 6]
    ensures IsFirstFit(lens, 24, order, [[0, 1, 4], [2, 3, 5, 6]]) && FitAll(lens, 24, [[0, 1, 4], [2, 3, 5, 6]])
  {
    hide Load, NoRoom;
    var bins: seq<seq<nat>> := [[0, 1, 4], [2, 3, 5, 6]];
    TwoLoads(lens);
    FirstIsFull(lens, order);
    assert bins[0] == Gather(order, bins[0]) && bins[1] == Gather(order, bins[1]);
    assert FirstFitting(lens, 24, order, bins, 7) && FilledFrom(order, bins, bins);
  }

  lemma TwoLoads(lens: seq<nat>)
    requires lens == [9, 9, 7, 7, 6, 5, 5]
    ensures Load(lens, [0, 1]) == 18 && Load(lens, [0, 1, 4]) == 24 && Load(lens, [2, 3, 5, 6]) == 24
  {
    hide Load;
    LoadPair(lens, 0, 1);
    LoadPair(lens, 2, 3);
    LoadSnoc(lens, [0, 1], 4);
    LoadSnoc(lens, [2, 3], 5);
    LoadSnoc(lens, [2, 3, 5], 6);
    assert [0, 1] + [4] == [0, 1, 4] && [2, 3] + [5] == [2, 3, 5] && [2, 3, 5] + [6] == [2, 3, 5, 6];
  }

  lemma FirstIsFull(lens: seq<nat>, order: seq<nat>)
    requires lens == [9, 9, 7, 7, 6, 5, 5] && order == [0, 1, 2, 3, 4, 5, 6]
    ensures forall k :: k in [2, 3, 5, 6] ==> NoRoom(lens, 24, order, [0, 1, 4], k)
  {
    hide Load;
    TwoLoads(lens);
    forall k | k in [2, 3, 5, 6] ensures NoRoom(lens, 24, order, [0, 1, 4], k) {
      var prior := if k < 4 then [0, 1] else [0, 1, 4];
      assert [0, 1, 4][..2] == [0, 1];
      assert Prior([0, 1, 4], k) == prior && Gather(order, prior) == prior;
    }
  }

  lemma LoadPair(lens: seq<nat>, x: nat, y: nat)
    requires x < |lens| && y < |lens|
    ensures Load(lens, [x, y]) == lens[x] + lens[y]
  {
    LoadSingle(lens, x);
    LoadSnoc(lens, [x], y);
    assert [x] + [y] == [x, y];
  }

  lemma FirstShelf(lens: seq<nat>, cap: int, order: seq<nat>)
    requires AllBelow(order, |lens|) && order != [] && lens[order[0]] <= cap
    ensures ShelvedFrom(lens, cap, order, [[0]], Shelve(lens, cap, [[]], [0], order[0]).0, 1)
  {
    assert [] + [order[0]] == [order[0]];
    assert Shelve(lens, cap, [[]], [0], order[0]).0 == [[order[0]]];
  }

  lemma ShelveFirst(lens: seq<nat>, cap: int, x: nat)
    requires x < |lens| && lens[x] <= cap
    ensures var (bins, sizes) := Shelve(lens, cap, [[]], [0], x);
      bins != [] && Shelved(lens, cap, bins, sizes, [x])
  {
    LoadSingle(lens, x);
    assert [] + [x] == [x];
    assert Shelve(lens, cap, [[]], [0], x).0 == [[x]];
    assert Shelve(lens, cap, [[]], [0], x).1 == [lens[x]];
    FlatSingle([x]);
  }

  lemma ShelveNext(lens: seq<nat>, cap: int, bins: seq<seq<nat>>, sizes: seq<int>, placed: seq<nat>, x: nat)
    requires Shelved(lens, cap, bins, sizes, placed) && bins != [] && x < |lens| && lens[x] <= cap
    ensures var (bins', sizes') := Shelve(lens, cap, bins, sizes, x);
      bins' != [] && Shelved(lens, cap, bins', sizes', placed + [x])
  {
    if lens[x] <= cap - sizes[0] {
      ShelveOnTop(lens, cap, bins, sizes, placed, x);
    } else {
      LoadSingle(lens, x);
      ShelveBin(lens, cap, bins, sizes, placed, [x], placed + [x]);
    }
  }

  lemma ShelveOnTop(lens: seq<nat>, cap: int, bins: seq<seq<nat>>, sizes: seq<int>, placed: seq<nat>, x: nat)
    requires Shelved(lens, cap, bins, sizes, placed) && bins != [] && x < |lens| && lens[x] <= cap - sizes[0]
    ensures var (bins', sizes') := Shelve(lens, cap, bins, sizes, x);
      bins' != [] && Shelved(lens, cap, bins', sizes', placed + [x])
  {
    hide Load, Flat, Shelved;
    Ascending(lens, cap, bins, sizes, placed);
    var rest := UnshelveFirst(lens, cap, bins, sizes, placed);
    LoadSnoc(lens, bins[0], x);
    assert multiset(bins[0] + [x]) == multiset(bins[0]) + multiset{x};
    ShelveBin(lens, cap, bins[1..], sizes[1..], rest, bins[0] + [x], placed + [x]);
  }

  // ----- opening and dropping bins -----

  function Singletons(items: seq<nat>): seq<seq<nat>> {
    seq(|items|, i requires 0 <= i < |items| => [items[i]])
  }

  lemma {:induction false} FlatSingletons(items: seq<nat>)
    ensures Flat(Singletons(items)) == items
  {
    if items == [] {
    } else {
      FlatSingletons(items[1..]);
      assert Singletons(items)[1..] == Singletons(items[1..]);
    }
  }

  function NonEmpty(bins: seq<seq<nat>>): seq<seq<nat>> {
    if bins == [] then [] else (if bins[0] == [] then [] else [bins[0]]) + NonEmpty(bins[1..])
  }

  lemma {:induction false} NonEmptyIsIdentity(bins: seq<seq<nat>>)
    requires NoEmptyBin(bins)
    ensures NonEmpty(bins) == bins && NonEmpty(bins + [[]]) == bins
  {
    if bins == [] {
      assert NonEmpty([[]]) == [] + NonEmpty([]);
    } else {
      assert (bins + [[]])[1..] == bins[1..] + [[]];
      NonEmptyIsIdentity(bins[1..]);
    }
  }

  // ----- the phases -----

  /** The four classes, the bins after each pass with what was left of each class, and the shelves. */
  datatype Phases = Phases(
    large: seq<nat>, medium: seq<nat>, small: seq<nat>, tiny: seq<nat>,
    bins1: seq<seq<nat>>, medium1: seq<nat>,
    bins2: seq<seq<nat>>, small2: seq<nat>,
    rest2: seq<nat>, bins3: seq<seq<nat>>, rest3: seq<nat>)

  /** Large sequences are above half the capacity, medium ones above a third of it, small ones above a sixth. */
  ghost predicate AreClasses(lens: seq<nat>, cap: int, m: Phases) {
    && (forall v: nat :: v in m.large <==> v < |lens| && 2 * lens[v] > cap)
    && (forall v: nat :: v in m.medium <==> v < |lens| && 2 * lens[v] <= cap && 3 * lens[v] > cap)
    && (forall v: nat :: v in m.small <==> v < |lens| && 3 * lens[v] <= cap && 6 * lens[v] > cap)
    && (forall v: nat :: v in m.tiny <==> v < |lens| && 6 * lens[v] <= cap)
  }

  /** One bin for each large sequence, longest first; then a longest medium sequence that fits into each of these
      bins; then, from the last bin to the first, pairs of small ones for those without a medium one. */
  ghost predicate ArePasses(lens: seq<nat>, cap: int, m: Phases) {
    && AllBelow(m.large, |lens|) && AllBelow(m.medium, |lens|) && AllBelow(m.small, |lens|)
    && LongestFirst(lens, m.large)
    && Moved(lens, cap, Singletons(m.large), m.medium, m.bins1, m.medium1)
    && Forward(lens, cap, true, Singletons(m.large), m.bins1, m.medium1, |m.bins1|)
    && (forall b :: 0 <= b < |m.bins1| ==> |m.bins1[b]| <= 2)
    && Moved(lens, cap, m.bins1, m.small, m.bins2, m.small2)
    && Backward(lens, cap, m.bins1, m.bins2, m.small2, 0)
  }

  /** After these passes each bin in turn takes longest sequences that fit, until none does. */
  ghost predicate ArePhases(lens: seq<nat>, cap: int, m: Phases) {
    && AllBelow(m.tiny, |lens|)
    && AreClasses(lens, cap, m) && ArePasses(lens, cap, m)
    && multiset(m.rest2) == multiset(m.medium1) + multiset(m.small2) + multiset(m.tiny)
    && Moved(lens, cap, m.bins2, m.rest2, m.bins3, m.rest3)
    && Forward(lens, cap, false, m.bins2, m.bins3, m.rest3, |m.bins3|)
  }

  /** What is left over has been shelved, and empty bins have been dropped. */
  ghost predicate IsModifiedFirstFit(lens: seq<nat>, cap: int, bins: seq<seq<nat>>) {
    exists m, shelves :: ArePhases(lens, cap, m) && AreShelves(lens, cap, m.rest3, shelves) &&
      bins == NonEmpty(m.bins3 + shelves)
  }

  ghost predicate AreShelves(lens: seq<nat>, cap: int, rest: seq<nat>, shelves: seq<seq<nat>>) {
    if rest == [] then shelves == [[]]
    else exists order: seq<nat> :: AllBelow(order, |lens|) && multiset(order) == multiset(rest) &&
                                   LongestFirst(lens, order) && IsLeastFull(lens, cap, order, shelves)
  }

  lemma {:induction false} OfKindMembers(lens: seq<nat>, cap: int, kind: Kind, n: nat)
    requires n <= |lens|
    ensures forall v: nat :: v in OfKind(lens, cap, kind, n) <==> v < n && KindOf(lens[v], cap) == kind
  {
    forall v: nat ensures v in OfKind(lens, cap, kind, n) <==> v < n && KindOf(lens[v], cap) == kind {
      OfKindCount(lens, cap, kind, n, v);
      assert v in OfKind(lens, cap, kind, n) <==> v in multiset(OfKind(lens, cap, kind, n));
    }
  }

  lemma SortedMembers(a: seq<nat>, b: seq<nat>)
    requires multiset(a) == multiset(b)
    ensures forall v: nat :: v in a <==> v in b
  {
    assert forall v: nat :: v in a <==> v in multiset(a);
    assert forall v: nat :: v in b <==> v in multiset(b);
  }

  lemma ClassesAreKinds(lens: seq<nat>, cap: int, m: Phases)
    requires cap > 0
    requires multiset(m.large) == multiset(OfKind(lens, cap, Large, |lens|))
    requires multiset(m.medium) == multiset(OfKind(lens, cap, Medium, |lens|))
    requires multiset(m.small) == multiset(OfKind(lens, cap, Small, |lens|))
    requires multiset(m.tiny) == multiset(OfKind(lens, cap, Tiny, |lens|))
    ensures AreClasses(lens, cap, m)
  {
    hide OfKind;
    OfKindMembers(lens, cap, Large, |lens|);
    OfKindMembers(lens, cap, Medium, |lens|);
    OfKindMembers(lens, cap, Small, |lens|);
    OfKindMembers(lens, cap, Tiny, |lens|);
    SortedMembers(m.large, OfKind(lens, cap, Large, |lens|));
    SortedMembers(m.medium, OfKind(lens, cap, Medium, |lens|));
    SortedMembers(m.small, OfKind(lens, cap, Small, |lens|));
    SortedMembers(m.tiny, OfKind(lens, cap, Tiny, |lens|));
  }

  // ----- the whole packer -----

  /** Modified first-fit decreasing yields a packing in which any two bins together overflow one. */
  method PackModifiedFirstFit(lens: seq<nat>, cap: int) returns (r: PackResult)
    ensures r.Rejected? <==> cap <= 0 || (exists i :: 0 <= i < |lens| && lens[i] == 0) || !AllFit(lens, cap)
    ensures r.Rejected? ==> r.error == if AllFit(lens, cap) || cap <= 0 || (exists i :: 0 <= i < |lens| && lens[i] == 0)
                                      then NonPositive else SequenceTooLong
    ensures r.Packed? ==> IsPacking(lens, cap, r.bins) && NoEmptyBin(r.bins) && PairwiseFull(lens, cap, r.bins)
    ensures r.Packed? ==> IsModifiedFirstFit(lens, cap, r.bins)
  {
    hide ArePhases, Shelved, LargeHeads, Saturated, Load, Flat, IsLeastFull;
    if cap <= 0 || exists i :: 0 <= i < |lens| && lens[i] == 0 {
      return Rejected(NonPositive);
    }
    if !AllFit(lens, cap) {
      return Rejected(SequenceTooLong);
    }
    var bins, rest, phases := PackAroundLarge(lens, cap);
    var leftovers := SortDescending(lens, rest);
    var shelves := PackLeftovers(lens, cap, leftovers);
    Assemble(lens, cap, bins, rest, leftovers, shelves);
    SameShelves(lens, cap, leftovers, rest, shelves);
    assert ArePhases(lens, cap, phases) && AreShelves(lens, cap, phases.rest3, shelves);
    return Packed(NonEmpty(bins + shelves));
  }

  /** One bin per large sequence, then three passes that fill these bins. */
  method PackAroundLarge(lens: seq<nat>, cap: int) returns (bins: seq<seq<nat>>, rest: seq<nat>, ghost m: Phases)
    requires AllFit(lens, cap) && cap > 0
    ensures ArePhases(lens, cap, m) && m.bins3 == bins && m.rest3 == rest
    ensures FitAll(lens, cap, bins) && LargeHeads(lens, cap, bins) && AllBelow(rest, |lens|)
    ensures multiset(Flat(bins)) + multiset(rest) == multiset(Iota(|lens|))
    ensures forall b :: 0 <= b < |bins| ==> Saturated(lens, cap, bins[b], rest)
  {
    var large, medium, small, tiny := Classify(lens, cap);
    var bins2, medium1, small1, passes := AddMediumAndSmall(lens, cap, large, medium, small);
    var tiny0 := SortAscending(lens, tiny);
    var rest0 := SortDescending(lens, medium1 + small1 + tiny0);
    bins, rest := FillGreedily(lens, cap, bins2, rest0);
    m := passes.(tiny := tiny0, rest2 := rest0, bins3 := bins, rest3 := rest);
    ClassesAreKinds(lens, cap, m);
    KindsPartition(lens, cap);
    assert multiset(rest0) == multiset(medium1) + multiset(small1) + multiset(tiny0);
    Accounting(multiset(large), multiset(medium), multiset(small), multiset(tiny), multiset(medium1),
               multiset(Flat(bins2)), multiset(small1), multiset(Flat(bins)), multiset(rest));
    HeadsKept(lens, cap, bins2, bins);
  }

  /** One bin per large sequence; then the forward pass over medium and the backward pass over small ones. */
  method AddMediumAndSmall(lens: seq<nat>, cap: int, large: seq<nat>, medium: seq<nat>, small: seq<nat>)
      returns (bins: seq<seq<nat>>, medium1: seq<nat>, small1: seq<nat>, ghost m: Phases)
    requires AllFit(lens, cap) && large == OfKind(lens, cap, Large, |lens|)
    requires AllBelow(medium, |lens|) && AllBelow(small, |lens|)
    ensures FitAll(lens, cap, bins) && LargeHeads(lens, cap, bins)
    ensures AllBelow(medium1, |lens|) && AllBelow(small1, |lens|)
    ensures ArePasses(lens, cap, m) && m.bins2 == bins && m.medium1 == medium1 && m.small2 == small1
    ensures multiset(m.large) == multiset(large) && multiset(m.medium) == multiset(medium)
    ensures multiset(m.small) == multiset(small)
    ensures multiset(Flat(bins)) + multiset(medium1) + multiset(small1) ==
            multiset(large) + multiset(medium) + multiset(small)
  {
    hide Flat, Load, LargeHeads, OfKind, Forward, Backward, SortDescending, SortAscending;
    var bins0 := Singletons(SortDescending(lens, large));
    OpenLarge(lens, cap);
    var bins1, rest1 := AddMedium(lens, cap, bins0, SortDescending(lens, medium));
    medium1 := rest1;
    bins, small1 := AddSmallPairs(lens, cap, bins1, SortAscending(lens, small));
    m := Phases(SortDescending(lens, large), SortDescending(lens, medium), SortAscending(lens, small), [],
                bins1, medium1, bins, small1, [], [], []);
    HeadsKept(lens, cap, bins0, bins1);
    HeadsKept(lens, cap, bins1, bins);
    TwoPasses(multiset(large), multiset(medium), multiset(small),
              multiset(Flat(bins1)), multiset(medium1), multiset(Flat(bins)), multiset(small1));
  }

  lemma SameShelves(lens: seq<nat>, cap: int, leftovers: seq<nat>, rest: seq<nat>, shelves: seq<seq<nat>>)
    requires multiset(leftovers) == multiset(rest)
    requires leftovers == [] ==> shelves == [[]]
    requires AllBelow(leftovers, |lens|) && LongestFirst(lens, leftovers)
    requires leftovers != [] ==> IsLeastFull(lens, cap, leftovers, shelves)
    ensures AreShelves(lens, cap, rest, shelves)
  {
    hide IsLeastFull;
    assert |multiset(leftovers)| == |leftovers| && |multiset(rest)| == |rest|;
  }

  lemma TwoPasses<T>(
      large: multiset<T>, medium: multiset<T>, small: multiset<T>, bins1: multiset<T>, medium1: multiset<T>,
      bins2: multiset<T>, small1: multiset<T>)
    requires bins1 + medium1 == large + medium && bins2 + small1 == bins1 + small
    ensures bins2 + medium1 + small1 == large + medium + small
  {
    forall v ensures (bins2 + medium1 + small1)[v] == (large + medium + small)[v] {
      assert (bins1 + medium1)[v] == (large + medium)[v];
      assert (bins2 + small1)[v] == (bins1 + small)[v];
    }
  }

  lemma HeadsKept(lens: seq<nat>, cap: int, before: seq<seq<nat>>, after: seq<seq<nat>>)
    requires LargeHeads(lens, cap, before) && |before| == |after|
    requires forall b :: 0 <= b < |before| ==> before[b] <= after[b]
    ensures LargeHeads(lens, cap, after)
  {
    forall b | 0 <= b < |after| ensures after[b] != [] && after[b][0] == before[b][0] {
      assert before[b] <= after[b];
    }
  }

  /** One bin per large sequence, each more than half full. */
  ghost predicate LargeHeads(lens: seq<nat>, cap: int, bins: seq<seq<nat>>) {
    forall b :: 0 <= b < |bins| ==> bins[b] != [] && bins[b][0] < |lens| && 2 * lens[bins[b][0]] > cap
  }

  lemma OpenLarge(lens: seq<nat>, cap: int)
    requires AllFit(lens, cap)
    ensures var large := OfKind(lens, cap, Large, |lens|);
      var bins := Singletons(SortDescending(lens, large));
      && FitAll(lens, cap, bins) && LargeHeads(lens, cap, bins)
      && multiset(Flat(bins)) == multiset(large)
  {
    var large := OfKind(lens, cap, Large, |lens|);
    OpenSorted(lens, cap, large, SortDescending(lens, large));
  }

  lemma OpenSorted(lens: seq<nat>, cap: int, large: seq<nat>, sorted: seq<nat>)
    requires AllFit(lens, cap)
    requires AllBelow(large, |lens|) && AllBelow(sorted, |lens|) && multiset(sorted) == multiset(large)
    requires forall i :: 0 <= i < |large| ==> KindOf(lens[large[i]], cap) == Large
    ensures FitAll(lens, cap, Singletons(sorted)) && LargeHeads(lens, cap, Singletons(sorted))
    ensures multiset(Flat(Singletons(sorted))) == multiset(large)
  {
    FlatSingletons(sorted);
    forall b | 0 <= b < |sorted| ensures Load(lens, [sorted[b]]) <= cap && 2 * lens[sorted[b]] > cap {
      LoadSingle(lens, sorted[b]);
      SortedIsLarge(lens, cap, large, sorted, b);
    }
  }

  lemma SortedIsLarge(lens: seq<nat>, cap: int, large: seq<nat>, sorted: seq<nat>, b: nat)
    requires AllBelow(large, |lens|) && AllBelow(sorted, |lens|) && multiset(sorted) == multiset(large)
    requires forall i :: 0 <= i < |large| ==> KindOf(lens[large[i]], cap) == Large
    requires b < |sorted|
    ensures 2 * lens[sorted[b]] > cap
  {
    SameElements(sorted, large, b);
  }

  lemma SameElements<T>(a: seq<T>, b: seq<T>, i: nat)
    requires multiset(a) == multiset(b) && i < |a|
    ensures exists j :: 0 <= j < |b| && b[j] == a[i]
  {
    assert a[i] in multiset(b);
  }

  /** No sequence is lost between the passes. */
  lemma Accounting<T>(
      large: multiset<T>, medium: multiset<T>, small: multiset<T>, tiny: multiset<T>, medium1: multiset<T>,
      bins2: multiset<T>, small1: multiset<T>, bins3: multiset<T>, rest: multiset<T>)
    requires bins2 + medium1 + small1 == large + medium + small
    requires bins3 + rest == bins2 + (medium1 + small1 + tiny)
    ensures bins3 + rest == large + medium + small + tiny
  {
    forall v ensures (bins3 + rest)[v] == (large + medium + small + tiny)[v] {
      assert (bins2 + medium1 + small1)[v] == (large + medium + small)[v];
    }
  }

  lemma Assemble(
      lens: seq<nat>, cap: int, bins3: seq<seq<nat>>, rest: seq<nat>, leftovers: seq<nat>, shelves: seq<seq<nat>>)
    requires LargeHeads(lens, cap, bins3)
    requires FitAll(lens, cap, bins3) && AllBelow(rest, |lens|)
    requires multiset(Flat(bins3)) + multiset(rest) == multiset(Iota(|lens|))
    requires forall b :: 0 <= b < |bins3| ==> Saturated(lens, cap, bins3[b], rest)
    requires multiset(leftovers) == multiset(rest)
    requires leftovers == [] ==> shelves == [[]]
    requires leftovers != [] ==> exists sizes :: Shelved(lens, cap, shelves, sizes, leftovers)
    ensures var bins := NonEmpty(bins3 + shelves);
      IsPacking(lens, cap, bins) && NoEmptyBin(bins) && PairwiseFull(lens, cap, bins)
  {
    hide Flat, Load, Iota;
    forall b | 0 <= b < |bins3| ensures bins3[b] != [] && 2 * Load(lens, bins3[b]) > cap {
      HeadFits(lens, bins3[b]);
    }
    PermutationIffMultiset(Flat(bins3), |lens|);
    if leftovers == [] {
      NonEmptyIsIdentity(bins3);
      assert |multiset(rest)| == 0;
    } else {
      NonEmptyIsIdentity(bins3 + shelves);
      FlatAppend(bins3, shelves);
      PermutationIffMultiset(Flat(bins3 + shelves), |lens|);
      forall a, b | 0 <= a < |bins3| && 0 <= b < |shelves| ensures Load(lens, bins3[a]) + Load(lens, shelves[b]) > cap {
        FlatMember(shelves, b, 0);
        assert shelves[b][0] in multiset(rest);
        var i :| 0 <= i < |rest| && rest[i] == shelves[b][0];
        HeadFits(lens, shelves[b]);
      }
      JoinPairwiseFull(lens, cap, bins3, shelves);
    }
  }

  lemma JoinPairwiseFull(lens: seq<nat>, cap: int, xs: seq<seq<nat>>, ys: seq<seq<nat>>)
    requires FitAll(lens, cap, xs) && FitAll(lens, cap, ys)
    requires forall b :: 0 <= b < |xs| ==> 2 * Load(lens, xs[b]) > cap
    requires PairwiseFull(lens, cap, ys)
    requires forall a, b :: 0 <= a < |xs| && 0 <= b < |ys| ==> Load(lens, xs[a]) + Load(lens, ys[b]) > cap
    ensures FitAll(lens, cap, xs + ys) && PairwiseFull(lens, cap, xs + ys)
  {
  }
}
