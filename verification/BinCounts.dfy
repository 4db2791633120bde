/** Adjusting the number of bins: the count is raised to a minimum and to a multiple by moving one
    sequence at a time out of the largest bins. */
module BinCounts {
  import opened Options
  import opened Arithmetic
  import opened Sequences
  import opened Sorting
  import opened Packing

  /** The number of bins that is asked for, given how many there are. */
  function TargetCount(current: nat, minimum: Option<nat>, multiple: Option<nat>): nat
    requires multiple.Some? ==> multiple.value >= 1
  {
    var atLeast := if minimum.Some? && current < minimum.value then minimum.value else current;
    if multiple.Some? && atLeast % multiple.value != 0
    then atLeast + (multiple.value - atLeast % multiple.value)
    else atLeast
  }

  /** It is the least count that keeps every bin and meets both constraints. */
  lemma TargetCountIsLeast(current: nat, minimum: Option<nat>, multiple: Option<nat>, n: nat)
    requires multiple.Some? ==> multiple.value >= 1
    ensures var t := TargetCount(current, minimum, multiple);
      && t >= current && (minimum.Some? ==> t >= minimum.value) && (multiple.Some? ==> t % multiple.value == 0)
      && (n >= current && (minimum.Some? ==> n >= minimum.value) && (multiple.Some? ==> n % multiple.value == 0) ==>
            t <= n)
  {
    if multiple.Some? {
      var atLeast := if minimum.Some? && current < minimum.value then minimum.value else current;
      NextMultiple(atLeast, multiple.value, n);
    }
  }

  lemma NextMultiple(a: nat, m: nat, n: nat)
    requires m >= 1
    ensures a % m != 0 ==> (a + (m - a % m)) % m == 0
    ensures a % m != 0 && n >= a && n % m == 0 ==> a + (m - a % m) <= n
  {
    var q := a / m;
    var next := a + (m - a % m);
    assert next == (q + 1) * m + 0;
    DivisionIsUnique(next, m, q + 1, 0);
    if n % m == 0 && n >= a && a % m != 0 {
      var p := n / m;
      assert n == p * m;
      SmallerQuotient(p, q, m);
    }
  }

  /** `after` keeps every bin of `before` up to sequences moved away, leaves no bin empty that had
      sequences, and fills each added bin with one sequence. */
  ghost predicate Spread(before: seq<seq<nat>>, after: seq<seq<nat>>, filled: nat)
    requires |before| <= filled <= |after|
  {
    && multiset(Flat(after)) == multiset(Flat(before))
    && (forall b :: 0 <= b < |before| ==> after[b] <= before[b] && (before[b] != [] ==> after[b] != []))
    && (forall b :: |before| <= b < filled ==> |after[b]| == 1)
    && (forall b :: filled <= b < |after| ==> after[b] == [])
  }

  /** Sequences come from the largest bins, of equally large ones from later ones first: a bin gives some away only
      once every bin before it in that order is down to one. */
  ghost predicate FromLargest(before: seq<seq<nat>>, after: seq<seq<nat>>)
    requires |before| <= |after|
  {
    forall a, b :: 0 <= a < |before| && 0 <= b < |before| && after[b] != before[b] && LargerBin(before, a, b) ==>
      |after[a]| <= 1
  }

  ghost predicate LargerBin(bins: seq<seq<nat>>, a: nat, b: nat)
    requires a < |bins| && b < |bins|
  {
    |bins[a]| > |bins[b]| || (|bins[a]| == |bins[b]| && a > b)
  }

  method AdjustBinCount(bins: seq<seq<nat>>, minimum: Option<nat>, multiple: Option<nat>) returns (r: PackResult)
    requires multiple.Some? ==> multiple.value >= 1
    ensures var target := TargetCount(|bins|, minimum, multiple);
      && (r.Rejected? <==> target != |bins| && |Flat(bins)| < target)
      // the branch for a failed redistribution is never taken
      && (r.Rejected? ==> r.error == TooFewSequences)
      && (r.Packed? ==> |r.bins| == target >= |bins| && Spread(bins, r.bins, target) && FromLargest(bins, r.bins))
  {
    var current := |bins|;
    var target := TargetCount(current, minimum, multiple);
    TargetCountIsLeast(current, minimum, multiple, 0);
    if target == current {
      return Packed(bins);
    }
    if |Flat(bins)| < target {
      return Rejected(TooFewSequences);
    }
    var adjusted := Redistribute(bins, target);
    return Packed(adjusted);
  }

  /** Source bins are visited from the largest to the smallest, and are left with one sequence. */
  method Redistribute(bins: seq<seq<nat>>, target: nat) returns (adjusted: seq<seq<nat>>)
    requires |bins| <= target <= |Flat(bins)|
    ensures |adjusted| == target && Spread(bins, adjusted, target) && FromLargest(bins, adjusted)
  {
    hide Flat;
    var current := |bins|;
    adjusted := bins + Empties(target - current);
    AppendEmpty(bins, target - current);
    var order := LargestFirst(bins);
    var source := 0;
    for k := current to target
      invariant |adjusted| == target && Spread(bins, adjusted, k)
      invariant 0 <= source <= current && Drained(adjusted, order, source)
      invariant forall s :: source < s < current ==> adjusted[order[s]] == bins[order[s]]
    {
      source := NextSource(adjusted, order, source);
      if source == |order| {
        // every source bin is down to one sequence: there were too few of them, which was checked
        NothingLeftToMove(bins, adjusted, order, k);
        assert false;
      }
      MoveLast(bins, adjusted, order, source, k);
      adjusted := MovedLast(adjusted, order[source], k);
    }
    TakenFromLargest(bins, adjusted, order, source);
  }

  lemma TakenFromLargest(bins: seq<seq<nat>>, adjusted: seq<seq<nat>>, order: seq<nat>, source: nat)
    requires |bins| <= |adjusted| && order == LargestFirst(bins) && source <= |bins| && Drained(adjusted, order, source)
    requires forall s :: source < s < |bins| ==> adjusted[order[s]] == bins[order[s]]
    ensures FromLargest(bins, adjusted)
  {
    forall a, b | 0 <= a < |bins| && 0 <= b < |bins| && adjusted[b] != bins[b] && LargerBin(bins, a, b)
      ensures |adjusted[a]| <= 1
    {
      PermutationCovers(order, |bins|, a);
      PermutationCovers(order, |bins|, b);
      var i :| 0 <= i < |order| && order[i] == a;
      var j :| 0 <= j < |order| && order[j] == b;
      assert j <= source && i != j && !LargerBin(bins, order[j], order[i]);
    }
  }

  /** The first source bin, from the given one on, that has a sequence to spare. */
  method NextSource(adjusted: seq<seq<nat>>, order: seq<nat>, from: nat) returns (source: nat)
    requires AllBelow(order, |adjusted|) && from <= |order| && Drained(adjusted, order, from)
    ensures from <= source <= |order| && Drained(adjusted, order, source)
    ensures source < |order| ==> |adjusted[order[source]]| >= 2
  {
    source := from;
    while source < |order| && |adjusted[order[source]]| <= 1
      invariant from <= source <= |order| && Drained(adjusted, order, source)
    {
      source := source + 1;
    }
  }

  /** The last sequence of bin `from` becomes the only one of the empty bin k. */
  function MovedLast(ss: seq<seq<nat>>, from: nat, k: nat): seq<seq<nat>>
    requires from < k < |ss| && ss[from] != []
  {
    var last := |ss[from]| - 1;
    ss[k := [ss[from][last]]][from := ss[from][..last]]
  }

  ghost predicate Drained(adjusted: seq<seq<nat>>, order: seq<nat>, n: nat)
    requires AllBelow(order, |adjusted|) && n <= |order|
  {
    forall s :: 0 <= s < n ==> |adjusted[order[s]]| <= 1
  }

  function LargestFirst(bins: seq<seq<nat>>): (order: seq<nat>)
    ensures IsPermutation(order, |bins|)
    ensures forall i, j :: 0 <= i < j < |order| ==> LargerBin(bins, order[i], order[j])
  {
    var sizes := seq(|bins|, i requires 0 <= i < |bins| => (|bins[i]| as int, i as int));
    ArgSortCorrect(sizes, DecreasingPair);
    ArgSort(sizes, DecreasingPair)
  }

  function Empties(n: nat): seq<seq<nat>> {
    seq(n, _ => [])
  }

  lemma {:induction false} AppendEmpty(bins: seq<seq<nat>>, n: nat)
    ensures Flat(bins + Empties(n)) == Flat(bins)
  {
    FlatAppend(bins, Empties(n));
    FlatOfNothing(Empties(n));
    assert Flat(bins) + [] == Flat(bins);
  }

  lemma {:induction false} FlatAtMost(ss: seq<seq<nat>>, k: nat)
    requires forall b :: 0 <= b < |ss| ==> |ss[b]| <= if b < k then 1 else 0
    ensures |Flat(ss)| <= k
  {
    if ss == [] {
    } else {
      FlatAtMost(ss[1..], if k == 0 then 0 else k - 1);
    }
  }

  lemma NothingLeftToMove(bins: seq<seq<nat>>, adjusted: seq<seq<nat>>, order: seq<nat>, k: nat)
    requires IsPermutation(order, |bins|) && |bins| <= k < |adjusted| && Spread(bins, adjusted, k)
    requires Drained(adjusted, order, |order|)
    ensures |Flat(bins)| <= k
  {
    forall b | 0 <= b < |bins| ensures |adjusted[b]| <= 1 {
      PermutationCovers(order, |bins|, b);
    }
    FlatAtMost(adjusted, k);
    assert |multiset(Flat(adjusted))| == |multiset(Flat(bins))|;
  }

  lemma MoveLast(bins: seq<seq<nat>>, adjusted: seq<seq<nat>>, order: seq<nat>, source: nat, k: nat)
    requires |bins| <= k < |adjusted| && Spread(bins, adjusted, k)
    requires IsPermutation(order, |bins|) && source < |bins| && Drained(adjusted, order, source)
    requires |adjusted[order[source]]| >= 2
    ensures Spread(bins, MovedLast(adjusted, order[source], k), k + 1)
    ensures Drained(MovedLast(adjusted, order[source], k), order, source)
  {
    var from := order[source];
    MoveLastKeepsAll(adjusted, from, k);
    MoveLastSpreads(bins, adjusted, from, k);
    var after := MovedLast(adjusted, from, k);
    assert forall s :: 0 <= s < source ==> after[order[s]] == adjusted[order[s]];
  }

  lemma MoveLastSpreads(bins: seq<seq<nat>>, adjusted: seq<seq<nat>>, from: nat, k: nat)
    requires |bins| <= k < |adjusted| && Spread(bins, adjusted, k) && from < |bins| && |adjusted[from]| >= 2
    requires multiset(Flat(MovedLast(adjusted, from, k))) == multiset(Flat(adjusted))
    ensures Spread(bins, MovedLast(adjusted, from, k), k + 1)
  {
    hide Flat;
    var after := MovedLast(adjusted, from, k);
    assert forall b :: 0 <= b < |adjusted| && b != from && b != k ==> after[b] == adjusted[b];
    assert after[from] <= adjusted[from] <= bins[from];
  }

  lemma MoveLastKeepsAll(ss: seq<seq<nat>>, from: nat, k: nat)
    requires from < k < |ss| && ss[from] != [] && ss[k] == []
    ensures multiset(Flat(MovedLast(ss, from, k))) == multiset(Flat(ss))
  {
    var last := |ss[from]| - 1;
    var init, x := ss[from][..last], ss[from][last];
    var mid := ss[k := [x]];
    assert ss[from] == init + [x];
    FlatReplace(ss, k, [x]);
    FlatReplace(mid, from, init);
    calc {
      multiset(Flat(mid[from := init])) + multiset(ss[from]);
      multiset(Flat(mid)) + multiset(init);
      multiset(Flat(ss)) + multiset([x]) + multiset(init);
      multiset(Flat(ss)) + multiset(ss[from]);
    }
    CancelCommon(multiset(Flat(mid[from := init])), multiset(Flat(ss)), multiset(ss[from]));
  }

  // ----- what adjusting keeps -----

  lemma PrefixLoad(lens: seq<nat>, bin: seq<nat>, part: seq<nat>)
    requires AllBelow(bin, |lens|) && part <= bin
    ensures AllBelow(part, |lens|) && Load(lens, part) <= Load(lens, bin)
  {
    var rest := bin[|part|..];
    assert bin == part + rest;
    assert Gather(lens, bin) == Gather(lens, part) + Gather(lens, rest);
    SumAppend(Gather(lens, part), Gather(lens, rest));
    SumNonNegative(Gather(lens, rest));
  }

  /** Adjusting a packing gives a packing. */
  lemma SpreadKeepsPacking(lens: seq<nat>, cap: int, before: seq<seq<nat>>, after: seq<seq<nat>>)
    requires AllFit(lens, cap) && IsPacking(lens, cap, before)
    requires |before| <= |after| && Spread(before, after, |after|)
    ensures IsPacking(lens, cap, after)
    ensures NoEmptyBin(before) ==> NoEmptyBin(after)
  {
    PermutationIffMultiset(Flat(before), |lens|);
    PermutationIffMultiset(Flat(after), |lens|);
    forall b | 0 <= b < |after| ensures AllBelow(after[b], |lens|) && Load(lens, after[b]) <= cap {
      if b < |before| {
        PrefixLoad(lens, before[b], after[b]);
      } else {
        FlatMember(after, b, 0);
        assert after[b] == [after[b][0]];
        LoadSingle(lens, after[b][0]);
      }
    }
  }
}
