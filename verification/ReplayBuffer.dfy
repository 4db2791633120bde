/** The replay buffer of asynchronous GRPO: three parallel lists, an all-or-nothing sampler that
    serves one training step, and in-place removal in descending index order. */
module ReplayBuffers {
  import opened Arithmetic
  import opened Sequences

  datatype PushStatus = Full | Success

  datatype SampleError = StaleTrajectory | NoGroupsRequested

  datatype SampleResult<+T> =
    | Raised(error: SampleError)
    | Waiting
    | Sampled(items: seq<T>, averageAge: real)

  /** The state of a buffer as a value: parallel lists and the largest target ever pushed. */
  datatype Buffer<T> = Buffer(trajectories: seq<T>, versions: seq<int>, targets: seq<int>, last: int)
  {
    predicate Aligned() {
      |trajectories| == |versions| == |targets|
    }
  }

  // ----- what a push does -----

  function Push<T>(b: Buffer<T>, maxSize: nat, x: T, version: int, target: int): (PushStatus, Buffer<T>) {
    if |b.trajectories| >= maxSize then
      (Full, b)
    else
      (Success, Buffer(b.trajectories + [x], b.versions + [version], b.targets + [target], Max(b.last, target)))
  }

  // ----- what a sample does -----

  /** The oldest generation version that a step at version w still accepts. */
  function MinValidVersion(w: int, maxAge: nat): int {
    Max(0, w - maxAge)
  }

  /** Positions from i on whose version lies in [lo, hi], in increasing order. */
  function InWindow(versions: seq<int>, lo: int, hi: int, i: nat): (r: seq<nat>)
    requires i <= |versions|
    ensures Increasing(r) && Within(r, i, |versions|)
    ensures forall k :: k in r <==> i <= k < |versions| && lo <= versions[k] <= hi
    decreases |versions| - i
  {
    if i == |versions| then []
    else
      var rest := InWindow(versions, lo, hi, i + 1);
      assert forall k :: 0 <= k < |rest| ==> rest[k] in rest;
      if lo <= versions[i] <= hi then [i] + rest else rest
  }

  lemma FirstStaysFirst(s: seq<nat>, rest: seq<nat>)
    requires s != [] && Increasing(s) && Increasing(rest) && forall k :: k in rest ==> k in s[1..]
    ensures Increasing([s[0]] + rest)
  {
    assert forall i :: 0 <= i < |rest| ==> rest[i] in rest;
  }

  /** Those of the given positions whose target is w, in the same order. */
  function AimedAt(targets: seq<int>, w: int, indices: seq<nat>): (r: seq<nat>)
    requires Within(indices, 0, |targets|) && Increasing(indices)
    ensures Increasing(r) && |r| <= |indices|
    ensures forall k :: k in r <==> k in indices && k < |targets| && targets[k] == w
  {
    if indices == [] then []
    else
      var rest := AimedAt(targets, w, indices[1..]);
      assert indices == [indices[0]] + indices[1..];
      FirstStaysFirst(indices, rest);
      if targets[indices[0]] == w then [indices[0]] + rest else rest
  }

  ghost predicate Within(s: seq<nat>, lo: nat, hi: nat) {
    forall i :: 0 <= i < |s| ==> lo <= s[i] < hi
  }

  /** The elements of s from position i on that are not at a dropped position. */
  function Kept<X>(s: seq<X>, drop: set<nat>, i: nat): seq<X>
    requires i <= |s|
    decreases |s| - i
  {
    if i == |s| then []
    else if i in drop then Kept(s, drop, i + 1)
    else [s[i]] + Kept(s, drop, i + 1)
  }

  /** The positions from i on that are not dropped, in increasing order. */
  function KeptAt(n: nat, drop: set<nat>, i: nat): (r: seq<nat>)
    requires i <= n
    ensures Increasing(r) && Within(r, i, n)
    ensures forall k :: k in r <==> i <= k < n && k !in drop
    decreases n - i
  {
    if i == n then []
    else
      var rest := KeptAt(n, drop, i + 1);
      assert forall k :: 0 <= k < |rest| ==> rest[k] in rest;
      if i in drop then rest else [i] + rest
  }

  /** The elements of s from position i on that are at a dropped position. */
  function Picked<X>(s: seq<X>, drop: set<nat>, i: nat): seq<X>
    requires i <= |s|
    decreases |s| - i
  {
    if i == |s| then []
    else if i in drop then [s[i]] + Picked(s, drop, i + 1)
    else Picked(s, drop, i + 1)
  }

  function ToSet(s: seq<nat>): (r: set<nat>) {
    set k | k in s
  }

  /** The positions a successful sample removes: the first n in-window entries aimed at w. */
  function Selected<T>(b: Buffer<T>, n: nat, w: int, maxAge: nat): (r: seq<nat>)
    requires b.Aligned()
    ensures Increasing(r) && |r| <= n && Within(r, 0, |b.targets|)
  {
    var valid := InWindow(b.versions, MinValidVersion(w, maxAge), w, 0);
    var aimed := AimedAt(b.targets, w, valid);
    assert forall k :: 0 <= k < |aimed| ==> aimed[k] in aimed;
    if n <= |aimed| then aimed[..n] else aimed
  }

  /** The positions a successful sample leaves in the buffer. */
  ghost function Survivors<T>(b: Buffer<T>, n: nat, w: int, maxAge: nat): (r: seq<nat>)
    requires b.Aligned()
    ensures Increasing(r) && Within(r, 0, |b.targets|)
    ensures forall k :: k in r <==> 0 <= k < |b.targets| && k !in Selected(b, n, w, maxAge)
  {
    KeptAt(|b.targets|, ToSet(Selected(b, n, w, maxAge)), 0)
  }

  /** Entry i of buffer a and entry j of buffer b have the same trajectory, version and target. */
  ghost predicate SameEntry<T>(a: Buffer<T>, i: nat, b: Buffer<T>, j: nat)
    requires a.Aligned() && b.Aligned()
  {
    i < |a.targets| && j < |b.targets| && a.trajectories[i] == b.trajectories[j] &&
    a.versions[i] == b.versions[j] && a.targets[i] == b.targets[j]
  }

  function Drop<T>(b: Buffer<T>, indices: seq<nat>): Buffer<T>
    requires b.Aligned()
  {
    Buffer(Kept(b.trajectories, ToSet(indices), 0), Kept(b.versions, ToSet(indices), 0),
           Kept(b.targets, ToSet(indices), 0), b.last)
  }

  function Sample<T>(b: Buffer<T>, n: nat, w: int, maxAge: nat): (SampleResult<T>, Buffer<T>)
    requires b.Aligned()
  {
    var lo := MinValidVersion(w, maxAge);
    var valid := InWindow(b.versions, lo, w, 0);
    var selected := Selected(b, n, w, maxAge);
    if b.trajectories == [] then (Waiting, b)
    else if exists v :: v in b.versions && v < lo then (Raised(StaleTrajectory), b)
    else if valid == [] || |valid| < n || |selected| < n then (Waiting, b)
    else if n == 0 then (Raised(NoGroupsRequested), b)
    else
      var age := w as real - Sum(Picked(b.versions, ToSet(selected), 0)) as real / n as real;
      (Sampled(Picked(b.trajectories, ToSet(selected), 0), age), Drop(b, selected))
  }

  // ----- laws of removal -----

  lemma {:induction false} PickedAndKeptSplit<X>(s: seq<X>, drop: set<nat>, i: nat)
    requires i <= |s|
    ensures multiset(Kept(s, drop, i)) + multiset(Picked(s, drop, i)) == multiset(s[i..])
    ensures |Kept(s, drop, i)| + |Picked(s, drop, i)| == |s| - i
    decreases |s| - i
  {
    if i == |s| {
    } else {
      PickedAndKeptSplit(s, drop, i + 1);
      assert s[i..] == [s[i]] + s[i + 1..];
    }
  }

  /** Picking at increasing positions lists exactly the elements at those positions, in order. */
  lemma {:induction false} PickedIsFetch<X>(s: seq<X>, indices: seq<nat>, i: nat)
    requires i <= |s| && Increasing(indices) && Within(indices, i, |s|)
    ensures |Picked(s, ToSet(indices), i)| == |indices|
    ensures forall k :: 0 <= k < |indices| ==> Picked(s, ToSet(indices), i)[k] == s[indices[k]]
    decreases |s| - i
  {
    if indices == [] {
      NothingPicked(s, ToSet(indices), i);
    } else if i in ToSet(indices) {
      var rest := indices[1..];
      FirstIsLeast(indices, i, |s|);
      PickedIsFetch(s, rest, i + 1);
      PickedDependsOnTail(s, ToSet(indices), ToSet(rest), i + 1);
      assert Picked(s, ToSet(indices), i) == [s[i]] + Picked(s, ToSet(rest), i + 1);
    } else {
      assert forall k :: 0 <= k < |indices| ==> indices[k] in indices;
      PickedIsFetch(s, indices, i + 1);
    }
  }

  lemma FirstIsLeast(indices: seq<nat>, i: nat, n: nat)
    requires Increasing(indices) && Within(indices, i, n) && i in ToSet(indices)
    ensures indices[0] == i && Increasing(indices[1..]) && Within(indices[1..], i + 1, n)
    ensures forall k :: k > i ==> (k in ToSet(indices) <==> k in ToSet(indices[1..]))
  {
    var p :| 0 <= p < |indices| && indices[p] == i;
    assert indices[0] == i;
    assert indices == [i] + indices[1..];
  }

  /** What is kept of a list lies at the positions that are not dropped, whatever the list holds. */
  lemma {:induction false} KeptIsFetch<X>(s: seq<X>, drop: set<nat>, i: nat)
    requires i <= |s|
    ensures |Kept(s, drop, i)| == |KeptAt(|s|, drop, i)|
    ensures forall k :: 0 <= k < |Kept(s, drop, i)| ==> Kept(s, drop, i)[k] == s[KeptAt(|s|, drop, i)[k]]
    decreases |s| - i
  {
    if i == |s| {
    } else {
      KeptIsFetch(s, drop, i + 1);
      var kept, at := Kept(s, drop, i + 1), KeptAt(|s|, drop, i + 1);
      if i in drop {
        assert Kept(s, drop, i) == kept && KeptAt(|s|, drop, i) == at;
      } else {
        assert Kept(s, drop, i) == [s[i]] + kept && KeptAt(|s|, drop, i) == [i] + at;
      }
    }
  }

  lemma {:induction false} NothingPicked<X>(s: seq<X>, drop: set<nat>, i: nat)
    requires i <= |s|
    requires forall k :: k in drop ==> k < i
    ensures Picked(s, drop, i) == [] && Kept(s, drop, i) == s[i..]
    decreases |s| - i
  {
    if i == |s| {
    } else {
      NothingPicked(s, drop, i + 1);
      assert s[i..] == [s[i]] + s[i + 1..];
    }
  }

  lemma {:induction false} PickedDependsOnTail<X>(s: seq<X>, d: set<nat>, e: set<nat>, i: nat)
    requires i <= |s|
    requires forall k :: i <= k ==> (k in d <==> k in e)
    ensures Picked(s, d, i) == Picked(s, e, i) && Kept(s, d, i) == Kept(s, e, i)
    decreases |s| - i
  {
    if i == |s| {
    } else {
      PickedDependsOnTail(s, d, e, i + 1);
    }
  }

  /** Popping a position below everything already removed removes exactly that position. */
  lemma {:induction false} PopBelow<X>(s: seq<X>, drop: set<nat>, idx: nat, i: nat)
    requires i <= idx < |s|
    requires forall k :: k in drop ==> idx < k
    ensures var r := Kept(s, drop, i);
      idx - i < |r| && r[idx - i] == s[idx] &&
      r[..idx - i] + r[idx - i + 1..] == Kept(s, drop + {idx}, i)
    decreases idx - i
  {
    if i == idx {
      PickedDependsOnTail(s, drop, drop + {idx}, i + 1);
    } else {
      PopBelow(s, drop, idx, i + 1);
      var r, t := Kept(s, drop, i), Kept(s, drop, i + 1);
      assert r == [s[i]] + t;
      WithoutOneMore(s[i], t, idx - i);
    }
  }

  lemma WithoutOneMore<X>(x: X, t: seq<X>, k: nat)
    requires 1 <= k <= |t|
    ensures ([x] + t)[k] == t[k - 1]
    ensures ([x] + t)[..k] + ([x] + t)[k + 1..] == [x] + (t[..k - 1] + t[k..])
  {
  }

  lemma {:induction false} SumBounds(s: seq<int>, lo: int, hi: int)
    requires forall k :: 0 <= k < |s| ==> lo <= s[k] <= hi
    ensures lo * |s| <= Sum(s) <= hi * |s|
  {
    if s == [] {
    } else {
      SumBounds(s[1..], lo, hi);
      assert lo * |s| == lo + lo * |s[1..]| && hi * |s| == hi + hi * |s[1..]|;
    }
  }

  /** A push that succeeds appends one entry and leaves the others where they are; a push that fails
      changes nothing. */
  lemma PushEffect<T>(b: Buffer<T>, maxSize: nat, x: T, version: int, target: int)
    requires b.Aligned()
    ensures var (status, after) := Push(b, maxSize, x, version, target);
      && after.Aligned()
      && (status == Full <==> maxSize <= |b.targets|)
      && (status == Full ==> after == b)
      && (status == Success ==>
            && |after.targets| == |b.targets| + 1
            && (forall k :: 0 <= k < |b.targets| ==> SameEntry(after, k, b, k))
            && after.trajectories[|b.targets|] == x && after.versions[|b.targets|] == version
            && after.targets[|b.targets|] == target
            && multiset(after.targets) == multiset(b.targets) + multiset{target}
            && after.last >= target && after.last >= b.last && after.last in {b.last, target})
  {
  }

  /** What a successful sample leaves: every entry that was not selected, with its own version and
      target, in the order in which the entries were pushed. */
  lemma {:induction false} SurvivorsKept<T>(b: Buffer<T>, n: nat, w: int, maxAge: nat)
    requires b.Aligned() && Sample(b, n, w, maxAge).0.Sampled?
    ensures var after, kept := Sample(b, n, w, maxAge).1, Survivors(b, n, w, maxAge);
      && after.Aligned() && |after.targets| == |kept|
      && forall k :: 0 <= k < |kept| ==> SameEntry(after, k, b, kept[k])
  {
    var drop := ToSet(Selected(b, n, w, maxAge));
    KeptIsFetch(b.trajectories, drop, 0);
    KeptIsFetch(b.versions, drop, 0);
    KeptIsFetch(b.targets, drop, 0);
  }

  lemma {:induction false} TargetsLeft<T>(b: Buffer<T>, n: nat, w: int, maxAge: nat)
    requires b.Aligned() && |Selected(b, n, w, maxAge)| == n
    ensures var left := Kept(b.targets, ToSet(Selected(b, n, w, maxAge)), 0);
      && |left| == |b.targets| - n && multiset(b.targets)[w] >= n
      && multiset(left) == multiset(b.targets)[w := multiset(b.targets)[w] - n]
  {
    var sel := Selected(b, n, w, maxAge);
    SelectedMeaning(b, n, w, maxAge);
    PickedAndKeptSplit(b.targets, ToSet(sel), 0);
    assert b.targets[0..] == b.targets;
    PickedIsFetch(b.targets, sel, 0);
    assert forall k :: 0 <= k < n ==> sel[k] in sel;
    AllEqualCount(Picked(b.targets, ToSet(sel), 0), w);
  }

  /** What a successful sample means: n served groups, the oldest ones aimed at w, and every other
      entry kept whole and in order; anything else leaves the buffer untouched. */
  lemma {:induction false} SampleEffect<T>(b: Buffer<T>, n: nat, w: int, maxAge: nat)
    requires b.Aligned()
    ensures var (r, after) := Sample(b, n, w, maxAge);
      && after.Aligned() && after.last == b.last
      && (!r.Sampled? ==> after == b)
      && (r == Raised(StaleTrajectory) <==> exists v :: v in b.versions && (v < w - maxAge || v < 0))
      && (n > 0 ==> (r.Sampled? <==> !(exists v :: v in b.versions && v < MinValidVersion(w, maxAge)) &&
                                     |Selected(b, n, w, maxAge)| == n))
      && (r.Sampled? ==>
            && n > 0 && |r.items| == n == |Selected(b, n, w, maxAge)|
            && (forall k :: 0 <= k < n ==> r.items[k] == b.trajectories[Selected(b, n, w, maxAge)[k]])
            && |after.targets| == |Survivors(b, n, w, maxAge)| == |b.targets| - n
            && (forall k :: 0 <= k < |after.targets| ==> SameEntry(after, k, b, Survivors(b, n, w, maxAge)[k]))
            && multiset(b.targets)[w] >= n
            && multiset(after.targets) == multiset(b.targets)[w := multiset(b.targets)[w] - n]
            && multiset(b.trajectories) == multiset(after.trajectories) + multiset(r.items)
            && 0.0 <= r.averageAge <= maxAge as real)
  {
    var (r, after) := Sample(b, n, w, maxAge);
    if r.Sampled? {
      var sel := Selected(b, n, w, maxAge);
      PickedAndKeptSplit(b.trajectories, ToSet(sel), 0);
      assert b.trajectories[0..] == b.trajectories;
      PickedIsFetch(b.trajectories, sel, 0);
      TargetsLeft(b, n, w, maxAge);
      AgeInRange(b, n, w, maxAge);
      SurvivorsKept(b, n, w, maxAge);
    } else if b.trajectories == [] {
      assert b.versions == [];
    }
  }

  lemma SelectedMeaning<T>(b: Buffer<T>, n: nat, w: int, maxAge: nat)
    requires b.Aligned()
    ensures var sel := Selected(b, n, w, maxAge);
      && (forall k :: k in sel ==> k < |b.targets| && b.targets[k] == w &&
                                   MinValidVersion(w, maxAge) <= b.versions[k] <= w)
      // first in, first out: a ready entry is passed over only when n earlier ones were taken
      && (forall k | 0 <= k < |b.targets| && b.targets[k] == w && k !in sel &&
                     MinValidVersion(w, maxAge) <= b.versions[k] <= w ::
            |sel| == n && forall j :: j in sel ==> j < k)
  {
    var aimed := AimedAt(b.targets, w, InWindow(b.versions, MinValidVersion(w, maxAge), w, 0));
    var sel := Selected(b, n, w, maxAge);
    forall k | k in sel
      ensures k < |b.targets| && b.targets[k] == w && MinValidVersion(w, maxAge) <= b.versions[k] <= w
    {
      assert k in aimed;
    }
    forall k | 0 <= k < |b.targets| && b.targets[k] == w && k !in sel &&
      MinValidVersion(w, maxAge) <= b.versions[k] <= w
      ensures |sel| == n && forall j :: j in sel ==> j < k
    {
      assert k in aimed;
      var p :| 0 <= p < |aimed| && aimed[p] == k;
      assert forall q :: 0 <= q < |sel| ==> sel[q] in sel && sel[q] == aimed[q];
    }
  }

  /** When every entry is in the window, a step is served exactly when enough entries aim at it. */
  lemma {:induction false} ServedIffEnough<T>(b: Buffer<T>, n: nat, w: int, maxAge: nat)
    requires b.Aligned() && n > 0
    requires forall v :: v in b.versions ==> MinValidVersion(w, maxAge) <= v <= w
    ensures Sample(b, n, w, maxAge).0.Sampled? <==> multiset(b.targets)[w] >= n
  {
    SampleEffect(b, n, w, maxAge);
    var sel := Selected(b, n, w, maxAge);
    if |sel| < n {
      var drop := ToSet(sel);
      PickedAndKeptSplit(b.targets, drop, 0);
      PickedIsFetch(b.targets, sel, 0);
      assert b.targets[0..] == b.targets;
      assert w !in Kept(b.targets, drop, 0) by { NoneAimedLeft(b, n, w, maxAge); }
      assert multiset(b.targets)[w] == multiset(Picked(b.targets, drop, 0))[w];
      CountAtMost(Picked(b.targets, drop, 0), w);
    }
  }

  /** A sample that finds fewer than n groups would leave none of those it could take. */
  lemma NoneAimedLeft<T>(b: Buffer<T>, n: nat, w: int, maxAge: nat)
    requires b.Aligned() && |Selected(b, n, w, maxAge)| < n
    requires forall v :: v in b.versions ==> MinValidVersion(w, maxAge) <= v <= w
    ensures w !in Kept(b.targets, ToSet(Selected(b, n, w, maxAge)), 0)
  {
    SelectedMeaning(b, n, w, maxAge);
    var drop := ToSet(Selected(b, n, w, maxAge));
    KeptIsFetch(b.targets, drop, 0);
    var kept := KeptAt(|b.targets|, drop, 0);
    forall k | 0 <= k < |kept| ensures b.targets[kept[k]] != w {
      assert kept[k] in kept;
      assert b.versions[kept[k]] in b.versions;
    }
  }

  lemma CountAtMost(s: seq<int>, x: int)
    ensures multiset(s)[x] <= |s|
  {
    assert |multiset(s)| == |s|;
    assert multiset(s)[x := 0] <= multiset(s);
  }

  lemma {:induction false} AllEqualCount(s: seq<int>, w: int)
    requires forall k :: 0 <= k < |s| ==> s[k] == w
    ensures multiset(s) == multiset{}[w := |s|]
  {
    if s == [] {
    } else {
      assert s == [s[0]] + s[1..];
      AllEqualCount(s[1..], w);
    }
  }

  lemma {:induction false} AgeInRange<T>(b: Buffer<T>, n: nat, w: int, maxAge: nat)
    requires b.Aligned() && n > 0 && |Selected(b, n, w, maxAge)| == n
    ensures var age := w as real - Sum(Picked(b.versions, ToSet(Selected(b, n, w, maxAge)), 0)) as real / n as real;
      0.0 <= age <= maxAge as real
  {
    var sel := Selected(b, n, w, maxAge);
    var picked := Picked(b.versions, ToSet(sel), 0);
    SelectedMeaning(b, n, w, maxAge);
    PickedIsFetch(b.versions, sel, 0);
    assert forall k :: 0 <= k < |picked| ==> sel[k] in sel && picked[k] == b.versions[sel[k]];
    SumBounds(picked, w - maxAge, w);
    QuotientBounds(Sum(picked), n, w - maxAge, w);
  }

  /** How old the versions at these positions are for a step at version w. */
  function Ages(versions: seq<int>, indices: seq<nat>, w: int): (r: seq<int>)
    requires Within(indices, 0, |versions|)
  {
    seq(|indices|, k requires 0 <= k < |indices| => w - versions[indices[k]])
  }

  /** What is subtracted from the version of the step is the mean of the versions: their ages are averaged. */
  lemma AverageOfAges<T>(b: Buffer<T>, n: nat, w: int, maxAge: nat)
    requires b.Aligned() && n > 0 && |Selected(b, n, w, maxAge)| == n
    ensures var sel := Selected(b, n, w, maxAge);
      var age := w as real - Sum(Picked(b.versions, ToSet(sel), 0)) as real / n as real;
      age * n as real == Sum(Ages(b.versions, sel, w)) as real
  {
    var sel := Selected(b, n, w, maxAge);
    var picked, ages := Picked(b.versions, ToSet(sel), 0), Ages(b.versions, sel, w);
    PickedIsFetch(b.versions, sel, 0);
    forall k | 0 <= k < n ensures ages[k] == w - picked[k] {
      assert sel[k] in sel;
    }
    SumOfDifferences(picked, ages, w);
    MeanTimes(w, Sum(picked), n);
  }

  /** The average age of the groups that are served. */
  lemma SampledAge<T>(b: Buffer<T>, n: nat, w: int, maxAge: nat)
    requires b.Aligned() && Sample(b, n, w, maxAge).0.Sampled?
    ensures var sel := Selected(b, n, w, maxAge);
      |sel| == n > 0 && Sample(b, n, w, maxAge).0.averageAge * n as real == Sum(Ages(b.versions, sel, w)) as real
  {
    hide Sum, Picked, Ages;
    AverageOfAges(b, n, w, maxAge);
  }

  lemma {:induction false} SumOfDifferences(s: seq<int>, t: seq<int>, w: int)
    requires |s| == |t| && forall k :: 0 <= k < |s| ==> t[k] == w - s[k]
    ensures Sum(t) == w * |s| - Sum(s)
  {
    if s == [] {
    } else {
      SumOfDifferences(s[1..], t[1..], w);
      assert w * |s| == w + w * |s[1..]|;
    }
  }

  lemma MeanTimes(w: int, total: int, n: nat)
    requires n > 0
    ensures (w as real - total as real / n as real) * n as real == (w * n - total) as real
  {
    var q := total as real / n as real;
    assert q * n as real == total as real;
    assert w as real * n as real == (w * n) as real;
  }

  lemma QuotientBounds(total: int, n: nat, lo: int, hi: int)
    requires n > 0 && lo * n <= total <= hi * n
    ensures lo as real <= total as real / n as real <= hi as real
  {
    var q := total as real / n as real;
    assert q * n as real == total as real;
    assert (lo * n) as real == lo as real * n as real && (hi * n) as real == hi as real * n as real;
    assert (q - lo as real) * n as real >= 0.0 && (hi as real - q) * n as real >= 0.0;
  }

  // ----- the mutable buffer -----

  datatype CreateResult<T> = InvalidSize | Created(buffer: ReplayBuffer<T>)

  method Create<T>(maxSize: int) returns (r: CreateResult<T>)
    ensures r.InvalidSize? <==> maxSize <= 0
    ensures r.Created? ==>
              fresh(r.buffer) && r.buffer.Valid() && r.buffer.maxSize == maxSize &&
              r.buffer.Value() == Buffer([], [], [], -1)
  {
    if maxSize <= 0 {
      return InvalidSize;
    }
    var b := new ReplayBuffer<T>(maxSize);
    return Created(b);
  }

  class ReplayBuffer<T> {
    const maxSize: nat
    var trajectories: seq<T>
    var trajectoryVersions: seq<int>
    var targetWeightVersions: seq<int>
    var lastTargetWeightAlreadyGenerated: int

    ghost predicate Valid()
      reads this
    {
      Value().Aligned()
    }

    function Value(): Buffer<T>
      reads this
    {
      Buffer(trajectories, trajectoryVersions, targetWeightVersions, lastTargetWeightAlreadyGenerated)
    }

    constructor (maxSize: nat)
      requires maxSize > 0
      ensures this.maxSize == maxSize && Valid() && Value() == Buffer([], [], [], -1)
    {
      this.maxSize := maxSize;
      trajectories, trajectoryVersions, targetWeightVersions := [], [], [];
      lastTargetWeightAlreadyGenerated := -1;
    }

    method PushWithWaitSignal(trajectory: T, weightVersion: int, targetWeightVersion: int) returns (status: PushStatus)
      requires Valid()
      modifies this
      ensures Valid()
      ensures (status, Value()) == Push(old(Value()), maxSize, trajectory, weightVersion, targetWeightVersion)
    {
      if |trajectories| >= maxSize {
        return Full;
      }
      trajectories := trajectories + [trajectory];
      trajectoryVersions := trajectoryVersions + [weightVersion];
      targetWeightVersions := targetWeightVersions + [targetWeightVersion];
      lastTargetWeightAlreadyGenerated := Max(lastTargetWeightAlreadyGenerated, targetWeightVersion);
      return Success;
    }

    method SampleGroups(n: nat, currentWeightVersion: int, maxAge: nat) returns (r: SampleResult<T>)
      requires Valid()
      modifies this
      ensures Valid()
      ensures (r, Value()) == Sample(old(Value()), n, currentWeightVersion, maxAge)
    {
      if trajectories == [] {
        return Waiting;
      }
      var minValid := MinValidVersion(currentWeightVersion, maxAge);
      if exists v :: v in trajectoryVersions && v < minValid {
        return Raised(StaleTrajectory);
      }
      var valid := InWindow(trajectoryVersions, minValid, currentWeightVersion, 0);
      if valid == [] || |valid| < n {
        return Waiting;
      }
      var intended := AimedAt(targetWeightVersions, currentWeightVersion, valid);
      if |intended| < n {
        return Waiting;
      }
      var selected := intended[..n];
      ghost var b := Value();
      assert selected == Selected(b, n, currentWeightVersion, maxAge);
      if n == 0 {
        return Raised(NoGroupsRequested);
      }
      var sampledWeights := Fetch(trajectoryVersions, selected);
      var averageAge := currentWeightVersion as real - Sum(sampledWeights) as real / n as real;
      var items := Fetch(trajectories, selected);
      RemoveDescending(selected);
      return Sampled(items, averageAge);
    }

    /** Pops the selected positions from all three lists, largest position first. */
    method RemoveDescending(selected: seq<nat>)
      requires Valid() && Increasing(selected)
      requires Within(selected, 0, |trajectories|)
      modifies this
      ensures Valid() && Value() == Drop(old(Value()), selected)
    {
      ghost var b := Value();
      var k := |selected|;
      assert ToSet(selected[k..]) == {};
      NothingPicked(b.trajectories, {}, 0);
      NothingPicked(b.versions, {}, 0);
      NothingPicked(b.targets, {}, 0);
      while k > 0
        invariant 0 <= k <= |selected|
        invariant Value() == Drop(b, selected[k..])
      {
        k := k - 1;
        var idx := selected[k];
        assert idx in selected;
        ghost var gone := ToSet(selected[k + 1..]);
        assert selected[k..] == [idx] + selected[k + 1..];
        assert ToSet(selected[k..]) == gone + {idx};
        PopBelow(b.trajectories, gone, idx, 0);
        PopBelow(b.versions, gone, idx, 0);
        PopBelow(b.targets, gone, idx, 0);
        trajectoryVersions := trajectoryVersions[..idx] + trajectoryVersions[idx + 1..];
        targetWeightVersions := targetWeightVersions[..idx] + targetWeightVersions[idx + 1..];
        trajectories := trajectories[..idx] + trajectories[idx + 1..];
      }
      assert selected[0..] == selected;
      PickedAndKeptSplit(b.trajectories, ToSet(selected), 0);
      PickedAndKeptSplit(b.versions, ToSet(selected), 0);
      PickedAndKeptSplit(b.targets, ToSet(selected), 0);
      PickedIsFetch(b.trajectories, selected, 0);
      PickedIsFetch(b.versions, selected, 0);
      PickedIsFetch(b.targets, selected, 0);
    }
  }

  function Fetch<X>(s: seq<X>, indices: seq<nat>): (r: seq<X>)
    requires Increasing(indices) && Within(indices, 0, |s|)
    ensures r == Picked(s, ToSet(indices), 0)
  {
    PickedIsFetch(s, indices, 0);
    seq(|indices|, k requires 0 <= k < |indices| => s[indices[k]])
  }
}
