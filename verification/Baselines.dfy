/** Baselines, spreads and advantages of the answers to each prompt, over exact reals. */
module Baselines {
  import opened Reals
  import opened Sequences

  // ----- sums -----

  function Dot(a: seq<real>, b: seq<real>): real
    requires |a| == |b|
  {
    if a == [] then 0.0 else a[0] * b[0] + Dot(a[1..], b[1..])
  }

  function Product(x: real, y: real): real {
    x * y
  }

  function Squares(s: seq<real>): (r: seq<real>) {
    seq(|s|, i requires 0 <= i < |s| => Product(s[i], s[i]))
  }

  // ----- one group -----

  /** Row k of the matrix that selects the rewards a baseline is made of. */
  function MaskRow(n: nat, leaveOneOut: bool, k: nat): (r: seq<real>) {
    seq(n, j => if leaveOneOut && j == k then 0.0 else 1.0)
  }

  function NumValid(n: nat, leaveOneOut: bool): int {
    n - if leaveOneOut then 1 else 0
  }

  function GroupBaseline(g: seq<real>, leaveOneOut: bool, k: nat): real
    requires k < |g|
  {
    if |g| <= 1 then g[k] else Dot(MaskRow(|g|, leaveOneOut, k), g) / NumValid(|g|, leaveOneOut) as real
  }

  /** The square of the standard deviation. With one reward left the quotient is zero times infinity, which
      is not a number and becomes zero. */
  function GroupVariance(g: seq<real>, leaveOneOut: bool, k: nat): real
    requires k < |g|
  {
    var n := NumValid(|g|, leaveOneOut);
    if |g| <= 1 || n == 1 then 0.0
    else
      var mean := GroupBaseline(g, leaveOneOut, k);
      (Dot(MaskRow(|g|, leaveOneOut, k), Squares(g)) / n as real - mean * mean) * (n as real / (n - 1) as real)
  }

  // ----- the whole batch -----

  /** The rows, below n, that answer the prompt p. */
  function Positions<P(==)>(prompts: seq<P>, p: P, n: nat): (r: seq<nat>)
    requires n <= |prompts|
    ensures AllBelow(r, n)
    ensures forall k :: 0 <= k < |r| ==> prompts[r[k]] == p
    ensures Distinct(r)
  {
    if n == 0 then []
    else if prompts[n - 1] == p then Positions(prompts, p, n - 1) + [n - 1]
    else Positions(prompts, p, n - 1)
  }

  function Group<P(==)>(prompts: seq<P>, p: P): (r: seq<nat>)
    ensures AllBelow(r, |prompts|)
  {
    Positions(prompts, p, |prompts|)
  }

  lemma {:induction false} EveryRowHasAGroup<P>(prompts: seq<P>, i: nat, n: nat)
    requires i < n <= |prompts|
    ensures exists k :: 0 <= k < |Positions(prompts, prompts[i], n)| && Positions(prompts, prompts[i], n)[k] == i
  {
    var r := Positions(prompts, prompts[i], n);
    if i == n - 1 {
      assert r[|r| - 1] == i;
    } else {
      EveryRowHasAGroup(prompts, i, n - 1);
      var k :| 0 <= k < |Positions(prompts, prompts[i], n - 1)| && Positions(prompts, prompts[i], n - 1)[k] == i;
      assert r[k] == i;
    }
  }

  /** The rows of p hold the baselines and variances of p's group. */
  ghost predicate GroupDone<P>(
      prompts: seq<P>, rewards: seq<real>, leaveOneOut: bool, p: P, baseline: seq<real>, variance: seq<real>)
    requires |prompts| == |rewards| == |baseline| == |variance|
  {
    var rows := Group(prompts, p);
    var g := Gather(rewards, rows);
    forall k :: 0 <= k < |rows| ==>
      baseline[rows[k]] == GroupBaseline(g, leaveOneOut, k) && variance[rows[k]] == GroupVariance(g, leaveOneOut, k)
  }

  // ----- what the baseline and the variance are -----

  /** The rewards that the baseline of answer k is made of. */
  function Others(g: seq<real>, leaveOneOut: bool, k: nat): (r: seq<real>)
    requires k < |g|
  {
    if leaveOneOut then Without(g, k) else g
  }

  lemma OthersAt(g: seq<real>, leaveOneOut: bool, k: nat, m: nat)
    requires k < |g| && m < |Others(g, leaveOneOut, k)|
    ensures var at := if leaveOneOut && m >= k then m + 1 else m;
      at < |g| && (leaveOneOut ==> at != k) && Others(g, leaveOneOut, k)[m] == g[at]
  {
  }

  function Mean(s: seq<real>): real
    requires s != []
  {
    Total(s) / |s| as real
  }

  function Deviations(s: seq<real>, m: real): real {
    if s == [] then 0.0 else Product(s[0] - m, s[0] - m) + Deviations(s[1..], m)
  }

  /** The unbiased variance; nothing varies in fewer than two numbers. */
  function SampleVariance(s: seq<real>): real {
    if |s| <= 1 then 0.0 else Deviations(s, Mean(s)) / (|s| - 1) as real
  }

  /** Multiplying by a row of the mask adds up the rewards it selects. */
  lemma {:induction false} MaskedTotal(n: nat, leaveOneOut: bool, k: int, s: seq<real>)
    requires |s| == n && (leaveOneOut ==> k < n)
    ensures Dot(seq(n, j => if leaveOneOut && j == k then 0.0 else 1.0), s)
         == Total(s) - if leaveOneOut && 0 <= k then s[k] else 0.0
    decreases n
  {
    var row := seq(n, j => if leaveOneOut && j == k then 0.0 else 1.0);
    if n == 0 {
    } else {
      assert row[1..] == seq(n - 1, j => if leaveOneOut && j == k - 1 then 0.0 else 1.0);
      if leaveOneOut && k == 0 {
        assert row[1..] == seq(n - 1, j => if false && j == k - 1 then 0.0 else 1.0);
        MaskedTotal(n - 1, false, k - 1, s[1..]);
      } else {
        MaskedTotal(n - 1, leaveOneOut, k - 1, s[1..]);
      }
    }
  }

  lemma MaskedIsOthers(s: seq<real>, leaveOneOut: bool, k: nat)
    requires k < |s|
    ensures Dot(MaskRow(|s|, leaveOneOut, k), s) == Total(Others(s, leaveOneOut, k))
  {
    MaskedTotal(|s|, leaveOneOut, k, s);
    if leaveOneOut {
      TotalWithout(s, k);
    }
  }

  lemma SquaresOfOthers(g: seq<real>, leaveOneOut: bool, k: nat)
    requires k < |g|
    ensures Others(Squares(g), leaveOneOut, k) == Squares(Others(g, leaveOneOut, k))
  {
    var a, b := Others(Squares(g), leaveOneOut, k), Squares(Others(g, leaveOneOut, k));
    forall i | 0 <= i < |a| ensures a[i] == b[i] {
      assert a[i] == Squares(g)[if leaveOneOut && i >= k then i + 1 else i];
    }
  }

  lemma SquaresRest(s: seq<real>)
    requires s != []
    ensures Squares(s)[1..] == Squares(s[1..])
  {
    forall i | 0 <= i < |s| - 1 ensures Squares(s)[1..][i] == Squares(s[1..])[i] {
      assert Squares(s)[1..][i] == Squares(s)[i + 1];
    }
  }

  function Expanded(sq: real, t: real, n: real, m: real): real {
    sq - 2.0 * m * t + n * m * m
  }

  lemma {:induction false} DeviationsExpand(s: seq<real>, m: real)
    ensures Deviations(s, m) == Expanded(Total(Squares(s)), Total(s), |s| as real, m)
  {
    if s == [] {
    } else {
      DeviationsExpand(s[1..], m);
      SquaresRest(s);
      OneMoreDeviation(s[0], Total(Squares(s[1..])), Total(s[1..]), |s[1..]| as real, m);
      assert |s| as real == |s[1..]| as real + 1.0;
    }
  }

  lemma OneMoreDeviation(x: real, sq: real, t: real, n: real, m: real)
    ensures Product(x - m, x - m) + Expanded(sq, t, n, m) == Expanded(Product(x, x) + sq, x + t, n + 1.0, m)
  {
  }

  lemma VarianceFromSquares(sq: real, t: real, n: real, m: real)
    requires n > 1.0 && m == t / n
    ensures (sq / n - m * m) * (n / (n - 1.0)) == Expanded(sq, t, n, m) / (n - 1.0)
  {
    assert t == m * n;
    var x := sq / n - m * m;
    assert x * n == sq - n * (m * m);
    assert 2.0 * m * t == 2.0 * (n * (m * m));
    assert x * (n / (n - 1.0)) == x * n / (n - 1.0);
  }

  /** Every answer's baseline is the mean of the rewards it is compared with, and the variance is theirs. */
  lemma BaselineIsMeanOfOthers(g: seq<real>, leaveOneOut: bool, k: nat)
    requires k < |g| && |g| >= 2
    ensures var o := Others(g, leaveOneOut, k);
      && GroupBaseline(g, leaveOneOut, k) == Mean(o)
      && GroupVariance(g, leaveOneOut, k) == SampleVariance(o)
  {
    var o := Others(g, leaveOneOut, k);
    BaselineIsMean(g, leaveOneOut, k);
    if |o| >= 2 {
      VarianceOfOthers(g, leaveOneOut, k);
      SampleVarianceFromSquares(o);
    } else {
      assert GroupVariance(g, leaveOneOut, k) == 0.0;
    }
  }

  function FromSquares(o: seq<real>): real
    requires |o| >= 2
  {
    (Total(Squares(o)) / |o| as real - Mean(o) * Mean(o)) * (|o| as real / (|o| - 1) as real)
  }

  lemma BaselineIsMean(g: seq<real>, leaveOneOut: bool, k: nat)
    requires k < |g| && |g| >= 2
    ensures |Others(g, leaveOneOut, k)| == NumValid(|g|, leaveOneOut) >= 1
    ensures GroupBaseline(g, leaveOneOut, k) == Mean(Others(g, leaveOneOut, k))
  {
    MaskedIsOthers(g, leaveOneOut, k);
  }

  lemma VarianceOfOthers(g: seq<real>, leaveOneOut: bool, k: nat)
    requires k < |g| && |Others(g, leaveOneOut, k)| >= 2
    ensures GroupVariance(g, leaveOneOut, k) == FromSquares(Others(g, leaveOneOut, k))
  {
    BaselineIsMean(g, leaveOneOut, k);
    MaskedIsOthers(Squares(g), leaveOneOut, k);
    SquaresOfOthers(g, leaveOneOut, k);
  }

  lemma SampleVarianceFromSquares(o: seq<real>)
    requires |o| >= 2
    ensures SampleVariance(o) == FromSquares(o)
  {
    VarianceFromSquares(Total(Squares(o)), Total(o), |o| as real, Mean(o));
    DeviationsExpand(o, Mean(o));
    assert (|o| - 1) as real == |o| as real - 1.0;
  }

  // ----- when nothing varies -----

  ghost predicate AllEqual(s: seq<real>) {
    forall i, j :: 0 <= i < j < |s| ==> s[i] == s[j]
  }

  lemma {:induction false} DeviationsVanish(s: seq<real>, m: real)
    ensures Deviations(s, m) >= 0.0
    ensures Deviations(s, m) == 0.0 <==> forall i :: 0 <= i < |s| ==> s[i] == m
  {
    if s == [] {
    } else {
      DeviationsVanish(s[1..], m);
      SquareVanishes(s[0] - m);
      if forall i :: 0 <= i < |s[1..]| ==> s[1..][i] == m {
        assert forall i :: 1 <= i < |s| ==> s[i] == s[1..][i - 1];
      }
    }
  }

  lemma ProductSign(x: real, y: real)
    requires (x > 0.0 && y > 0.0) || (x < 0.0 && y < 0.0)
    ensures Product(x, y) > 0.0
  {
  }

  lemma SquareVanishes(x: real)
    ensures Product(x, x) >= 0.0 && (Product(x, x) == 0.0 <==> x == 0.0)
  {
    if x != 0.0 {
      ProductSign(x, x);
    }
  }

  lemma {:induction false} TotalOfEqual(s: seq<real>, x: real)
    requires forall i :: 0 <= i < |s| ==> s[i] == x
    ensures Total(s) == |s| as real * x
  {
    if s == [] {
    } else {
      TotalOfEqual(s[1..], x);
      assert |s| as real * x == (|s[1..]| as real + 1.0) * x == |s[1..]| as real * x + x;
    }
  }

  lemma QuotientVanishes(d: real, n: real)
    requires d >= 0.0 && n > 0.0
    ensures d / n >= 0.0 && (d / n == 0.0 <==> d == 0.0)
  {
    assert d / n * n == d;
  }

  lemma MeanOfEqual(s: seq<real>)
    requires s != [] && AllEqual(s)
    ensures forall i :: 0 <= i < |s| ==> s[i] == Mean(s)
  {
    TotalOfEqual(s, s[0]);
    assert |s| as real * s[0] / |s| as real == s[0];
  }

  lemma VarianceVanishes(s: seq<real>)
    ensures SampleVariance(s) >= 0.0
    ensures SampleVariance(s) == 0.0 <==> AllEqual(s)
  {
    if |s| >= 2 {
      DeviationsVanish(s, Mean(s));
      QuotientVanishes(Deviations(s, Mean(s)), (|s| - 1) as real);
      if AllEqual(s) {
        MeanOfEqual(s);
      }
    }
  }

  /** A variance is zero exactly when the rewards the answer is compared with are all equal: with the mean of
      the whole group as baseline, that is the same for every answer of the group. */
  lemma GroupVarianceVanishes(g: seq<real>, leaveOneOut: bool, k: nat)
    requires k < |g|
    ensures GroupVariance(g, leaveOneOut, k) >= 0.0
    ensures GroupVariance(g, leaveOneOut, k) == 0.0 <==> AllEqual(Others(g, leaveOneOut, k))
  {
    if |g| >= 2 {
      BaselineIsMeanOfOthers(g, leaveOneOut, k);
      VarianceVanishes(Others(g, leaveOneOut, k));
    }
  }

  /** One answer differs from all the others, and they agree. */
  ghost predicate OddOneOut(g: seq<real>, k: nat)
    requires k < |g|
  {
    AllEqual(Others(g, true, k)) && !AllEqual(g)
  }

  ghost predicate VarianceIsUniform(g: seq<real>, leaveOneOut: bool) {
    forall i, j :: 0 <= i < |g| && 0 <= j < |g| ==>
      (GroupVariance(g, leaveOneOut, i) == 0.0 <==> GroupVariance(g, leaveOneOut, j) == 0.0)
  }

  lemma MeanBaselineIsUniform(g: seq<real>)
    ensures VarianceIsUniform(g, false)
  {
    forall i, j | 0 <= i < |g| && 0 <= j < |g|
      ensures GroupVariance(g, false, i) == 0.0 <==> GroupVariance(g, false, j) == 0.0
    {
      GroupVarianceVanishes(g, false, i);
      GroupVarianceVanishes(g, false, j);
    }
  }

  lemma TwoDiffer(g: seq<real>, k: nat, i: nat, j: nat)
    requires k < |g| && i < j < |g| && i != k && j != k && g[i] != g[j]
    ensures !AllEqual(Others(g, true, k))
  {
    var o := Others(g, true, k);
    assert o[if i < k then i else i - 1] == g[i];
    assert o[if j < k then j else j - 1] == g[j];
  }

  /** Leaving one out, the answers of a group vary or not together exactly when there are at most two of them
      or no single odd one out. */
  lemma LeaveOneOutUniform(g: seq<real>)
    ensures VarianceIsUniform(g, true) <==> |g| <= 2 || forall k :: 0 <= k < |g| ==> !OddOneOut(g, k)
  {
    forall k | 0 <= k < |g| ensures GroupVariance(g, true, k) == 0.0 <==> AllEqual(Others(g, true, k)) {
      GroupVarianceVanishes(g, true, k);
    }
    if |g| <= 2 {
      assert forall k :: 0 <= k < |g| ==> AllEqual(Others(g, true, k));
    } else if k :| 0 <= k < |g| && OddOneOut(g, k) {
      var i := if k == 0 then 1 else 0;
      OddOneVaries(g, k, i);
    } else {
      NoOddOne(g);
    }
  }

  lemma NoOddOne(g: seq<real>)
    requires forall k :: 0 <= k < |g| ==> !OddOneOut(g, k)
    ensures forall k :: 0 <= k < |g| ==> (AllEqual(Others(g, true, k)) <==> AllEqual(g))
  {
    forall k | 0 <= k < |g| ensures AllEqual(Others(g, true, k)) <==> AllEqual(g) {
      assert !OddOneOut(g, k);
      if AllEqual(g) {
        var o := Others(g, true, k);
        assert forall m :: 0 <= m < |o| ==> o[m] == g[if m < k then m else m + 1] == g[0];
      }
    }
  }

  /** With three answers or more, whoever keeps the odd one among the others sees it differ. */
  lemma OddOneVaries(g: seq<real>, k: nat, i: nat)
    requires k < |g| && i < |g| && i != k && |g| > 2 && OddOneOut(g, k)
    ensures !AllEqual(Others(g, true, i))
  {
    var o := Others(g, true, k);
    var j := if i != 0 && k != 0 then 0 else if i != 1 && k != 1 then 1 else 2;
    OthersAgree(g, k, j);
    assert g[k] != g[j];
    TwoDiffer(g, i, if j < k then j else k, if j < k then k else j);
  }

  lemma OthersAgree(g: seq<real>, k: nat, j: nat)
    requires k < |g| && j < |g| && j != k && AllEqual(Others(g, true, k))
    ensures forall m :: 0 <= m < |g| && m != k ==> g[m] == g[j]
  {
    var o := Others(g, true, k);
    var at := if j < k then j else j - 1;
    forall m | 0 <= m < |g| && m != k ensures g[m] == g[j] {
      assert g[m] == o[if m < k then m else m - 1];
      assert g[j] == o[at];
    }
  }

  // ----- advantages -----

  function Advantages(g: seq<real>, leaveOneOut: bool): (r: seq<real>) {
    seq(|g|, k requires 0 <= k < |g| => g[k] - GroupBaseline(g, leaveOneOut, k))
  }

  function Ratio(n: nat): (r: real)
    requires n >= 2
    ensures r > 1.0
  {
    assert n as real / (n - 1) as real * (n - 1) as real == n as real;
    n as real / (n - 1) as real
  }

  /** The advantage over the others is n/(n-1) times the advantage over the whole group. */
  lemma LeaveOneOutScales(g: seq<real>, k: nat)
    requires k < |g| && |g| >= 2
    ensures Advantages(g, true)[k] == Product(Ratio(|g|), Advantages(g, false)[k])
  {
    BaselineIsMean(g, true, k);
    BaselineIsMean(g, false, k);
    TotalWithout(g, k);
    assert (|g| - 1) as real == |g| as real - 1.0;
    ScaleLeaveOneOut(g[k], Total(g), |g| as real);
    assert Total(Others(g, true, k)) == Total(g) - g[k];
  }

  lemma ScaleLeaveOneOut(x: real, t: real, n: real)
    requires n > 1.0
    ensures x - (t - x) / (n - 1.0) == n / (n - 1.0) * (x - t / n)
  {
    var a, b := (t - x) / (n - 1.0), t / n;
    assert a * (n - 1.0) == t - x && b * n == t;
    assert (x - a) * (n - 1.0) == x * n - t == n * (x - b);
    assert x - a == n * (x - b) / (n - 1.0);
  }

  lemma {:induction false} TotalMinusConstant(s: seq<real>, m: real)
    ensures Total(seq(|s|, i requires 0 <= i < |s| => s[i] - m)) == Total(s) - |s| as real * m
  {
    var d := seq(|s|, i requires 0 <= i < |s| => s[i] - m);
    if s == [] {
    } else {
      TotalMinusConstant(s[1..], m);
      assert d[1..] == seq(|s[1..]|, i requires 0 <= i < |s[1..]| => s[1..][i] - m);
      assert |s| as real * m == (|s[1..]| as real + 1.0) * m == |s[1..]| as real * m + m;
    }
  }

  lemma {:induction false} TotalScaled(c: real, s: seq<real>, t: seq<real>)
    requires |s| == |t| && forall i :: 0 <= i < |s| ==> t[i] == Product(c, s[i])
    ensures Total(t) == Product(c, Total(s))
  {
    if s == [] {
    } else {
      TotalScaled(c, s[1..], t[1..]);
      ProductSum(c, s[0], Total(s[1..]));
    }
  }

  lemma ProductSum(c: real, x: real, y: real)
    ensures Product(c, x + y) == Product(c, x) + Product(c, y)
  {
  }

  /** Whatever the baseline, the advantages of a group cancel out. */
  lemma AdvantagesCancel(g: seq<real>, leaveOneOut: bool)
    ensures Total(Advantages(g, leaveOneOut)) == 0.0
  {
    if |g| == 1 {
      assert Advantages(g, leaveOneOut) == [0.0];
      assert Total([0.0]) == 0.0 + Total([]);
    } else if |g| >= 2 {
      MeanAdvantagesCancel(g);
      if leaveOneOut {
        forall k | 0 <= k < |g| ensures Advantages(g, true)[k] == Product(Ratio(|g|), Advantages(g, false)[k]) {
          LeaveOneOutScales(g, k);
        }
        TotalScaled(Ratio(|g|), Advantages(g, false), Advantages(g, true));
      }
    }
  }

  lemma MeanAdvantagesCancel(g: seq<real>)
    requires |g| >= 2
    ensures Total(Advantages(g, false)) == 0.0
  {
    forall k | 0 <= k < |g| ensures GroupBaseline(g, false, k) == Mean(g) {
      BaselineIsMean(g, false, k);
    }
    assert Advantages(g, false) == seq(|g|, i requires 0 <= i < |g| => g[i] - Mean(g));
    TotalMinusConstant(g, Mean(g));
    assert |g| as real * Mean(g) == Total(g);
  }

  /** Advantages order a group's answers as their rewards do. */
  lemma AdvantagesKeepOrder(g: seq<real>, leaveOneOut: bool, i: nat, j: nat)
    requires i < |g| && j < |g|
    ensures Advantages(g, leaveOneOut)[i] < Advantages(g, leaveOneOut)[j] <==> g[i] < g[j]
  {
    if |g| <= 1 {
      assert i == j;
    } else if leaveOneOut {
      OthersKeepOrder(g, i, j);
    } else {
      MeanKeepsOrder(g, i, j);
    }
  }

  lemma OthersKeepOrder(g: seq<real>, i: nat, j: nat)
    requires i < |g| && j < |g| && |g| >= 2
    ensures Advantages(g, true)[i] < Advantages(g, true)[j] <==> g[i] < g[j]
  {
    MeanKeepsOrder(g, i, j);
    LeaveOneOutScales(g, i);
    LeaveOneOutScales(g, j);
    ScaleKeepsOrder(Ratio(|g|), Advantages(g, false)[i], Advantages(g, false)[j]);
  }

  lemma MeanKeepsOrder(g: seq<real>, i: nat, j: nat)
    requires i < |g| && j < |g| && |g| >= 2
    ensures Advantages(g, false)[i] < Advantages(g, false)[j] <==> g[i] < g[j]
  {
    BaselineIsMean(g, false, i);
    BaselineIsMean(g, false, j);
  }

  lemma ScaleKeepsOrder(c: real, x: real, y: real)
    requires c > 0.0
    ensures Product(c, x) < Product(c, y) <==> x < y
  {
    if x < y {
      ProductDifference(c, x, y);
    } else if y < x {
      ProductDifference(c, y, x);
    }
  }

  lemma ProductDifference(c: real, x: real, y: real)
    requires c > 0.0 && x < y
    ensures Product(c, x) < Product(c, y)
  {
    ProductSign(c, y - x);
    assert Product(c, y) == Product(c, x) + Product(c, y - x);
  }

  // ----- normalised advantages -----

  const EPSILON := 0.000001

  /** A standard deviation: the root of a variance. */
  ghost predicate IsDeviation(sd: real, variance: real) {
    sd >= 0.0 && Product(sd, sd) == variance
  }

  function Normalised(advantage: real, sd: real): real {
    if sd > 0.0 then advantage / (sd + EPSILON) else advantage
  }

  /** An advantage is divided by its deviation plus a millionth, unless there is no deviation. */
  lemma NormalisedMeaning(advantage: real, sd: real)
    ensures sd > 0.0 ==> Normalised(advantage, sd) * (sd + 0.000001) == advantage
    ensures sd <= 0.0 ==> Normalised(advantage, sd) == advantage
  {
  }

  lemma RootIsUnique(a: real, b: real)
    requires a >= 0.0 && b >= 0.0 && Product(a, a) == Product(b, b)
    ensures a == b
  {
    if a < b {
      RootGrows(a, b);
    } else if b < a {
      RootGrows(b, a);
    }
  }

  lemma RootGrows(a: real, b: real)
    requires 0.0 <= a < b
    ensures Product(a, a) < Product(b, b)
  {
    ProductDifference(b, a, b);
    if a > 0.0 {
      ProductDifference(a, a, b);
    }
    assert Product(a, b) == Product(b, a);
  }

  /** With the mean of the group as baseline the answers share one deviation, so dividing by it leaves their
      advantages cancelling out. */
  lemma NormalisedAdvantagesCancel(g: seq<real>, sd: seq<real>, normalised: seq<real>)
    requires |sd| == |normalised| == |g|
    requires forall k :: 0 <= k < |g| ==> IsDeviation(sd[k], GroupVariance(g, false, k))
    requires forall k :: 0 <= k < |g| ==> normalised[k] == Normalised(Advantages(g, false)[k], sd[k])
    ensures Total(normalised) == 0.0
  {
    if g != [] {
      forall k | 0 <= k < |g| ensures sd[k] == sd[0] {
        assert MaskRow(|g|, false, k) == MaskRow(|g|, false, 0);
        SameVariance(g, k);
        RootIsUnique(sd[k], sd[0]);
      }
      var c := if sd[0] > 0.0 then 1.0 / (sd[0] + EPSILON) else 1.0;
      forall k | 0 <= k < |g| ensures normalised[k] == Product(c, Advantages(g, false)[k]) {
        DivideOrNot(Advantages(g, false)[k], sd[0]);
      }
      AdvantagesCancel(g, false);
      TotalScaled(c, Advantages(g, false), normalised);
    }
  }

  lemma DivideOrNot(x: real, sd: real)
    requires sd >= 0.0
    ensures Normalised(x, sd) == Product(if sd > 0.0 then 1.0 / (sd + EPSILON) else 1.0, x)
  {
  }

  lemma SameVariance(g: seq<real>, k: nat)
    requires k < |g|
    ensures GroupVariance(g, false, k) == GroupVariance(g, false, 0)
  {
    assert MaskRow(|g|, false, k) == MaskRow(|g|, false, 0);
    if |g| >= 2 {
      BaselineIsMeanOfOthers(g, false, k);
      BaselineIsMeanOfOthers(g, false, 0);
    }
  }
}
