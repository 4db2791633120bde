/** Baselines and spreads of a whole batch with some of its rows masked out, and the advantages made of them. */
module MaskedBaselines {
  import opened Baselines
  import opened Reals
  import opened Sequences

  /** A deviation by its square, or the largest number, which takes the place of infinity. */
  datatype Spread = Finite(variance: real) | Largest

  // ----- one group -----

  function Count(valid: seq<bool>): nat {
    if valid == [] then 0 else (if valid[0] then 1 else 0) + Count(valid[1..])
  }

  function Zeroed(g: seq<real>, valid: seq<bool>): (r: seq<real>)
    requires |g| == |valid|
  {
    seq(|g|, i requires 0 <= i < |g| => if valid[i] then g[i] else 0.0)
  }

  function MaskedBaseline(g: seq<real>, valid: seq<bool>, leaveOneOut: bool, k: nat): real
    requires |g| == |valid| && k < |g|
  {
    if Count(valid) <= 1 then g[k]
    else Dot(MaskRow(|g|, leaveOneOut, k), Zeroed(g, valid)) / NumValid(Count(valid), leaveOneOut) as real
  }

  /** Mean square minus squared mean. */
  function ExcessFrom(squares: real, total: real, n: int): real
    requires n >= 1
  {
    squares / n as real - Product(total / n as real, total / n as real)
  }

  function MaskedExcess(g: seq<real>, valid: seq<bool>, leaveOneOut: bool, k: nat): real
    requires |g| == |valid| && k < |g| && Count(valid) >= 2
  {
    ExcessFrom(Dot(MaskRow(|g|, leaveOneOut, k), Zeroed(Squares(g), valid)),
               Dot(MaskRow(|g|, leaveOneOut, k), Zeroed(g, valid)), NumValid(Count(valid), leaveOneOut))
  }

  /** The spread that an excess over n numbers gives. With n = 1 it is multiplied by infinity; zero times
      infinity, and negative numbers, have no root, and count as zero. */
  function SpreadOf(x: real, n: int): Spread
    requires n >= 1
  {
    if x <= 0.0 then Finite(0.0)
    else if n == 1 then Largest
    else Finite(Product(x, n as real / (n - 1) as real))
  }

  function MaskedSpread(g: seq<real>, valid: seq<bool>, leaveOneOut: bool, k: nat): Spread
    requires |g| == |valid| && k < |g|
  {
    if Count(valid) <= 1 then Finite(0.0)
    else
      SpreadOf(MaskedExcess(g, valid, leaveOneOut, k), NumValid(Count(valid), leaveOneOut))
  }

  // ----- valid rows see only valid rows -----

  /** The rewards that are not masked out. */
  function Valids(g: seq<real>, valid: seq<bool>): (r: seq<real>)
    requires |g| == |valid|
    ensures |r| == Count(valid)
  {
    if g == [] then [] else (if valid[0] then [g[0]] else []) + Valids(g[1..], valid[1..])
  }

  lemma {:induction false} ValidAt(g: seq<real>, valid: seq<bool>, k: nat)
    requires |g| == |valid| && k < |g| && valid[k]
    ensures Count(valid[..k]) < Count(valid) && Valids(g, valid)[Count(valid[..k])] == g[k]
  {
    if k == 0 {
    } else {
      assert valid[..k][1..] == valid[1..][..k - 1];
      ValidAt(g[1..], valid[1..], k - 1);
    }
  }

  lemma {:induction false} TotalOfValids(g: seq<real>, valid: seq<bool>)
    requires |g| == |valid|
    ensures Total(Zeroed(g, valid)) == Total(Valids(g, valid))
  {
    if g == [] {
    } else {
      TotalOfValids(g[1..], valid[1..]);
      assert Zeroed(g, valid)[1..] == Zeroed(g[1..], valid[1..]);
      var rest := Valids(g[1..], valid[1..]);
      assert [g[0]] + rest == Valids(g, valid) || rest == Valids(g, valid);
    }
  }

  lemma {:induction false} SquaresOfValids(g: seq<real>, valid: seq<bool>)
    requires |g| == |valid|
    ensures Valids(Squares(g), valid) == Squares(Valids(g, valid))
  {
    if g == [] {
    } else {
      SquaresRest(g);
      SquaresOfValids(g[1..], valid[1..]);
      var rest := Valids(g[1..], valid[1..]);
      assert Squares([g[0]] + rest) == [Squares(g)[0]] + Squares(rest);
    }
  }

  /** What row k adds up: the valid rewards, without its own if it is left out. */
  lemma MaskedDot(g: seq<real>, valid: seq<bool>, leaveOneOut: bool, k: nat)
    requires |g| == |valid| && k < |g|
    ensures Dot(MaskRow(|g|, leaveOneOut, k), Zeroed(g, valid)) ==
            Total(Valids(g, valid)) - if leaveOneOut && valid[k] then g[k] else 0.0
  {
    MaskedTotal(|g|, leaveOneOut, k, Zeroed(g, valid));
    TotalOfValids(g, valid);
  }

  lemma MaskedDotIsGroups(g: seq<real>, valid: seq<bool>, leaveOneOut: bool, k: nat)
    requires |g| == |valid| && k < |g| && valid[k]
    ensures var v, j := Valids(g, valid), Count(valid[..k]);
      && j < |v| && v[j] == g[k]
      && Dot(MaskRow(|g|, leaveOneOut, k), Zeroed(g, valid)) == Dot(MaskRow(|v|, leaveOneOut, j), v)
  {
    ValidAt(g, valid, k);
    MaskedDot(g, valid, leaveOneOut, k);
    MaskedTotal(Count(valid), leaveOneOut, Count(valid[..k]), Valids(g, valid));
  }

  /** The baseline and the spread of a valid row are those of the group without the rows that are masked
      out. */
  lemma ValidRow(g: seq<real>, valid: seq<bool>, leaveOneOut: bool, k: nat)
    requires |g| == |valid| && k < |g| && valid[k]
    ensures var v, j := Valids(g, valid), Count(valid[..k]);
      && j < |v| && v[j] == g[k]
      && MaskedBaseline(g, valid, leaveOneOut, k) == GroupBaseline(v, leaveOneOut, j)
      && MaskedSpread(g, valid, leaveOneOut, k) == Finite(GroupVariance(v, leaveOneOut, j))
  {
    var v, j := Valids(g, valid), Count(valid[..k]);
    MaskedDotIsGroups(g, valid, leaveOneOut, k);
    if Count(valid) >= 2 {
      MaskedExcessIsGroups(g, valid, leaveOneOut, k);
      SpreadFromExcess(v, leaveOneOut, j);
    }
  }

  function Excess(v: seq<real>, leaveOneOut: bool, j: nat): real
    requires j < |v| && NumValid(|v|, leaveOneOut) >= 1
  {
    ExcessFrom(Dot(MaskRow(|v|, leaveOneOut, j), Squares(v)), Dot(MaskRow(|v|, leaveOneOut, j), v),
               NumValid(|v|, leaveOneOut))
  }

  lemma MaskedExcessIsGroups(g: seq<real>, valid: seq<bool>, leaveOneOut: bool, k: nat)
    requires |g| == |valid| && k < |g| && valid[k] && Count(valid) >= 2
    ensures Count(valid[..k]) < Count(valid)
    ensures MaskedExcess(g, valid, leaveOneOut, k) == Excess(Valids(g, valid), leaveOneOut, Count(valid[..k]))
  {
    MaskedDotIsGroups(g, valid, leaveOneOut, k);
    MaskedDotIsGroups(Squares(g), valid, leaveOneOut, k);
    SquaresOfValids(g, valid);
  }

  lemma SpreadFromExcess(v: seq<real>, leaveOneOut: bool, j: nat)
    requires |v| >= 2 && j < |v|
    ensures SpreadOf(Excess(v, leaveOneOut, j), NumValid(|v|, leaveOneOut)) == Finite(GroupVariance(v, leaveOneOut, j))
  {
    if NumValid(|v|, leaveOneOut) == 1 {
      OneOtherHasNoExcess(v, j);
    } else {
      ExcessSign(v, leaveOneOut, j);
    }
  }

  lemma OneOtherHasNoExcess(v: seq<real>, j: nat)
    requires |v| == 2 && j < 2
    ensures Excess(v, true, j) == 0.0
  {
    var x := v[1 - j];
    MaskedIsOthers(v, true, j);
    MaskedIsOthers(Squares(v), true, j);
    assert Others(v, true, j) == [x] && Others(Squares(v), true, j) == [Product(x, x)];
    assert Total([x]) == x + Total([]) && Total([Product(x, x)]) == Product(x, x) + Total([]);
  }

  lemma ExcessSign(v: seq<real>, leaveOneOut: bool, j: nat)
    requires j < |v| && NumValid(|v|, leaveOneOut) >= 2
    ensures var x := Excess(v, leaveOneOut, j);
      Finite(GroupVariance(v, leaveOneOut, j)) == SpreadOf(x, NumValid(|v|, leaveOneOut))
  {
    var n, x := NumValid(|v|, leaveOneOut), Excess(v, leaveOneOut, j);
    GroupVarianceVanishes(v, leaveOneOut, j);
    VarianceIsProduct(v, leaveOneOut, j);
    FactorSign(x, n as real / (n - 1) as real);
  }

  lemma VarianceIsProduct(v: seq<real>, leaveOneOut: bool, j: nat)
    requires j < |v| && NumValid(|v|, leaveOneOut) >= 2
    ensures var n := NumValid(|v|, leaveOneOut);
      GroupVariance(v, leaveOneOut, j) == Product(Excess(v, leaveOneOut, j), n as real / (n - 1) as real)
  {
  }

  lemma FactorSign(x: real, f: real)
    requires f > 0.0 && Product(x, f) >= 0.0
    ensures x >= 0.0 && (x == 0.0 ==> Product(x, f) == 0.0)
  {
    assert Product(f, x) == Product(x, f) && Product(f, 0.0) == 0.0;
    if x < 0.0 {
      ProductDifference(f, x, 0.0);
    }
  }

  // ----- masked rows -----

  /** A masked row is given the mean of the valid rewards; but when one is left out, their sum is divided by
      one less than their number, which is that mean only if it is zero. */
  lemma MaskedRow(g: seq<real>, valid: seq<bool>, k: nat)
    requires |g| == |valid| && k < |g| && !valid[k] && Count(valid) >= 2
    ensures var mean := Mean(Valids(g, valid));
      && MaskedBaseline(g, valid, false, k) == mean
      && MaskedBaseline(g, valid, true, k) == Product(Ratio(Count(valid)), mean)
      && (MaskedBaseline(g, valid, true, k) == mean <==> mean == 0.0)
  {
    var v := Valids(g, valid);
    MaskedRowMean(g, valid, k);
    MaskedRowLeft(g, valid, k);
    DividedByLess(Total(v), |v| as real);
  }

  lemma MaskedRowMean(g: seq<real>, valid: seq<bool>, k: nat)
    requires |g| == |valid| && k < |g| && Count(valid) >= 2
    ensures MaskedBaseline(g, valid, false, k) == Mean(Valids(g, valid))
  {
    MaskedDot(g, valid, false, k);
  }

  lemma MaskedRowLeft(g: seq<real>, valid: seq<bool>, k: nat)
    requires |g| == |valid| && k < |g| && !valid[k] && Count(valid) >= 2
    ensures MaskedBaseline(g, valid, true, k) == Total(Valids(g, valid)) / (Count(valid) as real - 1.0)
    ensures Ratio(Count(valid)) == Count(valid) as real / (Count(valid) as real - 1.0)
  {
    hide Count, Valids, Total;
    MaskedDot(g, valid, true, k);
    assert (Count(valid) - 1) as real == Count(valid) as real - 1.0;
  }

  lemma DividedByLess(t: real, n: real)
    requires n >= 2.0
    ensures t / (n - 1.0) == Product(n / (n - 1.0), t / n)
    ensures t / (n - 1.0) == t / n <==> t / n == 0.0
  {
    var a, b := t / (n - 1.0), t / n;
    assert a * (n - 1.0) == t && b * n == t;
    assert n / (n - 1.0) * (n - 1.0) == n;
    assert n / (n - 1.0) * b * (n - 1.0) == t;
  }

  /** The largest number is given exactly to a masked row beside two valid rewards of opposite signs, when
      one is left out. */
  lemma LargestSpread(g: seq<real>, valid: seq<bool>, leaveOneOut: bool, k: nat)
    requires |g| == |valid| && k < |g|
    ensures MaskedSpread(g, valid, leaveOneOut, k) == Largest <==>
            leaveOneOut && !valid[k] && Count(valid) == 2 && Product(Valids(g, valid)[0], Valids(g, valid)[1]) < 0.0
  {
    if valid[k] {
      ValidRow(g, valid, leaveOneOut, k);
    } else if leaveOneOut && Count(valid) == 2 {
      ExcessOfTwo(g, valid, k);
    }
  }

  lemma ExcessOfTwo(g: seq<real>, valid: seq<bool>, k: nat)
    requires |g| == |valid| && k < |g| && !valid[k] && Count(valid) == 2
    ensures MaskedExcess(g, valid, true, k) == -2.0 * Product(Valids(g, valid)[0], Valids(g, valid)[1])
  {
    var v := Valids(g, valid);
    ExcessOfMasked(g, valid, k);
    TwoNumbers(v);
    ExcessOverOne(Total(Squares(v)), Total(v));
  }

  lemma ExcessOfMasked(g: seq<real>, valid: seq<bool>, k: nat)
    requires |g| == |valid| && k < |g| && !valid[k] && Count(valid) >= 2
    ensures MaskedExcess(g, valid, true, k) ==
            ExcessFrom(Total(Squares(Valids(g, valid))), Total(Valids(g, valid)), Count(valid) - 1)
  {
    MaskedDot(g, valid, true, k);
    MaskedDot(Squares(g), valid, true, k);
    SquaresOfValids(g, valid);
  }

  lemma ExcessOverOne(squares: real, total: real)
    ensures ExcessFrom(squares, total, 1) == squares - Product(total, total)
  {
  }

  lemma TwoNumbers(v: seq<real>)
    requires |v| == 2
    ensures Total(Squares(v)) - Product(Total(v), Total(v)) == -2.0 * Product(v[0], v[1])
  {
    var a, b := v[0], v[1];
    assert v[1..][1..] == [] && Squares(v)[1..][1..] == [];
    assert Total(v) == a + (b + Total([]));
    assert Total(Squares(v)) == Product(a, a) + (Product(b, b) + Total([]));
    SquareOfSum(a, b);
  }

  lemma SquareOfSum(a: real, b: real)
    ensures Product(a + b, a + b) == Product(a, a) + 2.0 * Product(a, b) + Product(b, b)
  {
  }

  // ----- the whole batch -----

  /** The rows of p hold the baselines and spreads of p's group. */
  ghost predicate MaskedDone<P>(
      prompts: seq<P>, rewards: seq<real>, valid: seq<bool>, leaveOneOut: bool, p: P, baseline: seq<real>,
      spread: seq<Spread>)
    requires |prompts| == |rewards| == |valid| == |baseline| == |spread|
  {
    var rows := Group(prompts, p);
    var g, m := Gather(rewards, rows), Gather(valid, rows);
    forall k :: 0 <= k < |rows| ==>
      baseline[rows[k]] == MaskedBaseline(g, m, leaveOneOut, k) && spread[rows[k]] == MaskedSpread(g, m, leaveOneOut, k)
  }

  /** Writes values at the given places of an array. */
  method Store<X>(a: array<X>, rows: seq<nat>, values: seq<X>)
    requires |rows| == |values| && AllBelow(rows, a.Length) && Distinct(rows)
    modifies a
    ensures forall k :: 0 <= k < |rows| ==> a[rows[k]] == values[k]
    ensures forall i :: 0 <= i < a.Length && i !in rows ==> a[i] == old(a[i])
  {
    for k := 0 to |rows|
      invariant forall j :: 0 <= j < k ==> a[rows[j]] == values[j]
      invariant forall i :: 0 <= i < a.Length && i !in rows ==> a[i] == old(a[i])
    {
      a[rows[k]] := values[k];
    }
  }

  function MaskedBaselines(g: seq<real>, valid: seq<bool>, leaveOneOut: bool): (r: seq<real>)
    requires |g| == |valid|
  {
    seq(|g|, k requires 0 <= k < |g| => MaskedBaseline(g, valid, leaveOneOut, k))
  }

  function MaskedSpreads(g: seq<real>, valid: seq<bool>, leaveOneOut: bool): (r: seq<Spread>)
    requires |g| == |valid|
  {
    seq(|g|, k requires 0 <= k < |g| => MaskedSpread(g, valid, leaveOneOut, k))
  }

  lemma StoredGroup<P>(
      prompts: seq<P>, rewards: seq<real>, valid: seq<bool>, leaveOneOut: bool, p: P, q: P, b0: seq<real>,
      s0: seq<Spread>, b: seq<real>, s: seq<Spread>)
    requires |prompts| == |rewards| == |valid| == |b0| == |s0| == |b| == |s|
    requires forall i :: 0 <= i < |b| && i !in Group(prompts, p) ==> b[i] == b0[i] && s[i] == s0[i]
    requires p != q && MaskedDone(prompts, rewards, valid, leaveOneOut, q, b0, s0)
    ensures MaskedDone(prompts, rewards, valid, leaveOneOut, q, b, s)
  {
    var rows := Group(prompts, q);
    forall k | 0 <= k < |rows| ensures rows[k] !in Group(prompts, p) {}
  }

  /** Visits the distinct prompts in any order and fills in the rows of each. */
  method CalculateBaselineAndSpread<P(==)>(prompts: seq<P>, rewards: seq<real>, valid: seq<bool>, leaveOneOut: bool)
      returns (baseline: seq<real>, spread: seq<Spread>)
    requires |prompts| == |rewards| == |valid|
    ensures |baseline| == |spread| == |rewards|
    ensures forall p :: p in prompts ==> MaskedDone(prompts, rewards, valid, leaveOneOut, p, baseline, spread)
  {
    var b := new real[|rewards|](_ => 0.0);
    var s := new Spread[|rewards|](_ => Finite(0.0));
    var todo := set p | p in prompts;
    while todo != {}
      invariant forall p :: p in todo ==> p in prompts
      invariant forall i :: 0 <= i < s.Length && prompts[i] in todo ==> s[i] == Finite(0.0)
      invariant forall p :: p in prompts && p !in todo ==>
                  MaskedDone(prompts, rewards, valid, leaveOneOut, p, b[..], s[..])
    {
      var p :| p in todo;
      var rows := Group(prompts, p);
      var g, m := Gather(rewards, rows), Gather(valid, rows);
      ghost var b0, s0 := b[..], s[..];
      if Count(m) <= 1 {
        Store(b, rows, g);
      } else {
        Store(b, rows, MaskedBaselines(g, m, leaveOneOut));
        Store(s, rows, MaskedSpreads(g, m, leaveOneOut));
      }
      forall q | q in prompts && q !in todo ensures MaskedDone(prompts, rewards, valid, leaveOneOut, q, b[..], s[..]) {
        StoredGroup(prompts, rewards, valid, leaveOneOut, p, q, b0, s0, b[..], s[..]);
      }
      assert MaskedDone(prompts, rewards, valid, leaveOneOut, p, b[..], s[..]);
      todo := todo - {p};
    }
    baseline, spread := b[..], s[..];
  }

  // ----- without a mask -----

  function NoMask(n: nat): (r: seq<bool>) {
    seq(n, _ => true)
  }

  lemma {:induction false} AllCount(valid: seq<bool>)
    requires forall i :: 0 <= i < |valid| ==> valid[i]
    ensures Count(valid) == |valid|
  {
    if valid == [] {
    } else {
      AllCount(valid[1..]);
    }
  }

  lemma {:induction false} AllAreValid(g: seq<real>, valid: seq<bool>)
    requires |g| == |valid| && forall i :: 0 <= i < |valid| ==> valid[i]
    ensures Valids(g, valid) == g
  {
    if g == [] {
    } else {
      AllAreValid(g[1..], valid[1..]);
    }
  }

  lemma UnmaskedGroup<P>(
      prompts: seq<P>, rewards: seq<real>, leaveOneOut: bool, p: P, baseline: seq<real>, spread: seq<Spread>)
    requires |prompts| == |rewards| == |baseline| == |spread|
    requires MaskedDone(prompts, rewards, NoMask(|rewards|), leaveOneOut, p, baseline, spread)
    ensures var rows := Group(prompts, p);
      var g := Gather(rewards, rows);
      forall k :: 0 <= k < |rows| ==>
        baseline[rows[k]] == GroupBaseline(g, leaveOneOut, k) &&
          spread[rows[k]] == Finite(GroupVariance(g, leaveOneOut, k))
  {
    var rows := Group(prompts, p);
    var g, m := Gather(rewards, rows), Gather(NoMask(|rewards|), rows);
    AllAreValid(g, m);
    forall k | 0 <= k < |rows|
      ensures baseline[rows[k]] == GroupBaseline(g, leaveOneOut, k)
      ensures spread[rows[k]] == Finite(GroupVariance(g, leaveOneOut, k))
    {
      AllCount(m[..k]);
      ValidRow(g, m, leaveOneOut, k);
    }
  }

  /** With every row valid, the baselines and variances of whole groups. */
  method CalculateUnmasked<P(==)>(prompts: seq<P>, rewards: seq<real>, leaveOneOut: bool)
      returns (baseline: seq<real>, variance: seq<real>)
    requires |prompts| == |rewards|
    ensures |baseline| == |variance| == |rewards|
    ensures forall p :: p in prompts ==> GroupDone(prompts, rewards, leaveOneOut, p, baseline, variance)
  {
    var b, spread := CalculateBaselineAndSpread(prompts, rewards, NoMask(|rewards|), leaveOneOut);
    baseline := b;
    forall i | 0 <= i < |spread| ensures spread[i].Finite? {
      EveryRowHasAGroup(prompts, i, |prompts|);
      UnmaskedGroup(prompts, rewards, leaveOneOut, prompts[i], baseline, spread);
    }
    variance := seq(|spread|, i requires 0 <= i < |spread| => spread[i].variance);
    forall p | p in prompts ensures GroupDone(prompts, rewards, leaveOneOut, p, baseline, variance) {
      UnmaskedGroup(prompts, rewards, leaveOneOut, p, baseline, spread);
    }
  }

  // ----- advantages of a batch -----

  ghost predicate IsRoot(root: real -> real) {
    forall v :: v >= 0.0 ==> IsDeviation(root(v), v)
  }

  /** The advantages of a group's answers, divided by their deviations where these are not zero. */
  function NormalisedAdvantages(g: seq<real>, leaveOneOut: bool, root: real -> real): (r: seq<real>) {
    seq(|g|, k requires 0 <= k < |g| =>
      Normalised(Advantages(g, leaveOneOut)[k], root(GroupVariance(g, leaveOneOut, k))))
  }

  /** Reward minus baseline, row by row, and normalised on demand: over the rows of any one prompt it adds up
      to zero, unless it is normalised with one left out. */
  method ComputeAdvantage<P(==)>(
      prompts: seq<P>, rewards: seq<real>, leaveOneOut: bool, normalise: bool, root: real -> real)
      returns (advantages: seq<real>)
    requires |prompts| == |rewards| && (normalise ==> IsRoot(root))
    ensures |advantages| == |rewards|
    ensures forall p :: p in prompts ==>
              var g := Gather(rewards, Group(prompts, p));
              Gather(advantages, Group(prompts, p)) ==
                if normalise then NormalisedAdvantages(g, leaveOneOut, root) else Advantages(g, leaveOneOut)
    ensures !(normalise && leaveOneOut) ==>
              forall p :: p in prompts ==> Total(Gather(advantages, Group(prompts, p))) == 0.0
  {
    var baseline, variance := CalculateUnmasked(prompts, rewards, leaveOneOut);
    advantages := seq(|rewards|, i requires 0 <= i < |rewards| => rewards[i] - baseline[i]);
    ghost var plain := advantages;
    if normalise {
      advantages := seq(|rewards|, i requires 0 <= i < |rewards| => Normalised(advantages[i], root(variance[i])));
    }
    forall p | p in prompts
      ensures Gather(advantages, Group(prompts, p)) ==
                if normalise then NormalisedAdvantages(Gather(rewards, Group(prompts, p)), leaveOneOut, root)
                else Advantages(Gather(rewards, Group(prompts, p)), leaveOneOut)
      ensures !(normalise && leaveOneOut) ==> Total(Gather(advantages, Group(prompts, p))) == 0.0
    {
      var rows := Group(prompts, p);
      var g := Gather(rewards, rows);
      assert GroupDone(prompts, rewards, leaveOneOut, p, baseline, variance);
      assert Gather(plain, rows) == Advantages(g, leaveOneOut);
      AdvantagesCancel(g, leaveOneOut);
      if normalise {
        assert Gather(advantages, rows) == NormalisedAdvantages(g, leaveOneOut, root);
        if !leaveOneOut {
          NormalisedCancel(g, root);
        }
      }
    }
  }

  lemma NormalisedCancel(g: seq<real>, root: real -> real)
    requires IsRoot(root)
    ensures Total(NormalisedAdvantages(g, false, root)) == 0.0
  {
    var sd := seq(|g|, k requires 0 <= k < |g| => root(GroupVariance(g, false, k)));
    forall k | 0 <= k < |g| ensures IsDeviation(sd[k], GroupVariance(g, false, k)) {
      GroupVarianceVanishes(g, false, k);
    }
    NormalisedAdvantagesCancel(g, sd, NormalisedAdvantages(g, false, root));
  }
}
