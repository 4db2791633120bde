/** Advantages after dynamic sampling: the training batch is grouped by prompt anew, so the baselines that
    were attached before filtering need not be the ones the advantages are computed with. */
module DynamicAdvantages {
  import opened Arithmetic
  import opened Sequences
  import opened Reals
  import opened DynamicSampling
  import Baselines

  // ----- the rewards that a prompt's answers got -----

  /** The rewards of the rows that answer p, in order. */
  function RewardsOf<P(==), T>(rows: seq<Row<P, T>>, p: P): seq<real> {
    if rows == [] then []
    else
      var last := |rows| - 1;
      RewardsOf(rows[..last], p) + if rows[last].prompt == p then [rows[last].reward] else []
  }

  lemma {:induction false} RewardsOfAppend<P, T>(a: seq<Row<P, T>>, b: seq<Row<P, T>>, p: P)
    ensures RewardsOf(a + b, p) == RewardsOf(a, p) + RewardsOf(b, p)
  {
    if b == [] {
      assert a + b == a;
    } else {
      var last := |b| - 1;
      assert (a + b)[..|a + b| - 1] == a + b[..last] && (a + b)[|a + b| - 1] == b[last];
      RewardsOfAppend(a, b[..last], p);
    }
  }

  /** Grouping by prompt gathers exactly these. */
  lemma {:induction false} GroupRewards<P, T>(rows: seq<Row<P, T>>, p: P, n: nat)
    requires n <= |rows|
    ensures Gather(Rewards(rows), Baselines.Positions(Prompts(rows), p, n)) == RewardsOf(rows[..n], p)
  {
    if n == 0 {
    } else {
      GroupRewards(rows, p, n - 1);
      assert rows[..n][..n - 1] == rows[..n - 1];
    }
  }

  lemma WholeGroupRewards<P, T>(rows: seq<Row<P, T>>, p: P)
    ensures Gather(Rewards(rows), Baselines.Group(Prompts(rows), p)) == RewardsOf(rows, p)
  {
    GroupRewards(rows, p, |rows|);
    assert rows[..|rows|] == rows;
  }

  lemma MeanBaseline(g: seq<real>, k: nat)
    requires k < |g|
    ensures Baselines.GroupBaseline(g, false, k) == Baselines.Mean(g)
  {
    if |g| == 1 {
      assert Total(g) == g[0] + Total(g[1..]) && g[1..] == [];
    } else {
      Baselines.BaselineIsMeanOfOthers(g, false, k);
    }
  }

  // ----- recomputed baselines -----

  /** The baseline attached to every row is the mean of the rewards of its prompt in this batch: grouping the
      batch anew gives the same. */
  ghost predicate BaselinesStand<P, T>(rows: seq<Row<P, T>>) {
    forall i :: 0 <= i < |rows| ==>
      RewardsOf(rows, rows[i].prompt) != [] && rows[i].baseline == Baselines.Mean(RewardsOf(rows, rows[i].prompt))
  }

  /** What the advantage estimator computes for the batch is what is attached to it. */
  ghost predicate Recomputed<P, T>(rows: seq<Row<P, T>>) {
    forall p :: p in Prompts(rows) ==> GroupRecomputed(rows, p)
  }

  ghost predicate GroupRecomputed<P, T>(rows: seq<Row<P, T>>, p: P) {
    var group := Baselines.Group(Prompts(rows), p);
    forall k :: 0 <= k < |group| ==>
      rows[group[k]].baseline == Baselines.GroupBaseline(Gather(Rewards(rows), group), false, k)
  }

  lemma RecomputedIffStand<P, T>(rows: seq<Row<P, T>>)
    ensures Recomputed(rows) <==> BaselinesStand(rows)
  {
    forall i | 0 <= i < |rows| ensures RewardsOf(rows, rows[i].prompt) != [] {
      var k := PositionInGroup(rows, i);
      WholeGroupRewards(rows, rows[i].prompt);
    }
    if BaselinesStand(rows) {
      forall p | p in Prompts(rows) ensures GroupRecomputed(rows, p) {
        StandingGroup(rows, p);
      }
    }
    if Recomputed(rows) {
      forall i | 0 <= i < |rows| ensures rows[i].baseline == Baselines.Mean(RewardsOf(rows, rows[i].prompt)) {
        RecomputedRow(rows, i);
      }
    }
  }

  lemma StandingGroup<P, T>(rows: seq<Row<P, T>>, p: P)
    requires BaselinesStand(rows)
    ensures GroupRecomputed(rows, p)
  {
    var group := Baselines.Group(Prompts(rows), p);
    WholeGroupRewards(rows, p);
    forall k | 0 <= k < |group|
      ensures rows[group[k]].baseline == Baselines.GroupBaseline(Gather(Rewards(rows), group), false, k)
    {
      assert rows[group[k]].prompt == Prompts(rows)[group[k]] == p;
      MeanBaseline(Gather(Rewards(rows), group), k);
    }
  }

  lemma RecomputedRow<P, T>(rows: seq<Row<P, T>>, i: nat)
    requires i < |rows| && Recomputed(rows)
    ensures RewardsOf(rows, rows[i].prompt) != []
    ensures rows[i].baseline == Baselines.Mean(RewardsOf(rows, rows[i].prompt))
  {
    var p := rows[i].prompt;
    var k := PositionInGroup(rows, i);
    WholeGroupRewards(rows, p);
    MeanBaseline(RewardsOf(rows, p), k);
  }

  // ----- blocks of one prompt each -----

  /** A group of answers to one prompt, each with the mean of the group as its baseline. */
  ghost predicate OwnMean<P, T>(block: seq<Row<P, T>>) {
    block != [] && forall i :: 0 <= i < |block| ==>
      block[i].prompt == block[0].prompt && block[i].baseline == Baselines.Mean(Rewards(block))
  }

  lemma {:induction false} BlockRewards<P, T>(block: seq<Row<P, T>>, p: P)
    requires forall i :: 0 <= i < |block| ==> block[i].prompt == block[0].prompt
    ensures RewardsOf(block, p) == if block != [] && block[0].prompt == p then Rewards(block) else []
  {
    if block == [] {
    } else {
      var last := |block| - 1;
      BlockRewards(block[..last], p);
      assert Rewards(block) == Rewards(block[..last]) + [block[last].reward];
    }
  }

  /** The prompt that a group answers. */
  function PromptOf<P, T>(block: seq<Row<P, T>>): P
    requires block != []
  {
    block[0].prompt
  }

  /** The groups that answer p. */
  function BlocksOf<P(==), T>(blocks: seq<seq<Row<P, T>>>, p: P): seq<seq<Row<P, T>>> {
    if blocks == [] then []
    else (if blocks[0] != [] && blocks[0][0].prompt == p then [blocks[0]] else []) + BlocksOf(blocks[1..], p)
  }

  function AllRewards<P, T>(blocks: seq<seq<Row<P, T>>>): (r: seq<seq<real>>) {
    seq(|blocks|, i requires 0 <= i < |blocks| => Rewards(blocks[i]))
  }

  lemma {:induction false} RewardsOfBlocks<P, T>(blocks: seq<seq<Row<P, T>>>, p: P)
    requires forall i :: 0 <= i < |blocks| ==> OwnMean(blocks[i])
    ensures RewardsOf(Flat(blocks), p) == Flat(AllRewards(BlocksOf(blocks, p)))
  {
    if blocks == [] {
    } else {
      RewardsOfBlocks(blocks[1..], p);
      RewardsOfAppend(blocks[0], Flat(blocks[1..]), p);
      BlockRewards(blocks[0], p);
      var rest := BlocksOf(blocks[1..], p);
      if PromptOf(blocks[0]) == p {
        assert BlocksOf(blocks, p) == [blocks[0]] + rest;
        FlatRewardsCons(blocks[0], rest);
      } else {
        assert BlocksOf(blocks, p) == rest;
      }
    }
  }

  lemma FlatRewardsCons<P, T>(block: seq<Row<P, T>>, rest: seq<seq<Row<P, T>>>)
    ensures Flat(AllRewards([block] + rest)) == Rewards(block) + Flat(AllRewards(rest))
  {
    assert AllRewards([block] + rest) == [Rewards(block)] + AllRewards(rest);
  }

  lemma {:induction false} BlocksOfMember<P, T>(blocks: seq<seq<Row<P, T>>>, p: P, b: seq<Row<P, T>>)
    ensures b in BlocksOf(blocks, p) <==> b in blocks && b != [] && b[0].prompt == p
  {
    if blocks == [] {
    } else {
      BlocksOfMember(blocks[1..], p, b);
      assert b in blocks <==> b == blocks[0] || b in blocks[1..];
    }
  }

  /** Sums that are all equal average to themselves, and only those do. */
  lemma {:induction false} TotalOfSums(parts: seq<seq<real>>, g: nat, t: real)
    requires forall i :: 0 <= i < |parts| ==> |parts[i]| == g && Total(parts[i]) == t
    ensures Total(Flat(parts)) == Times(|parts|, t)
  {
    if parts == [] {
    } else {
      TotalOfSums(parts[1..], g, t);
      TotalAppend(parts[0], Flat(parts[1..]));
    }
  }

  function Times(n: nat, t: real): real {
    if n == 0 then 0.0 else t + Times(n - 1, t)
  }

  lemma {:induction false} TimesIsProduct(n: nat, t: real)
    ensures Times(n, t) == n as real * t
  {
    if n == 0 {
    } else {
      TimesIsProduct(n - 1, t);
      OneMoreReal(n - 1, t);
    }
  }

  lemma OneMoreReal(n: nat, t: real)
    ensures (n + 1) as real * t == n as real * t + t
  {
  }

  lemma MeanOfSums(n: nat, g: nat, t: real)
    requires n > 0 && g > 0
    ensures n * g > 0 && Times(n, t) / (n * g) as real == t / g as real
  {
    TimesIsProduct(n, t);
    PositiveProduct(n, g);
    CancelFactor(n as real, g as real, t);
    assert (n * g) as real == n as real * g as real;
  }

  lemma PositiveProduct(n: nat, g: nat)
    requires n > 0 && g > 0
    ensures n * g > 0
  {
  }

  lemma CancelFactor(n: real, g: real, t: real)
    requires n > 0.0 && g > 0.0
    ensures n * g > 0.0 && n * t / (n * g) == t / g
  {
  }

  ghost predicate SamePrompt<P, T>(a: seq<Row<P, T>>, b: seq<Row<P, T>>)
    requires OwnMean(a) && OwnMean(b)
  {
    PromptOf(a) == PromptOf(b)
  }

  /** Groups of the same prompt have the same mean. */
  ghost predicate MeansAgree<P, T>(blocks: seq<seq<Row<P, T>>>)
    requires forall i :: 0 <= i < |blocks| ==> OwnMean(blocks[i])
  {
    forall i, j :: 0 <= i < |blocks| && 0 <= j < |blocks| && SamePrompt(blocks[i], blocks[j]) ==>
      Baselines.Mean(Rewards(blocks[i])) == Baselines.Mean(Rewards(blocks[j]))
  }

  lemma SameMeanSameTotal(a: seq<real>, b: seq<real>)
    requires a != [] && |a| == |b|
    ensures Baselines.Mean(a) == Baselines.Mean(b) <==> Total(a) == Total(b)
  {
    assert Baselines.Mean(a) * |a| as real == Total(a) && Baselines.Mean(b) * |b| as real == Total(b);
  }

  lemma AgreeingMean<P, T>(blocks: seq<seq<Row<P, T>>>, g: nat, i: nat)
    requires g > 0 && i < |blocks|
    requires forall k :: 0 <= k < |blocks| ==> |blocks[k]| == g && OwnMean(blocks[k])
    requires MeansAgree(blocks)
    requires OwnMean(blocks[i])
    ensures var all := RewardsOf(Flat(blocks), PromptOf(blocks[i]));
      all != [] && Baselines.Mean(all) == Baselines.Mean(Rewards(blocks[i]))
  {
    var p := PromptOf(blocks[i]);
    var parts := AllRewards(BlocksOf(blocks, p));
    var t := Total(Rewards(blocks[i]));
    BlocksOfMember(blocks, p, blocks[i]);
    RewardsOfBlocks(blocks, p);
    forall k | 0 <= k < |parts| ensures |parts[k]| == g && Total(parts[k]) == t {
      SumOfPrompt(blocks, g, i, k);
    }
    FlatLength(parts, g);
    TotalOfSums(parts, g, t);
    MeanOfSums(|parts|, g, t);
  }

  lemma SumOfPrompt<P, T>(blocks: seq<seq<Row<P, T>>>, g: nat, i: nat, k: nat)
    requires g > 0 && i < |blocks| && OwnMean(blocks[i])
    requires forall k :: 0 <= k < |blocks| ==> |blocks[k]| == g && OwnMean(blocks[k])
    requires MeansAgree(blocks) && k < |BlocksOf(blocks, PromptOf(blocks[i]))|
    ensures var part := Rewards(BlocksOf(blocks, PromptOf(blocks[i]))[k]);
      |part| == g && Total(part) == Total(Rewards(blocks[i]))
  {
    var p := PromptOf(blocks[i]);
    var b := BlocksOf(blocks, p)[k];
    BlocksOfMember(blocks, p, b);
    var j :| 0 <= j < |blocks| && blocks[j] == b;
    assert OwnMean(blocks[j]) && SamePrompt(blocks[i], blocks[j]);
    SameMeanSameTotal(Rewards(blocks[i]), Rewards(blocks[j]));
  }

  lemma FlatRow<P, T>(blocks: seq<seq<Row<P, T>>>, n: nat) returns (i: nat, k: nat)
    requires n < |Flat(blocks)|
    ensures i < |blocks| && k < |blocks[i]| && blocks[i][k] == Flat(blocks)[n]
  {
    i, k := FlatElement(blocks, Flat(blocks)[n]);
  }

  /** Of whole groups, each with its own mean attached, the recomputed baselines are the attached ones
      exactly when groups of the same prompt have the same mean: in particular when no prompt repeats. */
  lemma WholeGroupsRecomputed<P, T>(blocks: seq<seq<Row<P, T>>>, g: nat)
    requires g > 0 && forall k :: 0 <= k < |blocks| ==> |blocks[k]| == g && OwnMean(blocks[k])
    ensures Recomputed(Flat(blocks)) <==> MeansAgree(blocks)
  {
    var rows := Flat(blocks);
    RecomputedIffStand(rows);
    if MeansAgree(blocks) {
      forall n | 0 <= n < |rows|
        ensures RewardsOf(rows, rows[n].prompt) != []
        ensures rows[n].baseline == Baselines.Mean(RewardsOf(rows, rows[n].prompt))
      {
        var i, k := FlatRow(blocks, n);
        assert OwnMean(blocks[i]);
        AgreeingMean(blocks, g, i);
      }
    }
    if BaselinesStand(rows) {
      forall i, j | 0 <= i < |blocks| && 0 <= j < |blocks| && SamePrompt(blocks[i], blocks[j])
        ensures Baselines.Mean(Rewards(blocks[i])) == Baselines.Mean(Rewards(blocks[j]))
      {
        assert OwnMean(blocks[i]) && OwnMean(blocks[j]);
        FlatMember(blocks, i, 0);
        FlatMember(blocks, j, 0);
      }
    }
  }

  lemma DistinctPromptsAgree<P, T>(blocks: seq<seq<Row<P, T>>>)
    requires forall k :: 0 <= k < |blocks| ==> OwnMean(blocks[k])
    requires forall i, j :: 0 <= i < |blocks| && 0 <= j < |blocks| && i != j ==> !SamePrompt(blocks[i], blocks[j])
    ensures MeansAgree(blocks)
  {
  }

  // ----- from generation to advantages -----

  lemma {:induction false} RepeatAppend<X>(a: seq<X>, b: seq<X>, g: nat)
    ensures RepeatInterleave(a + b, g) == RepeatInterleave(a, g) + RepeatInterleave(b, g)
  {
    if a == [] {
      assert a + b == b;
    } else {
      assert (a + b)[1..] == a[1..] + b;
      RepeatAppend(a[1..], b, g);
    }
  }

  lemma {:induction false} RepeatMeaning<X>(items: seq<X>, g: nat)
    ensures |RepeatInterleave(items, g)| == |items| * g
    ensures forall x :: x in RepeatInterleave(items, g) ==> x in items
  {
    if items == [] {
    } else {
      RepeatMeaning(items[1..], g);
      OneMore(|items[1..]|, g);
    }
  }

  lemma {:induction false} NoRewards<P, T>(rows: seq<Row<P, T>>, p: P)
    requires forall i :: 0 <= i < |rows| ==> rows[i].prompt != p
    ensures RewardsOf(rows, p) == []
  {
    if rows == [] {
    } else {
      NoRewards(rows[..|rows| - 1], p);
    }
  }

  /** Where among repeated prompts the b-th one is, and that it is nowhere else. */
  lemma PlaceOf<X>(asked: seq<X>, g: nat, b: nat, start: nat)
    requires g > 0 && b < |asked| && Distinct(asked) && start == b * g
    ensures start + g <= |RepeatInterleave(asked, g)|
    ensures var all := RepeatInterleave(asked, g);
      forall i :: 0 <= i < |all| ==> (all[i] == asked[b] <==> start <= i < start + g)
  {
    var before, after := asked[..b], asked[b + 1..];
    assert asked == before + ([asked[b]] + after);
    RepeatAppend(before, [asked[b]] + after, g);
    RepeatAppend([asked[b]], after, g);
    RepeatMeaning(before, g);
    RepeatMeaning(after, g);
    OnlyRepeat(asked[b], g);
    Between(RepeatInterleave(before, g), asked[b], g, RepeatInterleave(after, g));
  }

  lemma Between<X>(a: seq<X>, x: X, g: nat, b: seq<X>)
    requires x !in a && x !in b
    ensures var all := a + (seq(g, _ => x) + b);
      forall i :: 0 <= i < |all| ==> (all[i] == x <==> |a| <= i < |a| + g)
  {
    var all := a + (seq(g, _ => x) + b);
    forall i | 0 <= i < |all| ensures all[i] == x <==> |a| <= i < |a| + g {
      if i < |a| {
        assert all[i] == a[i] && a[i] in a;
      } else if i >= |a| + g {
        assert all[i] == b[i - |a| - g] && b[i - |a| - g] in b;
      }
    }
  }

  lemma OnlyRepeat<X>(x: X, g: nat)
    ensures RepeatInterleave([x], g) == seq(g, _ => x)
  {
    assert [x][1..] == [];
  }

  /** A stretch of rows that holds all answers to p. */
  lemma OnlyStretch<P, T>(before: seq<Row<P, T>>, block: seq<Row<P, T>>, after: seq<Row<P, T>>, p: P)
    requires forall i :: 0 <= i < |before| ==> before[i].prompt != p
    requires forall i :: 0 <= i < |block| ==> block[i].prompt == p
    requires forall i :: 0 <= i < |after| ==> after[i].prompt != p
    ensures RewardsOf(before + (block + after), p) == Rewards(block)
  {
    RewardsOfAppend(before, block + after, p);
    RewardsOfAppend(block, after, p);
    NoRewards(before, p);
    NoRewards(after, p);
    BlockRewards(block, p);
  }

  lemma Reassemble<X>(s: seq<X>, lo: nat, hi: nat)
    requires lo <= hi <= |s|
    ensures s[..lo] + (s[lo..hi] + s[hi..]) == s
  {
  }

  /** The answers to the b-th prompt of a batch. */
  lemma OneBlock<P, T>(asked: seq<P>, batch: seq<Row<P, T>>, g: nat, b: nat, start: nat)
    requires g > 0 && b < |asked| && Distinct(asked) && Prompts(batch) == RepeatInterleave(asked, g)
    requires start == b * g
    ensures start + g <= |batch| && forall i :: start <= i < start + g ==> batch[i].prompt == asked[b]
    ensures RewardsOf(batch, asked[b]) == Rewards(batch[start..start + g])
  {
    hide RewardsOf, Rewards, RepeatInterleave;
    PlaceOf(asked, g, b, start);
    StretchOf(batch, asked[b], start, start + g);
  }

  lemma StretchOf<P, T>(batch: seq<Row<P, T>>, p: P, lo: nat, hi: nat)
    requires lo <= hi <= |batch|
    requires forall i :: 0 <= i < |Prompts(batch)| ==> (Prompts(batch)[i] == p <==> lo <= i < hi)
    ensures forall i :: lo <= i < hi ==> batch[i].prompt == p
    ensures RewardsOf(batch, p) == Rewards(batch[lo..hi])
  {
    forall i | 0 <= i < |batch| ensures batch[i].prompt == p <==> lo <= i < hi {
      assert Prompts(batch)[i] == batch[i].prompt;
    }
    OnlyStretch(batch[..lo], batch[lo..hi], batch[hi..], p);
    Reassemble(batch, lo, hi);
  }

  lemma BlockHasOwnMean<P, T>(asked: seq<P>, batch: seq<Row<P, T>>, g: nat, b: nat, start: nat)
    requires g > 0 && b < |asked| && Distinct(asked) && Prompts(batch) == RepeatInterleave(asked, g)
    requires Attached(batch, false) && start == b * g
    ensures start + g <= |batch| && OwnMean(batch[start..start + g]) && OwnVerdict(batch[start..start + g])
  {
    OneBlock(asked, batch, g, b, start);
    var block := batch[start..start + g];
    forall i | 0 <= i < g ensures block[i].prompt == asked[b] && block[i].baseline == Baselines.Mean(Rewards(block)) {
      assert block[i] == batch[start + i];
      AttachedMean(batch, start + i);
    }
    BlockHasOwnVerdict(batch, start, block);
  }

  /** Two answers of the group got different rewards. */
  ghost predicate TwoRewards<P, T>(block: seq<Row<P, T>>) {
    exists a, b :: 0 <= a < |block| && 0 <= b < |block| && block[a].reward != block[b].reward
  }

  /** The filter's verdict on a group is that of its rewards. */
  ghost predicate OwnVerdict<P, T>(block: seq<Row<P, T>>) {
    block != [] && (Varies(block[0]) <==> TwoRewards(block))
  }

  /** A block that holds all answers to its prompt. */
  lemma BlockHasOwnVerdict<P, T>(batch: seq<Row<P, T>>, i: nat, block: seq<Row<P, T>>)
    requires i < |batch| && Attached(batch, false) && block != [] && block[0] == batch[i]
    requires forall k :: 0 <= k < |block| ==> block[k].prompt == batch[i].prompt && block[k] in batch
    requires RewardsOf(batch, batch[i].prompt) == Rewards(block)
    ensures OwnVerdict(block)
  {
    VariesIffContrasts(batch, false, i);
    if Contrasts(batch, false, i) {
      var a, b :| 0 <= a < |batch| && 0 <= b < |batch| &&
        ComparedWith(batch, false, i, a) && ComparedWith(batch, false, i, b) && batch[a].reward != batch[b].reward;
      RewardsOfMember(batch, a);
      RewardsOfMember(batch, b);
      var x :| 0 <= x < |block| && Rewards(block)[x] == batch[a].reward;
      var y :| 0 <= y < |block| && Rewards(block)[y] == batch[b].reward;
      assert block[x].reward != block[y].reward;
    }
    if x, y :| 0 <= x < |block| && 0 <= y < |block| && block[x].reward != block[y].reward {
      var a :| 0 <= a < |batch| && batch[a] == block[x];
      var b :| 0 <= b < |batch| && batch[b] == block[y];
      assert ComparedWith(batch, false, i, a) && ComparedWith(batch, false, i, b);
    }
  }

  lemma {:induction false} RewardsOfMember<P, T>(rows: seq<Row<P, T>>, i: nat)
    requires i < |rows|
    ensures rows[i].reward in RewardsOf(rows, rows[i].prompt)
  {
    if i == |rows| - 1 {
    } else {
      RewardsOfMember(rows[..|rows| - 1], i);
    }
  }

  /** The attached baseline of a row is the mean of its prompt's rewards in the batch. */
  lemma AttachedMean<P, T>(batch: seq<Row<P, T>>, i: nat)
    requires i < |batch| && Attached(batch, false)
    ensures RewardsOf(batch, batch[i].prompt) != []
    ensures batch[i].baseline == Baselines.Mean(RewardsOf(batch, batch[i].prompt))
  {
    var p := batch[i].prompt;
    var k := PositionInGroup(batch, i);
    WholeGroupRewards(batch, p);
    MeanBaseline(RewardsOf(batch, p), k);
    assert Baselines.GroupDone(Prompts(batch), Rewards(batch), false, p, BaselineColumn(batch), VarianceColumn(batch));
    assert BaselineColumn(batch)[Baselines.Group(Prompts(batch), p)[k]] == batch[i].baseline;
  }

  /** Made of whole groups with their own means and verdicts. */
  ghost predicate OwnBlocks<P, T>(rows: seq<Row<P, T>>, g: nat)
    requires g > 0
    decreases |rows|
  {
    rows == [] || (|rows| >= g && OwnMean(rows[..g]) && OwnVerdict(rows[..g]) && OwnBlocks(rows[g..], g))
  }

  lemma {:induction false} BatchHasOwnMeans<P, T>(asked: seq<P>, batch: seq<Row<P, T>>, g: nat, b: nat, start: nat)
    requires g > 0 && b <= |asked| && Distinct(asked) && Prompts(batch) == RepeatInterleave(asked, g)
    requires Attached(batch, false) && start == b * g
    ensures start <= |batch| && OwnBlocks(batch[start..], g)
    decreases |asked| - b
  {
    if b == |asked| {
      RepeatMeaning(asked, g);
      assert |Prompts(batch)| == |batch|;
    } else {
      OneMore(b, g);
      BlockHasOwnMean(asked, batch, g, b, start);
      BatchHasOwnMeans(asked, batch, g, b + 1, start + g);
      var rest := batch[start..];
      assert rest[..g] == batch[start..start + g] && rest[g..] == batch[start + g..];
    }
  }

  lemma {:induction false} OwnBlocksAppend<P, T>(a: seq<Row<P, T>>, b: seq<Row<P, T>>, g: nat)
    requires g > 0 && OwnBlocks(a, g) && OwnBlocks(b, g)
    ensures OwnBlocks(a + b, g)
    decreases |a|
  {
    if a == [] {
      assert a + b == b;
    } else {
      OwnBlocksAppend(a[g..], b, g);
      assert (a + b)[..g] == a[..g] && (a + b)[g..] == a[g..] + b;
    }
  }

  lemma {:induction false} FlatOwnBlocks<P, T>(batches: seq<seq<Row<P, T>>>, g: nat)
    requires g > 0 && forall i :: 0 <= i < |batches| ==> OwnBlocks(batches[i], g)
    ensures OwnBlocks(Flat(batches), g)
  {
    if batches == [] {
    } else {
      FlatOwnBlocks(batches[1..], g);
      OwnBlocksAppend(batches[0], Flat(batches[1..]), g);
    }
  }

  lemma {:induction false} BlocksHaveOwnVerdicts<P, T>(rows: seq<Row<P, T>>, g: nat)
    requires g > 0 && OwnBlocks(rows, g)
    ensures Flat(Blocks(rows, g)) == rows
    ensures forall k :: 0 <= k < |Blocks(rows, g)| ==>
              |Blocks(rows, g)[k]| == g && OwnMean(Blocks(rows, g)[k]) && OwnVerdict(Blocks(rows, g)[k])
    decreases |rows|
  {
    hide OwnMean, OwnVerdict;
    if rows == [] {
    } else {
      BlocksHaveOwnVerdicts(rows[g..], g);
      assert Blocks(rows, g) == [rows[..g]] + Blocks(rows[g..], g);
      assert rows == rows[..g] + rows[g..];
    }
  }

  lemma {:induction false} OwnVaryingBlocks<P, T>(rows: seq<Row<P, T>>, g: nat)
    requires g > 0 && OwnBlocks(rows, g)
    ensures forall i :: 0 <= i < |Blocks(rows, g)| ==> Blocks(rows, g)[i] != []
    ensures forall i :: 0 <= i < |VaryingBlocks(Blocks(rows, g))| ==>
              |VaryingBlocks(Blocks(rows, g))[i]| == g && OwnMean(VaryingBlocks(Blocks(rows, g))[i])
    decreases |rows|
  {
    if rows == [] {
    } else {
      OwnVaryingBlocks(rows[g..], g);
      assert Blocks(rows, g)[1..] == Blocks(rows[g..], g);
    }
  }

  /** When no batch asks a prompt twice, all that is generated is whole groups with their own means and
      verdicts. */
  lemma AllOwnBlocks<P, T>(asked: seq<seq<P>>, batches: seq<seq<Row<P, T>>>, g: nat)
    requires g > 0 && |asked| == |batches|
    requires forall i :: 0 <= i < |batches| ==>
               Attached(batches[i], false) && Distinct(asked[i]) && Prompts(batches[i]) == RepeatInterleave(asked[i], g)
    ensures OwnBlocks(Flat(batches), g)
  {
    forall i | 0 <= i < |batches| ensures OwnBlocks(batches[i], g) {
      BatchHasOwnMeans(asked[i], batches[i], g, 0, 0);
      assert batches[i][0..] == batches[i];
    }
    FlatOwnBlocks(batches, g);
  }

  /** From generation to advantages, with the group's mean as baseline: when no batch asks a prompt twice,
      the training batch consists of whole groups with their own means, and computing its advantages uses
      the attached baselines exactly when groups of the same prompt, from different batches, have the same
      mean. */
  lemma TrainedBaselines<P, T>(
      asked: seq<seq<P>>, batches: seq<seq<Row<P, T>>>, settings: Settings, rows: seq<Row<P, T>>, used: nat)
    requires settings.generations > 0 && |asked| == |batches|
    requires forall i :: 0 <= i < |batches| ==>
               && Attached(batches[i], false) && Distinct(asked[i])
               && Prompts(batches[i]) == RepeatInterleave(asked[i], settings.generations)
    requires Explains(batches, settings, Trained(rows, used))
    ensures var all := Blocks(Flat(batches), settings.generations);
      && (forall i :: 0 <= i < |all| ==> |all[i]| == settings.generations)
      && settings.prompts <= |VaryingBlocks(all)|
      && (forall i :: 0 <= i < settings.prompts ==> OwnMean(VaryingBlocks(all)[..settings.prompts][i]))
      && rows == Flat(VaryingBlocks(all)[..settings.prompts])
      && (Recomputed(rows) <==> MeansAgree(VaryingBlocks(all)[..settings.prompts]))
  {
    var g := settings.generations;
    MeanBaselineTrainsOnWholeGroups(asked, batches, settings, rows, used);
    AllOwnBlocks(asked, batches, g);
    OwnVaryingBlocks(Flat(batches), g);
    var kept := VaryingBlocks(Blocks(Flat(batches), g))[..settings.prompts];
    forall i | 0 <= i < |kept| ensures |kept[i]| == g && OwnMean(kept[i]) {
      assert kept[i] == VaryingBlocks(Blocks(Flat(batches), g))[i];
    }
    WholeGroupsRecomputed(kept, g);
  }

  // ----- leaving one out -----

  lemma EqualsHaveNoAdvantage(g: seq<real>, leaveOneOut: bool)
    requires Baselines.AllEqual(g)
    ensures forall k :: 0 <= k < |g| ==> Baselines.Advantages(g, leaveOneOut)[k] == 0.0
  {
    forall k | 0 <= k < |g| ensures Baselines.Advantages(g, leaveOneOut)[k] == 0.0 {
      if |g| >= 2 {
        var o := Baselines.Others(g, leaveOneOut, k);
        Baselines.BaselineIsMeanOfOthers(g, leaveOneOut, k);
        assert forall m :: 0 <= m < |o| ==> o[m] == g[if leaveOneOut && m >= k then m + 1 else m] == g[k];
        assert Baselines.AllEqual(o);
        Baselines.MeanOfEqual(o);
        assert o[0] == g[k];
      }
    }
  }

  /** Leaving one out, filtering takes only the odd one out of its group of three or more, and what is left
      has no advantages any more. */
  lemma OddGroupTeachesNothing(g: seq<real>, odd: nat)
    requires odd < |g| && |g| > 2 && Baselines.OddOneOut(g, odd)
    ensures forall k :: 0 <= k < |g| ==> (Baselines.GroupVariance(g, true, k) != 0.0 <==> k != odd)
    ensures forall leaveOneOut, k :: 0 <= k < |g| - 1 ==>
              Baselines.Advantages(Without(g, odd), leaveOneOut)[k] == 0.0
  {
    forall k | 0 <= k < |g| ensures Baselines.GroupVariance(g, true, k) != 0.0 <==> k != odd {
      Baselines.GroupVarianceVanishes(g, true, k);
      if k != odd {
        Baselines.OddOneVaries(g, odd, k);
      }
    }
    EqualsHaveNoAdvantage(Without(g, odd), false);
    EqualsHaveNoAdvantage(Without(g, odd), true);
  }
}
