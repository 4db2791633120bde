/** What dynamic sampling trains on, in terms of rewards: the first answers that are compared with two different
    rewards, and with the group's mean as baseline the first groups that hold two different rewards. */
module DynamicGroups {
  import opened Sequences
  import opened DynamicSampling
  import opened DynamicAdvantages

  // ----- the first ones with a verdict -----

  /** The positions below n whose verdict is true. */
  function Trues(verdicts: seq<bool>, n: nat): (r: seq<nat>)
    requires n <= |verdicts|
    ensures AllBelow(r, n) && Increasing(r)
    ensures forall i :: 0 <= i < n ==> (i in r <==> verdicts[i])
  {
    if n == 0 then [] else Trues(verdicts, n - 1) + if verdicts[n - 1] then [n - 1] else []
  }

  /** The first positions, this many, whose verdict is true: every position up to the last of them is listed or
      has a false verdict. */
  ghost predicate AreFirst(chosen: seq<nat>, verdicts: seq<bool>, count: nat) {
    && |chosen| == count && AllBelow(chosen, |verdicts|) && Increasing(chosen)
    && forall i, k :: 0 <= k < |chosen| && 0 <= i <= chosen[k] ==> (i in chosen <==> verdicts[i])
  }

  lemma FirstTrues(verdicts: seq<bool>, count: nat)
    requires count <= |Trues(verdicts, |verdicts|)|
    ensures AreFirst(Trues(verdicts, |verdicts|)[..count], verdicts, count)
  {
    var all := Trues(verdicts, |verdicts|);
    forall i, k | 0 <= k < count && 0 <= i <= all[k] ensures i in all[..count] <==> verdicts[i] {
      if verdicts[i] {
        var m :| 0 <= m < |all| && all[m] == i;
        assert m <= k && all[..count][m] == i;
      }
    }
  }

  // ----- answers -----

  /** Of every answer generated, in order: whether it is compared with two different rewards in its batch. */
  ghost function Verdicts<P, T>(batches: seq<seq<Row<P, T>>>, leaveOneOut: bool): (r: seq<bool>)
    ensures |r| == |Flat(batches)|
  {
    if batches == [] then []
    else
      var batch := batches[0];
      seq(|batch|, i requires 0 <= i < |batch| => Contrasts(batch, leaveOneOut, i)) +
      Verdicts(batches[1..], leaveOneOut)
  }

  lemma {:induction false} VerdictsAreKept<P, T>(batches: seq<seq<Row<P, T>>>, leaveOneOut: bool)
    requires forall i :: 0 <= i < |batches| ==> Attached(batches[i], leaveOneOut)
    ensures forall n :: 0 <= n < |Flat(batches)| ==> (Varies(Flat(batches)[n]) <==> Verdicts(batches, leaveOneOut)[n])
  {
    if batches == [] {
    } else {
      VerdictsAreKept(batches[1..], leaveOneOut);
      forall i | 0 <= i < |batches[0]| ensures Varies(batches[0][i]) <==> Contrasts(batches[0], leaveOneOut, i) {
        VariesIffContrasts(batches[0], leaveOneOut, i);
      }
    }
  }

  lemma {:induction false} VaryingIsGathered<P, T>(rows: seq<Row<P, T>>, verdicts: seq<bool>, n: nat)
    requires n <= |rows| == |verdicts|
    requires forall i :: 0 <= i < |rows| ==> (Varies(rows[i]) <==> verdicts[i])
    ensures Varying(rows[..n]) == Gather(rows, Trues(verdicts, n))
  {
    if n == 0 {
    } else {
      VaryingIsGathered(rows, verdicts, n - 1);
      VaryingSnoc(rows, n - 1);
      GatherGrows(rows, Trues(verdicts, n - 1), n - 1);
    }
  }

  lemma GatherGrows<X>(s: seq<X>, indices: seq<nat>, i: nat)
    requires AllBelow(indices, |s|) && i < |s|
    ensures Gather(s, indices + [i]) == Gather(s, indices) + [s[i]]
  {
  }

  /** Whatever the baseline, the training batch is the first answers, in the order of their generation, that are
      compared with two different rewards. */
  lemma TrainsOnContrasts<P, T>(
      batches: seq<seq<Row<P, T>>>, settings: Settings, leaveOneOut: bool, rows: seq<Row<P, T>>, used: nat)
    requires forall i :: 0 <= i < |batches| ==> Attached(batches[i], leaveOneOut)
    requires Explains(batches, settings, Trained(rows, used))
    ensures exists chosen ::
              AreFirst(chosen, Verdicts(batches, leaveOneOut), settings.prompts * settings.generations) &&
              rows == Gather(Flat(batches), chosen)
  {
    var all, verdicts, size := Flat(batches), Verdicts(batches, leaveOneOut), settings.Required();
    VerdictsAreKept(batches, leaveOneOut);
    VaryingIsGathered(all, verdicts, |all|);
    assert all[..|all|] == all;
    var trues := Trues(verdicts, |all|);
    FirstTrues(verdicts, size);
    GatherSlice(all, trues, 0, size);
    assert trues[0..size] == trues[..size];
  }

  // ----- groups -----

  /** Of every group: whether it holds two different rewards. */
  ghost function GroupVerdicts<P, T>(groups: seq<seq<Row<P, T>>>): (r: seq<bool>)
    ensures |r| == |groups|
  {
    seq(|groups|, k requires 0 <= k < |groups| => TwoRewards(groups[k]))
  }

  lemma {:induction false} VaryingBlocksGathered<P, T>(groups: seq<seq<Row<P, T>>>, verdicts: seq<bool>, n: nat)
    requires n <= |groups| == |verdicts|
    requires forall k :: 0 <= k < |groups| ==> groups[k] != [] && (Varies(groups[k][0]) <==> verdicts[k])
    ensures VaryingBlocks(groups[..n]) == Gather(groups, Trues(verdicts, n))
  {
    if n == 0 {
    } else {
      VaryingBlocksGathered(groups, verdicts, n - 1);
      VaryingBlocksSnoc(groups[..n - 1], groups[n - 1]);
      assert groups[..n] == groups[..n - 1] + [groups[n - 1]];
      GatherGrows(groups, Trues(verdicts, n - 1), n - 1);
    }
  }

  lemma {:induction false} VaryingBlocksSnoc<P, T>(groups: seq<seq<Row<P, T>>>, group: seq<Row<P, T>>)
    requires group != [] && forall k :: 0 <= k < |groups| ==> groups[k] != []
    ensures VaryingBlocks(groups + [group]) == VaryingBlocks(groups) + if Varies(group[0]) then [group] else []
  {
    if groups == [] {
      assert [group][1..] == [];
    } else {
      VaryingBlocksSnoc(groups[1..], group);
      assert (groups + [group])[1..] == groups[1..] + [group];
    }
  }

  /** With the group's mean as baseline, when no batch asks a prompt twice: what is generated falls into groups
      of answers to one prompt, and the training batch is the first of them, whole, that hold two different
      rewards. Every group that is passed over holds equal rewards. */
  lemma TrainsOnContrastingGroups<P, T>(
      asked: seq<seq<P>>, batches: seq<seq<Row<P, T>>>, settings: Settings, rows: seq<Row<P, T>>, used: nat)
    requires settings.generations > 0 && |asked| == |batches|
    requires forall i :: 0 <= i < |batches| ==>
               && Attached(batches[i], false) && Distinct(asked[i])
               && Prompts(batches[i]) == RepeatInterleave(asked[i], settings.generations)
    requires Explains(batches, settings, Trained(rows, used))
    ensures exists groups, chosen ::
              && Flat(groups) == Flat(batches) && AreGroups(groups, settings.generations)
              && AreFirst(chosen, GroupVerdicts(groups), settings.prompts)
              && rows == Flat(Gather(groups, chosen))
  {
    hide Explains, Attached, Distinct, RepeatInterleave, OwnBlocks, Flat, Blocks, VaryingBlocks;
    var groups := Blocks(Flat(batches), settings.generations);
    MeanBaselineTrainsOnWholeGroups(asked, batches, settings, rows, used);
    AllOwnBlocks(asked, batches, settings.generations);
    BlocksHaveOwnVerdicts(Flat(batches), settings.generations);
    OwnMeansAreGroups(groups, settings.generations);
    var chosen := FirstGroups(groups, settings.prompts);
  }

  lemma OwnMeansAreGroups<P, T>(groups: seq<seq<Row<P, T>>>, g: nat)
    requires forall k :: 0 <= k < |groups| ==> |groups[k]| == g && OwnMean(groups[k])
    ensures AreGroups(groups, g)
  {
    hide Rewards;
  }

  lemma FirstGroups<P, T>(groups: seq<seq<Row<P, T>>>, count: nat) returns (chosen: seq<nat>)
    requires forall k :: 0 <= k < |groups| ==> groups[k] != [] && OwnVerdict(groups[k])
    requires count <= |VaryingBlocks(groups)|
    ensures AreFirst(chosen, GroupVerdicts(groups), count)
    ensures VaryingBlocks(groups)[..count] == Gather(groups, chosen)
  {
    hide VaryingBlocks;
    var verdicts := GroupVerdicts(groups);
    VaryingBlocksGathered(groups, verdicts, |groups|);
    assert groups[..|groups|] == groups;
    var trues := Trues(verdicts, |groups|);
    FirstTrues(verdicts, count);
    GatherSlice(groups, trues, 0, count);
    chosen := trues[..count];
    assert trues[0..count] == chosen;
  }

  /** Every group holds this many answers to one prompt. */
  ghost predicate AreGroups<P, T>(groups: seq<seq<Row<P, T>>>, g: nat) {
    forall k :: 0 <= k < |groups| ==>
      |groups[k]| == g && forall a, b :: 0 <= a < g && 0 <= b < g ==> groups[k][a].prompt == groups[k][b].prompt
  }
}
