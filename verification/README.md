# A verified model of NeMo RL's data and control core

NeMo RL trains language models by reinforcement learning on clusters. Five parts of it carry index
arithmetic, state machines or transformations that are easy to get wrong and hard to see going wrong.
This project models those parts in Dafny, in the form the code has, and proves what they are for:

* **Batches.** A batch is split over data-parallel shards (plain, uneven, balanced by length, or packed
  into bins), every shard walks through its chunks and microbatches, and results are put back in order.
  The bin packers, with the adjustment of the bin count, are part of the model.
* **Asynchronous GRPO.** A collector reserves target versions and spawns workers, workers push groups into
  a replay buffer, a trainer samples, trains and refits; all steps interleave freely.
* **Top-k and top-p filtering** of logits: sort, threshold, cumulative sum, scatter back, in chunks.
* **Configuration files**: inheritance with override markers, minimisation against a base, flattening and
  comparison.
* **Smaller cores**: baselines and advantages per prompt, dynamic sampling, flattening of conversations and
  the loss mask, and layouts of ranks with named axes.

## How the files fit together

| files | part |
|---|---|
| `Options`, `Arithmetic`, `Reals`, `Sequences`, `Sorting`, `Grids` | shared facts: products and quotients, sums of reals, concatenation and permutations, stable sorting, dealing out in turn, reading a grid by rows or by columns |
| `Packing`, `BinCounts`, `ModifiedFirstFit`, `Packers` | the packers and the adjustment of the bin count |
| `Sharding`, `BalancedSharding`, `LoadBalance`, `Microbatches`, `DynamicBatching`, `DynamicWalk` | sharding; sort-and-stride; the greedy split; walking a shard |
| `BatchedData`, `PackedSharding`, `PackedWalk` | the batch object; sequence packing; walking a packed shard |
| `ReplayBuffer`, `AsyncProtocol`, `AsyncStalls`, `AsyncVersions`, `AsyncRuns` | the buffer; the transition system; when training stalls and when it need not; versions, origins and reservations over whole runs; runs that every configuration has |
| `TopKTopP`, `TopKOnly` | the sorted and the sort-free path |
| `ConfigTree`, `ConfigInheritance`, `ConfigFlatten` | merging and minimising; what stands where in an expanded config; flattening and comparing |
| `Baselines`, `MaskedBaselines`, `DynamicSampling`, `DynamicAdvantages`, `DynamicGroups` | statistics and advantages of a group; the same for batches with masked rows; filtering and accumulating batches; what is recomputed for the batch trained on; what it consists of, in terms of rewards |
| `Messages`, `LossMask` | joining and padding conversations; the training mask |
| `RankGrids`, `NamedSharding` | N-dimensional arrays; named axes |

`dafny verify dfyconfig.toml` checks everything.

## What the code does not promise by itself

Where a property that the code or its documentation suggests is not true of every input, the code is kept
as it is, and the project proves exactly when the property holds:

* **Stale reads.** The collector reads the largest target pushed so far, and only then takes the lock and
  reserves. A target is reserved twice in a run if and only if some reservation acts on a stale value
  (`ReservedOnceIffFresh`); then the trainer can meet a trajectory older than its window and raise
  (`StaleReadCrashes` gives such a run for every number of prompts and every maximum age; it keeps to the
  limit on workers in flight and to every wait). Runs without stale reservations are safe (`SafeRun`).
* **Targets can be passed over.** A collector that starts its next batch after a refit never returns to a
  target it did not reserve. No target is passed over in a run if and only if every batch starts on time:
  with all targets reserved that it can no longer take (`NonePassedIffOnTime`; `TargetCanBePassedOver` is a
  run in which one is).
* **Training can stall before that.** A target is lost when neither the batch under way nor any later one
  can take it; from then on training never trains on it or gets beyond it (`LostStalls`; `TargetCanBeLost`
  is a run with a target lost and none passed over). While targets were reserved once, a trainer that waits
  for its target can still be served if and only if that target is not lost (`TrainsIffNotLost`).
* **Balanced batches return in order** for one chunk or one shard, and, when rows can be told apart, only
  then (`BalancedRoundTrip`): the returned indices are in chunk order, the concatenated shards in shard
  order. Packed batches return in order for any number of chunks (`PackedRoundTrip`).
* **Minimising keeps the meaning** of a config if and only if no shared section loses something to pruning
  (`MinimiseKeepsMeaning`): an empty list or section, or an override marker that the base has too, is
  forgotten (`EmptyListIsForgotten`). That holds for the inferred base, which is loaded first
  (`MinimisedFileKeepsMeaning`), and for one given explicitly, which is not (`MinimisedAgainstGivenBase`).
* **Comparing** two configs sees exactly their leaves: empty sections are invisible, and a key with a dot in
  it looks like nesting (`EmptySectionIsInvisible`, `DottedKeyLooksNested`).
* **Dynamic sampling keeps whole groups** with the group's mean as baseline; leaving one out, a group is
  broken up exactly when it has three answers or more and one odd one out (`LeaveOneOutUniform`), and what
  is left of it has no advantages (`OddGroupTeachesNothing`).
* **Advantages are computed anew** for the accumulated batch, grouped by prompt. Their baselines are the
  attached ones if and only if the kept groups of one prompt, which come from different batches, have the
  same mean (`TrainedBaselines`).
* **Rows that are masked out** are not part of any valid row's baseline (`ValidRow`); but their own baseline
  divides by one too few when one answer is left out (`MaskedRow`), and their deviation can be the largest
  number (`LargestSpread`).
* **A row cut at its input length** is the conversation exactly when no field of the conversation has more
  numbers in it than there are tokens (`CutRestoresTokens`; `LongFieldIsNotCut` is one that has).
* **Leftovers are not packed first-fit decreasing**, as the modified packer's documentation says: each goes to
  a bin that is least full (`PackLeftovers`), which can take more bins (`ShelvingTakesMoreBins`). What first
  fit promises of the number of bins, that any two overflow one, holds all the same (`PackModifiedFirstFit`).
* Two branches of the packers that would lose or refuse sequences are never taken: the failed
  redistribution (`AdjustBinCount`), and a small sequence taken out without being placed (`AddSmallPairs`).

## Model

| member | source | states |
|---|---|---|
| `ReplayBuffers.Create` | nemo_rl/algorithms/async_utils.py:43-53 | refuses sizes that are not positive; a new buffer is empty, aligned, and has pushed no target |
| `ReplayBuffers.ReplayBuffer.PushWithWaitSignal` | nemo_rl/algorithms/async_utils.py:55-82 | the object's new value and status are those of `Push` on its old value |
| `ReplayBuffers.ReplayBuffer.SampleGroups` | nemo_rl/algorithms/async_utils.py:102-223 | the object's new value and result are those of `Sample` on its old value, in every branch |
| `ReplayBuffers.ReplayBuffer.RemoveDescending` | nemo_rl/algorithms/async_utils.py:211-215 | popping in descending order removes exactly the selected positions from all three lists |
| `ReplayBuffers.PopBelow` | nemo_rl/algorithms/async_utils.py:211-215 | popping a position below everything already removed removes that position and no other: why descending order is right |
| `ReplayBuffers.PickedAndKeptSplit` | nemo_rl/algorithms/async_utils.py:209-215 | what is served and what stays together are the old contents, element for element |
| `ReplayBuffers.PushEffect` | nemo_rl/algorithms/async_utils.py:68-82 | a push succeeds if and only if there is room; it then leaves every entry where it is, adds the new one at the end with its version and target, and raises the largest target; otherwise nothing changes |
| `ReplayBuffers.SelectedMeaning` | nemo_rl/algorithms/async_utils.py:147-190 | the selected positions are in the window and aimed at this step, and an entry is passed over only when n earlier ones were taken |
| `ReplayBuffers.SampleEffect` | nemo_rl/algorithms/async_utils.py:118-223 | a sample raises, waits or serves exactly under the stated conditions; it either changes nothing or removes exactly n groups aimed at the step, and the entries not selected stay, each with its own version and target, in their order |
| `ReplayBuffers.ServedIffEnough` | nemo_rl/algorithms/async_utils.py:171-187 | when no entry is outside the window, a step is served if and only if n entries aim at it |
| `ReplayBuffers.SampledAge` | nemo_rl/algorithms/async_utils.py:197-200 | the average age is that of the versions of the groups served, counted from the version of the step |
| `ReplayBuffers.AgeInRange` | nemo_rl/algorithms/async_utils.py:197-200 | the average age of served groups lies between 0 and the maximum age |
| `AsyncProtocol.ChoiceMeaning` | nemo_rl/algorithms/async_utils.py:294-342 | the reserved target is the least candidate that is above the value read and not in progress |
| `AsyncProtocol.RepeatsIffStale` | nemo_rl/algorithms/async_utils.py:328-340 | in a state that satisfies the invariant, a reservation repeats a target if and only if it does not exceed the largest target pushed |
| `AsyncProtocol.StepKeepsInv` | nemo_rl/algorithms/async_utils.py:451-508 | every step of every thread keeps the bounds on versions, groups and reservations, and the accounts; which version a worker has is stated by `AsyncVersions.WorkerVersion` |
| `AsyncProtocol.AccountKept` | nemo_rl/algorithms/async_utils.py:637-747 | per target, groups buffered, in generation, still to spawn and consumed always add up to the groups of its reservations |
| `AsyncProtocol.RunInv` | nemo_rl/algorithms/grpo.py:2518-2534 | every state of every run satisfies the invariant |
| `AsyncProtocol.AcceptedBounds` | nemo_rl/algorithms/grpo.py:2490-2498 | the buffer can be built if and only if there is at least one prompt per step and the maximum age is at least 1 |
| `AsyncProtocol.BufferFits` | nemo_rl/algorithms/async_utils.py:133-145 | when no target was reserved twice, every buffered entry has version at most w, and target between w and its version plus the maximum age |
| `AsyncProtocol.Pigeonhole` | nemo_rl/algorithms/grpo.py:2487-2494 | k targets with at most n groups each hold at most k * n groups |
| `AsyncProtocol.OccupancyBound` | nemo_rl/algorithms/grpo.py:2487-2498 | then the buffer never holds more than (max_age + 1) * prompts groups, which is within its size |
| `AsyncProtocol.PushNeverFull` | nemo_rl/algorithms/async_utils.py:69-70 | then no push finds the buffer full |
| `AsyncProtocol.NoCrashStep` | nemo_rl/algorithms/async_utils.py:142-145 | a step makes sampling raise only if some target was reserved twice |
| `AsyncProtocol.CrashesIffTooOld` | nemo_rl/algorithms/async_utils.py:133-145 | sampling raises if and only if a buffered group is older than the maximum age allows |
| `AsyncProtocol.StepReservesOnce` | nemo_rl/algorithms/async_utils.py:332-340 | targets stay reserved at most once if and only if the step does not act on a stale read |
| `AsyncProtocol.ReservedOnceIffFresh` | nemo_rl/algorithms/async_utils.py:323-342 | over whole runs: no target is reserved twice if and only if no reservation acts on a stale read |
| `AsyncProtocol.AtomicReadIsFresh` | nemo_rl/algorithms/async_utils.py:328-332 | reading and reserving without a push in between is never stale |
| `AsyncProtocol.SafeRun` | nemo_rl/algorithms/grpo.py:2646-2651 | in a run without stale reservations, in every state: the buffer fits its window and its size, targets are reserved once and hold at most `prompts` groups, no push is refused, the workers in flight keep to their limit, and sampling does not raise |
| `AsyncStalls.NonePassedIffOnTime` | nemo_rl/algorithms/async_utils.py:454-467 | over whole runs: no target is passed over if and only if every batch starts with all targets reserved that it can no longer take |
| `AsyncStalls.PassedOverIsLost` | nemo_rl/algorithms/async_utils.py:294-342 | a target that was passed over is lost: neither the batch under way nor one to come can take it |
| `AsyncStalls.LostStalls` | nemo_rl/algorithms/async_utils.py:328-342 | a lost target stays lost on every path, and no later state trains on it or gets beyond it |
| `AsyncStalls.PassedOverStalls` | nemo_rl/algorithms/async_utils.py:454-467 | once a target was passed over, no later state of the run trains on it or gets beyond it |
| `AsyncStalls.TrainsIffNotLost` | nemo_rl/algorithms/async_utils.py:395-508 | while targets were reserved once: from a state in which the trainer samples, some path that respects every wait trains on its target if and only if that target is not lost |
| `AsyncVersions.HeldBatchIsRefreshed` | nemo_rl/algorithms/async_utils.py:475-488 | over runs: the worker started after a batch was held back by a refit has at least the version that the refit ends with, newer than the one it replaces |
| `AsyncVersions.WorkerVersion` | nemo_rl/algorithms/async_utils.py:454-505 | over runs: every worker generates with the version that the collector looked up last, at the start of the batch or after being held |
| `AsyncVersions.GroupsComeFromWorkers` | nemo_rl/algorithms/async_utils.py:683-713 | over runs: every buffered group was generated by a worker of the run, and is buffered under that worker's version and target |
| `AsyncVersions.InProgressIffReserved` | nemo_rl/algorithms/async_utils.py:332-340 | over runs: a target is in progress exactly from its reservation until a worker gives it up, which happens once the first prompt's group is buffered or any of its workers ends |
| `AsyncVersions.ReservesByOwnRead` | nemo_rl/algorithms/async_utils.py:323-332 | over runs: every attempt to reserve belongs to a batch of its own, and goes by the version that was current when the batch started and by the largest target pushed when it was read, once, since then |
| `AsyncVersions.FirstPromptReleases` | nemo_rl/algorithms/async_utils.py:706-716 | over runs: only the worker of a first prompt gives its target up before it ends, and only once the largest target pushed has reached it |
| `AsyncRuns.StaleReadCrashes` | nemo_rl/algorithms/async_utils.py:328-332 | for every configuration whose buffer can be built there is a run, with a stale read, in which sampling raises; it keeps to the limit on workers and respects every wait |
| `AsyncRuns.TargetCanBeLost` | nemo_rl/algorithms/async_utils.py:294-321 | for every such configuration there is a run in which the trainer waits for a lost target, although no target was passed over |
| `AsyncRuns.TargetCanBePassedOver` | nemo_rl/algorithms/async_utils.py:294-321 | for every such configuration there is a run in which the second target is never reserved before the collector moves on |
| `Packing.PackConcatenative` | nemo_rl/data/packing/algorithms.py:311-351 | refuses exactly inputs that do not fit; otherwise bins cut the input into consecutive runs that fit, respect the limit per bin and, without a limit, end only where the next sequence does not fit |
| `Packing.PackFirstFit` | nemo_rl/data/packing/algorithms.py:379-417 | for any order: a packing in which every sequence went into the first bin that had room for it when it came, so that a later bin was opened by a sequence that no earlier bin could hold |
| `Packing.PackFirstFitDecreasing` | nemo_rl/data/packing/algorithms.py:430-445 | the same for the order by decreasing length, of equal ones the later first |
| `Packing.FirstFitIsPairwiseFull` | nemo_rl/data/packing/algorithms.py:402-415 | any two first-fit bins together overflow one bin |
| `Packing.PairwiseFullIsHalfFull` | nemo_rl/data/packing/algorithms.py:354-359 | pairwise overflowing bins are more than half full on average, all but one: fewer than twice the ideal number |
| `BinCounts.TargetCountIsLeast` | nemo_rl/data/packing/algorithms.py:106-115 | the target is the least count that keeps every bin and meets the minimum and the multiple |
| `BinCounts.AdjustBinCount` | nemo_rl/data/packing/algorithms.py:91-167 | refuses exactly when there are fewer sequences than bins asked for; otherwise reaches the target count, losing nothing, leaving no bin empty and taking sequences from the largest bins |
| `BinCounts.Redistribute` | nemo_rl/data/packing/algorithms.py:134-165 | the redistribution always succeeds, and the branch that reports a bug is not reached; a bin gives sequences away only when all larger ones are down to one |
| `BinCounts.SpreadKeepsPacking` | nemo_rl/data/packing/algorithms.py:129-167 | moving sequences into new bins keeps a packing within capacity |
| `ModifiedFirstFit.KindsPartition` | nemo_rl/data/packing/algorithms.py:518-528 | every sequence is in exactly one of the four classes |
| `ModifiedFirstFit.AddMedium` | nemo_rl/data/packing/algorithms.py:563-569 | the forward pass gives every bin at most one medium sequence, a longest one of those left that fit, and none only if none fits; it loses no sequence and overfills no bin |
| `ModifiedFirstFit.AddSmallPairs` | nemo_rl/data/packing/algorithms.py:571-590 | from the last bin to the first, a bin without a medium sequence gets a shortest small one and a longest one that fits beside it, unless no two fit; no sequence is lost: the second small one is always found |
| `ModifiedFirstFit.FillGreedily` | nemo_rl/data/packing/algorithms.py:596-611 | each bin in turn takes longest sequences that fit; afterwards no remaining sequence fits into any bin |
| `ModifiedFirstFit.PackLeftovers` | nemo_rl/data/packing/algorithms.py:631-647 | keeping bins sorted by load and looking only at the first one gives a packing of the leftovers in which any two bins overflow one; every sequence went to a bin that was least full, or to a new one when it did not fit there |
| `ModifiedFirstFit.ShelvingTakesMoreBins` | nemo_rl/data/packing/algorithms.py:613-647 | for one descending order of leftovers this takes three bins where first fit takes two |
| `ModifiedFirstFit.PackModifiedFirstFit` | nemo_rl/data/packing/algorithms.py:530-652 | refuses exactly the invalid inputs, with the first error in order; otherwise a packing without empty bins in which any two bins overflow one, made by the passes above over the classes by half, third and sixth of the capacity |
| `Packers.PackUnadjusted` | nemo_rl/data/packing/algorithms.py:680-710 | which inputs each algorithm packs, the contract all algorithms share, and how each arrives at its bins |
| `Packers.Pack` | nemo_rl/data/packing/algorithms.py:169-190 | refuses exactly chunks that cannot be packed, and those with fewer sequences than the least positive multiple of the shards that is not below the number of bins used; otherwise exactly that many bins partition the indices within capacity, none of them empty; a packable chunk whose size is a multiple of the shards is never refused |
| `Sharding.ArgSortInverts` | nemo_rl/distributed/batched_data_dict.py:252-254 | sorting a permutation's positions by its values gives its inverse |
| `Sharding.ReorderPlaces` | nemo_rl/distributed/batched_data_dict.py:252-266 | reordering by a permutation moves the row at position i to where the i-th index says |
| `Sharding.ReorderRestores` | nemo_rl/distributed/batched_data_dict.py:238-266 | reordering by the indices along which rows were gathered restores them |
| `Sharding.ReorderRestoresIff` | nemo_rl/distributed/batched_data_dict.py:238-266 | for rows that can be told apart, only those indices do |
| `Sharding.PlanFor` | nemo_rl/distributed/batched_data_dict.py:350-389 | which of the four errors is reported, and that there is no other failure; otherwise chunks of the size asked for fill the batch, and a shard's share of a chunk is the least that makes room for it |
| `Sharding.BlocksAreBatch` | nemo_rl/distributed/batched_data_dict.py:541-556 | the blocks of all shards, read chunk by chunk, are the batch |
| `Sharding.ShardsKeepRows` | nemo_rl/distributed/batched_data_dict.py:541-590 | the shards hold every row exactly once, and in order if there is one chunk or one shard |
| `Sharding.ShardByBatchSize` | nemo_rl/distributed/batched_data_dict.py:350-590 | fails exactly as the plan does; otherwise, with even shards, shard s has an equal stretch of every chunk; with uneven ones, with m the least number of rows per shard that is enough, it has the rows from s * m up to (s + 1) * m, as far as there are any |
| `BalancedSharding.StridesArePermutations` | nemo_rl/distributed/batched_data_dict.py:396-414 | the indices of sort-and-stride list every row once |
| `BalancedSharding.ShardsOfReordered` | nemo_rl/distributed/batched_data_dict.py:416-427 | cutting the reordered batch into even shards gives each shard its stride of every sorted chunk |
| `BalancedSharding.BalancedRoundTrip` | nemo_rl/distributed/batched_data_dict.py:394-427 | reordering the concatenated shards restores the batch for one chunk or one shard, and only then if rows can be told apart |
| `LoadBalance.LoadsAreBalanced` | nemo_rl/distributed/batched_data_dict.py:391-412 | within a chunk, every shard's lengths are non-decreasing, and the totals of any two shards differ by at most the longest minus the shortest length |
| `Microbatches.SplitIntoMicrobatches` | nemo_rl/distributed/batched_data_dict.py:602-659 | fails exactly when some length exceeds the limit; otherwise non-empty ranges tile the chunk, each within the limit at its recorded length, and no range could have taken one more |
| `Microbatches.GreedyStaysAhead` | nemo_rl/distributed/batched_data_dict.py:638-659 | after equally many pieces, no split within the limit is ahead of the greedy one |
| `Microbatches.GreedyIsOptimal` | nemo_rl/distributed/batched_data_dict.py:638-659 | no split into consecutive pieces within the limit uses fewer microbatches |
| `DynamicBatching.MeasureChunk` | nemo_rl/distributed/batched_data_dict.py:606-634 | the measured lengths are the padded maxima over the shards |
| `DynamicBatching.PaddedLengthMeaning` | nemo_rl/distributed/batched_data_dict.py:625-634 | a padded length is the lesser of the width and the least multiple that covers the row |
| `DynamicBatching.BalancedOrder` | nemo_rl/distributed/batched_data_dict.py:396-414 | the index list is the strided grid read chunk by chunk |
| `DynamicBatching.ShardForDynamicBatching` | nemo_rl/distributed/batched_data_dict.py:394-667 | fails exactly for an invalid plan or when some row is too long for a microbatch; otherwise order, shards and per-chunk splits are as stated |
| `DynamicWalk.ChunkIsReady` | nemo_rl/distributed/batched_data_dict.py:594-667 | on every shard, a chunk's ranges cut its rows in order, every microbatch is within the token limit, and no input length is cut |
| `DynamicWalk.RecordedLength` | nemo_rl/distributed/batched_data_dict.py:608-659 | the recorded length of a microbatch is the least multiple that covers its longest row on any shard, but no more than the width |
| `DynamicWalk.ChunkIsOptimal` | nemo_rl/distributed/batched_data_dict.py:600-662 | per chunk, no split of the positions uses fewer microbatches |
| `DynamicWalk.WalkShard` | nemo_rl/distributed/batched_data_dict.py:671-780 | fetching every chunk and iterating over it yields exactly the shard's rows, in order, in microbatches within the limit |
| `DynamicWalk.ShardsHoldBatch` | nemo_rl/distributed/batched_data_dict.py:394-667 | all shards together hold every row exactly once |
| `BatchedData.BatchedDataDict.ReorderData` | nemo_rl/distributed/batched_data_dict.py:238-266 | in place: for a permutation, the row at position i moves to where the i-th index says; in general, rows are gathered along the positions that sort the indices |
| `BatchedData.BatchedDataDict.Slice` | nemo_rl/distributed/batched_data_dict.py:705-726 | a new object with the rows of the range, without microbatch records |
| `BatchedData.BatchedDataDict.GetBatch` | nemo_rl/distributed/batched_data_dict.py:671-703 | the chunk located by cumulative counts if they are recorded, else by size, with that chunk's microbatch records |
| `BatchedData.BatchedDataDict.MicrobatchesWithDynamicShapes` | nemo_rl/distributed/batched_data_dict.py:757-780 | one microbatch per recorded range, cut to its recorded length |
| `BatchedData.BatchedDataDict.MicrobatchesForPackableSequences` | nemo_rl/distributed/batched_data_dict.py:786-800 | one microbatch per recorded range, not cut |
| `BatchedData.TilesGiveRows` | nemo_rl/distributed/batched_data_dict.py:775-780 | ranges that tile a batch yield its rows, each once and in order |
| `PackedSharding.DealBins` | nemo_rl/distributed/batched_data_dict.py:484-508 | bin b goes to shard b modulo the number of shards, with its range and padded total recorded |
| `PackedSharding.CutsGiveBins` | nemo_rl/distributed/batched_data_dict.py:499-507 | the recorded ranges cut a shard's chunk back into the bins it was dealt |
| `PackedSharding.PackChunks` | nemo_rl/distributed/batched_data_dict.py:452-466 | every chunk's bins cover its span of the batch within the capacity, in a multiple of the shards that is the least one not below the bins its algorithm used; fails exactly at the first chunk that cannot be packed, or has fewer sequences than that number of bins, and with even shards only for chunks that cannot be packed |
| `PackedSharding.BinGridIsPermutation` | nemo_rl/distributed/batched_data_dict.py:522-524 | the returned indices list every row once |
| `PackedSharding.ShardForSequencePacking` | nemo_rl/distributed/batched_data_dict.py:429-534 | fails exactly when some chunk cannot be packed or has fewer sequences than the bins it needs, which does not occur with even shards; otherwise shards, ranges, totals, counts and order are as stated |
| `PackedWalk.PackedRoundTrip` | nemo_rl/distributed/batched_data_dict.py:521-534 | for any number of chunks, reordering the concatenated shards restores the batch, and anything computed row by row |
| `PackedWalk.ChunkWalk` | nemo_rl/distributed/batched_data_dict.py:681-694 | chunk c on shard s yields exactly one microbatch per bin dealt to it, each padded total within capacity, equally many on every shard |
| `PackedWalk.MicrobatchesAreWithin` | nemo_rl/distributed/batched_data_dict.py:445-489 | in terms of input lengths: the rows of every microbatch hold no more tokens than its recorded total, which is the sum of the least multiples that cover them, and within the capacity |
| `PackedWalk.WalkShard` | nemo_rl/distributed/batched_data_dict.py:671-800 | fetching every chunk and iterating over it yields exactly the shard's rows, in order, uncut: one microbatch for each bin dealt to the shard, in turn, within the capacity, and equally many on every shard |
| `PackedWalk.ShardsHoldBatch` | nemo_rl/distributed/batched_data_dict.py:468-534 | all shards together hold every row exactly once |
| `TopKTopP.ScatterMeaning` | nemo_rl/algorithms/logits_sampling_utils.py:194-200 | scattering by the sort's positions undoes the sort |
| `TopKTopP.FilterKeepsOrDrops` | nemo_rl/algorithms/logits_sampling_utils.py:184-200 | every position holds its own logit where the mask is true, and minus infinity elsewhere |
| `TopKTopP.ApplyTopKTopP` | nemo_rl/algorithms/logits_sampling_utils.py:150-210 | for every chunk size the chunk loop equals the row-by-row filter, whose meaning the following rows state; fails exactly for step zero or k beyond the vocabulary |
| `TopKTopP.KeptAreLargest` | nemo_rl/algorithms/logits_sampling_utils.py:172-192 | no dropped token has a larger logit than a kept one, and a largest one is kept |
| `TopKTopP.TopKMaskIsAllowed` | nemo_rl/algorithms/logits_sampling_utils.py:172-184 | the mask of top-k is true everywhere without a positive k, and otherwise exactly where the logit reaches the k-th largest |
| `TopKTopP.KeptAreAllowed` | nemo_rl/algorithms/logits_sampling_utils.py:172-200 | no token is kept that top-k does not allow |
| `TopKTopP.KeptMass` | nemo_rl/algorithms/logits_sampling_utils.py:186-192 | the kept tokens carry at least top_p of the mass of all tokens that top-k allows: all of them without a positive k, and otherwise those that reach the k-th largest logit |
| `TopKTopP.KeptMassIsMinimal` | nemo_rl/algorithms/logits_sampling_utils.py:186-192 | without any least likely one of them they carry less |
| `TopKTopP.KthLargestIsUnique` | nemo_rl/algorithms/logits_sampling_utils.py:96-100 | the threshold does not depend on how ties are ordered |
| `TopKOnly.TopKPathsAgree` | nemo_rl/algorithms/logits_sampling_utils.py:93-108 | the sort-free mask and logits equal those of the sorted path, position by position |
| `TopKOnly.TopKOnlyIsAllowed` | nemo_rl/algorithms/logits_sampling_utils.py:93-108 | the sort-free mask is true exactly where the logit reaches the k-th largest |
| `TopKOnly.TopKCount` | nemo_rl/algorithms/logits_sampling_utils.py:96-100 | at least k tokens are kept, and exactly k if and only if the k-th and the next largest differ |
| `TopKOnly.FilterLogits` | nemo_rl/algorithms/logits_sampling_utils.py:143-210 | which path is taken, that each returns its row-by-row filter, and when it fails |
| `ConfigTree.MergeWithOverride` | tools/config_cli.py:86-100 | visiting keys in any order gives inheritance: marked sections replace, others merge |
| `ConfigTree.ExpandConfig` | tools/config_cli.py:127-149 | parents are merged in their order, the config last |
| `ConfigTree.ExpandedIsSettled` | tools/config_cli.py:127-149 | an expanded config has no override marker in force, so as a parent it contributes exactly itself |
| `ConfigInheritance.ExpandedLeaf` | tools/config_cli.py:86-149 | an expanded config holds a value at a path if and only if, of the parents in their order and the config itself, the last one that says anything about the path holds it |
| `ConfigTree.PrunedMerge` | tools/config_cli.py:234-270 | over any config that says at least what was pruned against, merging what pruning leaves equals merging the whole if and only if nothing is emptied |
| `ConfigTree.IntactMeaning` | tools/config_cli.py:234-270 | pruning leaves a section as it is exactly when nothing in it agrees with the base |
| `ConfigTree.SomethingLeftMeaning` | tools/config_cli.py:244-253 | something is left of a section if and only if, at some depth, it says something that the base does not |
| `ConfigTree.PrunedGivesBack` | tools/config_cli.py:234-270 | over the base itself, what is left gives back exactly the section if and only if nothing is emptied and the section has every key of the base |
| `ConfigTree.MarkedSection` | tools/config_cli.py:86-100 | a section that keeps its marker keeps its meaning if and only if everything else in it is left too |
| `ConfigTree.MarkerLost` | tools/config_cli.py:86-100 | a section that loses its marker keeps its meaning if and only if the base's section is marked too and the section has every key of it |
| `ConfigTree.SectionKeepsMeaning` | tools/config_cli.py:86-100 | any section, marked or not, against any section of the base, marked or not: it keeps its meaning if and only if it is safe |
| `ConfigTree.MinimiseKeepsMeaning` | tools/config_cli.py:397-400 | minimise against a file, then expand over what is loaded from it, gives what expanding gives, if and only if every shared section is safe |
| `ConfigTree.MinimisedFileKeepsMeaning` | tools/config_cli.py:382-410 | the same for the base inferred from the file's parent, which is loaded with its own parents before pruning |
| `ConfigTree.MinimisedAgainstGivenBase` | tools/config_cli.py:371-412 | the same for a base given explicitly, which is pruned against as it is written |
| `ConfigTree.MinimisePlainChild` | tools/config_cli.py:234-270 | in particular for children without markers and without empty sections or lists |
| `ConfigTree.EmptyListIsForgotten` | tools/config_cli.py:250-252 | a child that clears the base's list with an empty one is changed by minimising |
| `ConfigTree.PruneIdempotent` | tools/config_cli.py:234-270 | pruning a pruned config against the same base changes nothing |
| `ConfigTree.PrunedIsMinimal` | tools/config_cli.py:234-270 | no key that pruning keeps can be left out: merged without it, the config gives something else |
| `ConfigFlatten.Flatten` | tools/config_cli.py:436-448 | in any order of keys, the dictionary holds exactly the leaves, each under its written path |
| `ConfigFlatten.DecimalValue` | tools/config_cli.py:443-445 | a written list index can be read back, and does not contain the closing bracket |
| `ConfigFlatten.WrittenIsInjective` | tools/config_cli.py:436-448 | paths with plain keys are written alike only if they are the same path |
| `ConfigFlatten.SameFlatSameLeaves` | tools/config_cli.py:459-476 | with plain keys, flattened forms are equal if and only if the trees have the same leaves |
| `ConfigFlatten.LeavesDetermineTree` | tools/config_cli.py:436-448 | without empty containers inside, trees with the same leaves are the same tree |
| `ConfigFlatten.SameFlatSameConfig` | tools/config_cli.py:459-476 | so flattened forms are equal if and only if the configs are |
| `ConfigFlatten.Compare` | tools/config_cli.py:451-476 | reports "identical" if and only if the leaves agree; the added, removed and changed paths are exactly those where they do not |
| `ConfigFlatten.EmptySectionIsInvisible` | tools/config_cli.py:436-448 | a config with an empty section flattens like one without it |
| `ConfigFlatten.DottedKeyLooksNested` | tools/config_cli.py:436-442 | a key with a dot in it flattens like a nested section |
| `Baselines.MaskedIsOthers` | nemo_rl/algorithms/utils.py:123-143 | the mask matrix adds up exactly the rewards an answer is compared with |
| `Baselines.BaselineIsMeanOfOthers` | nemo_rl/algorithms/utils.py:135-161 | every baseline is the mean of those rewards and the squared deviation their unbiased variance |
| `Baselines.VarianceVanishes` | nemo_rl/algorithms/utils.py:154-161 | a variance is never negative, and zero if and only if all rewards are equal |
| `Baselines.GroupVarianceVanishes` | nemo_rl/algorithms/utils.py:130-161 | the same for every answer of a group in both modes, small groups included |
| `Baselines.LeaveOneOutUniform` | nemo_rl/algorithms/utils.py:123-161 | leaving one out, a group's answers share their verdict if and only if there are at most two or none is the odd one out |
| `Baselines.LeaveOneOutScales` | nemo_rl/algorithms/advantage_estimator.py:58-64 | the leave-one-out advantage is n/(n-1) times the mean-baseline one |
| `Baselines.AdvantagesCancel` | nemo_rl/algorithms/advantage_estimator.py:58-64 | the advantages of a group add up to zero in both modes |
| `Baselines.AdvantagesKeepOrder` | nemo_rl/algorithms/advantage_estimator.py:58-64 | within a group, advantages are ordered exactly as rewards |
| `Baselines.NormalisedAdvantagesCancel` | nemo_rl/algorithms/advantage_estimator.py:66-72 | with the mean baseline, normalised advantages add up to zero too |
| `Baselines.NormalisedMeaning` | nemo_rl/algorithms/advantage_estimator.py:66-72 | an advantage is divided by its deviation and a small constant, and stays where there is no deviation |
| `MaskedBaselines.CalculateBaselineAndSpread` | nemo_rl/algorithms/utils.py:106-163 | for any mask, visiting the distinct prompts in any order fills every row with the baseline and spread of its group and mask |
| `MaskedBaselines.ValidRow` | nemo_rl/algorithms/utils.py:92-95 | a valid row's baseline and spread are those of the group without the rows that are masked out |
| `MaskedBaselines.MaskedRow` | nemo_rl/algorithms/utils.py:135-143 | a masked row is given the mean of the valid rewards, times n/(n-1) when one is left out, which is that mean only if it is zero |
| `MaskedBaselines.LargestSpread` | nemo_rl/algorithms/utils.py:154-161 | the largest number stands for a deviation exactly at a masked row beside two valid rewards of opposite signs, one left out |
| `MaskedBaselines.CalculateUnmasked` | nemo_rl/algorithms/advantage_estimator.py:58-63 | with every row valid, as the estimator passes it: the baselines and variances of whole groups, and never the largest number |
| `MaskedBaselines.ComputeAdvantage` | nemo_rl/algorithms/advantage_estimator.py:45-74 | over the rows of any prompt: the group's advantages, divided by their deviations on demand where these are not zero; they add up to zero unless both normalised and leaving one out; a root function is needed only to normalise |
| `DynamicSampling.KeepVarying` | nemo_rl/algorithms/grpo.py:857-866 | the selected rows are exactly those with non-zero deviation, in order; when the columns are those of the batch, exactly those that are compared with two different rewards |
| `DynamicSampling.DynamicallySample` | nemo_rl/algorithms/grpo.py:852-929 | which of complete, incomplete, too many batches and none allowed is returned, with what rows and cache |
| `DynamicSampling.OneBatch` | nemo_rl/algorithms/grpo.py:875-922 | one more batch either ends the accumulation with the right outcome or leaves the cache holding everything kept so far |
| `DynamicSampling.Accumulate` | nemo_rl/algorithms/grpo.py:1622-1649 | the training batch is the first required rows of the in-order stream of varying rows, after the least number of batches; otherwise an error after the limit plus one, or the data ends |
| `DynamicGroups.TrainsOnContrasts` | nemo_rl/algorithms/grpo.py:852-922 | in both modes: the training batch is the first answers, in the order of their generation, that are compared with two different rewards |
| `DynamicGroups.TrainsOnContrastingGroups` | nemo_rl/algorithms/grpo.py:852-922 | with the mean baseline, when no batch asks a prompt twice: the training batch is the first groups that hold two different rewards, whole, and every group passed over before the last of them holds equal rewards |
| `DynamicSampling.Attach` | nemo_rl/algorithms/grpo.py:1613-1620 | the attached columns are those computed for the batch |
| `DynamicSampling.SamePromptSameVerdict` | nemo_rl/algorithms/grpo.py:858-862 | with the mean baseline, answers to equal prompts are kept or dropped together |
| `DynamicSampling.InterleavedIsRepeated` | nemo_rl/distributed/batched_data_dict.py:728-749 | repeating prompts puts equal prompts into consecutive blocks |
| `DynamicSampling.VaryingKeepsBlocks` | nemo_rl/algorithms/grpo.py:864-868 | filtering rows that come in blocks with one verdict each keeps whole blocks |
| `DynamicSampling.MeanBaselineTrainsOnWholeGroups` | nemo_rl/algorithms/grpo.py:1439-1649 | with the mean baseline, the training batch is the first groups that vary, whole |
| `DynamicSampling.LeaveOneOutBreaksGroups` | nemo_rl/algorithms/utils.py:123-161 | leaving one out, of rewards 1, 0 and 0 only the last two rows are kept |
| `DynamicAdvantages.WholeGroupsRecomputed` | nemo_rl/algorithms/advantage_estimator.py:58-64 | of whole groups with their own means attached, the baselines computed anew are the attached ones if and only if groups of the same prompt have the same mean |
| `DynamicAdvantages.TrainedBaselines` | nemo_rl/algorithms/grpo.py:1650-1665 | when no batch asks a prompt twice, the batch that dynamic sampling accumulates consists of whole groups with their own means, and its recomputed baselines are the attached ones if and only if the means of repeated prompts agree |
| `DynamicAdvantages.OddGroupTeachesNothing` | nemo_rl/algorithms/utils.py:123-161 | leaving one out, filtering takes exactly the odd one out of its group of three or more, and what is left has zero advantages |
| `Messages.MessageLogToFlatMessages` | nemo_rl/data/llm_message_utils.py:85-126 | every field is joined in message order; fails only if a field starts with a tensor and goes on otherwise |
| `Messages.PadThenCut` | nemo_rl/data/llm_message_utils.py:181-210 | padding adds only the pad value, on the side asked for, and the row can be cut back out |
| `Messages.RoundUpIsLeast` | nemo_rl/data/llm_message_utils.py:334-337 | the width is the least multiple of the divisor that covers the longest row |
| `Messages.StackedIff` | nemo_rl/data/llm_message_utils.py:361-372 | a field is stacked if and only if the first conversation has a row of numbers in it; otherwise every conversation's value is kept as it is |
| `Messages.StackedMeaning` | nemo_rl/data/llm_message_utils.py:361-391 | every row of a stacked field is the conversation's own row, or an empty one, followed by the pad value given for the field, or by zeros |
| `Messages.FirstsMeaning` | nemo_rl/data/llm_message_utils.py:339-347 | when no field holds numbers, the batch has of every field the first value in each conversation, or none where the field is missing |
| `Messages.BatchedMessageLogToFlatMessage` | nemo_rl/data/llm_message_utils.py:317-393 | succeeds if and only if fields are well typed; then lengths, width, stacked rows and the case without tensors are as stated |
| `Messages.DescribedIsWellTyped` | nemo_rl/data/llm_message_utils.py:361-391 | only batches whose fields are well typed, in and across conversations, are flattened |
| `LossMask.AddLossMask` | nemo_rl/algorithms/grpo.py:1684-1698 | every message is given a mask that tells its author for every token, and zero log-probabilities if it has none; everything else in it stays |
| `LossMask.JoinedColumns` | nemo_rl/data/llm_message_utils.py:99-110 | joined, the token and mask fields are the conversation's tokens and mask |
| `LossMask.MaskMarksAssistant` | nemo_rl/algorithms/grpo.py:1687-1694 | token t of message j sits at its offset, and its mask says whether the assistant wrote it |
| `LossMask.PrepareTraining` | nemo_rl/algorithms/grpo.py:1684-1707 | succeeds if and only if the masked conversations are well typed; then marking and flattening yields a training batch in the sense of the following rows |
| `LossMask.TrainingRows` | nemo_rl/data/llm_message_utils.py:349-391 | one padded row of tokens and of masks per conversation, as wide as the batch |
| `LossMask.MaskIsAssistantTokens` | nemo_rl/algorithms/grpo.py:1684-1718 | a row's mask is 1 exactly at positions the assistant wrote, and 0 on all padding |
| `LossMask.CutRestoresTokens` | nemo_rl/data/llm_message_utils.py:349-359 | cutting a row at its input length gives the tokens if and only if no field of the masked conversation has more numbers than there are tokens |
| `LossMask.LongFieldIsNotCut` | nemo_rl/data/llm_message_utils.py:349-359 | of a conversation with one token and a field of two numbers, the cut row is not the tokens |
| `LossMask.EvenFieldsCut` | nemo_rl/data/llm_message_utils.py:349-391 | so it does when every message's rows are as long as its tokens |
| `LossMask.WidthIsLeast` | nemo_rl/data/llm_message_utils.py:324-337 | the width is the least multiple of the divisor that covers every input length |
| `RankGrids.FlattenAt` | nemo_rl/distributed/named_sharding.py:152-153 | in flat order every rank is at its mixed-radix position |
| `RankGrids.PositionOfUnraveled` | nemo_rl/distributed/named_sharding.py:115-122 | every position is that of the index its digits spell |
| `RankGrids.PositionIsInjective` | nemo_rl/distributed/named_sharding.py:115-122 | and of no other index |
| `RankGrids.FlatDistinctIff` | nemo_rl/distributed/named_sharding.py:70-74 | the flat list has no duplicates if and only if ranks at different indices differ |
| `RankGrids.SubsetAt` | nemo_rl/distributed/named_sharding.py:188 | indexing with fixed coordinates puts every matching rank at what is left of its index |
| `RankGrids.SubsetTwice` | nemo_rl/distributed/named_sharding.py:188 | indexing twice is indexing once with the combined selection |
| `NamedSharding.Create` | nemo_rl/distributed/named_sharding.py:64-76 | succeeds if and only if dimensions match the names and no rank occurs twice; reports exactly the duplicates |
| `NamedSharding.GetWorkerCoords` | nemo_rl/distributed/named_sharding.py:103-122 | finds exactly the workers of the layout, and returns the coordinates of their index by name |
| `NamedSharding.GetRanksByCoord` | nemo_rl/distributed/named_sharding.py:124-153 | unknown names are an error, out-of-range coordinates give nothing, otherwise the ascending list of exactly the matching ranks |
| `NamedSharding.GetRanks` | nemo_rl/distributed/named_sharding.py:155-199 | fails exactly for unknown names or out-of-range coordinates; otherwise the selected sub-layout or rank |
| `NamedSharding.WorkerCoordsInvert` | nemo_rl/distributed/named_sharding.py:103-199 | fixing all axes at some coordinates finds a worker if and only if they are the worker's |
| `NamedSharding.FixTwice` | nemo_rl/distributed/named_sharding.py:170-199 | fixing some axes and then others is fixing all of them at once |
| `NamedSharding.FixInAnyOrder` | nemo_rl/distributed/named_sharding.py:170-199 | fixing axes one after another, in any order, succeeds and equals fixing them at once |
| `NamedSharding.SlicesPartition` | nemo_rl/distributed/named_sharding.py:139-199 | every rank is in exactly one slice along an axis, and the slices hold nothing else |

## Left out

- Actors, threads, locks, events and back-off sleeps: they appear as atomic steps that may interleave in any order. The pause during a refit and the limit on workers are part of the system; the pause at the generation limit and the wait for workers before a refit only remove interleavings, and the runs shown to exist pass them (`Admitted`). A wake-up that is missed, because the limit's event is cleared just after it was set, is not modelled.
- AsyncStalls.TrainsIffNotLost: says that some continuation trains, not that every fair one does, and is stated for states in which no target was reserved twice.
- Worker failures, shutdown, checkpoints, pausing for validation and cache invalidation: no step of the protocol model.
- Prompt batches of another size than `num_prompts_per_step`, and training steps without a refit: the protocol model assumes neither occurs.
- The trainer's two calls to the collector after a refit are delivered in the order they were sent.
- Uneven shards together with length-balanced batching: shard and stride sizes do not line up there.
- A batch's columns are one row each with an input length and a common width; columns of different batch sizes, packed multimodal tensors, `chunk`, `from_batches` and device placement are not modelled.
- Shards are returned as values, and the walks put them into batch objects: that all shards share one list of microbatch ranges is not captured.
- The shuffling packer's random order and the sort order of equal logits are parameters; packing metrics are not modelled.
- Packers.Pack: lengths are natural numbers; the concatenative and first-fit packers would also accept negative ones.
- Floating point: rewards, logits and weights are exact reals, softmax is any positive increasing weight, deviations are known by their squares or taken with a root function that is a parameter; rounding, dtypes, autograd, and NaN other than the one that becomes a zero deviation are not modelled.
- Baselines.NormalisedAdvantagesCancel: only for the group's mean as baseline; leaving one out, deviations differ within a group and normalised advantages need not cancel.
- The other estimators (GDPO, Reinforce++), reward scaling and shaping: they use the same group statistics.
- DynamicSampling.DynamicallySample: the unfiltered rewards kept for logging are not carried along.
- Config interpolation, missing-value markers, file paths, YAML text, and equality across types (1 and True): configs are trees compared structurally.
- ConfigTree.MinimisedAgainstGivenBase: the file's former parents, which an explicit base takes the place of, are not compared with; both sides are expanded over that base.
- Merging a list with a section, either way round: modelled as replacement; that the configuration library may refuse it is not modelled.
- Sorting and printing of the comparison's report, and the command-line entry points.
- Messages.BatchedMessageLogToFlatMessage: tensors are rows of integers; consistency of dtypes and devices, and tensors of more dimensions, are not modelled.
- NamedSharding.Create: turning nested lists into an integer array happens before the model starts.
- Training loops of the other algorithms, loss functions, environments, generation backends and logging.
