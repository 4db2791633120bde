/** Dynamic sampling: answers whose prompt shows no variation are dropped, and batches are generated until
    enough answers are left to train on. */
module DynamicSampling {
  import opened Options
  import opened Sequences
  import Arithmetic
  import Baselines
  import MaskedBaselines

  /** An answer with the columns that the training loop attaches to it. */
  datatype Row<P, T> = Row(prompt: P, data: T, reward: real, baseline: real, variance: real)

  datatype Settings = Settings(enabled: bool, prompts: nat, generations: nat, maxBatches: int) {
    function Required(): nat {
      prompts * generations
    }
  }

  datatype Sampled<P, T> =
    | Complete(rows: seq<Row<P, T>>, discarded: nat)
    | Incomplete(cache: Option<seq<Row<P, T>>>)
    | TooManyBatches
    | NoBatchesAllowed

  // ----- where the verdicts come from -----

  function Prompts<P, T>(rows: seq<Row<P, T>>): (r: seq<P>) {
    seq(|rows|, i requires 0 <= i < |rows| => rows[i].prompt)
  }

  function Rewards<P, T>(rows: seq<Row<P, T>>): (r: seq<real>) {
    seq(|rows|, i requires 0 <= i < |rows| => rows[i].reward)
  }

  function BaselineColumn<P, T>(rows: seq<Row<P, T>>): (r: seq<real>) {
    seq(|rows|, i requires 0 <= i < |rows| => rows[i].baseline)
  }

  function VarianceColumn<P, T>(rows: seq<Row<P, T>>): (r: seq<real>) {
    seq(|rows|, i requires 0 <= i < |rows| => rows[i].variance)
  }

  /** The columns are those computed for the batch. */
  ghost predicate Attached<P, T>(batch: seq<Row<P, T>>, leaveOneOut: bool) {
    forall p :: p in Prompts(batch) ==>
      Baselines.GroupDone(Prompts(batch), Rewards(batch), leaveOneOut, p, BaselineColumn(batch), VarianceColumn(batch))
  }

  /** Answer i is compared with answer a: both answer the same prompt, and none is compared with itself when
      one is left out. */
  ghost predicate ComparedWith<P, T>(batch: seq<Row<P, T>>, leaveOneOut: bool, i: nat, a: nat)
    requires i < |batch| && a < |batch|
  {
    batch[a].prompt == batch[i].prompt && (leaveOneOut ==> a != i)
  }

  /** Two of the answers that answer i is compared with got different rewards. */
  ghost predicate Contrasts<P, T>(batch: seq<Row<P, T>>, leaveOneOut: bool, i: nat)
    requires i < |batch|
  {
    exists a, b :: 0 <= a < |batch| && 0 <= b < |batch| &&
      ComparedWith(batch, leaveOneOut, i, a) && ComparedWith(batch, leaveOneOut, i, b) &&
      batch[a].reward != batch[b].reward
  }

  lemma PositionInGroup<P, T>(rows: seq<Row<P, T>>, i: nat) returns (k: nat)
    requires i < |rows|
    ensures rows[i].prompt in Prompts(rows)
    ensures var group := Baselines.Group(Prompts(rows), rows[i].prompt); k < |group| && group[k] == i
  {
    var p := rows[i].prompt;
    assert Prompts(rows)[i] == p;
    Baselines.EveryRowHasAGroup(Prompts(rows), i, |rows|);
    k :| 0 <= k < |Baselines.Group(Prompts(rows), p)| && Baselines.Group(Prompts(rows), p)[k] == i;
  }

  /** A row has some deviation exactly when it is compared with two different rewards. */
  lemma VariesIffContrasts<P, T>(batch: seq<Row<P, T>>, leaveOneOut: bool, i: nat)
    requires i < |batch| && Attached(batch, leaveOneOut)
    ensures batch[i].variance != 0.0 <==> Contrasts(batch, leaveOneOut, i)
  {
    var p := batch[i].prompt;
    var k := PositionInGroup(batch, i);
    var g := Gather(Rewards(batch), Baselines.Group(Prompts(batch), p));
    assert Baselines.GroupDone(
        Prompts(batch), Rewards(batch), leaveOneOut, p, BaselineColumn(batch), VarianceColumn(batch));
    assert VarianceColumn(batch)[i] == Baselines.GroupVariance(g, leaveOneOut, k);
    Baselines.GroupVarianceVanishes(g, leaveOneOut, k);
    if !Baselines.AllEqual(Baselines.Others(g, leaveOneOut, k)) {
      DifferingOthers(batch, leaveOneOut, i, k);
    }
    if Contrasts(batch, leaveOneOut, i) {
      ContrastingOthers(batch, leaveOneOut, i, k);
    }
  }

  lemma DifferingOthers<P, T>(batch: seq<Row<P, T>>, leaveOneOut: bool, i: nat, k: nat)
    requires i < |batch|
    requires var rows := Baselines.Group(Prompts(batch), batch[i].prompt);
      k < |rows| && rows[k] == i && !Baselines.AllEqual(Baselines.Others(Gather(Rewards(batch), rows), leaveOneOut, k))
    ensures Contrasts(batch, leaveOneOut, i)
  {
    hide ComparedWith;
    var rows := Baselines.Group(Prompts(batch), batch[i].prompt);
    var others := Baselines.Others(Gather(Rewards(batch), rows), leaveOneOut, k);
    var m, n :| 0 <= m < n < |others| && others[m] != others[n];
    var a := OtherAnswer(batch, leaveOneOut, i, k, m);
    var b := OtherAnswer(batch, leaveOneOut, i, k, n);
  }

  /** The answer that one of the compared rewards belongs to. */
  lemma OtherAnswer<P, T>(batch: seq<Row<P, T>>, leaveOneOut: bool, i: nat, k: nat, m: nat) returns (a: nat)
    requires i < |batch|
    requires var rows := Baselines.Group(Prompts(batch), batch[i].prompt);
      k < |rows| && rows[k] == i && m < |Baselines.Others(Gather(Rewards(batch), rows), leaveOneOut, k)|
    ensures a < |batch| && ComparedWith(batch, leaveOneOut, i, a)
    ensures var rows := Baselines.Group(Prompts(batch), batch[i].prompt);
      Baselines.Others(Gather(Rewards(batch), rows), leaveOneOut, k)[m] == batch[a].reward
  {
    hide Attached, Baselines.Others;
    var rows := Baselines.Group(Prompts(batch), batch[i].prompt);
    Baselines.OthersAt(Gather(Rewards(batch), rows), leaveOneOut, k, m);
    a := rows[if leaveOneOut && m >= k then m + 1 else m];
    assert Prompts(batch)[a] == batch[i].prompt;
  }

  lemma ContrastingOthers<P, T>(batch: seq<Row<P, T>>, leaveOneOut: bool, i: nat, k: nat)
    requires i < |batch| && Contrasts(batch, leaveOneOut, i)
    requires var rows := Baselines.Group(Prompts(batch), batch[i].prompt); k < |rows| && rows[k] == i
    ensures var g := Gather(Rewards(batch), Baselines.Group(Prompts(batch), batch[i].prompt));
      !Baselines.AllEqual(Baselines.Others(g, leaveOneOut, k))
  {
    var a, b :| 0 <= a < |batch| && 0 <= b < |batch| &&
      ComparedWith(batch, leaveOneOut, i, a) && ComparedWith(batch, leaveOneOut, i, b) &&
      batch[a].reward != batch[b].reward;
    var g := Gather(Rewards(batch), Baselines.Group(Prompts(batch), batch[i].prompt));
    var m := PositionInGroup(batch, a);
    var n := PositionInGroup(batch, b);
    assert g[m] == batch[a].reward && g[n] == batch[b].reward;
    var lo, hi := if m < n then m else n, if m < n then n else m;
    if leaveOneOut {
      Baselines.TwoDiffer(g, k, lo, hi);
    } else {
      assert g[lo] != g[hi];
    }
  }

  // ----- one batch -----

  predicate Varies<P, T>(row: Row<P, T>) {
    row.variance != 0.0
  }

  function Varying<P, T>(rows: seq<Row<P, T>>): (r: seq<Row<P, T>>) {
    if rows == [] then [] else (if Varies(rows[0]) then [rows[0]] else []) + Varying(rows[1..])
  }

  function Cached<P, T>(cache: Option<seq<Row<P, T>>>): (r: seq<Row<P, T>>) {
    if cache.Some? then cache.value else []
  }

  /** A batch in which nothing varies is passed over, and what the cache holds with it. */
  function Joined<P, T>(cache: Option<seq<Row<P, T>>>, batch: seq<Row<P, T>>): (r: seq<Row<P, T>>) {
    if Varying(batch) == [] then [] else Cached(cache) + Varying(batch)
  }

  lemma {:induction false} VaryingAppend<P, T>(a: seq<Row<P, T>>, b: seq<Row<P, T>>)
    ensures Varying(a + b) == Varying(a) + Varying(b)
  {
    if a == [] {
      assert a + b == b;
    } else {
      assert (a + b)[0] == a[0] && (a + b)[1..] == a[1..] + b;
      VaryingAppend(a[1..], b);
      var head := if Varies(a[0]) then [a[0]] else [];
      assert head + (Varying(a[1..]) + Varying(b)) == (head + Varying(a[1..])) + Varying(b);
    }
  }

  lemma VaryingSnoc<P, T>(rows: seq<Row<P, T>>, n: nat)
    requires n < |rows|
    ensures Varying(rows[..n + 1]) == Varying(rows[..n]) + if Varies(rows[n]) then [rows[n]] else []
  {
    VaryingAppend(rows[..n], [rows[n]]);
    assert rows[..n + 1] == rows[..n] + [rows[n]];
    assert Varying([rows[n]]) == (if Varies(rows[n]) then [rows[n]] else []) + Varying([rows[n]][1..]);
  }

  lemma KeptContrast<P, T>(batch: seq<Row<P, T>>, keep: seq<nat>)
    requires forall i :: 0 <= i < |batch| ==> (i in keep <==> batch[i].variance != 0.0)
    ensures forall leaveOneOut, i :: Attached(batch, leaveOneOut) && 0 <= i < |batch| ==>
              (i in keep <==> Contrasts(batch, leaveOneOut, i))
  {
    hide Attached, Contrasts;
    forall leaveOneOut, i | Attached(batch, leaveOneOut) && 0 <= i < |batch|
      ensures i in keep <==> Contrasts(batch, leaveOneOut, i)
    {
      VariesIffContrasts(batch, leaveOneOut, i);
    }
  }

  /** Filters a batch: the positions of the rows with some deviation, and the rows there. If the columns are
      those of the batch, they are the rows that are compared with two different rewards. */
  method KeepVarying<P, T>(batch: seq<Row<P, T>>) returns (keep: seq<nat>, kept: seq<Row<P, T>>)
    ensures AllBelow(keep, |batch|) && Increasing(keep)
    ensures forall i :: 0 <= i < |batch| ==> (i in keep <==> batch[i].variance != 0.0)
    ensures forall leaveOneOut, i :: Attached(batch, leaveOneOut) && 0 <= i < |batch| ==>
              (i in keep <==> Contrasts(batch, leaveOneOut, i))
    ensures kept == Gather(batch, keep) == Varying(batch)
  {
    hide Attached, Contrasts;
    keep := [];
    for i := 0 to |batch|
      invariant AllBelow(keep, i) && Increasing(keep)
      invariant forall j :: 0 <= j < i ==> (j in keep <==> batch[j].variance != 0.0)
      invariant Gather(batch, keep) == Varying(batch[..i])
    {
      VaryingSnoc(batch, i);
      if Varies(batch[i]) {
        assert Gather(batch, keep + [i]) == Gather(batch, keep) + [batch[i]];
        keep := keep + [i];
      }
    }
    assert batch[..|batch|] == batch;
    kept := Gather(batch, keep);
    KeptContrast(batch, keep);
  }

  /** The outcome for one generated batch: what varies in it is joined to what earlier batches left. */
  ghost predicate SampledFrom<P, T>(
      batch: seq<Row<P, T>>, numBatches: nat, settings: Settings, cache: Option<seq<Row<P, T>>>,
      sampled: Sampled<P, T>)
  {
    var all, size := Joined(cache, batch), settings.Required();
    sampled ==
      if |all| >= size then Complete(all[..size], |all| - size)
      else if settings.maxBatches <= 0 then NoBatchesAllowed
      else if numBatches > settings.maxBatches then TooManyBatches
      else Incomplete(if Varying(batch) == [] then cache else Some(all))
  }

  /** One generated batch is filtered and joined to what earlier batches left. */
  method DynamicallySample<P, T>(
      batch: seq<Row<P, T>>, numBatches: nat, settings: Settings, cache: Option<seq<Row<P, T>>>)
      returns (sampled: Sampled<P, T>)
    ensures !settings.enabled ==> sampled == Complete(batch, 0)
    ensures settings.enabled ==> SampledFrom(batch, numBatches, settings, cache, sampled)
  {
    hide Attached, Contrasts;
    if !settings.enabled {
      return Complete(batch, 0);
    }
    var keep, filtered := KeepVarying(batch);
    var size := settings.Required();
    var newCache := cache;
    if |filtered| > 0 {
      newCache := Some(if cache.None? then filtered else cache.value + filtered);
      filtered := newCache.value;
    }
    assert filtered == Joined(cache, batch);
    if |filtered| < size {
      if settings.maxBatches <= 0 {
        return NoBatchesAllowed;
      }
      if numBatches <= settings.maxBatches {
        return Incomplete(newCache);
      }
      return TooManyBatches;
    }
    return Complete(filtered[..size], |filtered| - size);
  }

  // ----- a whole accumulation -----

  datatype Accumulated<P, T> =
    | Trained(rows: seq<Row<P, T>>, used: nat)
    | Failed(used: nat)
    | Refused
    | OutOfData(cached: seq<Row<P, T>>)

  /** What the first n batches leave. */
  function LeftBy<P, T>(batches: seq<seq<Row<P, T>>>, n: nat): seq<Row<P, T>>
    requires n <= |batches|
  {
    Varying(Flat(batches[..n]))
  }

  ghost predicate NotEnough<P, T>(batches: seq<seq<Row<P, T>>>, n: nat, size: nat)
    requires n <= |batches|
  {
    forall k :: 1 <= k <= n ==> |LeftBy(batches, k)| < size
  }

  lemma LeftByNext<P, T>(batches: seq<seq<Row<P, T>>>, n: nat)
    requires n < |batches|
    ensures LeftBy(batches, n + 1) == LeftBy(batches, n) + Varying(batches[n])
  {
    assert batches[..n + 1] == batches[..n] + [batches[n]];
    FlatSnoc(batches[..n], batches[n]);
    VaryingAppend(Flat(batches[..n]), batches[n]);
  }

  lemma LeftByGrows<P, T>(batches: seq<seq<Row<P, T>>>, n: nat)
    requires n <= |batches|
    ensures LeftBy(batches, n) <= Varying(Flat(batches))
  {
    assert batches == batches[..n] + batches[n..];
    FlatAppend(batches[..n], batches[n..]);
    VaryingAppend(Flat(batches[..n]), Flat(batches[n..]));
  }

  /** The outcome that the batches, the required size and the limit call for. */
  ghost predicate Explains<P, T>(batches: seq<seq<Row<P, T>>>, settings: Settings, outcome: Accumulated<P, T>) {
    var size, limit := settings.Required(), settings.maxBatches;
    match outcome
    case Trained(rows, used) =>
      && 1 <= used <= |batches|
      && (used == 1 || used <= limit + 1)
      && NotEnough(batches, used - 1, size)
      && |LeftBy(batches, used)| >= size
      && size <= |Varying(Flat(batches))|
      && rows == Varying(Flat(batches))[..size]
    case Failed(used) =>
      && 0 < limit && used == limit + 1 <= |batches|
      && NotEnough(batches, used, size)
    case Refused =>
      && limit <= 0 && batches != []
      && NotEnough(batches, 1, size)
    case OutOfData(cached) =>
      && (batches == [] || |batches| <= limit)
      && NotEnough(batches, |batches|, size)
      && cached == Varying(Flat(batches))
  }

  /** Generates batches until the training batch is complete, the limit is passed or the data ends. */
  method Accumulate<P, T>(batches: seq<seq<Row<P, T>>>, settings: Settings) returns (outcome: Accumulated<P, T>)
    ensures settings.enabled ==> Explains(batches, settings, outcome)
    ensures !settings.enabled && batches != [] ==> outcome == Trained(batches[0], 1)
    ensures !settings.enabled && batches == [] ==> outcome == OutOfData([])
  {
    hide Collected, Explains, SampledFrom, Varying;
    var cache: Option<seq<Row<P, T>>> := None;
    var numBatches := 0;
    NothingCollected(batches, settings);
    while numBatches < |batches|
      invariant numBatches <= |batches|
      invariant numBatches == 0 || (settings.enabled && numBatches <= settings.maxBatches)
      invariant Collected(batches, settings, numBatches, cache)
    {
      var batch := batches[numBatches];
      numBatches := numBatches + 1;
      var sampled := DynamicallySample(batch, numBatches, settings, cache);
      if settings.enabled {
        OneBatch(batches, settings, numBatches - 1, cache, sampled);
      }
      match sampled {
        case Complete(rows, _) =>
          return Trained(rows, numBatches);
        case Incomplete(c) =>
          cache := c;
        case TooManyBatches =>
          return Failed(numBatches);
        case NoBatchesAllowed =>
          return Refused;
      }
    }
    DataEnds(batches, settings, cache);
    return OutOfData(Cached(cache));
  }

  /** The first n batches were not enough, and the cache holds what they left. */
  ghost predicate Collected<P, T>(
      batches: seq<seq<Row<P, T>>>, settings: Settings, n: nat, cache: Option<seq<Row<P, T>>>)
    requires n <= |batches|
  {
    Cached(cache) == LeftBy(batches, n) && NotEnough(batches, n, settings.Required())
  }

  lemma NothingCollected<P, T>(batches: seq<seq<Row<P, T>>>, settings: Settings)
    ensures Collected(batches, settings, 0, None)
  {
    assert batches[..0] == [];
  }

  lemma DataEnds<P, T>(batches: seq<seq<Row<P, T>>>, settings: Settings, cache: Option<seq<Row<P, T>>>)
    requires Collected(batches, settings, |batches|, cache) && (batches == [] || |batches| <= settings.maxBatches)
    ensures Explains(batches, settings, OutOfData(Cached(cache))) && (batches == [] ==> Cached(cache) == [])
  {
    assert batches[..|batches|] == batches;
  }

  lemma OneBatch<P, T>(
      batches: seq<seq<Row<P, T>>>, settings: Settings, n: nat, cache: Option<seq<Row<P, T>>>, sampled: Sampled<P, T>)
    requires n < |batches| && Collected(batches, settings, n, cache) && (n == 0 || n <= settings.maxBatches)
    requires SampledFrom(batches[n], n + 1, settings, cache, sampled)
    ensures match sampled
      case Complete(rows, _) => Explains(batches, settings, Trained(rows, n + 1))
      case Incomplete(more) => Collected(batches, settings, n + 1, more) && n + 1 <= settings.maxBatches
      case TooManyBatches => Explains(batches, settings, Failed(n + 1))
      case NoBatchesAllowed => Explains(batches, settings, Refused)
  {
    if |Joined(cache, batches[n])| >= settings.Required() {
      CompleteIsPrefix(batches, n + 1, settings.Required(), cache, sampled.rows);
    } else {
      StillNotEnough(batches, n, settings.Required(), cache);
    }
  }

  lemma StillNotEnough<P, T>(batches: seq<seq<Row<P, T>>>, n: nat, size: nat, cache: Option<seq<Row<P, T>>>)
    requires n < |batches| && Cached(cache) == LeftBy(batches, n) && NotEnough(batches, n, size)
    requires |Joined(cache, batches[n])| < size
    ensures NotEnough(batches, n + 1, size)
    ensures LeftBy(batches, n + 1) == if Varying(batches[n]) == [] then Cached(cache) else Joined(cache, batches[n])
  {
    LeftByNext(batches, n);
    assert LeftBy(batches, 0) == [];
  }

  lemma CompleteIsPrefix<P, T>(
      batches: seq<seq<Row<P, T>>>, n: nat, size: nat, cache: Option<seq<Row<P, T>>>, rows: seq<Row<P, T>>)
    requires 1 <= n <= |batches| && Cached(cache) == LeftBy(batches, n - 1)
    requires NotEnough(batches, n - 1, size)
    requires |Joined(cache, batches[n - 1])| >= size && rows == Joined(cache, batches[n - 1])[..size]
    ensures |LeftBy(batches, n)| >= size && |Varying(Flat(batches))| >= size
    ensures rows == Varying(Flat(batches))[..size]
  {
    LeftByNext(batches, n - 1);
    LeftByGrows(batches, n);
    if Varying(batches[n - 1]) != [] {
      assert rows == LeftBy(batches, n)[..size];
    }
  }

  // ----- whole groups -----

  /** Cuts rows into consecutive blocks of g. */
  function Blocks<X>(rows: seq<X>, g: nat): (r: seq<seq<X>>)
    requires g > 0
  {
    if |rows| < g then [] else [rows[..g]] + Blocks(rows[g..], g)
  }

  function VaryingBlocks<P, T>(blocks: seq<seq<Row<P, T>>>): seq<seq<Row<P, T>>>
    requires forall i :: 0 <= i < |blocks| ==> blocks[i] != []
  {
    if blocks == [] then []
    else (if Varies(blocks[0][0]) then [blocks[0]] else []) + VaryingBlocks(blocks[1..])
  }

  ghost predicate Agrees<P, T>(block: seq<Row<P, T>>) {
    forall i, j :: 0 <= i < |block| && 0 <= j < |block| ==> Varies(block[i]) == Varies(block[j])
  }

  /** Made of whole blocks of g, each with one verdict on whether it varies. */
  ghost predicate InBlocks<P, T>(rows: seq<Row<P, T>>, g: nat)
    requires g > 0
    decreases |rows|
  {
    rows == [] || (|rows| >= g && Agrees(rows[..g]) && InBlocks(rows[g..], g))
  }

  lemma {:induction false} BlockLengths<X>(rows: seq<X>, g: nat)
    requires g > 0
    ensures forall i :: 0 <= i < |Blocks(rows, g)| ==> |Blocks(rows, g)[i]| == g
  {
    if |rows| < g {
    } else {
      BlockLengths(rows[g..], g);
    }
  }

  lemma {:induction false} VaryingAllOrNone<P, T>(block: seq<Row<P, T>>)
    requires block != [] && Agrees(block)
    ensures Varying(block) == if Varies(block[0]) then block else []
  {
    if |block| == 1 {
      assert Varying(block[1..]) == [];
    } else {
      assert block[1..][0] == block[1];
      VaryingAllOrNone(block[1..]);
      assert block == [block[0]] + block[1..];
    }
  }

  /** Filtering rows that come in blocks keeps whole blocks. */
  lemma {:induction false} VaryingKeepsBlocks<P, T>(rows: seq<Row<P, T>>, g: nat)
    requires g > 0 && InBlocks(rows, g)
    ensures forall i :: 0 <= i < |Blocks(rows, g)| ==> Blocks(rows, g)[i] != []
    ensures Varying(rows) == Flat(VaryingBlocks(Blocks(rows, g)))
    ensures forall i :: 0 <= i < |VaryingBlocks(Blocks(rows, g))| ==> |VaryingBlocks(Blocks(rows, g))[i]| == g
    decreases |rows|
  {
    BlockLengths(rows, g);
    if rows == [] {
    } else {
      var first, rest := rows[..g], rows[g..];
      VaryingKeepsBlocks(rest, g);
      assert Blocks(rows, g)[1..] == Blocks(rest, g);
      VaryingAllOrNone(first);
      VaryingAppend(first, rest);
      assert rows == first + rest;
      var tail := VaryingBlocks(Blocks(rest, g));
      FlatAppend([first], tail);
      FlatSingle(first);
      assert [] + tail == tail;
    }
  }

  /** The training batch is the first groups, whole, of those that vary. */
  lemma TrainsOnWholeGroups<P, T>(batches: seq<seq<Row<P, T>>>, settings: Settings, rows: seq<Row<P, T>>, used: nat)
    requires settings.generations > 0
    requires forall i :: 0 <= i < |batches| ==> InBlocks(batches[i], settings.generations)
    requires Explains(batches, settings, Trained(rows, used))
    ensures var all := Blocks(Flat(batches), settings.generations);
      && (forall i :: 0 <= i < |all| ==> |all[i]| == settings.generations)
      && settings.prompts <= |VaryingBlocks(all)|
      && rows == Flat(VaryingBlocks(all)[..settings.prompts])
  {
    var g, n := settings.generations, settings.prompts;
    var all := Blocks(Flat(batches), g);
    FlatInBlocks(batches, g);
    BlockLengths(Flat(batches), g);
    VaryingKeepsBlocks(Flat(batches), g);
    FlatLength(VaryingBlocks(all), g);
    FewerBlocks(n, |VaryingBlocks(all)|, g);
    FlatPrefix(VaryingBlocks(all), g, n);
  }

  lemma FewerBlocks(n: nat, m: nat, g: nat)
    requires g > 0 && n * g <= m * g
    ensures n <= m
  {
    assert (m + 1) * g == m * g + g;
    Arithmetic.SmallerQuotient(n, m, g);
  }

  lemma {:induction false} InBlocksAppend<P, T>(a: seq<Row<P, T>>, b: seq<Row<P, T>>, g: nat)
    requires g > 0 && InBlocks(a, g) && InBlocks(b, g)
    ensures InBlocks(a + b, g)
    decreases |a|
  {
    if a == [] {
      assert a + b == b;
    } else {
      InBlocksAppend(a[g..], b, g);
      assert (a + b)[..g] == a[..g] && (a + b)[g..] == a[g..] + b;
    }
  }

  lemma {:induction false} FlatInBlocks<P, T>(batches: seq<seq<Row<P, T>>>, g: nat)
    requires g > 0 && forall i :: 0 <= i < |batches| ==> InBlocks(batches[i], g)
    ensures InBlocks(Flat(batches), g)
  {
    if batches == [] {
    } else {
      FlatInBlocks(batches[1..], g);
      InBlocksAppend(batches[0], Flat(batches[1..]), g);
    }
  }

  // ----- from generation to training -----

  /** With the group's mean as baseline, answers to the same prompt get the same verdict, however the batch
      is ordered and even if it asks the same prompt twice. */
  lemma SamePromptSameVerdict<P, T>(batch: seq<Row<P, T>>, i: nat, j: nat)
    requires Attached(batch, false)
    requires i < |batch| && j < |batch| && batch[i].prompt == batch[j].prompt
    ensures Varies(batch[i]) == Varies(batch[j])
  {
    VariesIffContrasts(batch, false, i);
    VariesIffContrasts(batch, false, j);
    assert forall a :: 0 <= a < |batch| ==> ComparedWith(batch, false, i, a) == ComparedWith(batch, false, j, a);
  }

  /** Attaches the baselines and variances of a generated batch. */
  method Attach<P(==), T>(prompts: seq<P>, data: seq<T>, rewards: seq<real>, leaveOneOut: bool)
      returns (batch: seq<Row<P, T>>)
    requires |prompts| == |data| == |rewards|
    ensures Prompts(batch) == prompts && Rewards(batch) == rewards
    ensures Attached(batch, leaveOneOut)
  {
    var b, v := MaskedBaselines.CalculateUnmasked(prompts, rewards, leaveOneOut);
    batch := seq(|prompts|, i requires 0 <= i < |prompts| => Row(prompts[i], data[i], rewards[i], b[i], v[i]));
    assert Prompts(batch) == prompts && Rewards(batch) == rewards;
    assert BaselineColumn(batch) == b && VarianceColumn(batch) == v;
  }

  function RepeatInterleave<X>(items: seq<X>, g: nat): seq<X> {
    if items == [] then [] else seq(g, _ => items[0]) + RepeatInterleave(items[1..], g)
  }

  /** Every prompt is asked g times in a row. */
  ghost predicate Repeated<P, T>(rows: seq<Row<P, T>>, g: nat)
    requires g > 0
    decreases |rows|
  {
    rows == [] ||
    (|rows| >= g && (forall i :: 0 <= i < g ==> rows[i].prompt == rows[0].prompt) && Repeated(rows[g..], g))
  }

  lemma {:induction false} InterleavedIsRepeated<P, T>(prompts: seq<P>, g: nat, rows: seq<Row<P, T>>)
    requires g > 0 && Prompts(rows) == RepeatInterleave(prompts, g)
    ensures Repeated(rows, g)
    decreases |prompts|
  {
    if prompts == [] {
      assert |Prompts(rows)| == 0;
    } else {
      var rest := RepeatInterleave(prompts[1..], g);
      assert |rows| == g + |rest|;
      forall i | 0 <= i < g ensures rows[i].prompt == prompts[0] {
        assert Prompts(rows)[i] == prompts[0];
      }
      assert Prompts(rows[g..]) == Prompts(rows)[g..] == rest;
      InterleavedIsRepeated(prompts[1..], g, rows[g..]);
    }
  }

  lemma {:induction false} RepeatedInBlocks<P, T>(batch: seq<Row<P, T>>, g: nat, from: nat)
    requires g > 0 && from <= |batch| && Attached(batch, false) && Repeated(batch[from..], g)
    ensures InBlocks(batch[from..], g)
    decreases |batch| - from
  {
    var rows := batch[from..];
    if rows == [] {
    } else {
      assert rows[g..] == batch[from + g..];
      RepeatedInBlocks(batch, g, from + g);
      forall i, j | 0 <= i < g && 0 <= j < g ensures Varies(rows[..g][i]) == Varies(rows[..g][j]) {
        SamePromptSameVerdict(batch, from + i, from + j);
      }
    }
  }

  /** From generation to training: batches whose prompts are repeated, with the group's mean as baseline,
      train on whole groups of answers. */
  lemma MeanBaselineTrainsOnWholeGroups<P, T>(
      asked: seq<seq<P>>, batches: seq<seq<Row<P, T>>>, settings: Settings, rows: seq<Row<P, T>>, used: nat)
    requires settings.generations > 0 && |asked| == |batches|
    requires forall i :: 0 <= i < |batches| ==>
               && Attached(batches[i], false)
               && Prompts(batches[i]) == RepeatInterleave(asked[i], settings.generations)
    requires Explains(batches, settings, Trained(rows, used))
    ensures var all := Blocks(Flat(batches), settings.generations);
      && (forall i :: 0 <= i < |all| ==> |all[i]| == settings.generations)
      && settings.prompts <= |VaryingBlocks(all)|
      && rows == Flat(VaryingBlocks(all)[..settings.prompts])
  {
    forall i | 0 <= i < |batches| ensures InBlocks(batches[i], settings.generations) {
      assert batches[i][0..] == batches[i];
      InterleavedIsRepeated(asked[i], settings.generations, batches[i]);
      RepeatedInBlocks(batches[i], settings.generations, 0);
    }
    TrainsOnWholeGroups(batches, settings, rows, used);
  }

  /** Leaving one out breaks groups up: of three answers with rewards 1, 0 and 0, only the last two stay. */
  lemma LeaveOneOutBreaksGroups()
    ensures var g := [1.0, 0.0, 0.0];
      && Baselines.GroupVariance(g, true, 0) == 0.0
      && Baselines.GroupVariance(g, true, 1) != 0.0
      && Baselines.GroupVariance(g, true, 2) != 0.0
  {
    var g := [1.0, 0.0, 0.0];
    assert Baselines.Others(g, true, 0) == [0.0, 0.0];
    Baselines.GroupVarianceVanishes(g, true, 0);
    Baselines.TwoDiffer(g, 1, 0, 2);
    Baselines.GroupVarianceVanishes(g, true, 1);
    Baselines.TwoDiffer(g, 2, 0, 1);
    Baselines.GroupVarianceVanishes(g, true, 2);
  }
}
