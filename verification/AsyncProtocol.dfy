/** Asynchronous GRPO as a transition system: a trajectory collector that reserves target versions
    and spawns workers, workers that push groups into the replay buffer, and a trainer that samples,
    trains and refits. Every step is one atomic action of one thread; labels may occur in any order.

    The pause during a refit and the limit on workers in flight are part of the system. The other waits
    (the pause at the generation limit, back-off, waiting for workers before a refit) only remove
    interleavings: what holds of every run needs none of them, and the runs that are shown to exist pass
    them (`Admitted`). */
module AsyncProtocol {
  import opened Arithmetic
  import opened Options
  import opened ReplayBuffers

  /** `initial` is the version training starts from, `prompts` the groups consumed by one step. */
  datatype Config = Config(initial: nat, maxAge: nat, prompts: nat) {
    function BufferSize(): nat {
      prompts * maxAge * 2
    }

    /** The semaphore for workers. */
    function InFlightLimit(): nat {
      prompts * maxAge
    }

    /** The buffer's constructor refuses any other configuration. */
    ghost predicate Accepted() {
      BufferSize() > 0
    }
  }

  /** A trajectory group, identified by the target it was generated for and its prompt index. */
  datatype Group = Group(target: int, prompt: nat)

  datatype Stage = Generating | Buffered | Detaching

  datatype Worker = Worker(version: int, target: int, prompt: nat, stage: Stage)

  /** Where the per-prompt loop stands with respect to a refit in progress. */
  datatype Gate = Unchecked | Held | Woken | Open

  /** `Ready` is past the pause at the top of the loop, but has not read its version yet. */
  datatype Collector =
    | Idle
    | Ready
    | Started(version: int)
    | Read(version: int, seen: int)
    | Looping(version: int, target: int, prompt: nat, gate: Gate)

  datatype Trainer = Sampling | Training | Refitting | Crashed

  datatype Message = SetVersion(version: int) | Resume

  /** `log` and `batchVersion` are history: the targets reserved so far, in order, and the version
      the collector read when it started its latest batch. */
  datatype State = State(
    buffer: Buffer<Group>,
    generating: set<int>,
    workers: seq<Worker>,
    collector: Collector,
    collectorVersion: int,
    paused: bool,
    trainer: Trainer,
    w: int,
    mail: seq<Message>,
    log: seq<int>,
    batchVersion: int)

  datatype Label =
    | PassGate | StartBatch | ReadLast | Reserve | CheckPause | Wake | Refresh | Spawn | FinishBatch
    | PushGroup(i: nat) | Release(i: nat) | Detach(i: nat)
    | TrainerSample | PrepareRefit | Refit | Deliver

  function Init(c: Config): State {
    State(Buffer([], [], [], -1), {}, [], Idle, c.initial, false, Sampling, c.initial,
          [SetVersion(c.initial)], [], c.initial)
  }

  /** The targets a server at version g may generate for, in the order they are tried. */
  function Candidates(c: Config, g: int): seq<int> {
    if g == c.initial
    then seq(c.maxAge + 1, i => c.initial + i)
    else seq(c.maxAge, i => g + 1 + i)
  }

  function FirstFree(candidates: seq<int>, seen: int, generating: set<int>): Option<int> {
    if candidates == [] then None
    else if candidates[0] > seen && candidates[0] !in generating then Some(candidates[0])
    else FirstFree(candidates[1..], seen, generating)
  }

  /** The target the collector would reserve in state s. */
  function Choice(c: Config, s: State): Option<int>
    requires s.collector.Read?
  {
    FirstFree(Candidates(c, s.collector.version), s.collector.seen, s.generating)
  }

  predicate Enabled(c: Config, s: State, l: Label) {
    match l
    case PassGate => s.collector.Idle? && !s.paused
    case StartBatch => s.collector.Ready?
    case ReadLast => s.collector.Started?
    case Reserve => s.collector.Read?
    case CheckPause => s.collector.Looping? && s.collector.gate.Unchecked? && s.collector.prompt < c.prompts
    case Wake => s.collector.Looping? && s.collector.gate.Held? && !s.paused
    case Refresh => s.collector.Looping? && s.collector.gate.Woken?
    case Spawn => s.collector.Looping? && s.collector.gate.Open? && |s.workers| < c.InFlightLimit()
    case FinishBatch => s.collector.Looping? && s.collector.gate.Unchecked? && s.collector.prompt >= c.prompts
    case PushGroup(i) => i < |s.workers| && s.workers[i].stage.Generating?
    case Release(i) => i < |s.workers| && s.workers[i].stage.Buffered? && s.workers[i].prompt == 0
    case Detach(i) => i < |s.workers| &&
                      (s.workers[i].stage.Detaching? || (s.workers[i].stage.Buffered? && s.workers[i].prompt != 0))
    case TrainerSample => s.trainer.Sampling? && s.buffer.Aligned()
    case PrepareRefit => s.trainer.Training? && s.mail == []
    case Refit => s.trainer.Refitting?
    case Deliver => s.mail != []
  }

  function Apply(c: Config, s: State, l: Label): State
    requires Enabled(c, s, l)
  {
    match l
    case PassGate => s.(collector := Ready)
    case StartBatch => s.(collector := Started(s.collectorVersion), batchVersion := s.collectorVersion)
    case ReadLast => s.(collector := Read(s.collector.version, s.buffer.last))
    case Reserve =>
      (match Choice(c, s)
       case None => s.(collector := Idle)
       case Some(t) => s.(generating := s.generating + {t},
                          collector := Looping(s.collector.version, t, 0, Unchecked),
                          log := s.log + [t]))
    case CheckPause => s.(collector := s.collector.(gate := if s.paused then Held else Open))
    case Wake => s.(collector := s.collector.(gate := Woken))
    case Refresh => s.(collector := s.collector.(version := s.collectorVersion, gate := Open))
    case Spawn =>
      s.(workers := s.workers + [Worker(s.collector.version, s.collector.target, s.collector.prompt, Generating)],
         collector := s.collector.(prompt := s.collector.prompt + 1, gate := Unchecked))
    case FinishBatch => s.(collector := Idle)
    case PushGroup(i) =>
      var k := s.workers[i];
      var (status, after) := Push(s.buffer, c.BufferSize(), Group(k.target, k.prompt), k.version, k.target);
      if status.Full? then s else s.(buffer := after, workers := s.workers[i := k.(stage := Buffered)])
    case Release(i) =>
      s.(generating := s.generating - {s.workers[i].target},
         workers := s.workers[i := s.workers[i].(stage := Detaching)])
    case Detach(i) =>
      s.(generating := s.generating - {s.workers[i].target}, workers := s.workers[..i] + s.workers[i + 1..])
    case TrainerSample =>
      var (r, after) := Sample(s.buffer, c.prompts, s.w, c.maxAge);
      (match r
       case Raised(_) => s.(trainer := Crashed)
       case Waiting => s
       case Sampled(_, _) => s.(buffer := after, trainer := Training))
    case PrepareRefit => s.(paused := true, trainer := Refitting)
    case Refit => s.(w := s.w + 1, mail := s.mail + [SetVersion(s.w + 1), Resume], trainer := Sampling)
    case Deliver =>
      (match s.mail[0]
       case SetVersion(v) => s.(collectorVersion := v, mail := s.mail[1..])
       case Resume => s.(paused := false, mail := s.mail[1..]))
  }

  ghost predicate IsRun(c: Config, states: seq<State>, labels: seq<Label>) {
    IsPath(c, states, labels) && states[0] == Init(c)
  }

  /** A part of a run. */
  ghost predicate IsPath(c: Config, states: seq<State>, labels: seq<Label>) {
    && |states| == |labels| + 1
    && forall i :: 0 <= i < |labels| ==>
          Enabled(c, states[i], labels[i]) && states[i + 1] == Apply(c, states[i], labels[i])
  }

  // ----- what every step keeps, in every interleaving -----

  function GenCount(workers: seq<Worker>, t: int): nat {
    if workers == [] then 0
    else (if workers[0].stage.Generating? && workers[0].target == t then 1 else 0) + GenCount(workers[1..], t)
  }

  /** Groups of target t that the collector has reserved but not yet spawned. */
  function ToSpawn(c: Config, s: State, t: int): int {
    if s.collector.Looping? && s.collector.target == t then c.prompts - s.collector.prompt else 0
  }

  function Consumed(c: Config, s: State, t: int): nat {
    if c.initial <= t < s.w || (t == s.w && (s.trainer.Training? || s.trainer.Refitting?)) then c.prompts else 0
  }

  /** Smallest candidate of a server at version g. */
  function Low(c: Config, g: int): int {
    if g == c.initial then g else g + 1
  }

  /** Calls on their way announce the trainer's version; the collector is paused from the start of a refit
      until it hears of its end. */
  ghost predicate MailInv(c: Config, s: State) {
    && (s.mail == [] || s.mail == [Resume] || s.mail == [SetVersion(s.w), Resume] ||
        (s.mail == [SetVersion(s.w)] && s.w == c.initial))
    && (s.collectorVersion == s.w || (s.mail != [] && s.mail[0].SetVersion?))
    && (s.trainer.Refitting? ==> s.mail == [])
    && (s.paused <==> s.trainer.Refitting? || (s.mail != [] && s.mail[|s.mail| - 1].Resume?))
  }

  ghost predicate VersionInv(c: Config, s: State) {
    && c.initial <= s.batchVersion <= s.collectorVersion <= s.w
    && MailInv(c, s)
    && (s.collector.Started? || s.collector.Read? ==> s.collector.version == s.batchVersion)
    && (s.collector.Looping? ==>
          c.initial <= s.collector.version <= s.collectorVersion &&
          s.collector.target <= s.collector.version + c.maxAge &&
          s.collector.prompt <= c.prompts &&
          (!s.collector.gate.Unchecked? ==> s.collector.prompt < c.prompts))
  }

  ghost predicate GroupInv(c: Config, s: State) {
    && s.buffer.Aligned() && |s.workers| <= c.InFlightLimit()
    && (forall i :: 0 <= i < |s.workers| ==>
          c.initial <= s.workers[i].version <= s.w && s.workers[i].target <= s.workers[i].version + c.maxAge &&
          (!s.workers[i].stage.Generating? ==> s.workers[i].target <= s.buffer.last))
    && (forall i :: 0 <= i < |s.buffer.versions| ==>
          c.initial <= s.buffer.versions[i] <= s.w && s.buffer.targets[i] <= s.buffer.versions[i] + c.maxAge)
  }

  ghost predicate LogInv(c: Config, s: State) {
    && (forall t :: t in s.log ==> c.initial <= t && (t <= s.buffer.last || t in s.generating))
    && (forall t :: t in s.generating ==> t in s.log)
    && (s.buffer.last == -1 || s.buffer.last in s.log)
    && (s.collector.Read? ==>
          s.collector.seen <= s.buffer.last && (s.collector.seen == -1 || s.collector.seen in s.log))
    && (forall t, x :: Low(c, s.batchVersion) <= t <= x && x in s.log ==> t in s.log)
  }

  ghost predicate Accounted(c: Config, s: State, t: int) {
    multiset(s.buffer.targets)[t] + GenCount(s.workers, t) + ToSpawn(c, s, t) + Consumed(c, s, t) ==
    c.prompts * multiset(s.log)[t]
  }

  ghost predicate AccountInv(c: Config, s: State) {
    forall t :: Accounted(c, s, t)
  }

  ghost predicate ReservedOnce(s: State) {
    forall t :: multiset(s.log)[t] <= 1
  }

  ghost predicate Inv(c: Config, s: State) {
    && VersionInv(c, s) && GroupInv(c, s) && LogInv(c, s) && AccountInv(c, s)
    && (s.trainer.Crashed? ==> !ReservedOnce(s))
  }

  lemma InitInv(c: Config)
    ensures Inv(c, Init(c))
  {
    forall t ensures Accounted(c, Init(c), t) {}
  }

  // ----- counting workers -----

  lemma {:induction false} GenCountAppend(a: seq<Worker>, b: seq<Worker>, t: int)
    ensures GenCount(a + b, t) == GenCount(a, t) + GenCount(b, t)
  {
    if a == [] {
      assert a + b == b;
    } else {
      assert (a + b)[1..] == a[1..] + b;
      GenCountAppend(a[1..], b, t);
    }
  }

  lemma GenCountSplit(ws: seq<Worker>, i: nat, t: int)
    requires i < |ws|
    ensures GenCount(ws, t) == GenCount(ws[..i] + ws[i + 1..], t) + GenCount([ws[i]], t)
  {
    assert ws == ws[..i] + ([ws[i]] + ws[i + 1..]);
    GenCountAppend(ws[..i], [ws[i]] + ws[i + 1..], t);
    GenCountAppend([ws[i]], ws[i + 1..], t);
    GenCountAppend(ws[..i], ws[i + 1..], t);
  }

  lemma GenCountUpdate(ws: seq<Worker>, i: nat, k: Worker, t: int)
    requires i < |ws|
    ensures GenCount(ws[i := k], t) == GenCount(ws, t) - GenCount([ws[i]], t) + GenCount([k], t)
  {
    GenCountSplit(ws, i, t);
    GenCountSplit(ws[i := k], i, t);
    assert ws[i := k][..i] == ws[..i] && ws[i := k][i + 1..] == ws[i + 1..];
  }

  // ----- candidates -----

  lemma CandidatesRange(c: Config, g: int)
    ensures forall k :: 0 <= k < |Candidates(c, g)| ==> Candidates(c, g)[k] == Low(c, g) + k
    ensures Low(c, g) + |Candidates(c, g)| == g + c.maxAge + 1
  {
  }

  lemma {:induction false} FirstFreeMeaning(cs: seq<int>, seen: int, generating: set<int>)
    requires forall k :: 0 <= k < |cs| ==> cs[k] == cs[0] + k
    ensures var r := FirstFree(cs, seen, generating);
      && (r.None? ==> forall k :: 0 <= k < |cs| ==> cs[k] <= seen || cs[k] in generating)
      && (r.Some? ==> r.value in cs && r.value > seen && r.value !in generating &&
                      forall t :: t in cs && t < r.value ==> t <= seen || t in generating)
  {
    if cs == [] {
    } else {
      assert cs == [cs[0]] + cs[1..];
      FirstFreeMeaning(cs[1..], seen, generating);
    }
  }

  /** The chosen target is the least candidate that is neither below the value read nor in progress. */
  lemma ChoiceMeaning(c: Config, s: State)
    requires s.collector.Read? && Choice(c, s).Some?
    ensures var t := Choice(c, s).value;
      && Low(c, s.collector.version) <= t <= s.collector.version + c.maxAge
      && t > s.collector.seen && t !in s.generating
      && forall u :: Low(c, s.collector.version) <= u < t ==> u <= s.collector.seen || u in s.generating
  {
    var cs := Candidates(c, s.collector.version);
    CandidatesRange(c, s.collector.version);
    FirstFreeMeaning(cs, s.collector.seen, s.generating);
    var t := Choice(c, s).value;
    forall u | Low(c, s.collector.version) <= u < t ensures u <= s.collector.seen || u in s.generating {
      assert cs[u - Low(c, s.collector.version)] == u;
    }
  }

  /** A reservation takes a target for the second time exactly when that target does not exceed the
      largest target pushed so far: the value read before the lock was stale. */
  lemma RepeatsIffStale(c: Config, s: State)
    requires VersionInv(c, s) && LogInv(c, s) && s.collector.Read? && Choice(c, s).Some?
    ensures Choice(c, s).value in s.log <==> Choice(c, s).value <= s.buffer.last
  {
    ChoiceMeaning(c, s);
  }

  // ----- preservation -----

  lemma VersionInvKept(c: Config, s: State, l: Label)
    requires VersionInv(c, s) && Enabled(c, s, l)
    ensures VersionInv(c, Apply(c, s, l))
  {
    hide Sample, Push, Choice;
    if l.Reserve? && Choice(c, s).Some? {
      ChoiceMeaning(c, s);
    } else if l.Deliver? {
      VersionInvDeliver(c, s);
    } else if l.Refit? {
      VersionInvRefit(c, s);
    }
  }

  lemma VersionInvDeliver(c: Config, s: State)
    requires VersionInv(c, s) && Enabled(c, s, Deliver)
    ensures VersionInv(c, Apply(c, s, Deliver))
  {
    hide Sample, Push, Choice;
  }

  lemma VersionInvRefit(c: Config, s: State)
    requires VersionInv(c, s) && Enabled(c, s, Refit)
    ensures VersionInv(c, Apply(c, s, Refit))
  {
    hide Sample, Push, Choice;
  }

  lemma GroupInvKept(c: Config, s: State, l: Label)
    requires VersionInv(c, s) && GroupInv(c, s) && Enabled(c, s, l)
    ensures GroupInv(c, Apply(c, s, l))
  {
    hide Sample, Push, Choice, MailInv;
    match l {
      case PushGroup(i) => GroupInvPush(c, s, i);
      case Detach(i) => GroupInvDetach(c, s, i);
      case TrainerSample => GroupInvSample(c, s);
      case _ =>
    }
  }

  lemma GroupInvPush(c: Config, s: State, i: nat)
    requires GroupInv(c, s) && Enabled(c, s, PushGroup(i))
    ensures GroupInv(c, Apply(c, s, PushGroup(i)))
  {
    hide Sample, Choice;
  }

  lemma GroupInvDetach(c: Config, s: State, i: nat)
    requires GroupInv(c, s) && Enabled(c, s, Detach(i))
    ensures GroupInv(c, Apply(c, s, Detach(i)))
  {
  }

  lemma GroupInvSample(c: Config, s: State)
    requires GroupInv(c, s) && Enabled(c, s, TrainerSample)
    ensures GroupInv(c, Apply(c, s, TrainerSample))
  {
    hide Sample;
    SampleChanges(c, s);
    var b := Apply(c, s, TrainerSample).buffer;
    forall i | 0 <= i < |b.versions|
      ensures c.initial <= b.versions[i] <= s.w && b.targets[i] <= b.versions[i] + c.maxAge
    {
      GroupStays(c, s, i);
    }
  }

  lemma GroupStays(c: Config, s: State, i: nat)
    requires GroupInv(c, s) && Enabled(c, s, TrainerSample)
    requires Apply(c, s, TrainerSample).buffer.Aligned() && i < |Apply(c, s, TrainerSample).buffer.versions|
    ensures var b := Apply(c, s, TrainerSample).buffer;
      c.initial <= b.versions[i] <= s.w && b.targets[i] <= b.versions[i] + c.maxAge
  {
    hide Sample;
    SampledBuffer(c, s);
    if Sample(s.buffer, c.prompts, s.w, c.maxAge).0.Sampled? {
      var j := SampleAddsNothing(s.buffer, c.prompts, s.w, c.maxAge, i);
    }
  }

  /** The buffer after sampling. */
  lemma SampledBuffer(c: Config, s: State)
    requires Enabled(c, s, TrainerSample)
    ensures var (r, after) := Sample(s.buffer, c.prompts, s.w, c.maxAge);
      Apply(c, s, TrainerSample).buffer == if r.Sampled? then after else s.buffer
  {
  }

  /** Sampling changes nothing but the buffer and the trainer, and keeps the largest pushed target. */
  lemma SampleChanges(c: Config, s: State)
    requires Enabled(c, s, TrainerSample)
    ensures var s' := Apply(c, s, TrainerSample);
      && s' == s.(buffer := s'.buffer, trainer := s'.trainer)
      && s'.buffer.Aligned() && s'.buffer.last == s.buffer.last
  {
    hide Sample, Choice, Push;
    SampleForProtocol(s.buffer, c.prompts, s.w, c.maxAge);
  }

  /** Whatever is in the buffer after a sample was there before, with the same version and target. */
  lemma SampleAddsNothing(b: Buffer<Group>, n: nat, w: int, maxAge: nat, k: nat) returns (j: nat)
    requires b.Aligned() && k < |Sample(b, n, w, maxAge).1.targets|
    ensures Sample(b, n, w, maxAge).1.Aligned() && SameEntry(Sample(b, n, w, maxAge).1, k, b, j)
  {
    SampleForProtocol(b, n, w, maxAge);
    j := k;
    if Sample(b, n, w, maxAge).0.Sampled? {
      SurvivorsKept(b, n, w, maxAge);
      j := Survivors(b, n, w, maxAge)[k];
    }
  }

  /** The part of a sample's effect that the protocol's invariants depend on. */
  lemma SampleForProtocol(b: Buffer<Group>, n: nat, w: int, maxAge: nat)
    requires b.Aligned()
    ensures var (r, after) := Sample(b, n, w, maxAge);
      && after.Aligned() && after.last == b.last
      && (!r.Sampled? ==> after == b)
      && (r.Sampled? ==> multiset(b.targets)[w] >= n &&
                         multiset(after.targets) == multiset(b.targets)[w := multiset(b.targets)[w] - n])
  {
    SampleEffect(b, n, w, maxAge);
  }

  lemma LogInvKept(c: Config, s: State, l: Label)
    requires VersionInv(c, s) && GroupInv(c, s) && LogInv(c, s) && AccountInv(c, s) && Enabled(c, s, l)
    ensures LogInv(c, Apply(c, s, l))
  {
    match l {
      case StartBatch => LogInvStart(c, s);
      case ReadLast => LogInvStart(c, s);
      case Reserve => LogInvReserve(c, s);
      case PushGroup(i) => LogInvPush(c, s, i);
      case Release(i) => LogInvLeave(c, s, l, i);
      case Detach(i) => LogInvLeave(c, s, l, i);
      case TrainerSample => LogInvSample(c, s);
      case Deliver => LogInvKeepsLists(c, s, l);
      case Refit => LogInvKeepsLists(c, s, l);
      case _ =>
    }
  }

  lemma LogInvSample(c: Config, s: State)
    requires LogInv(c, s) && Enabled(c, s, TrainerSample)
    ensures LogInv(c, Apply(c, s, TrainerSample))
  {
    SampleChanges(c, s);
  }

  lemma LogInvKeepsLists(c: Config, s: State, l: Label)
    requires LogInv(c, s) && Enabled(c, s, l) && (l.Deliver? || l.Refit?)
    ensures LogInv(c, Apply(c, s, l))
  {
  }

  lemma LogInvStart(c: Config, s: State)
    requires VersionInv(c, s) && LogInv(c, s)
    ensures Enabled(c, s, StartBatch) ==> LogInv(c, Apply(c, s, StartBatch))
    ensures Enabled(c, s, ReadLast) ==> LogInv(c, Apply(c, s, ReadLast))
  {
  }

  /** A worker that leaves has pushed its target. */
  lemma LogInvLeave(c: Config, s: State, l: Label, i: nat)
    requires LogInv(c, s) && GroupInv(c, s) && Enabled(c, s, l) && (l == Release(i) || l == Detach(i))
    ensures LogInv(c, Apply(c, s, l))
  {
    assert s.workers[i].target <= s.buffer.last;
  }

  lemma LogInvPush(c: Config, s: State, i: nat)
    requires VersionInv(c, s) && LogInv(c, s) && AccountInv(c, s) && Enabled(c, s, PushGroup(i))
    ensures LogInv(c, Apply(c, s, PushGroup(i)))
  {
    hide MailInv, GenCount;
    PushedTargetIsReserved(c, s, i);
  }

  lemma LogInvReserve(c: Config, s: State)
    requires VersionInv(c, s) && LogInv(c, s) && Enabled(c, s, Reserve)
    ensures LogInv(c, Apply(c, s, Reserve))
  {
    hide Choice, MailInv;
    if Choice(c, s).Some? {
      ChoiceMeaning(c, s);
      assert forall u :: u in s.log + [Choice(c, s).value] <==> u in s.log || u == Choice(c, s).value;
    }
  }

  lemma PushedTargetIsReserved(c: Config, s: State, i: nat)
    requires VersionInv(c, s) && AccountInv(c, s) && Enabled(c, s, PushGroup(i))
    ensures s.workers[i].target in s.log
  {
    hide MailInv, Push;
    var t := s.workers[i].target;
    GenCountSplit(s.workers, i, t);
    assert Accounted(c, s, t);
  }

  lemma AccountInvKept(c: Config, s: State, l: Label)
    requires c.Accepted() && VersionInv(c, s) && GroupInv(c, s) && AccountInv(c, s) && Enabled(c, s, l)
    ensures AccountInv(c, Apply(c, s, l))
  {
    forall t ensures Accounted(c, Apply(c, s, l), t) {
      AccountKept(c, s, l, t);
    }
  }

  lemma AccountKept(c: Config, s: State, l: Label, t: int)
    requires VersionInv(c, s) && GroupInv(c, s) && Enabled(c, s, l)
    requires Accounted(c, s, t)
    ensures Accounted(c, Apply(c, s, l), t)
  {
    hide Sample, Push, Choice, MailInv, GenCount;
    match l {
      case Reserve => AccountReserve(c, s, t);
      case Spawn => AccountSpawn(c, s, t);
      case PushGroup(i) => AccountPush(c, s, i, t);
      case Release(i) => AccountRelease(c, s, i, t);
      case Detach(i) => AccountDetach(c, s, i, t);
      case TrainerSample => AccountSample(c, s, t);
      case _ =>
    }
  }

  lemma AccountSpawn(c: Config, s: State, t: int)
    requires Enabled(c, s, Spawn) && Accounted(c, s, t)
    ensures Accounted(c, Apply(c, s, Spawn), t)
  {
    GenCountAppend(s.workers, [Worker(s.collector.version, s.collector.target, s.collector.prompt, Generating)], t);
  }

  lemma AccountRelease(c: Config, s: State, i: nat, t: int)
    requires Enabled(c, s, Release(i)) && Accounted(c, s, t)
    ensures Accounted(c, Apply(c, s, Release(i)), t)
  {
    GenCountUpdate(s.workers, i, s.workers[i].(stage := Detaching), t);
  }

  lemma AccountDetach(c: Config, s: State, i: nat, t: int)
    requires Enabled(c, s, Detach(i)) && Accounted(c, s, t)
    ensures Accounted(c, Apply(c, s, Detach(i)), t)
  {
    GenCountSplit(s.workers, i, t);
  }

  lemma AccountSample(c: Config, s: State, t: int)
    requires VersionInv(c, s) && Enabled(c, s, TrainerSample) && Accounted(c, s, t)
    ensures Accounted(c, Apply(c, s, TrainerSample), t)
  {
    hide Sample, GenCount;
    var s' := Apply(c, s, TrainerSample);
    var (r, after) := Sample(s.buffer, c.prompts, s.w, c.maxAge);
    SampleForProtocol(s.buffer, c.prompts, s.w, c.maxAge);
    if r.Sampled? {
      assert s' == s.(buffer := after, trainer := Training);
      SampledConsumes(c, s, s', t);
    } else {
      assert s'.buffer == s.buffer && s'.log == s.log && s'.workers == s.workers;
    }
  }

  lemma SampledConsumes(c: Config, s: State, s': State, t: int)
    requires c.initial <= s.w && s.trainer.Sampling? && multiset(s.buffer.targets)[s.w] >= c.prompts
    requires multiset(s'.buffer.targets) ==
              multiset(s.buffer.targets)[s.w := multiset(s.buffer.targets)[s.w] - c.prompts]
    requires s' == s.(buffer := s'.buffer, trainer := Training)
    requires Accounted(c, s, t)
    ensures Accounted(c, s', t)
  {
  }

  lemma AccountReserve(c: Config, s: State, t: int)
    requires Enabled(c, s, Reserve) && Accounted(c, s, t)
    ensures Accounted(c, Apply(c, s, Reserve), t)
  {
    var s' := Apply(c, s, Reserve);
    if Choice(c, s).Some? {
      var u := Choice(c, s).value;
      assert multiset(s.log + [u]) == multiset(s.log) + multiset{u};
      OneMore(multiset(s.log)[t], c.prompts);
    }
  }

  lemma AccountPush(c: Config, s: State, i: nat, t: int)
    requires GroupInv(c, s) && Enabled(c, s, PushGroup(i)) && Accounted(c, s, t)
    ensures Accounted(c, Apply(c, s, PushGroup(i)), t)
  {
    hide Apply, MailInv;
    PushChanges(c, s, i);
    GenCountUpdate(s.workers, i, s.workers[i].(stage := Buffered), t);
  }

  /** A push fails and changes nothing, or adds one group for the worker's target. */
  lemma PushChanges(c: Config, s: State, i: nat)
    requires s.buffer.Aligned() && Enabled(c, s, PushGroup(i))
    ensures var k, s' := s.workers[i], Apply(c, s, PushGroup(i));
      || s' == s
      || (s' == s.(buffer := s'.buffer, workers := s.workers[i := k.(stage := Buffered)]) &&
          multiset(s'.buffer.targets) == multiset(s.buffer.targets) + multiset{k.target})
  {
    var k := s.workers[i];
    PushEffect(s.buffer, c.BufferSize(), Group(k.target, k.prompt), k.version, k.target);
  }

  // ----- consequences of reserving every target once -----

  lemma AcceptedBounds(c: Config)
    ensures c.Accepted() <==> c.prompts >= 1 && c.maxAge >= 1
    ensures c.BufferSize() == c.prompts * c.maxAge + c.prompts * c.maxAge
    ensures c.InFlightLimit() == c.prompts * c.maxAge
  {
    if c.prompts >= 1 && c.maxAge >= 1 {
      assert c.prompts * c.maxAge >= 1;
    }
  }

  /** No group is left for a target that training has passed. */
  lemma PassedTargetsAreEmpty(c: Config, s: State, t: int)
    requires c.Accepted() && Inv(c, s) && ReservedOnce(s)
    requires multiset(s.buffer.targets)[t] + GenCount(s.workers, t) + ToSpawn(c, s, t) > 0
    ensures s.w <= t && (s.trainer.Training? || s.trainer.Refitting? ==> s.w < t)
    ensures multiset(s.buffer.targets)[t] + GenCount(s.workers, t) <= c.prompts
  {
    assert Accounted(c, s, t);
    assert multiset(s.log)[t] <= 1;
    assert c.prompts * multiset(s.log)[t] <= c.prompts;
    assert ToSpawn(c, s, t) >= 0;
    assert multiset(s.log)[t] == 1;
    assert t in s.log;
    assert c.initial <= t;
  }

  /** Every buffered group can still be used: it targets this step or a later one, and was generated
      by weights that are neither too old for that step nor newer than the trainer's. */
  ghost predicate Fits(c: Config, s: State)
    requires s.buffer.Aligned()
  {
    forall i :: 0 <= i < |s.buffer.targets| ==>
      s.w <= s.buffer.targets[i] <= s.buffer.versions[i] + c.maxAge && s.buffer.versions[i] <= s.w
  }

  lemma BufferFits(c: Config, s: State)
    requires c.Accepted() && Inv(c, s) && ReservedOnce(s)
    ensures s.buffer.Aligned() && Fits(c, s)
  {
    forall i | 0 <= i < |s.buffer.targets| ensures s.w <= s.buffer.targets[i] {
      assert s.buffer.targets[i] in multiset(s.buffer.targets);
      PassedTargetsAreEmpty(c, s, s.buffer.targets[i]);
    }
  }

  /** k classes of at most n elements each hold at most k * n elements. */
  lemma {:induction false} Pigeonhole(s: seq<int>, lo: int, k: nat, n: nat)
    requires forall i :: 0 <= i < |s| ==> lo <= s[i] < lo + k
    requires forall t :: multiset(s)[t] <= n
    ensures |s| <= k * n
    decreases k
  {
    if k == 0 {
      assert |s| == 0;
    } else {
      var top := lo + k - 1;
      var rest := Others(s, top);
      OthersMeaning(s, top);
      Pigeonhole(rest, lo, k - 1, n);
      assert multiset(s)[top] <= n;
      assert (k - 1) * n + n == k * n;
    }
  }

  function Others(s: seq<int>, x: int): seq<int> {
    if s == [] then [] else if s[0] == x then Others(s[1..], x) else [s[0]] + Others(s[1..], x)
  }

  lemma {:induction false} OthersMeaning(s: seq<int>, x: int)
    ensures multiset(Others(s, x)) == multiset(s)[x := 0]
    ensures |s| == |Others(s, x)| + multiset(s)[x]
    ensures forall i :: 0 <= i < |Others(s, x)| ==> Others(s, x)[i] in s && Others(s, x)[i] != x
  {
    if s == [] {
    } else {
      assert s == [s[0]] + s[1..];
      OthersMeaning(s[1..], x);
    }
  }

  lemma OccupancyBound(c: Config, s: State)
    requires c.Accepted() && Inv(c, s) && ReservedOnce(s)
    ensures |s.buffer.targets| <= (c.maxAge + 1) * c.prompts <= c.BufferSize()
  {
    BufferFits(c, s);
    AcceptedBounds(c);
    forall t ensures multiset(s.buffer.targets)[t] <= c.prompts {
      if multiset(s.buffer.targets)[t] > 0 { PassedTargetsAreEmpty(c, s, t); }
    }
    Pigeonhole(s.buffer.targets, s.w, c.maxAge + 1, c.prompts);
    WindowFitsBuffer(c);
  }

  lemma WindowFitsBuffer(c: Config)
    requires c.Accepted()
    ensures (c.maxAge + 1) * c.prompts <= c.BufferSize()
  {
    AcceptedBounds(c);
    assert c.prompts * c.maxAge * 2 == c.maxAge * c.prompts + c.maxAge * c.prompts;
    assert (c.maxAge + 1) * c.prompts == c.maxAge * c.prompts + c.prompts;
    assert (c.maxAge - 1) * c.prompts >= 0;
  }

  lemma PushNeverFull(c: Config, s: State, i: nat)
    requires c.Accepted() && Inv(c, s) && ReservedOnce(s) && Enabled(c, s, PushGroup(i))
    ensures |s.buffer.targets| < c.BufferSize()
  {
    BufferFits(c, s);
    AcceptedBounds(c);
    OccupancyBound(c, s);
    var u := s.workers[i].target;
    var more := s.buffer.targets + [u];
    GenCountSplit(s.workers, i, u);
    forall t ensures multiset(more)[t] <= c.prompts {
      if multiset(s.buffer.targets)[t] + GenCount(s.workers, t) > 0 { PassedTargetsAreEmpty(c, s, t); }
    }
    PassedTargetsAreEmpty(c, s, u);
    Pigeonhole(more, s.w, c.maxAge + 1, c.prompts);
  }

  lemma NoCrashStep(c: Config, s: State, l: Label)
    requires c.Accepted() && Inv(c, s) && Enabled(c, s, l)
    ensures Apply(c, s, l).trainer.Crashed? ==> !ReservedOnce(Apply(c, s, l))
  {
    if Apply(c, s, l).trainer.Crashed? && ReservedOnce(Apply(c, s, l)) {
      OnceBefore(c, s, l);
      SampleDoesNotRaise(c, s);
    }
  }

  lemma OnceBefore(c: Config, s: State, l: Label)
    requires Enabled(c, s, l) && ReservedOnce(Apply(c, s, l))
    ensures ReservedOnce(s)
  {
    var s' := Apply(c, s, l);
    forall t ensures multiset(s.log)[t] <= 1 {
      assert multiset(s'.log)[t] <= 1;
    }
  }

  lemma SampleDoesNotRaise(c: Config, s: State)
    requires c.Accepted() && Inv(c, s) && ReservedOnce(s)
    ensures s.buffer.Aligned() && !Sample(s.buffer, c.prompts, s.w, c.maxAge).0.Raised?
  {
    hide GenCount;
    BufferFits(c, s);
    AcceptedBounds(c);
    forall v | v in s.buffer.versions ensures v >= MinValidVersion(s.w, c.maxAge) {
      var i :| 0 <= i < |s.buffer.versions| && s.buffer.versions[i] == v;
      assert s.buffer.targets[i] <= v + c.maxAge;
    }
    SampleEffect(s.buffer, c.prompts, s.w, c.maxAge);
  }

  /** Sampling raises exactly when a buffered group is older than the maximum age allows. */
  lemma CrashesIffTooOld(c: Config, s: State)
    requires c.Accepted() && GroupInv(c, s) && Enabled(c, s, TrainerSample)
    ensures Apply(c, s, TrainerSample).trainer.Crashed? <==>
            exists i :: 0 <= i < |s.buffer.versions| && s.buffer.versions[i] + c.maxAge < s.w
  {
    hide GenCount;
    AcceptedBounds(c);
    SampleEffect(s.buffer, c.prompts, s.w, c.maxAge);
    forall i | 0 <= i < |s.buffer.versions|
      ensures s.buffer.versions[i] + c.maxAge < s.w <==> s.buffer.versions[i] < MinValidVersion(s.w, c.maxAge)
    {
    }
    if i :| 0 <= i < |s.buffer.versions| && s.buffer.versions[i] + c.maxAge < s.w {
      assert s.buffer.versions[i] in s.buffer.versions;
    }
  }

  lemma StepKeepsInv(c: Config, s: State, l: Label)
    requires c.Accepted() && Inv(c, s) && Enabled(c, s, l)
    ensures Inv(c, Apply(c, s, l))
  {
    VersionInvKept(c, s, l);
    GroupInvKept(c, s, l);
    LogInvKept(c, s, l);
    AccountInvKept(c, s, l);
    NoCrashStep(c, s, l);
  }

  // ----- whole runs -----

  lemma {:induction false} PathInv(c: Config, states: seq<State>, labels: seq<Label>, i: nat)
    requires c.Accepted() && IsPath(c, states, labels) && i <= |labels| && Inv(c, states[0])
    ensures Inv(c, states[i])
  {
    if i == 0 {
    } else {
      PathInv(c, states, labels, i - 1);
      StepKeepsInv(c, states[i - 1], labels[i - 1]);
    }
  }

  lemma RunInv(c: Config, states: seq<State>, labels: seq<Label>, i: nat)
    requires c.Accepted() && IsRun(c, states, labels) && i <= |labels|
    ensures Inv(c, states[i])
  {
    InitInv(c);
    PathInv(c, states, labels, i);
  }

  /** A step is fresh unless it reserves a target that does not exceed the largest one pushed. */
  ghost predicate Fresh(c: Config, s: State, l: Label) {
    l.Reserve? && s.collector.Read? && Choice(c, s).Some? ==> Choice(c, s).value > s.buffer.last
  }

  ghost predicate AllFresh(c: Config, states: seq<State>, labels: seq<Label>, n: nat)
    requires IsRun(c, states, labels) && n <= |labels|
  {
    forall i :: 0 <= i < n ==> Fresh(c, states[i], labels[i])
  }

  lemma StepReservesOnce(c: Config, s: State, l: Label)
    requires Inv(c, s) && Enabled(c, s, l)
    ensures ReservedOnce(Apply(c, s, l)) <==> ReservedOnce(s) && Fresh(c, s, l)
  {
    hide ReservedOnce, Choice, AccountInv;
    if l.Reserve? && Choice(c, s).Some? {
      RepeatsIffStale(c, s);
      LogGrows(c, s);
      OnceMore(s, Apply(c, s, Reserve), Choice(c, s).value);
    } else {
      LogStays(c, s, l);
      SameLog(s, Apply(c, s, l));
    }
  }

  lemma LogGrows(c: Config, s: State)
    requires Enabled(c, s, Reserve) && Choice(c, s).Some?
    ensures Apply(c, s, Reserve).log == s.log + [Choice(c, s).value]
  {
    hide Choice;
  }

  lemma LogStays(c: Config, s: State, l: Label)
    requires Enabled(c, s, l) && (l.Reserve? ==> Choice(c, s).None?)
    ensures Apply(c, s, l).log == s.log
  {
    hide Choice, Push;
  }

  lemma SameLog(s: State, s': State)
    requires s'.log == s.log
    ensures ReservedOnce(s') <==> ReservedOnce(s)
  {
  }

  lemma OnceMore(s: State, s': State, t: int)
    requires s'.log == s.log + [t]
    ensures ReservedOnce(s') <==> ReservedOnce(s) && t !in s.log
  {
    assert multiset(s'.log) == multiset(s.log) + multiset{t};
    assert forall u :: multiset(s.log)[u] <= multiset(s'.log)[u];
    if t in s.log {
      assert multiset(s'.log)[t] > 1;
    }
  }

  /** In any run, no target is reserved twice exactly when no reservation acts on a stale read. */
  lemma {:induction false} ReservedOnceIffFresh(c: Config, states: seq<State>, labels: seq<Label>, n: nat)
    requires c.Accepted() && IsRun(c, states, labels) && n <= |labels|
    ensures ReservedOnce(states[n]) <==> AllFresh(c, states, labels, n)
  {
    if n == 0 {
    } else {
      ReservedOnceIffFresh(c, states, labels, n - 1);
      RunInv(c, states, labels, n - 1);
      StepReservesOnce(c, states[n - 1], labels[n - 1]);
    }
  }

  /** Reading and reserving in one atomic step is one way to be fresh. */
  lemma AtomicReadIsFresh(c: Config, s: State)
    requires s.collector.Read? && s.collector.seen == s.buffer.last
    ensures Fresh(c, s, Reserve)
  {
    if Choice(c, s).Some? {
      ChoiceMeaning(c, s);
    }
  }

  /** Safety of a run without stale reservations: buffered groups fit their window, the buffer never
      fills, and the trainer never meets a trajectory that is too old. */
  lemma SafeRun(c: Config, states: seq<State>, labels: seq<Label>, n: nat)
    requires c.Accepted() && IsRun(c, states, labels) && n <= |labels| && AllFresh(c, states, labels, n)
    ensures states[n].buffer.Aligned() && Fits(c, states[n])
    ensures forall t :: multiset(states[n].log)[t] <= 1 && multiset(states[n].buffer.targets)[t] <= c.prompts
    ensures |states[n].buffer.targets| <= (c.maxAge + 1) * c.prompts <= c.BufferSize()
    ensures forall i :: Enabled(c, states[n], PushGroup(i)) ==> |states[n].buffer.targets| < c.BufferSize()
    ensures |states[n].workers| <= c.InFlightLimit() && !states[n].trainer.Crashed?
  {
    var s := states[n];
    RunInv(c, states, labels, n);
    ReservedOnceIffFresh(c, states, labels, n);
    BufferFits(c, s);
    OccupancyBound(c, s);
    forall i | Enabled(c, s, PushGroup(i)) ensures |s.buffer.targets| < c.BufferSize() {
      PushNeverFull(c, s, i);
    }
    forall t ensures multiset(s.log)[t] <= 1 && multiset(s.buffer.targets)[t] <= c.prompts {
      if multiset(s.buffer.targets)[t] > 0 { PassedTargetsAreEmpty(c, s, t); }
    }
  }
}
