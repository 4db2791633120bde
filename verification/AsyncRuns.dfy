/** Runs of the asynchronous protocol that every configuration with a buffer has, with the limit on workers
    and all waits respected: a stale read that ends in the trainer's "older than min_valid_version" error, a
    target that is lost, and one that is passed over. */
module AsyncRuns {
  import opened Options
  import opened AsyncProtocol
  import opened AsyncStalls
  import opened ReplayBuffers
  import opened Arithmetic

  ghost predicate Reachable(c: Config, s: State) {
    Reaches(c, Init(c), s)
  }

  lemma ReachableStep(c: Config, s: State, l: Label) returns (s': State)
    requires Reachable(c, s) && Enabled(c, s, l) && Admitted(c, s, l)
    ensures Reachable(c, s') && s' == Apply(c, s, l)
  {
    s' := Step(c, Init(c), s, l);
  }

  lemma ReachableInv(c: Config, s: State)
    requires c.Accepted() && Reachable(c, s)
    ensures Inv(c, s)
  {
    var states, labels :| AdmittedPath(c, states, labels) && states[0] == Init(c) && states[|labels|] == s;
    RunInv(c, states, labels, |labels|);
  }

  lemma Begin(c: Config) returns (s: State)
    ensures Reachable(c, s) && s == Init(c).(mail := [])
  {
    ReachesItself(c, Init(c));
    s := ReachableStep(c, Init(c), Deliver);
  }

  // ----- a batch of the collector -----

  lemma StartAndRead(c: Config, s: State) returns (s': State)
    requires Reachable(c, s) && s.collector.Idle? && !s.paused
    requires FirstFree(Candidates(c, s.collectorVersion), s.buffer.last, s.generating).Some?
    ensures Reachable(c, s')
    ensures s' == s.(collector := Read(s.collectorVersion, s.buffer.last), batchVersion := s.collectorVersion)
  {
    var s1 := ReachableStep(c, s, PassGate);
    var s2 := ReachableStep(c, s1, StartBatch);
    s' := ReachableStep(c, s2, ReadLast);
  }

  /** Workers for prompts first, ..., n - 1 of one target. */
  function Spawned(version: int, target: int, first: nat, n: nat): (r: seq<Worker>)
    requires first <= n
  {
    seq(n - first, i requires 0 <= i < n - first => Worker(version, target, first + i, Generating))
  }

  lemma SpawnOne(c: Config, s: State) returns (s': State)
    requires Reachable(c, s) && s.collector.Looping? && s.collector.gate.Unchecked? && !s.paused
    requires s.collector.prompt < c.prompts && |s.workers| < c.InFlightLimit()
    ensures Reachable(c, s')
    ensures s' == s.(collector := s.collector.(prompt := s.collector.prompt + 1), workers := s.workers +
      [Worker(s.collector.version, s.collector.target, s.collector.prompt, Generating)])
  {
    hide Reachable;
    var s1 := ReachableStep(c, s, CheckPause);
    s' := ReachableStep(c, s1, Spawn);
  }

  lemma SpawnedNext(workers: seq<Worker>, v: int, t: int, p: nat, n: nat)
    requires p < n
    ensures workers + Spawned(v, t, p, n) == workers + [Worker(v, t, p, Generating)] + Spawned(v, t, p + 1, n)
  {
    assert Spawned(v, t, p, n) == [Worker(v, t, p, Generating)] + Spawned(v, t, p + 1, n);
  }

  lemma {:induction false} SpawnAll(c: Config, s: State) returns (s': State)
    requires Reachable(c, s) && s.collector.Looping? && s.collector.gate.Unchecked? && !s.paused
    requires s.collector.prompt <= c.prompts
    requires |s.workers| + c.prompts - s.collector.prompt <= c.InFlightLimit()
    ensures Reachable(c, s')
    ensures s' == s.(collector := Idle, workers := s.workers +
      Spawned(s.collector.version, s.collector.target, s.collector.prompt, c.prompts))
    decreases c.prompts - s.collector.prompt
  {
    var v, t, p := s.collector.version, s.collector.target, s.collector.prompt;
    if p == c.prompts {
      s' := ReachableStep(c, s, FinishBatch);
      assert s.workers + Spawned(v, t, p, p) == s.workers;
    } else {
      var s1 := SpawnOne(c, s);
      s' := SpawnAll(c, s1);
      SpawnedNext(s.workers, v, t, p, c.prompts);
    }
  }

  /** The collector reserves target t and starts a worker for every prompt. */
  lemma OneBatch(c: Config, s: State, t: int) returns (s': State)
    requires Reachable(c, s) && s.collector.Read? && !s.paused && Choice(c, s) == Some(t)
    requires |s.workers| + c.prompts <= c.InFlightLimit()
    ensures Reachable(c, s')
    ensures s' == s.(generating := s.generating + {t}, log := s.log + [t], collector := Idle,
      workers := s.workers + Spawned(s.collector.version, t, 0, c.prompts))
  {
    var s1 := ReachableStep(c, s, Reserve);
    s' := SpawnAll(c, s1);
  }

  /** At the first version some target is left until all of its candidates are pushed or in progress. */
  lemma SomeIsFree(c: Config, last: int, generating: set<int>)
    requires last < c.initial + c.maxAge && (c.initial + c.maxAge) !in generating
    ensures FirstFree(Candidates(c, c.initial), last, generating).Some?
  {
    var cs := Candidates(c, c.initial);
    CandidatesRange(c, c.initial);
    FirstFreeMeaning(cs, last, generating);
    assert cs[c.maxAge] == c.initial + c.maxAge;
  }

  /** A batch fits into the limit for workers. */
  lemma RoomForWorkers(c: Config)
    requires c.Accepted()
    ensures c.prompts <= c.InFlightLimit()
  {
    AcceptedBounds(c);
    SmallerQuotient(1, c.maxAge, c.prompts);
  }

  /** A collector at the first version takes the target that follows the largest one it has seen. */
  lemma NextIsFree(c: Config, s: State)
    requires s.collector.Read? && s.collector.version == c.initial && s.generating == {}
    requires s.collector.seen < c.initial + c.maxAge
    ensures Choice(c, s) == Some(Max(c.initial, s.collector.seen + 1))
  {
    var cs, seen := Candidates(c, c.initial), s.collector.seen;
    var next := Max(c.initial, seen + 1);
    CandidatesRange(c, c.initial);
    FirstFreeMeaning(cs, seen, {});
    assert cs[next - c.initial] == next;
    var free := FirstFree(cs, seen, {});
    assert free.Some? && free.value in cs && free.value > seen;
    assert next in cs && !(next < free.value);
  }

  // ----- workers that push -----

  /** All workers are generating groups of target t with version v. */
  ghost predicate Busy(workers: seq<Worker>, v: int, t: int) {
    forall i :: 0 <= i < |workers| ==>
      workers[i].stage.Generating? && workers[i].version == v && workers[i].target == t
  }

  ghost predicate AllOf(b: Buffer<Group>, v: int) {
    b.Aligned() && forall i :: 0 <= i < |b.versions| ==> b.versions[i] == v
  }

  /** The first worker pushes its group, gives up the reservation and ends. */
  lemma OnePush(c: Config, s: State, v: int, t: int) returns (s': State)
    requires Reachable(c, s) && s.workers != [] && Busy(s.workers, v, t) && AllOf(s.buffer, v)
    requires |s.buffer.targets| < c.BufferSize()
    ensures Reachable(c, s')
    ensures s' == s.(buffer := s'.buffer, generating := s.generating - {t}, workers := s.workers[1..])
    ensures AllOf(s'.buffer, v) && |s'.buffer.targets| == |s.buffer.targets| + 1
    ensures s'.buffer.last == Max(s.buffer.last, t)
  {
    hide Reachable;
    PushEffect(s.buffer, c.BufferSize(), Group(t, s.workers[0].prompt), v, t);
    var s1 := ReachableStep(c, s, PushGroup(0));
    s' := Leave(c, s1, t);
  }

  /** A worker whose group is in the buffer gives up the reservation and ends. */
  lemma Leave(c: Config, s: State, t: int) returns (s': State)
    requires Reachable(c, s) && s.workers != [] && s.workers[0].stage.Buffered? && s.workers[0].target == t
    ensures Reachable(c, s')
    ensures s' == s.(generating := s.generating - {t}, workers := s.workers[1..])
  {
    var s1 := s;
    if s.workers[0].prompt == 0 {
      s1 := ReachableStep(c, s, Release(0));
    }
    s' := ReachableStep(c, s1, Detach(0));
    assert s1.workers[1..] == s.workers[1..] && s'.workers == s1.workers[..0] + s1.workers[1..];
  }

  lemma {:induction false} PushAll(c: Config, s: State, v: int, t: int) returns (s': State)
    requires Reachable(c, s) && s.workers != [] && Busy(s.workers, v, t) && AllOf(s.buffer, v)
    requires |s.buffer.targets| + |s.workers| <= c.BufferSize()
    ensures Reachable(c, s')
    ensures s' == s.(buffer := s'.buffer, generating := s.generating - {t}, workers := [])
    ensures AllOf(s'.buffer, v) && |s'.buffer.targets| == |s.buffer.targets| + |s.workers|
    ensures s'.buffer.last == Max(s.buffer.last, t)
    decreases |s.workers|
  {
    s' := OnePush(c, s, v, t);
    if |s.workers| == 1 {
    } else {
      s' := PushAll(c, s', v, t);
    }
  }

  // ----- between two batches -----

  /** Nothing is in progress, every buffered group has the first version, and the targets from the
      first one to `top` are reserved: the first one `times` times, every other one once. */
  ghost predicate Calm(c: Config, s: State, times: nat, top: int) {
    && Reachable(c, s) && s.collector.Idle? && s.workers == [] && s.generating == {}
    && s.mail == [] && !s.paused && AllOf(s.buffer, c.initial) && s.buffer.last == top
    && forall t :: multiset(s.log)[t] == if t == c.initial then times else if c.initial < t <= top then 1 else 0
  }

  /** Every reserved group that is not consumed is in the buffer. */
  lemma CalmCount(c: Config, s: State, times: nat, top: int, t: int)
    requires c.Accepted() && Calm(c, s, times, top)
    ensures multiset(s.buffer.targets)[t] == c.prompts * multiset(s.log)[t] - Consumed(c, s, t)
  {
    ReachableInv(c, s);
    assert Accounted(c, s, t);
  }

  /** The trainer is served while its version is within the window of the first version. */
  lemma Serve(c: Config, s: State, times: nat, top: int) returns (s': State)
    requires c.Accepted() && Calm(c, s, times, top) && times > 0 && s.trainer.Sampling?
    requires c.initial <= s.w <= top && s.w <= c.initial + c.maxAge
    ensures Calm(c, s', times, top) && s' == s.(buffer := s'.buffer, trainer := Training)
    ensures |s'.buffer.targets| == |s.buffer.targets| - c.prompts
  {
    hide Sample, Reachable;
    AcceptedBounds(c);
    CalmCount(c, s, times, top, s.w);
    assert multiset(s.log)[s.w] >= 1;
    SmallerQuotient(1, multiset(s.log)[s.w], c.prompts);
    OldIsServed(s.buffer, c.prompts, s.w, c.maxAge, c.initial);
    s' := ReachableStep(c, s, TrainerSample);
  }

  /** Of groups of one version in the window, enough that aim at the step are served. */
  lemma OldIsServed(b: Buffer<Group>, n: nat, w: int, maxAge: nat, v: nat)
    requires AllOf(b, v) && n > 0 && v <= w <= v + maxAge && multiset(b.targets)[w] >= n
    ensures var (r, after) := Sample(b, n, w, maxAge);
      r.Sampled? && AllOf(after, v) && after.last == b.last && |after.targets| == |b.targets| - n
  {
    hide Sample;
    ServedIffEnough(b, n, w, maxAge);
    SampleEffect(b, n, w, maxAge);
    var after := Sample(b, n, w, maxAge).1;
    forall i | 0 <= i < |after.versions| ensures after.versions[i] == v {
      var j := SampleAddsNothing(b, n, w, maxAge, i);
    }
  }

  /** The trainer refits, and the collector receives both messages. */
  lemma NextStep(c: Config, s: State, times: nat, top: int) returns (s': State)
    requires Calm(c, s, times, top) && s.trainer.Training?
    ensures Calm(c, s', times, top) && s' == s.(trainer := Sampling, w := s.w + 1, collectorVersion := s.w + 1)
  {
    hide Reachable, AllOf;
    var s1 := ReachableStep(c, s, PrepareRefit);
    var s2 := ReachableStep(c, s1, Refit);
    assert s2.mail == [SetVersion(s.w + 1), Resume];
    var s3 := ReachableStep(c, s2, Deliver);
    assert s3.mail == [Resume];
    s' := ReachableStep(c, s3, Deliver);
    assert s'.mail == [];
  }

  /** The collector, still at the first version, reserves the next target and all its groups are pushed. */
  lemma NextBatch(c: Config, s: State, times: nat, top: int) returns (s': State)
    requires c.Accepted() && Calm(c, s, times, top) && s.collectorVersion == c.initial
    requires c.initial <= top < c.initial + c.maxAge && |s.buffer.targets| + c.prompts <= c.BufferSize()
    ensures Calm(c, s', times, top + 1) && s'.collectorVersion == c.initial && s'.trainer == s.trainer && s'.w == s.w
    ensures |s'.buffer.targets| == |s.buffer.targets| + c.prompts
  {
    hide FirstFree, Candidates, Reachable;
    AcceptedBounds(c);
    SomeIsFree(c, s.buffer.last, {});
    RoomForWorkers(c);
    var s1 := StartAndRead(c, s);
    NextIsFree(c, s1);
    var s2 := OneBatch(c, s1, top + 1);
    s' := PushAll(c, s2, c.initial, top + 1);
  }

  lemma {:induction false} AllBatches(c: Config, s: State, times: nat, top: int) returns (s': State)
    requires c.Accepted() && Calm(c, s, times, top) && s.collectorVersion == c.initial
    requires c.initial <= top <= c.initial + c.maxAge && |s.buffer.targets| == (top - c.initial + 1) * c.prompts
    ensures Calm(c, s', times, c.initial + c.maxAge) && s'.trainer == s.trainer && s'.w == s.w
    decreases c.initial + c.maxAge - top
  {
    hide Reachable, AllOf;
    if top == c.initial + c.maxAge {
      s' := s;
    } else {
      RoomForNext(c, top - c.initial);
      var s1 := NextBatch(c, s, times, top);
      s' := AllBatches(c, s1, times, top + 1);
    }
  }

  lemma RoomForNext(c: Config, k: nat)
    requires c.Accepted() && k < c.maxAge
    ensures (k + 1) * c.prompts + c.prompts == (k + 2) * c.prompts <= c.BufferSize()
  {
    AcceptedBounds(c);
    SmallerQuotient(k + 2, 2 * c.maxAge, c.prompts);
    TwiceTimes(c.prompts, c.maxAge);
    OneMore(k + 1, c.prompts);
  }

  lemma TwiceTimes(p: nat, a: nat)
    ensures p * a * 2 == 2 * a * p
  {
  }

  // ----- a stale read that ends in an error -----

  /** The collector reads the largest pushed target, the workers then push the first target and give up
      its reservation, and the collector reserves the first target again on what it read before. */
  lemma StaleReservation(c: Config) returns (s: State)
    requires c.Accepted()
    ensures Calm(c, s, 2, c.initial) && s.trainer.Sampling? && s.w == s.collectorVersion == c.initial
    ensures |s.buffer.targets| == 2 * c.prompts
  {
    AcceptedBounds(c);
    RoomForNext(c, 0);
    var s1 := FirstWorkers(c);
    SomeIsFree(c, -1, {c.initial});
    RoomForWorkers(c);
    var s2 := StartAndRead(c, s1);
    var s3 := PushAll(c, s2, c.initial, c.initial);
    NextIsFree(c, s3);
    var s4 := OneBatch(c, s3, c.initial);
    s := PushAll(c, s4, c.initial, c.initial);
  }

  lemma FirstWorkers(c: Config) returns (s: State)
    requires c.Accepted()
    ensures Reachable(c, s)
    ensures s == Init(c).(mail := [], generating := {c.initial}, log := [c.initial],
      workers := Spawned(c.initial, c.initial, 0, c.prompts))
  {
    AcceptedBounds(c);
    SomeIsFree(c, -1, {});
    RoomForWorkers(c);
    var s1 := Begin(c);
    var s2 := StartAndRead(c, s1);
    NextIsFree(c, s2);
    s := OneBatch(c, s2, c.initial);
    assert s.log == [c.initial] && s.generating == {c.initial};
    assert s.workers == Spawned(c.initial, c.initial, 0, c.prompts);
  }

  /** The trainer consumes one target after the other, up to the last one of the first version. */
  lemma {:induction false} TrainOn(c: Config, s: State, times: nat) returns (s': State)
    requires c.Accepted() && Calm(c, s, times, c.initial + c.maxAge) && times > 0
    requires s.trainer.Training? && c.initial <= s.w <= c.initial + c.maxAge
    ensures Calm(c, s', times, c.initial + c.maxAge)
    ensures s'.trainer.Training? && s'.w == c.initial + c.maxAge
    decreases c.initial + c.maxAge - s.w
  {
    hide Reachable, AllOf;
    if s.w == c.initial + c.maxAge {
      s' := s;
    } else {
      var s1 := NextStep(c, s, times, c.initial + c.maxAge);
      var s2 := Serve(c, s1, times, c.initial + c.maxAge);
      s' := TrainOn(c, s2, times);
    }
  }

  /** With a stale read the trainer can meet a trajectory older than its window, and raise, whatever the
      number of prompts and the maximum age. */
  lemma StaleReadCrashes(c: Config)
    requires c.Accepted()
    ensures exists s :: Reachable(c, s) && s.trainer.Crashed?
  {
    hide Reachable, GroupInv, AllOf;
    var s := StaleTraining(c);
    SurplusIsLeft(c, s, c.initial + c.maxAge);
    CrashesIffTooOld(c, s);
    var s' := ReachableStep(c, s, TrainerSample);
  }

  /** With the first target reserved twice, training goes on up to the last target of the first version. */
  lemma StaleTraining(c: Config) returns (s: State)
    requires c.Accepted()
    ensures Calm(c, s, 2, c.initial + c.maxAge) && s.trainer.Sampling? && s.w == c.initial + c.maxAge + 1
  {
    hide Reachable, AllOf;
    var s1 := StaleReservation(c);
    var s2 := Serve(c, s1, 2, c.initial);
    AcceptedBounds(c);
    var s3 := AllBatches(c, s2, 2, c.initial);
    var s4 := TrainOn(c, s3, 2);
    s := NextStep(c, s4, 2, c.initial + c.maxAge);
  }

  /** Of a target that was reserved twice, one group per prompt is never consumed. */
  lemma SurplusIsLeft(c: Config, s: State, top: int)
    requires c.Accepted() && Calm(c, s, 2, top)
    ensures s.buffer.versions != [] && s.buffer.versions[0] == c.initial
    ensures GroupInv(c, s)
  {
    AcceptedBounds(c);
    ReachableInv(c, s);
    CalmCount(c, s, 2, top, c.initial);
    assert c.initial in multiset(s.buffer.targets);
  }

  // ----- targets that are lost and passed over -----

  /** The first target is trained on before the second one is reserved. */
  lemma SecondTargetIsLate(c: Config) returns (s: State)
    requires c.Accepted()
    ensures Calm(c, s, 1, c.initial) && s.trainer.Sampling? && s.w == s.collectorVersion == c.initial + 1
    ensures s.batchVersion == c.initial
  {
    AcceptedBounds(c);
    RoomForNext(c, 0);
    var s1 := FirstWorkers(c);
    var s2 := PushAll(c, s1, c.initial, c.initial);
    var s3 := Serve(c, s2, 1, c.initial);
    s := NextStep(c, s3, 1, c.initial);
  }

  /** Training can stall before any target is passed over. */
  lemma TargetCanBeLost(c: Config)
    requires c.Accepted()
    ensures exists s :: Reachable(c, s) && Lost(c, s, c.initial + 1) && s.w == c.initial + 1 && NonePassed(c, s)
  {
    var s := SecondTargetIsLate(c);
    ReachableInv(c, s);
    assert multiset(s.log)[c.initial + 1] == 0 && multiset(s.log)[c.initial] == 1;
  }

  /** The collector can start a batch at the second version without ever having reserved that target. */
  lemma TargetCanBePassedOver(c: Config)
    requires c.Accepted()
    ensures exists s :: Reachable(c, s) && PassedOver(c, s, c.initial + 1) && s.w == c.initial + 1
  {
    var s := SecondTargetIsLate(c);
    AcceptedBounds(c);
    assert multiset(s.log)[c.initial + 1] == 0;
    var cs := Candidates(c, c.initial + 1);
    CandidatesRange(c, c.initial + 1);
    FirstFreeMeaning(cs, s.buffer.last, s.generating);
    assert cs[0] == c.initial + 2;
    var s1 := ReachableStep(c, s, PassGate);
    var s2 := ReachableStep(c, s1, StartBatch);
  }
}
