/** Over whole runs: which version a worker generates with, where buffered groups come from, and which targets are
    in progress. */
module AsyncVersions {
  import opened Options
  import opened AsyncProtocol
  import opened AsyncStalls
  import opened ReplayBuffers

  // ----- batches that are held back by a refit -----

  /** The worker that is started next will have at least version v. */
  ghost predicate NextIsFresh(s: State, v: int) {
    s.collector.Looping? &&
    match s.collector.gate
    case Held => v <= Upcoming(s)
    case Woken => v <= s.collectorVersion
    case Open => v <= s.collector.version
    case Unchecked => false
  }

  lemma StaysFresh(c: Config, s: State, l: Label, v: int)
    requires VersionInv(c, s) && Enabled(c, s, l) && NextIsFresh(s, v) && !l.Spawn?
    ensures NextIsFresh(Apply(c, s, l), v)
  {
    hide Sample, Push, Choice;
  }

  lemma HoldingIsFresh(c: Config, s: State)
    requires Enabled(c, s, CheckPause) && s.paused
    ensures NextIsFresh(Apply(c, s, CheckPause), Upcoming(s))
  {
  }

  lemma {:induction false} FreshUntilSpawn(
      c: Config, states: seq<State>, labels: seq<Label>, h: nat, j: nat, v: int)
    requires c.Accepted() && IsRun(c, states, labels) && h <= j <= |labels|
    requires NextIsFresh(states[h], v) && forall k :: h <= k < j ==> !labels[k].Spawn?
    ensures NextIsFresh(states[j], v)
    decreases j - h
  {
    if h == j {
    } else {
      FreshUntilSpawn(c, states, labels, h, j - 1, v);
      RunInv(c, states, labels, j - 1);
      StaysFresh(c, states[j - 1], labels[j - 1], v);
    }
  }

  /** The worker that a step starts. */
  function Newest(s: State): Worker
    requires s.workers != []
  {
    s.workers[|s.workers| - 1]
  }

  /** Starting a worker adds it to those in flight. */
  ghost predicate Starts(states: seq<State>, labels: seq<Label>, j: nat, k: Worker)
    requires j < |labels| && |states| == |labels| + 1
  {
    labels[j].Spawn? && states[j + 1].workers == states[j].workers + [k]
  }

  /** A batch that finds the collector paused, or is waiting for the end of a refit, goes on with the version that
      the refit ends with, or a later one: newer than the version that the refit replaces. */
  lemma HeldBatchIsRefreshed(c: Config, states: seq<State>, labels: seq<Label>, h: nat, j: nat)
    requires c.Accepted() && IsRun(c, states, labels) && h <= j < |labels|
    requires states[h].collector.Looping?
    requires states[h].collector.gate.Held? || (labels[h].CheckPause? && states[h].paused)
    requires labels[j].Spawn? && forall k :: h <= k < j ==> !labels[k].Spawn?
    ensures exists k :: Starts(states, labels, j, k) && states[h].w <= k.version <= states[j].w &&
              (states[h].trainer.Refitting? ==> states[h].w < k.version)
  {
    var v := Upcoming(states[h]);
    RunInv(c, states, labels, j);
    if states[h].collector.gate.Held? {
      FreshUntilSpawn(c, states, labels, h, j, v);
    } else {
      HoldingIsFresh(c, states[h]);
      FreshUntilSpawn(c, states, labels, h + 1, j, v);
    }
    var s := states[j];
    assert Starts(states, labels, j, Worker(s.collector.version, s.collector.target, s.collector.prompt, Generating));
  }

  // ----- the version of every worker -----

  /** The collector looks up the version: at the start of a batch, and after being held. */
  predicate LooksUp(l: Label) {
    l.StartBatch? || l.Refresh?
  }

  /** The version that the batch under way goes by. */
  ghost predicate GoesBy(s: State, v: int) {
    match s.collector
    case Started(g) => g == v
    case Read(g, _) => g == v
    case Looping(g, _, _, _) => g == v
    case _ => true
  }

  lemma LookUpDecides(c: Config, s: State, l: Label)
    requires Enabled(c, s, l) && LooksUp(l)
    ensures GoesBy(Apply(c, s, l), s.collectorVersion)
  {
  }

  lemma VersionStays(c: Config, s: State, l: Label, v: int)
    requires Enabled(c, s, l) && !LooksUp(l) && GoesBy(s, v)
    ensures GoesBy(Apply(c, s, l), v)
  {
    hide Sample, Push, Choice;
  }

  lemma {:induction false} GoesByLastLookUp(c: Config, states: seq<State>, labels: seq<Label>, i: nat, j: nat)
    requires IsRun(c, states, labels) && i < j <= |labels|
    requires LooksUp(labels[i]) && forall k :: i < k < j ==> !LooksUp(labels[k])
    ensures GoesBy(states[j], states[i].collectorVersion)
    decreases j - i
  {
    if j == i + 1 {
      LookUpDecides(c, states[i], labels[i]);
    } else {
      GoesByLastLookUp(c, states, labels, i, j - 1);
      VersionStays(c, states[j - 1], labels[j - 1], states[i].collectorVersion);
    }
  }

  /** Every worker generates with the version that the collector looked up last. */
  lemma WorkerVersion(c: Config, states: seq<State>, labels: seq<Label>, i: nat, j: nat)
    requires IsRun(c, states, labels) && i < j < |labels|
    requires LooksUp(labels[i]) && forall k :: i < k < j ==> !LooksUp(labels[k])
    requires labels[j].Spawn?
    ensures exists k :: Starts(states, labels, j, k) && k.version == states[i].collectorVersion
  {
    GoesByLastLookUp(c, states, labels, i, j);
    var s := states[j];
    assert Starts(states, labels, j, Worker(s.collector.version, s.collector.target, s.collector.prompt, Generating));
  }

  // ----- what a reservation goes by -----

  /** From the i-th step up to the j-th, the collector starts no batch, reads nothing and tries no reservation. */
  ghost predicate Quiet(labels: seq<Label>, i: nat, j: nat)
    requires j <= |labels|
  {
    forall x :: i <= x < j ==> !labels[x].StartBatch? && !labels[x].ReadLast? && !labels[x].Reserve?
  }

  /** The batch under way before step n was started in step b, with this version, and has read nothing yet. */
  ghost predicate Began(states: seq<State>, labels: seq<Label>, b: nat, n: nat, version: int)
    requires n <= |labels| && |states| == |labels| + 1
  {
    b < n && labels[b].StartBatch? && states[b].collectorVersion == version && Quiet(labels, b + 1, n)
  }

  /** It was started in step b, and has read the largest target in step k. */
  ghost predicate HasRead(states: seq<State>, labels: seq<Label>, b: nat, k: nat, n: nat, version: int, last: int)
    requires n <= |labels| && |states| == |labels| + 1
  {
    && k < n && Began(states, labels, b, k, version)
    && labels[k].ReadLast? && states[k].buffer.last == last && Quiet(labels, k + 1, n)
  }

  ghost predicate GoesByOwnRead(states: seq<State>, labels: seq<Label>, n: nat)
    requires n <= |labels| && |states| == |labels| + 1
  {
    match states[n].collector
    case Started(version) => exists b: nat :: Began(states, labels, b, n, version)
    case Read(version, last) => exists b: nat, k: nat :: HasRead(states, labels, b, k, n, version, last)
    case _ => true
  }

  lemma {:induction false} OwnRead(c: Config, states: seq<State>, labels: seq<Label>, n: nat)
    requires IsRun(c, states, labels) && n <= |labels|
    ensures GoesByOwnRead(states, labels, n)
  {
    if n == 0 {
    } else {
      OwnRead(c, states, labels, n - 1);
      OwnReadNext(c, states, labels, n - 1);
    }
  }

  lemma OwnReadNext(c: Config, states: seq<State>, labels: seq<Label>, n: nat)
    requires |states| == |labels| + 1 && n < |labels| && GoesByOwnRead(states, labels, n)
    requires Enabled(c, states[n], labels[n]) && states[n + 1] == Apply(c, states[n], labels[n])
    ensures GoesByOwnRead(states, labels, n + 1)
  {
    hide Sample, Push, Choice;
    var s := states[n];
    if labels[n].StartBatch? {
      assert Began(states, labels, n, n + 1, s.collectorVersion);
    } else if labels[n].ReadLast? {
      var b: nat :| Began(states, labels, b, n, s.collector.version);
      assert HasRead(states, labels, b, n, n + 1, s.collector.version, s.buffer.last);
    } else if !labels[n].Reserve? {
      CollectorKept(c, s, labels[n]);
      QuietNext(states, labels, n);
    }
  }

  lemma CollectorKept(c: Config, s: State, l: Label)
    requires Enabled(c, s, l) && !l.StartBatch? && !l.ReadLast? && !l.Reserve?
    ensures var after := Apply(c, s, l).collector;
      after.Started? || after.Read? ==> after == s.collector
  {
    hide Sample, Push;
  }

  lemma QuietNext(states: seq<State>, labels: seq<Label>, n: nat)
    requires |states| == |labels| + 1 && n < |labels| && Quiet(labels, n, n + 1)
    ensures forall b: nat, v | Began(states, labels, b, n, v) :: Began(states, labels, b, n + 1, v)
    ensures forall b: nat, k: nat, v, last | HasRead(states, labels, b, k, n, v, last) ::
              HasRead(states, labels, b, k, n + 1, v, last)
  {
  }

  /** Every attempt to reserve a target belongs to a batch of its own, and goes by the version that was current when
      that batch started and by the largest target read once since. */
  lemma ReservesByOwnRead(c: Config, states: seq<State>, labels: seq<Label>, j: nat)
    requires IsRun(c, states, labels) && j < |labels| && labels[j].Reserve?
    ensures exists b: nat, k: nat :: b < k < j && labels[b].StartBatch? && labels[k].ReadLast? &&
              Quiet(labels, b + 1, k) && Quiet(labels, k + 1, j) &&
              states[j].collector == Read(states[b].collectorVersion, states[k].buffer.last)
  {
    OwnRead(c, states, labels, j);
    var version, last := states[j].collector.version, states[j].collector.seen;
    var b: nat, k: nat :| HasRead(states, labels, b, k, j, version, last);
    assert Quiet(labels, b + 1, k) && Quiet(labels, k + 1, j);
  }

  // ----- where groups come from -----

  /** Among the first n steps, one started a worker with this version, target and prompt. */
  ghost predicate CameFrom(states: seq<State>, labels: seq<Label>, n: nat, version: int, target: int, prompt: nat)
    requires n <= |labels| && |states| == |labels| + 1
  {
    exists j :: 0 <= j < n && Starts(states, labels, j, Worker(version, target, prompt, Generating))
  }

  ghost predicate WorkersCameFrom(states: seq<State>, labels: seq<Label>, n: nat, workers: seq<Worker>)
    requires n <= |labels| && |states| == |labels| + 1
  {
    forall i :: 0 <= i < |workers| ==>
      CameFrom(states, labels, n, workers[i].version, workers[i].target, workers[i].prompt)
  }

  ghost predicate GroupCameFrom(states: seq<State>, labels: seq<Label>, n: nat, b: Buffer<Group>, i: nat)
    requires n <= |labels| && |states| == |labels| + 1 && b.Aligned() && i < |b.targets|
  {
    b.trajectories[i].target == b.targets[i] &&
    CameFrom(states, labels, n, b.versions[i], b.targets[i], b.trajectories[i].prompt)
  }

  ghost predicate GroupsCameFrom(states: seq<State>, labels: seq<Label>, n: nat, b: Buffer<Group>)
    requires n <= |labels| && |states| == |labels| + 1
  {
    b.Aligned() && forall i :: 0 <= i < |b.targets| ==> GroupCameFrom(states, labels, n, b, i)
  }

  /** Every buffered group was generated by a worker of the run, for the target and with the version under which it
      is buffered. */
  lemma {:induction false} GroupsComeFromWorkers(c: Config, states: seq<State>, labels: seq<Label>, n: nat)
    requires c.Accepted() && IsRun(c, states, labels) && n <= |labels|
    ensures WorkersCameFrom(states, labels, n, states[n].workers)
    ensures GroupsCameFrom(states, labels, n, states[n].buffer)
  {
    if n == 0 {
    } else {
      GroupsComeFromWorkers(c, states, labels, n - 1);
      RunInv(c, states, labels, n - 1);
      RunInv(c, states, labels, n);
      forall i | 0 <= i < |states[n].workers|
        ensures CameFrom(states, labels, n, states[n].workers[i].version, states[n].workers[i].target,
                  states[n].workers[i].prompt)
      {
        WorkerCameFrom(c, states, labels, n, i);
      }
      forall i | 0 <= i < |states[n].buffer.targets| ensures GroupCameFrom(states, labels, n, states[n].buffer, i) {
        NextGroupCameFrom(c, states, labels, n, i);
      }
    }
  }

  lemma Later(states: seq<State>, labels: seq<Label>, n: nat, version: int, target: int, prompt: nat)
    requires 1 <= n <= |labels| && |states| == |labels| + 1
    requires CameFrom(states, labels, n - 1, version, target, prompt)
    ensures CameFrom(states, labels, n, version, target, prompt)
  {
  }

  lemma WorkerCameFrom(c: Config, states: seq<State>, labels: seq<Label>, n: nat, i: nat)
    requires IsRun(c, states, labels) && 1 <= n <= |labels| && i < |states[n].workers|
    requires WorkersCameFrom(states, labels, n - 1, states[n - 1].workers)
    ensures var k := states[n].workers[i]; CameFrom(states, labels, n, k.version, k.target, k.prompt)
  {
    hide CameFrom, Sample, Choice;
    var s, l, k := states[n - 1], labels[n - 1], states[n].workers[i];
    if l.Spawn? && i == |s.workers| {
      NewestCameFrom(c, states, labels, n);
    } else {
      var m := SameWorker(c, s, l, i);
      assert CameFrom(states, labels, n - 1, s.workers[m].version, s.workers[m].target, s.workers[m].prompt);
      Later(states, labels, n, k.version, k.target, k.prompt);
    }
  }

  lemma NewestCameFrom(c: Config, states: seq<State>, labels: seq<Label>, n: nat)
    requires IsRun(c, states, labels) && 1 <= n <= |labels| && labels[n - 1].Spawn?
    ensures states[n].workers != []
    ensures var k := Newest(states[n]); CameFrom(states, labels, n, k.version, k.target, k.prompt)
  {
    assert Starts(states, labels, n - 1, Newest(states[n]));
  }

  /** Every worker in flight after a step that starts none was there before. */
  lemma SameWorker(c: Config, s: State, l: Label, i: nat) returns (m: nat)
    requires Enabled(c, s, l) && i < |Apply(c, s, l).workers| && (l.Spawn? ==> i < |s.workers|)
    ensures m < |s.workers|
    ensures var k, k' := s.workers[m], Apply(c, s, l).workers[i];
      k.version == k'.version && k.target == k'.target && k.prompt == k'.prompt
  {
    hide Sample, Choice;
    m := if l.Detach? && i >= l.i then i + 1 else i;
  }

  lemma NextGroupCameFrom(c: Config, states: seq<State>, labels: seq<Label>, n: nat, i: nat)
    requires IsRun(c, states, labels) && 1 <= n <= |labels|
    requires states[n].buffer.Aligned() && i < |states[n].buffer.targets|
    requires WorkersCameFrom(states, labels, n - 1, states[n - 1].workers)
    requires GroupsCameFrom(states, labels, n - 1, states[n - 1].buffer)
    ensures GroupCameFrom(states, labels, n, states[n].buffer, i)
  {
    hide CameFrom;
    var s, l, after := states[n - 1], labels[n - 1], states[n].buffer;
    if l.PushGroup? && i == |s.buffer.targets| {
      PushedGroup(c, s, l.i);
      var k := s.workers[l.i];
      assert CameFrom(states, labels, n - 1, k.version, k.target, k.prompt);
      Later(states, labels, n, k.version, k.target, k.prompt);
    } else {
      var e := SameGroup(c, s, l, i);
      assert GroupCameFrom(states, labels, n - 1, s.buffer, e);
      Later(states, labels, n, after.versions[i], after.targets[i], after.trajectories[i].prompt);
    }
  }

  /** A group that is pushed is buffered under the version and the target of its worker. */
  lemma PushedGroup(c: Config, s: State, i: nat)
    requires s.buffer.Aligned() && Enabled(c, s, PushGroup(i))
    ensures var b, k, n := Apply(c, s, PushGroup(i)).buffer, s.workers[i], |s.buffer.targets|;
      b.Aligned() && (|b.targets| > n ==>
        b.versions[n] == k.version && b.targets[n] == k.target && b.trajectories[n] == Group(k.target, k.prompt))
  {
    var k := s.workers[i];
    PushEffect(s.buffer, c.BufferSize(), Group(k.target, k.prompt), k.version, k.target);
  }

  /** Every other group in the buffer was there before. */
  lemma SameGroup(c: Config, s: State, l: Label, i: nat) returns (e: nat)
    requires s.buffer.Aligned() && Enabled(c, s, l)
    requires Apply(c, s, l).buffer.Aligned() && i < |Apply(c, s, l).buffer.targets|
    requires l.PushGroup? ==> i < |s.buffer.targets|
    ensures SameEntry(Apply(c, s, l).buffer, i, s.buffer, e)
  {
    e := i;
    match l {
      case PushGroup(m) =>
        var k := s.workers[m];
        PushEffect(s.buffer, c.BufferSize(), Group(k.target, k.prompt), k.version, k.target);
      case TrainerSample =>
        SampledBuffer(c, s);
        if Sample(s.buffer, c.prompts, s.w, c.maxAge).0.Sampled? {
          e := SampleAddsNothing(s.buffer, c.prompts, s.w, c.maxAge, i);
        }
      case _ =>
    }
  }

  // ----- which targets are in progress -----

  /** The step reserves t. */
  predicate Takes(c: Config, s: State, l: Label, t: int) {
    l.Reserve? && s.collector.Read? && Choice(c, s) == Some(t)
  }

  /** The step gives the reservation of t up: the group of prompt 0 is in the buffer, or a worker ends. */
  predicate GivesUp(s: State, l: Label, t: int) {
    match l
    case Release(i) => i < |s.workers| && s.workers[i].target == t
    case Detach(i) => i < |s.workers| && s.workers[i].target == t
    case _ => false
  }

  /** Apart from workers that end, only the worker of the first prompt gives a reservation up, with its group in the
      buffer. */
  lemma FirstPromptReleases(c: Config, states: seq<State>, labels: seq<Label>, n: nat, i: nat)
    requires c.Accepted() && IsRun(c, states, labels) && n < |labels| && labels[n] == Release(i)
    ensures i < |states[n].workers| && states[n].workers[i].prompt == 0
    ensures states[n].workers[i].target <= states[n].buffer.last
  {
    RunInv(c, states, labels, n);
  }

  lemma InProgressStep(c: Config, s: State, l: Label, t: int)
    requires Enabled(c, s, l)
    ensures t in Apply(c, s, l).generating <==> Takes(c, s, l, t) || (t in s.generating && !GivesUp(s, l, t))
  {
    hide Sample, Push;
  }

  /** Among the first n steps, one reserved t, and none since has given the reservation up. */
  ghost predicate Reserved(c: Config, states: seq<State>, labels: seq<Label>, n: nat, t: int)
    requires n <= |labels| && |states| == |labels| + 1
  {
    exists i :: 0 <= i < n && Takes(c, states[i], labels[i], t) &&
      forall k :: i < k < n ==> !GivesUp(states[k], labels[k], t)
  }

  /** In any run, a target is in progress exactly from its reservation to the first time it is given up. */
  lemma {:induction false} InProgressIffReserved(
      c: Config, states: seq<State>, labels: seq<Label>, n: nat, t: int)
    requires IsRun(c, states, labels) && n <= |labels|
    ensures t in states[n].generating <==> Reserved(c, states, labels, n, t)
  {
    if n == 0 {
    } else {
      hide Takes, GivesUp, Reserved;
      var s, l := states[n - 1], labels[n - 1];
      InProgressIffReserved(c, states, labels, n - 1, t);
      InProgressStep(c, s, l, t);
      if Takes(c, s, l, t) {
        ReservedNow(c, states, labels, n, t);
      } else if Reserved(c, states, labels, n - 1, t) && !GivesUp(s, l, t) {
        ReservedStill(c, states, labels, n, t);
      } else if Reserved(c, states, labels, n, t) {
        ReservedBefore(c, states, labels, n, t);
      }
    }
  }

  lemma ReservedNow(c: Config, states: seq<State>, labels: seq<Label>, n: nat, t: int)
    requires 1 <= n <= |labels| && |states| == |labels| + 1 && Takes(c, states[n - 1], labels[n - 1], t)
    ensures Reserved(c, states, labels, n, t)
  {
  }

  lemma ReservedStill(c: Config, states: seq<State>, labels: seq<Label>, n: nat, t: int)
    requires 1 <= n <= |labels| && |states| == |labels| + 1
    requires Reserved(c, states, labels, n - 1, t) && !GivesUp(states[n - 1], labels[n - 1], t)
    ensures Reserved(c, states, labels, n, t)
  {
    hide Takes, GivesUp;
    var i :| 0 <= i < n - 1 && Takes(c, states[i], labels[i], t) &&
      forall k :: i < k < n - 1 ==> !GivesUp(states[k], labels[k], t);
    assert forall k :: i < k < n ==> !GivesUp(states[k], labels[k], t);
  }

  lemma ReservedBefore(c: Config, states: seq<State>, labels: seq<Label>, n: nat, t: int)
    requires 1 <= n <= |labels| && |states| == |labels| + 1
    requires Reserved(c, states, labels, n, t) && !Takes(c, states[n - 1], labels[n - 1], t)
    ensures Reserved(c, states, labels, n - 1, t) && !GivesUp(states[n - 1], labels[n - 1], t)
  {
    hide Takes, GivesUp;
    var i :| 0 <= i < n && Takes(c, states[i], labels[i], t) &&
      forall k :: i < k < n ==> !GivesUp(states[k], labels[k], t);
    assert i < n - 1;
  }
}
