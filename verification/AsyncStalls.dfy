/** When training stalls: targets that the collector passes over, targets that are lost, and the runs in
    which a target that is not lost is trained on. */
module AsyncStalls {
  import opened Options
  import opened AsyncProtocol
  import opened ReplayBuffers

  // ----- targets that are passed over -----

  /** The collector has started a batch at version t or later and never reserved t. */
  ghost predicate PassedOver(c: Config, s: State, t: int) {
    t !in s.log && t < Low(c, s.batchVersion)
  }

  /** A batch starts on time when every target that it can no longer take is reserved. */
  ghost predicate OnTime(c: Config, s: State, l: Label) {
    l.StartBatch? ==> forall t :: c.initial <= t < Low(c, s.collectorVersion) ==> t in s.log
  }

  lemma PassedOverKept(c: Config, s: State, l: Label, t: int)
    requires VersionInv(c, s) && Enabled(c, s, l) && PassedOver(c, s, t)
    ensures PassedOver(c, Apply(c, s, l), t)
  {
    if l.Reserve? && Choice(c, s).Some? {
      ChoiceMeaning(c, s);
    }
  }

  ghost predicate NonePassed(c: Config, s: State) {
    forall t :: c.initial <= t ==> !PassedOver(c, s, t)
  }

  lemma StepPassesNone(c: Config, s: State, l: Label)
    requires VersionInv(c, s) && Enabled(c, s, l)
    ensures NonePassed(c, Apply(c, s, l)) <==> NonePassed(c, s) && OnTime(c, s, l)
  {
    var s' := Apply(c, s, l);
    forall t | PassedOver(c, s, t) ensures PassedOver(c, s', t) {
      PassedOverKept(c, s, l, t);
    }
    if l.StartBatch? {
      assert forall t :: PassedOver(c, s', t) <==> t !in s.log && t < Low(c, s.collectorVersion);
    } else {
      assert forall t :: PassedOver(c, s', t) ==> PassedOver(c, s, t);
    }
  }

  /** In any run, no target is passed over exactly when every batch starts on time. */
  lemma {:induction false} NonePassedIffOnTime(c: Config, states: seq<State>, labels: seq<Label>, n: nat)
    requires c.Accepted() && IsRun(c, states, labels) && n <= |labels|
    ensures (forall t :: c.initial <= t ==> !PassedOver(c, states[n], t)) <==>
            (forall k :: 0 <= k < n ==> OnTime(c, states[k], labels[k]))
  {
    if n == 0 {
    } else {
      NonePassedIffOnTime(c, states, labels, n - 1);
      RunInv(c, states, labels, n - 1);
      StepPassesNone(c, states[n - 1], labels[n - 1]);
      assert NonePassed(c, states[n]) <==> NonePassed(c, states[n - 1]) && OnTime(c, states[n - 1], labels[n - 1]);
    }
  }

  // ----- targets that are lost -----

  /** The least version that a batch starts with which is yet to pass the pause. */
  function Upcoming(s: State): int {
    s.w + if s.trainer.Refitting? then 1 else 0
  }

  /** A batch that starts at version v takes t: a candidate before which no other is left. */
  ghost predicate InLine(c: Config, log: seq<int>, v: int, t: int) {
    Low(c, v) <= t <= v + c.maxAge && forall u :: Low(c, v) <= u < t ==> u in log
  }

  /** The batch that has passed the pause, but not reserved yet, can still take t. */
  ghost predicate StillInLine(c: Config, s: State, t: int) {
    match s.collector
    case Ready => InLine(c, s.log, s.collectorVersion, t)
    case Started(v) => InLine(c, s.log, v, t)
    case Read(_, _) => Choice(c, s) == Some(t)
    case _ => false
  }

  /** Neither a batch to come nor the one under way can reserve t. */
  ghost predicate Lost(c: Config, s: State, t: int) {
    t !in s.log && t < Low(c, Upcoming(s)) && !StillInLine(c, s, t)
  }

  /** A target that is passed over is lost; the converse does not hold. */
  lemma PassedOverIsLost(c: Config, s: State, t: int)
    requires VersionInv(c, s) && c.initial <= t && PassedOver(c, s, t)
    ensures Lost(c, s, t)
  {
    if s.collector.Read? && Choice(c, s).Some? {
      ChoiceMeaning(c, s);
    }
  }

  /** What reading the largest pushed target gives is the candidate that is in line. */
  lemma FreshChoice(c: Config, s: State, t: int)
    requires VersionInv(c, s) && LogInv(c, s) && s.collector.Read? && s.collector.seen == s.buffer.last
    requires c.initial <= t && t !in s.log
    ensures Choice(c, s) == Some(t) <==> InLine(c, s.log, s.collector.version, t)
  {
    var v := s.collector.version;
    if Choice(c, s) == Some(t) {
      ChoiceMeaning(c, s);
    } else if InLine(c, s.log, v, t) {
      CandidatesRange(c, v);
      FirstFreeMeaning(Candidates(c, v), s.collector.seen, s.generating);
      assert Candidates(c, v)[t - Low(c, v)] == t;
      assert t > s.buffer.last && t !in s.generating;
      ChoiceMeaning(c, s);
    }
  }

  lemma LostKept(c: Config, s: State, l: Label, t: int)
    requires Inv(c, s) && Enabled(c, s, l) && c.initial <= t && Lost(c, s, t)
    ensures Lost(c, Apply(c, s, l), t)
  {
    match l {
      case ReadLast => LostReadLast(c, s, t);
      case Reserve => LostReserve(c, s, t);
      case PushGroup(i) => LostPush(c, s, i, t);
      case Release(i) => LostLeave(c, s, l, i, t);
      case Detach(i) => LostLeave(c, s, l, i, t);
      case Deliver => LostDeliver(c, s, t);
      case TrainerSample => LostSample(c, s, t);
      case _ =>
    }
  }

  lemma LostReadLast(c: Config, s: State, t: int)
    requires Inv(c, s) && Enabled(c, s, ReadLast) && c.initial <= t && Lost(c, s, t)
    ensures Lost(c, Apply(c, s, ReadLast), t)
  {
    VersionInvKept(c, s, ReadLast);
    LogInvKept(c, s, ReadLast);
    FreshChoice(c, Apply(c, s, ReadLast), t);
  }

  lemma LostReserve(c: Config, s: State, t: int)
    requires Enabled(c, s, Reserve) && Lost(c, s, t)
    ensures Lost(c, Apply(c, s, Reserve), t)
  {
  }

  lemma LostPush(c: Config, s: State, i: nat, t: int)
    requires Enabled(c, s, PushGroup(i)) && Lost(c, s, t)
    ensures Lost(c, Apply(c, s, PushGroup(i)), t)
  {
  }

  lemma LostSample(c: Config, s: State, t: int)
    requires Enabled(c, s, TrainerSample) && Lost(c, s, t)
    ensures Lost(c, Apply(c, s, TrainerSample), t)
  {
  }

  /** The only version on its way is the trainer's, and at that version t is not a candidate. */
  lemma LostDeliver(c: Config, s: State, t: int)
    requires VersionInv(c, s) && Enabled(c, s, Deliver) && c.initial <= t && Lost(c, s, t)
    ensures Lost(c, Apply(c, s, Deliver), t)
  {
  }

  /** Giving up reservations can only put other targets before t. */
  lemma LostLeave(c: Config, s: State, l: Label, i: nat, t: int)
    requires Inv(c, s) && Enabled(c, s, l) && (l == Release(i) || l == Detach(i)) && Lost(c, s, t)
    ensures Lost(c, Apply(c, s, l), t)
  {
    if s.collector.Read? {
      var s' := Apply(c, s, l);
      FewerInProgress(Candidates(c, s.collector.version), s.collector.seen, s.generating, s'.generating, t);
    }
  }

  lemma {:induction false} FewerInProgress(cs: seq<int>, seen: int, before: set<int>, after: set<int>, t: int)
    requires after <= before && t !in before
    ensures FirstFree(cs, seen, after) == Some(t) ==> FirstFree(cs, seen, before) == Some(t)
  {
    if cs == [] {
    } else {
      FewerInProgress(cs[1..], seen, before, after, t);
    }
  }

  /** Training neither trains on a target that was never reserved nor gets beyond it. */
  lemma UnreservedBlocks(c: Config, s: State, t: int)
    requires c.Accepted() && Inv(c, s) && c.initial <= t && t !in s.log
    ensures s.w <= t && (s.w == t ==> !s.trainer.Training? && !s.trainer.Refitting?)
  {
    AcceptedBounds(c);
    assert Accounted(c, s, t);
    assert multiset(s.log)[t] == 0;
    assert c.prompts * 0 == 0;
  }

  /** A lost target stays lost, and training stalls at it for good. */
  lemma {:induction false} LostStalls(c: Config, states: seq<State>, labels: seq<Label>, i: nat, j: nat, t: int)
    requires c.Accepted() && IsPath(c, states, labels) && Inv(c, states[0]) && i <= j <= |labels|
    requires c.initial <= t && Lost(c, states[i], t)
    ensures Lost(c, states[j], t) && states[j].w <= t
    ensures states[j].w == t ==> !states[j].trainer.Training? && !states[j].trainer.Refitting?
    decreases j - i
  {
    if i == j {
    } else {
      LostStalls(c, states, labels, i, j - 1, t);
      NextLost(c, states, labels, j - 1, t);
    }
    PathInv(c, states, labels, j);
    UnreservedBlocks(c, states[j], t);
  }

  lemma NextLost(c: Config, states: seq<State>, labels: seq<Label>, k: nat, t: int)
    requires c.Accepted() && IsPath(c, states, labels) && Inv(c, states[0]) && k < |labels|
    requires c.initial <= t && Lost(c, states[k], t)
    ensures Lost(c, states[k + 1], t)
  {
    PathInv(c, states, labels, k);
    LostKept(c, states[k], labels[k], t);
  }

  /** In particular at a target that was passed over. */
  lemma PassedOverStalls(c: Config, states: seq<State>, labels: seq<Label>, i: nat, j: nat, t: int)
    requires c.Accepted() && IsRun(c, states, labels) && i <= j <= |labels|
    requires c.initial <= t && PassedOver(c, states[i], t)
    ensures states[j].w <= t
    ensures states[j].w == t ==> !states[j].trainer.Training? && !states[j].trainer.Refitting?
  {
    InitInv(c);
    RunInv(c, states, labels, i);
    PassedOverIsLost(c, states[i], t);
    LostStalls(c, states, labels, i, j, t);
  }

  // ----- what can still happen -----

  /** The waits that are not part of the transition system let this step through as well: some target is
      free when the collector passes the limit on generation, and no worker is left when a refit goes on. */
  predicate Admitted(c: Config, s: State, l: Label) {
    && (l.PassGate? ==> FirstFree(Candidates(c, s.collectorVersion), s.buffer.last, s.generating).Some?)
    && (l.Refit? ==> s.workers == [])
  }

  ghost predicate Reaches(c: Config, s: State, s': State) {
    exists states, labels :: AdmittedPath(c, states, labels) && states[0] == s && states[|labels|] == s'
  }

  ghost predicate AdmittedPath(c: Config, states: seq<State>, labels: seq<Label>) {
    IsPath(c, states, labels) && forall i :: 0 <= i < |labels| ==> Admitted(c, states[i], labels[i])
  }

  lemma ReachesItself(c: Config, s: State)
    ensures Reaches(c, s, s)
  {
    var labels: seq<Label> := [];
    assert AdmittedPath(c, [s], labels) && [s][|labels|] == s;
  }

  lemma Step(c: Config, start: State, s: State, l: Label) returns (s': State)
    requires Reaches(c, start, s) && Enabled(c, s, l) && Admitted(c, s, l)
    ensures Reaches(c, start, s') && s' == Apply(c, s, l)
  {
    s' := Apply(c, s, l);
    var states, labels :| AdmittedPath(c, states, labels) && states[0] == start && states[|labels|] == s;
    OneStepLonger(c, states, labels, l);
    assert (states + [s'])[|labels + [l]|] == s';
  }

  lemma OneStepLonger(c: Config, states: seq<State>, labels: seq<Label>, l: Label)
    requires AdmittedPath(c, states, labels)
    requires Enabled(c, states[|labels|], l) && Admitted(c, states[|labels|], l)
    ensures AdmittedPath(c, states + [Apply(c, states[|labels|], l)], labels + [l])
  {
    var longer, more := states + [Apply(c, states[|labels|], l)], labels + [l];
    forall i | 0 <= i < |more|
      ensures Enabled(c, longer[i], more[i]) && longer[i + 1] == Apply(c, longer[i], more[i])
      ensures Admitted(c, longer[i], more[i])
    {
      if i < |labels| {
        assert longer[i] == states[i] && longer[i + 1] == states[i + 1] && more[i] == labels[i];
      }
    }
  }

  /** A state in which targets were reserved once and the trainer samples, with a path from `start`. */
  ghost predicate Going(c: Config, start: State, s: State) {
    Reaches(c, start, s) && Inv(c, s) && ReservedOnce(s) && s.trainer.Sampling? && s.w == start.w
  }

  /** Steps that leave the trainer alone keep it going. */
  lemma GoOn(c: Config, start: State, s: State, l: Label) returns (s': State)
    requires c.Accepted() && Going(c, start, s) && Enabled(c, s, l) && Admitted(c, s, l) && Fresh(c, s, l)
    requires !l.TrainerSample? && !l.PrepareRefit? && !l.Refit?
    ensures Going(c, start, s') && s' == Apply(c, s, l)
  {
    s' := Step(c, start, s, l);
    StepKeepsInv(c, s, l);
    StepReservesOnce(c, s, l);
  }

  function StageCost(k: Worker): nat {
    match k.stage
    case Generating => 3
    case Buffered => 2
    case Detaching => 1
  }

  function WorkersCost(workers: seq<Worker>): nat {
    if workers == [] then 0 else StageCost(workers[0]) + WorkersCost(workers[1..])
  }

  function LoopCost(c: Config, collector: Collector): nat {
    if collector.Looping? && collector.prompt <= c.prompts then
      8 * (c.prompts - collector.prompt) +
      match collector.gate
      case Unchecked => 4
      case Held => 3
      case Woken => 2
      case Open => 1
    else 0
  }

  /** An upper bound on the steps until everything that was reserved is in the buffer. */
  function Cost(c: Config, s: State): nat {
    |s.mail| + WorkersCost(s.workers) + LoopCost(c, s.collector)
  }

  lemma {:induction false} WorkersCostSnoc(workers: seq<Worker>, k: Worker)
    ensures WorkersCost(workers + [k]) == WorkersCost(workers) + StageCost(k)
  {
    if workers == [] {
      assert [k][1..] == [];
    } else {
      assert (workers + [k])[1..] == workers[1..] + [k];
      WorkersCostSnoc(workers[1..], k);
    }
  }

  /** What the first worker does next. */
  function WorkerStep(s: State): Label
    requires s.workers != []
  {
    var k := s.workers[0];
    if k.stage.Generating? then PushGroup(0)
    else if k.stage.Buffered? && k.prompt == 0 then Release(0)
    else Detach(0)
  }

  /** What the collector does next about the target it has reserved. */
  function LoopStep(c: Config, s: State): Label
    requires s.collector.Looping?
  {
    match s.collector.gate
    case Unchecked => if s.collector.prompt < c.prompts then CheckPause else FinishBatch
    case Held => Wake
    case Woken => Refresh
    case Open => Spawn
  }

  /** Everything that was reserved is in the buffer, and nothing else has changed. */
  ghost predicate Drained(c: Config, s: State, s': State) {
    && s'.mail == [] && s'.workers == [] && s'.log == s.log && s'.batchVersion == s.batchVersion
    && s'.collector == if s.collector.Looping? then Idle else s.collector
  }

  lemma WorkerStepCosts(c: Config, s: State)
    requires c.Accepted() && Inv(c, s) && ReservedOnce(s) && s.workers != []
    ensures Enabled(c, s, WorkerStep(s)) && Cost(c, Apply(c, s, WorkerStep(s))) < Cost(c, s)
  {
    var l := WorkerStep(s);
    if l == PushGroup(0) {
      PushNeverFull(c, s, 0);
    }
    var ws, ws' := s.workers, Apply(c, s, l).workers;
    if l.Detach? {
      assert ws' == ws[1..];
    } else {
      assert ws'[1..] == ws[1..];
    }
  }

  lemma LoopStepCosts(c: Config, s: State)
    requires c.Accepted() && Inv(c, s) && s.trainer.Sampling? && s.collector.Looping? && s.mail == [] && s.workers == []
    ensures Enabled(c, s, LoopStep(c, s)) && Cost(c, Apply(c, s, LoopStep(c, s))) < Cost(c, s)
  {
    AcceptedBounds(c);
    assert c.InFlightLimit() > 0;
    if LoopStep(c, s) == Spawn {
      var k := Worker(s.collector.version, s.collector.target, s.collector.prompt, Generating);
      WorkersCostSnoc([], k);
    }
  }

  lemma {:induction false} Drain(c: Config, start: State, s: State) returns (s': State)
    requires c.Accepted() && Going(c, start, s)
    ensures Going(c, start, s') && Drained(c, s, s')
    decreases Cost(c, s)
  {
    if s.mail != [] {
      var s1 := GoOn(c, start, s, Deliver);
      s' := Drain(c, start, s1);
    } else if s.workers != [] {
      WorkerStepCosts(c, s);
      var s1 := GoOn(c, start, s, WorkerStep(s));
      s' := Drain(c, start, s1);
    } else if s.collector.Looping? {
      LoopStepCosts(c, s);
      var s1 := GoOn(c, start, s, LoopStep(c, s));
      s' := Drain(c, start, s1);
    } else {
      s' := s;
    }
  }

  /** Once a target is reserved, its groups are pushed and the trainer is served. */
  lemma ReservedIsTrained(c: Config, start: State, s: State) returns (s': State)
    requires c.Accepted() && Going(c, start, s) && s.w in s.log
    ensures Reaches(c, start, s') && s'.w == start.w && s'.trainer.Training?
  {
    var s1 := Drain(c, start, s);
    DrainedIsServed(c, s1);
    s' := Step(c, start, s1, TrainerSample);
  }

  lemma DrainedIsServed(c: Config, s: State)
    requires c.Accepted() && Inv(c, s) && ReservedOnce(s) && s.trainer.Sampling? && s.w in s.log
    requires s.workers == [] && !s.collector.Looping?
    ensures Apply(c, s, TrainerSample).trainer.Training?
  {
    AcceptedBounds(c);
    AllPushed(c, s);
    AllInWindow(c, s);
    ServedIffEnough(s.buffer, c.prompts, s.w, c.maxAge);
  }

  lemma AllInWindow(c: Config, s: State)
    requires c.Accepted() && Inv(c, s) && ReservedOnce(s)
    ensures s.buffer.Aligned() && forall v :: v in s.buffer.versions ==> MinValidVersion(s.w, c.maxAge) <= v <= s.w
  {
    BufferFits(c, s);
    forall v | v in s.buffer.versions ensures MinValidVersion(s.w, c.maxAge) <= v <= s.w {
      var i :| 0 <= i < |s.buffer.versions| && s.buffer.versions[i] == v;
      assert s.w <= s.buffer.targets[i] <= s.buffer.versions[i] + c.maxAge;
    }
  }

  lemma AllPushed(c: Config, s: State)
    requires AccountInv(c, s) && ReservedOnce(s) && s.trainer.Sampling? && s.w in s.log
    requires s.workers == [] && !s.collector.Looping?
    ensures multiset(s.buffer.targets)[s.w] == c.prompts
  {
    assert Accounted(c, s, s.w);
    assert multiset(s.log)[s.w] <= 1;
    assert multiset(s.log)[s.w] == 1;
    assert c.prompts * 1 == c.prompts;
  }

  /** Every target below the trainer's version is reserved. */
  lemma PastIsReserved(c: Config, s: State, t: int)
    requires c.Accepted() && Inv(c, s) && c.initial <= t < s.w
    ensures t in s.log
  {
    if t !in s.log {
      UnreservedBlocks(c, s, t);
    }
  }

  /** A batch that is past the pause takes the target that is in line. */
  lemma TakesInLine(c: Config, start: State, s: State) returns (s': State)
    requires c.Accepted() && Going(c, start, s) && s.w !in s.log && StillInLine(c, s, s.w)
    ensures Going(c, start, s') && s'.w in s'.log
  {
    var s1, s2 := s, s;
    if s.collector.Ready? {
      s1 := GoOn(c, start, s, StartBatch);
    }
    s2 := s1;
    if s1.collector.Started? {
      s2 := GoOn(c, start, s1, ReadLast);
      FreshChoice(c, s2, s2.w);
    }
    RepeatsIffStale(c, s2);
    s' := GoOn(c, start, s2, Reserve);
  }

  /** Before anything is reserved, the next batch takes the first target. */
  lemma FirstIsTaken(c: Config, start: State, s: State) returns (s': State)
    requires c.Accepted() && Going(c, start, s) && s.w == c.initial && s.w !in s.log
    ensures Going(c, start, s') && s'.w in s'.log
  {
    var s1 := Drain(c, start, s);
    NothingReserved(c, s1);
    var s2 := s1;
    if s1.collector.Idle? {
      CandidatesRange(c, c.initial);
      FirstFreeMeaning(Candidates(c, c.initial), s1.buffer.last, s1.generating);
      assert Candidates(c, c.initial)[0] == c.initial;
      s2 := GoOn(c, start, s1, PassGate);
    }
    if s2.collector.Read? {
      FreshChoice(c, s2, c.initial);
    }
    s' := TakesInLine(c, start, s2);
  }

  lemma FirstIsReserved(c: Config, s: State)
    requires LogInv(c, s) && s.batchVersion == c.initial && s.log != []
    ensures c.initial in s.log
  {
    assert s.log[0] in s.log && Low(c, s.batchVersion) <= s.log[0];
  }

  lemma NothingReserved(c: Config, s: State)
    requires c.Accepted() && Inv(c, s) && s.w == c.initial && s.w !in s.log
    ensures s.log == [] && s.generating == {} && s.buffer.last == -1 && s.batchVersion == c.initial
    ensures s.collector.Read? ==> s.collector.seen == -1
  {
    if s.log != [] {
      FirstIsReserved(c, s);
    }
    assert forall t :: t in s.generating ==> t in s.log;
  }

  /** While targets were reserved once, a trainer that waits for its target can still be served exactly when
      the target is not lost. */
  lemma TrainsIffNotLost(c: Config, s: State)
    requires c.Accepted() && Inv(c, s) && ReservedOnce(s) && s.trainer.Sampling?
    ensures (exists s' :: Reaches(c, s, s') && s'.w == s.w && s'.trainer.Training?) <==> !Lost(c, s, s.w)
  {
    if Lost(c, s, s.w) {
      forall s' | Reaches(c, s, s') && s'.w == s.w ensures !s'.trainer.Training? {
        var states, labels :| AdmittedPath(c, states, labels) && states[0] == s && states[|labels|] == s';
        LostStalls(c, states, labels, 0, |labels|, s.w);
      }
    } else {
      ReachesItself(c, s);
      var s1 := s;
      if s.w !in s.log {
        if s.w == c.initial {
          s1 := FirstIsTaken(c, s, s);
        } else {
          s1 := TakesInLine(c, s, s);
        }
      }
      var s2 := ReservedIsTrained(c, s, s1);
    }
  }
}
