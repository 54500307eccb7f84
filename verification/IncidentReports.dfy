/**
 What a detection pass achieves: once a batch has settled, every signal of every deployment it sampled has an
 open incident that says what the signal says.
 */
module IncidentReports {
  import opened Common
  import opened Incidents

  /** The incident is open, has the worker's key, and carries its signal. */
  predicate Carries(i: Incident, w: Worker) {
    IsOpen(i, w.deployment, w.signal.ruleKey) && i.severity == w.signal.severity && i.summary == w.signal.summary
  }

  ghost predicate Reported(incidents: seq<Incident>, w: Worker) {
    exists id :: 0 <= id < |incidents| && Carries(incidents[id], w)
  }

  predicate InBatch(s: State, i: nat) {
    i < |s.workers| && s.workers[i].batch == s.batch
  }

  /** How far a worker has got, and what the incidents say about it. */
  ghost predicate OnTrack(incidents: seq<Incident>, w: Worker) {
    match w.pc
    case AtUpdate(id) => id < |incidents| && IsOpen(incidents[id], w.deployment, w.signal.ruleKey)
    case AtStart(_) => Reported(incidents, w)
    case Done => Reported(incidents, w)
    case _ => true
  }

  /** The workers of the current batch have distinct keys, belong to sampled visits, and are on track. */
  ghost predicate BatchOnTrack(s: State) {
    && (forall i: nat, j: nat :: i < j && InBatch(s, i) && InBatch(s, j) ==> !SameKey(s.workers[i], s.workers[j]))
    && (forall i: nat :: InBatch(s, i) ==> Visited(s, s.workers[i].deployment) && OnTrack(s.incidents, s.workers[i]))
  }

  /** All that holds while nothing rejects. */
  ghost predicate Progress(s: State) {
    Inv(s) && Calm(s, 0) && Rested(s) && BatchOnTrack(s)
  }

  ghost predicate NothingResolves(actions: seq<Action>) {
    forall k :: 0 <= k < |actions| ==> !actions[k].Resolve?
  }

  // ---------------------------------------------------------------- one step

  /** The incidents of a worker's key stay, unless it is itself the one that changes them. */
  lemma OthersOnTrack(before: seq<Incident>, after: seq<Incident>, w: Worker)
    requires OnTrack(before, w) && |before| <= |after|
    requires forall id :: 0 <= id < |before| ==>
               after[id].open == before[id].open && after[id].deployment == before[id].deployment &&
               after[id].ruleKey == before[id].ruleKey &&
               (IsOpen(before[id], w.deployment, w.signal.ruleKey) ==> after[id] == before[id])
    ensures OnTrack(after, w)
  {
    if w.pc.Done? || w.pc.AtStart? {
      var id :| 0 <= id < |before| && Carries(before[id], w);
      assert Carries(after[id], w);
    }
  }

  /** One worker moves, with the incidents; the others of its batch have other keys. */
  lemma MoveOnTrack(s: State, w: nat, pc: Pc, incidents: seq<Incident>)
    requires BatchOnTrack(s) && InBatch(s, w) && |s.incidents| <= |incidents|
    requires forall id :: 0 <= id < |s.incidents| ==>
               incidents[id].open == s.incidents[id].open && incidents[id].deployment == s.incidents[id].deployment &&
               incidents[id].ruleKey == s.incidents[id].ruleKey &&
               (!IsOpen(s.incidents[id], s.workers[w].deployment, s.workers[w].signal.ruleKey) ==> incidents[id] == s.incidents[id])
    requires OnTrack(incidents, s.workers[w].(pc := pc))
    ensures BatchOnTrack(SetPc(s.(incidents := incidents), w, pc))
  {
    var s' := SetPc(s.(incidents := incidents), w, pc);
    hide OnTrack;
    forall i: nat | InBatch(s', i)
      ensures InBatch(s, i) && Visited(s', s'.workers[i].deployment) && OnTrack(s'.incidents, s'.workers[i])
      ensures s'.workers[i].deployment == s.workers[i].deployment && s'.workers[i].signal == s.workers[i].signal
    {
      assert InBatch(s, i) && Visited(s, s.workers[i].deployment);
      if i != w {
        assert !SameKey(s.workers[if i < w then i else w], s.workers[if i < w then w else i]);
        OthersOnTrack(s.incidents, incidents, s.workers[i]);
      }
    }
  }

  /** Rows are added that no rule key opened. */
  lemma AppendOnTrack(s: State, incidents: seq<Incident>, runs: seq<RcaRun>)
    requires BatchOnTrack(s) && |s.incidents| <= |incidents|
    requires forall id :: 0 <= id < |s.incidents| ==> incidents[id] == s.incidents[id]
    ensures BatchOnTrack(s.(incidents := incidents, runs := runs))
  {
    var s' := s.(incidents := incidents, runs := runs);
    hide OnTrack;
    forall i: nat | InBatch(s', i) ensures Visited(s', s'.workers[i].deployment) && OnTrack(s'.incidents, s'.workers[i]) {
      assert InBatch(s, i) && Visited(s, s.workers[i].deployment);
      OthersOnTrack(s.incidents, incidents, s.workers[i]);
    }
  }

  lemma NewBatchOnTrack(s: State)
    requires forall i :: 0 <= i < |s.workers| ==> s.workers[i].batch < s.batch
    ensures BatchOnTrack(s)
  {
  }

  /** A worker that moves is of the current batch: nothing else is unfinished. */
  lemma MoverInBatch(s: State, w: nat)
    requires Calm(s, 0) && w < |s.workers| && !s.workers[w].pc.Done?
    ensures InBatch(s, w)
  {
  }

  lemma FindOnTrack(s: State, w: nat)
    requires Progress(s) && w < |s.workers| && s.workers[w].pc.AtFind?
    ensures BatchOnTrack(Apply(s, Find(w)))
  {
    hide Inv, BatchOnTrack, Rested;
    MoverInBatch(s, w);
    MoveOnTrack(s, w, Apply(s, Find(w)).workers[w].pc, s.incidents);
  }

  lemma UpdateOnTrack(s: State, w: nat)
    requires Progress(s) && w < |s.workers| && s.workers[w].pc.AtUpdate? && s.workers[w].pc.id < |s.incidents|
    ensures BatchOnTrack(Apply(s, Update(w)))
  {
    MoverInBatch(s, w);
    var id := s.workers[w].pc.id;
    assert OnTrack(s.incidents, s.workers[w]);
    hide Inv, BatchOnTrack, Rested, Calm;
    var incidents := Apply(s, Update(w)).incidents;
    assert Carries(incidents[id], s.workers[w].(pc := Done));
    MoveOnTrack(s, w, Done, incidents);
  }

  lemma CreateOnTrack(s: State, w: nat)
    requires Progress(s) && w < |s.workers| && s.workers[w].pc.AtCreate?
    ensures BatchOnTrack(Apply(s, CreateIncident(w)))
  {
    hide Inv, BatchOnTrack, Rested;
    MoverInBatch(s, w);
    var incidents := Apply(s, CreateIncident(w)).incidents;
    var pc := Apply(s, CreateIncident(w)).workers[w].pc;
    assert Carries(incidents[|s.incidents|], s.workers[w].(pc := pc));
    MoveOnTrack(s, w, pc, incidents);
  }

  lemma StartOnTrack(s: State, w: nat)
    requires Progress(s) && w < |s.workers| && s.workers[w].pc.AtStart?
    ensures BatchOnTrack(Apply(s, StartRca(w)))
  {
    MoverInBatch(s, w);
    assert OnTrack(s.incidents, s.workers[w]);
    hide Inv, BatchOnTrack, Rested, Calm;
    var id :| 0 <= id < |s.incidents| && Carries(s.incidents[id], s.workers[w]);
    assert Carries(s.incidents[id], s.workers[w].(pc := Done));
    MoveOnTrack(s, w, Done, s.incidents);
    AppendOnTrack(SetPc(s, w, Done), s.incidents, Apply(s, StartRca(w)).runs);
  }

  /** A visit's workers are new, in the current batch, and apart from those of the other visits. */
  lemma SampleOnTrack(s: State, v: nat, latest: Option<Sample>, previous: Option<Sample>)
    requires Progress(s) && v < |s.visits| && !s.visits[v].sampled
    ensures BatchOnTrack(Apply(s, SampleVisit(v, latest, previous)))
  {
    var s', more := Apply(s, SampleVisit(v, latest, previous)), Sampled(s, v, latest, previous);
    assert s'.workers == s.workers + more;
    SampledApart(s, v, latest, previous);
    hide SignalsOf, Sampled, OnTrack, Reported, CreatorsClear, UniqueOpen, Rested, Calm, WorkersApart;
    forall i: nat | InBatch(s', i) && i < |s.workers|
      ensures InBatch(s, i) && Visited(s', s'.workers[i].deployment) && s.workers[i].deployment != s.visits[v].deployment
      ensures OnTrack(s'.incidents, s'.workers[i]) && s'.workers[i] == s.workers[i]
    {
      assert InBatch(s, i);
      var u :| 0 <= u < |s.visits| && s.visits[u].sampled && s.visits[u].deployment == s.workers[i].deployment;
      assert s'.visits[u] == s.visits[u];
    }
    forall i: nat | InBatch(s', i) && i >= |s.workers|
      ensures s'.workers[i] == more[i - |s.workers|] && Visited(s', s'.workers[i].deployment) && OnTrack(s'.incidents, s'.workers[i])
    {
      assert s'.visits[v].sampled && s'.visits[v].deployment == s'.workers[i].deployment;
      FindingOnTrack(s'.incidents, s'.workers[i]);
    }
  }

  lemma FindingOnTrack(incidents: seq<Incident>, w: Worker)
    requires w.pc.AtFind?
    ensures OnTrack(incidents, w)
  {
  }

  lemma FlagOnTrack(s: State, detecting: bool)
    requires BatchOnTrack(s)
    ensures BatchOnTrack(s.(detecting := detecting))
  {
    hide OnTrack;
    var s' := s.(detecting := detecting);
    forall i: nat | InBatch(s', i) ensures Visited(s', s'.workers[i].deployment) && OnTrack(s'.incidents, s'.workers[i]) {
      assert InBatch(s, i) && Visited(s, s.workers[i].deployment);
    }
  }

  lemma StepOnTrack(s: State, a: Action)
    requires Progress(s) && !a.Reject? && !a.Resolve?
    ensures BatchOnTrack(Apply(s, a))
  {
    hide Inv, Rested, BatchOnTrack;
    var s' := Apply(s, a);
    match a
    case Tick => if s' != s { NewBatchOnTrack(s'); }
    case Finish => FlagOnTrack(s, false);
    case StartBatch(deployments) => if s' != s { NewBatchOnTrack(s'); }
    case SampleVisit(v, latest, previous) =>
      if v < |s.visits| && !s.visits[v].sampled { SampleOnTrack(s, v, latest, previous); }
    case Find(w) => if w < |s.workers| && s.workers[w].pc.AtFind? { FindOnTrack(s, w); }
    case Update(w) =>
      if w < |s.workers| && s.workers[w].pc.AtUpdate? && s.workers[w].pc.id < |s.incidents| { UpdateOnTrack(s, w); }
    case CreateIncident(w) => if w < |s.workers| && s.workers[w].pc.AtCreate? { CreateOnTrack(s, w); }
    case StartRca(w) => if w < |s.workers| && s.workers[w].pc.AtStart? { StartOnTrack(s, w); }
    case CreateManual(_, _, _) => AppendOnTrack(s, s'.incidents, s'.runs);
    case StartManual(_) => AppendOnTrack(s, s'.incidents, s'.runs);
    case StartForDeployment(_) => AppendOnTrack(s, s'.incidents, s'.runs);
  }

  lemma StepProgress(s: State, a: Action)
    requires Progress(s) && !a.Reject? && !a.Resolve?
    ensures Progress(Apply(s, a))
  {
    hide Inv, Calm, Rested, BatchOnTrack, Apply, Orderly;
    StepOnTrack(s, a);
    StepCalm(s, 0, a);
    StepRested(s, a);
    StepKeeps(s, a);
  }

  lemma {:induction false} RunProgress(s: State, more: seq<Action>)
    requires Progress(s) && NothingRejects(more) && NothingResolves(more)
    ensures Progress(RunFrom(s, more))
    decreases |more|
  {
    if more != [] {
      hide Progress, Apply;
      RunProgress(s, more[..|more| - 1]);
      StepProgress(RunFrom(s, more[..|more| - 1]), more[|more| - 1]);
    }
  }

  // ---------------------------------------------------------------- a settled batch

  /** No worker of the current batch exists yet. */
  ghost predicate BatchBegins(s: State) {
    forall i :: 0 <= i < |s.workers| ==> s.workers[i].batch < s.batch
  }

  lemma BeginningProgress(autoRca: bool, before: seq<Action>)
    requires NothingRejects(before) && BatchBegins(Run(autoRca, before))
    ensures Progress(Run(autoRca, before))
  {
    RunCalm(autoRca, before);
    RunInv(autoRca, before);
    NewBatchOnTrack(Run(autoRca, before));
  }

  /**
   While nothing rejects and, since a batch began, nothing was resolved: every worker of the current batch that
   is done has an open incident with its deployment and rule key that carries its signal.
   */
  lemma DoneIsReported(autoRca: bool, before: seq<Action>, more: seq<Action>, i: nat)
    requires NothingRejects(before) && BatchBegins(Run(autoRca, before)) && NothingRejects(more) && NothingResolves(more)
    ensures var t := RunFrom(Run(autoRca, before), more);
            InBatch(t, i) && t.workers[i].pc.Done? ==> Reported(t.incidents, t.workers[i])
  {
    hide Inv, Calm, Rested, Reported;
    BeginningProgress(autoRca, before);
    RunProgress(Run(autoRca, before), more);
    var t := RunFrom(Run(autoRca, before), more);
    assert InBatch(t, i) ==> OnTrack(t.incidents, t.workers[i]);
  }

  /** A worker keeps its batch, its deployment and its signal. */
  lemma StepKeepsWorker(s: State, a: Action, i: nat)
    requires i < |s.workers|
    ensures i < |Apply(s, a).workers|
    ensures var w, w' := s.workers[i], Apply(s, a).workers[i];
            w'.batch == w.batch && w'.deployment == w.deployment && w'.signal == w.signal
  {
    hide SignalsOf, FirstOpen, Settled;
  }

  lemma {:induction false} RunKeepsWorker(s: State, more: seq<Action>, i: nat)
    requires i < |s.workers|
    ensures i < |RunFrom(s, more).workers|
    ensures var w, w' := s.workers[i], RunFrom(s, more).workers[i];
            w'.batch == w.batch && w'.deployment == w.deployment && w'.signal == w.signal
    decreases |more|
  {
    if more != [] {
      hide Apply;
      RunKeepsWorker(s, more[..|more| - 1], i);
      StepKeepsWorker(RunFrom(s, more[..|more| - 1]), more[|more| - 1], i);
    }
  }

  /** A sampled signal's worker, when it is made and ever after. */
  lemma SampledWorker(u: State, v: nat, latest: Sample, previous: Option<Sample>, b: seq<Action>, signal: Signal) returns (i: nat)
    requires v < |u.visits| && !u.visits[v].sampled && signal in SignalsOf(latest, previous)
    ensures var t := RunFrom(Apply(u, SampleVisit(v, Some(latest), previous)), b);
            && i < |t.workers| && t.workers[i].batch == u.batch
            && t.workers[i].deployment == u.visits[v].deployment && t.workers[i].signal == signal
  {
    var signals := SignalsOf(latest, previous);
    var k :| 0 <= k < |signals| && signals[k] == signal;
    i := |u.workers| + k;
    var sampled := Apply(u, SampleVisit(v, Some(latest), previous));
    assert sampled.workers[i] == WorkersFor(u.batch, u.visits[v].deployment, signals)[k];
    hide RunFrom, SignalsOf;
    RunKeepsWorker(sampled, b, i);
  }

  /** In a settled batch every worker is reported. */
  lemma SettledIsReported(autoRca: bool, before: seq<Action>, more: seq<Action>, i: nat)
    requires NothingRejects(before) && BatchBegins(Run(autoRca, before)) && NothingRejects(more) && NothingResolves(more)
    ensures var t := RunFrom(Run(autoRca, before), more);
            Settled(t) && InBatch(t, i) ==> Reported(t.incidents, t.workers[i])
  {
    hide Run, RunFrom, Settled, Inv, BatchOnTrack, Rested, Reported, BatchBegins, Calm;
    var t := RunFrom(Run(autoRca, before), more);
    if Settled(t) && InBatch(t, i) {
      BeginningProgress(autoRca, before);
      RunProgress(Run(autoRca, before), more);
      SettledIsDone(t, 0);
      DoneIsReported(autoRca, before, more, i);
    }
  }

  /**
   A visit of the current batch sampled these health samples, with `a` before it in the batch and `b` after: once
   the batch has settled, each of their signals is reported by an open incident of the deployment, with the
   signal's rule key, severity and summary, whether the incident was there before or not.
   */
  lemma SampledIsReported(autoRca: bool, before: seq<Action>, a: seq<Action>, v: nat, latest: Sample, previous: Option<Sample>,
                          b: seq<Action>, signal: Signal)
    requires NothingRejects(before) && BatchBegins(Run(autoRca, before))
    requires NothingRejects(a) && NothingResolves(a) && NothingRejects(b) && NothingResolves(b)
    requires var u := RunFrom(Run(autoRca, before), a); v < |u.visits| && !u.visits[v].sampled
    requires signal in SignalsOf(latest, previous)
    ensures var u := RunFrom(Run(autoRca, before), a);
            var t := RunFrom(Run(autoRca, before), a + [SampleVisit(v, Some(latest), previous)] + b);
            t.batch == u.batch && Settled(t) ==>
              exists id :: 0 <= id < |t.incidents| &&
                IsOpen(t.incidents[id], u.visits[v].deployment, signal.ruleKey) &&
                t.incidents[id].severity == signal.severity && t.incidents[id].summary == signal.summary
  {
    hide Run, RunFrom, Apply, SignalsOf, Settled, Inv, BatchOnTrack, Rested;
    var s, visit := Run(autoRca, before), SampleVisit(v, Some(latest), previous);
    var u := RunFrom(s, a);
    var i := SampledWorker(u, v, latest, previous, b, signal);
    RunSnoc(s, a, visit);
    RunConcat(s, a + [visit], b);
    NothingInBetween(a, visit, b);
    SettledIsReported(autoRca, before, a + [visit] + b, i);
    var t := RunFrom(s, a + [visit] + b);
    if t.batch == u.batch && Settled(t) {
      var id :| 0 <= id < |t.incidents| && Carries(t.incidents[id], t.workers[i]);
    }
  }

  lemma NothingInBetween(a: seq<Action>, x: Action, b: seq<Action>)
    requires NothingRejects(a) && NothingResolves(a) && NothingRejects(b) && NothingResolves(b) && !x.Reject? && !x.Resolve?
    ensures NothingRejects(a + [x] + b) && NothingResolves(a + [x] + b)
  {
  }
}
