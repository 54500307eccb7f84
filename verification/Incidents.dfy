/**
 Incident detection.  One pass at a time (a re-entrancy flag) visits batches of deployments, one batch
 per workspace; a deployment belongs to one workspace, so a pass visits it at most once.  Within a batch
 every deployment, and every signal of a deployment, is handled concurrently by find-then-create steps.
 Any step may reject.  Manual creation and resolution run at any time.
 */
module Incidents {
  import opened Common

  datatype Severity = Info | Warning | Critical

  datatype Source = Automatic | Manual

  /** The summary texts, with what each of them says. */
  datatype Summary =
    | ReadyReplicas(ready: int, desired: int)
    | WarningEvents(count: int)
    | RestartsIncreased(before: int, now: int)
    | HealthStatus(status: string)
    | RcaRequested                  // a manual run without an incident
    | Given(text: Option<string>)   // by the caller

  datatype Incident = Incident(
    deployment: string, ruleKey: Option<string>, source: Source, open: bool, severity: Severity, summary: Summary)

  datatype RcaRun = RcaRun(incident: nat, source: Source)

  datatype Sample = Sample(status: string, desired: int, ready: int, warningEvents: int, restarts: int)

  datatype Signal = Signal(ruleKey: string, severity: Severity, summary: Summary)

  // ---------------------------------------------------------------- signals

  const READY_KEY := "ready-replicas-below-desired"
  const EVENTS_KEY := "kubernetes-warning-events"
  const RESTARTS_KEY := "container-restarts-increased"

  function StatusKey(status: string): string {
    "health-status-" + status
  }

  /** The signals a pair of health samples gives, in order. */
  function SignalsOf(latest: Sample, previous: Option<Sample>): seq<Signal> {
    (if latest.desired > 0 && latest.ready < latest.desired
     then [Signal(READY_KEY, Critical, ReadyReplicas(latest.ready, latest.desired))] else []) +
    (if latest.warningEvents > 0 then [Signal(EVENTS_KEY, Warning, WarningEvents(latest.warningEvents))] else []) +
    (if previous.Some? && latest.restarts > previous.value.restarts
     then [Signal(RESTARTS_KEY, Warning, RestartsIncreased(previous.value.restarts, latest.restarts))] else []) +
    (if latest.status == "failed" || latest.status == "warning"
     then [Signal(StatusKey(latest.status), if latest.status == "failed" then Critical else Warning, HealthStatus(latest.status))]
     else [])
  }

  lemma KeysDiffer(status: string)
    ensures READY_KEY != EVENTS_KEY && READY_KEY != RESTARTS_KEY && EVENTS_KEY != RESTARTS_KEY
    ensures StatusKey(status) !in {READY_KEY, EVENTS_KEY, RESTARTS_KEY}
  {
    assert READY_KEY[0] == 'r' && EVENTS_KEY[0] == 'k' && RESTARTS_KEY[0] == 'c' && StatusKey(status)[0] == 'h';
  }

  /** Exactly these signals, each when its condition holds, with pairwise distinct rule keys. */
  lemma SignalsAreDistinct(latest: Sample, previous: Option<Sample>)
    ensures var s := SignalsOf(latest, previous);
            forall i, j :: 0 <= i < j < |s| ==> s[i].ruleKey != s[j].ruleKey
    ensures forall signal :: signal in SignalsOf(latest, previous) <==>
              || (latest.ready < latest.desired && 0 < latest.desired &&
                  signal == Signal(READY_KEY, Critical, ReadyReplicas(latest.ready, latest.desired)))
              || (0 < latest.warningEvents && signal == Signal(EVENTS_KEY, Warning, WarningEvents(latest.warningEvents)))
              || (previous.Some? && previous.value.restarts < latest.restarts &&
                  signal == Signal(RESTARTS_KEY, Warning, RestartsIncreased(previous.value.restarts, latest.restarts)))
              || (latest.status == "failed" && signal == Signal("health-status-failed", Critical, HealthStatus("failed")))
              || (latest.status == "warning" && signal == Signal("health-status-warning", Warning, HealthStatus("warning")))
  {
    KeysDiffer(latest.status);
    assert StatusKey("failed") == "health-status-failed" && StatusKey("warning") == "health-status-warning";
    hide StatusKey;
  }

  // ---------------------------------------------------------------- the detection protocol

  datatype Pc =
    | AtFind
    | AtUpdate(id: nat)
    | AtCreate
    | AtStart(id: nat)     // the incident is created, its RCA run is not
    | Done
    | Rejected

  /** One `openAutomaticIncident` call. */
  datatype Worker = Worker(batch: nat, deployment: string, signal: Signal, pc: Pc)

  /** One `detectDeploymentIncidents` call. */
  datatype Visit = Visit(deployment: string, sampled: bool)

  datatype State = State(
    autoRca: bool,
    detecting: bool,
    batch: nat,
    visits: seq<Visit>,
    workers: seq<Worker>,
    incidents: seq<Incident>,
    runs: seq<RcaRun>)

  datatype Action =
    | Tick                                       // the timer fires
    | StartBatch(deployments: seq<string>)       // the next workspace
    | SampleVisit(visit: nat, latest: Option<Sample>, previous: Option<Sample>)
    | Find(worker: nat)
    | Update(worker: nat)
    | CreateIncident(worker: nat)
    | StartRca(worker: nat)
    | Reject(worker: nat)                        // any step of a worker may reject
    | Finish                                     // the end of the pass clears the flag
    | CreateManual(deployment: string, severity: Option<Severity>, summary: Option<string>)
    | StartManual(incident: nat)                 // startForIncident, source manual
    | StartForDeployment(deployment: string)     // manual incident and run in one transaction
    | Resolve(incident: nat)

  function SetPc(s: State, w: nat, pc: Pc): State
    requires w < |s.workers|
  {
    s.(workers := s.workers[w := s.workers[w].(pc := pc)])
  }

  /** Distinct deployments, none of them visited in this pass yet. */
  predicate Unvisited(visits: seq<Visit>, deployments: seq<string>) {
    && (forall i, j :: 0 <= i < j < |deployments| ==> deployments[i] != deployments[j])
    && (forall v, i :: 0 <= v < |visits| && 0 <= i < |deployments| ==> visits[v].deployment != deployments[i])
  }

  function VisitsFor(deployments: seq<string>): (visits: seq<Visit>)
    ensures |visits| == |deployments|
  {
    seq(|deployments|, i requires 0 <= i < |deployments| => Visit(deployments[i], false))
  }

  /** `Promise.all` of the batch: a visit settles when its workers are done, or as soon as one rejects. */
  predicate Settled(s: State) {
    && (forall v :: v in s.visits ==> v.sampled)
    && (forall w :: w in s.workers && w.batch == s.batch ==>
          w.pc.Done? || exists x :: x in s.workers && x.batch == s.batch && x.deployment == w.deployment && x.pc.Rejected?)
  }

  predicate IsOpen(i: Incident, deployment: string, key: string) {
    i.open && i.deployment == deployment && i.ruleKey == Some(key)
  }

  /** findFirst: the first open incident with the key. */
  function FirstOpen(incidents: seq<Incident>, deployment: string, key: string): (r: Option<nat>)
    ensures r.Some? ==> r.value < |incidents| && IsOpen(incidents[r.value], deployment, key)
    ensures r.None? <==> forall i :: 0 <= i < |incidents| ==> !IsOpen(incidents[i], deployment, key)
  {
    if incidents == [] then None
    else
      var before := FirstOpen(incidents[..|incidents| - 1], deployment, key);
      if before.Some? then before
      else if IsOpen(incidents[|incidents| - 1], deployment, key) then Some(|incidents| - 1)
      else None
  }

  function WorkersFor(batch: nat, deployment: string, signals: seq<Signal>): (ws: seq<Worker>)
    ensures |ws| == |signals|
  {
    seq(|signals|, i requires 0 <= i < |signals| => Worker(batch, deployment, signals[i], AtFind))
  }

  function AutomaticIncident(w: Worker): Incident {
    Incident(w.deployment, Some(w.signal.ruleKey), Automatic, true, w.signal.severity, w.signal.summary)
  }

  function ManualIncident(deployment: string, severity: Severity, summary: Summary): Incident {
    Incident(deployment, None, Manual, true, severity, summary)
  }

  function Apply(s: State, a: Action): State {
    match a
    case Tick => if s.detecting then s else s.(detecting := true, batch := s.batch + 1, visits := [])
    case StartBatch(deployments) =>
      if s.detecting && Settled(s) && Unvisited(s.visits, deployments)
      then s.(batch := s.batch + 1, visits := s.visits + VisitsFor(deployments))
      else s
    case SampleVisit(v, latest, previous) =>
      if v < |s.visits| && !s.visits[v].sampled
      then s.(visits := s.visits[v := s.visits[v].(sampled := true)],
              workers := if latest.None? then s.workers
                         else s.workers + WorkersFor(s.batch, s.visits[v].deployment, SignalsOf(latest.value, previous)))
      else s
    case Find(w) =>
      if w < |s.workers| && s.workers[w].pc.AtFind? then
        var existing := FirstOpen(s.incidents, s.workers[w].deployment, s.workers[w].signal.ruleKey);
        SetPc(s, w, if existing.Some? then AtUpdate(existing.value) else AtCreate)
      else s
    case Update(w) =>
      if w < |s.workers| && s.workers[w].pc.AtUpdate? && s.workers[w].pc.id < |s.incidents| then
        var id, signal := s.workers[w].pc.id, s.workers[w].signal;
        SetPc(s.(incidents := s.incidents[id := s.incidents[id].(severity := signal.severity, summary := signal.summary)]), w, Done)
      else s
    case CreateIncident(w) =>
      if w < |s.workers| && s.workers[w].pc.AtCreate? then
        SetPc(s.(incidents := s.incidents + [AutomaticIncident(s.workers[w])]), w,
              if s.autoRca then AtStart(|s.incidents|) else Done)
      else s
    case StartRca(w) =>
      if w < |s.workers| && s.workers[w].pc.AtStart?
      then SetPc(s.(runs := s.runs + [RcaRun(s.workers[w].pc.id, Automatic)]), w, Done)
      else s
    case Reject(w) =>
      if w < |s.workers| && !s.workers[w].pc.Done? then SetPc(s, w, Rejected) else s
    case Finish => if s.detecting && Settled(s) then s.(detecting := false) else s
    case CreateManual(deployment, severity, summary) =>
      s.(incidents := s.incidents + [ManualIncident(deployment, severity.GetOr(Warning), Given(summary))])
    case StartManual(id) => if id < |s.incidents| then s.(runs := s.runs + [RcaRun(id, Manual)]) else s
    case StartForDeployment(deployment) =>
      s.(incidents := s.incidents + [ManualIncident(deployment, Warning, RcaRequested)], runs := s.runs + [RcaRun(|s.incidents|, Manual)])
    case Resolve(id) => if id < |s.incidents| then s.(incidents := s.incidents[id := s.incidents[id].(open := false)]) else s
  }

  function START(autoRca: bool): State {
    State(autoRca, false, 0, [], [], [], [])
  }

  function RunFrom(s: State, actions: seq<Action>): State {
    if actions == [] then s else Apply(RunFrom(s, actions[..|actions| - 1]), actions[|actions| - 1])
  }

  function Run(autoRca: bool, actions: seq<Action>): State {
    RunFrom(START(autoRca), actions)
  }

  lemma RunSnoc(s: State, actions: seq<Action>, a: Action)
    ensures RunFrom(s, actions + [a]) == Apply(RunFrom(s, actions), a)
  {
    assert (actions + [a])[..|actions + [a]| - 1] == actions;
  }

  lemma {:induction false} RunConcat(s: State, a: seq<Action>, b: seq<Action>)
    ensures RunFrom(s, a + b) == RunFrom(RunFrom(s, a), b)
    decreases |b|
  {
    if b == [] {
      assert a + b == a;
    } else {
      hide Apply;
      assert (a + b)[..|a + b| - 1] == a + b[..|b| - 1];
      RunConcat(s, a, b[..|b| - 1]);
    }
  }

  // ---------------------------------------------------------------- at most one open incident per key

  ghost predicate UniqueOpen(incidents: seq<Incident>) {
    forall i, j :: 0 <= i < j < |incidents| && incidents[i].open && incidents[j].open && incidents[i].ruleKey.Some? ==>
      incidents[i].deployment != incidents[j].deployment || incidents[i].ruleKey != incidents[j].ruleKey
  }

  predicate SameKey(a: Worker, b: Worker) {
    a.deployment == b.deployment && a.signal.ruleKey == b.signal.ruleKey
  }

  /** The worker may still create an incident. */
  predicate Pending(w: Worker) {
    w.pc.AtFind? || w.pc.AtCreate?
  }

  ghost predicate NonePending(s: State) {
    forall i :: 0 <= i < |s.workers| ==> !Pending(s.workers[i])
  }

  /** No two pending workers have the same key. */
  ghost predicate WorkersApart(s: State) {
    forall i, j :: 0 <= i < j < |s.workers| && Pending(s.workers[i]) && Pending(s.workers[j]) ==>
      !SameKey(s.workers[i], s.workers[j])
  }

  ghost predicate Visited(s: State, deployment: string) {
    exists v :: 0 <= v < |s.visits| && s.visits[v].sampled && s.visits[v].deployment == deployment
  }

  /** A pass visits each deployment once, and every pending worker belongs to a visit of this pass. */
  ghost predicate VisitsApart(s: State) {
    && (forall i, j :: 0 <= i < j < |s.visits| ==> s.visits[i].deployment != s.visits[j].deployment)
    && (forall i :: 0 <= i < |s.workers| && Pending(s.workers[i]) ==> Visited(s, s.workers[i].deployment))
  }

  /** A worker about to create still has no open incident in its way. */
  ghost predicate CreatorsClear(s: State) {
    forall i :: 0 <= i < |s.workers| && s.workers[i].pc.AtCreate? ==>
      FirstOpen(s.incidents, s.workers[i].deployment, s.workers[i].signal.ruleKey).None?
  }

  ghost predicate Inv(s: State) {
    UniqueOpen(s.incidents) && WorkersApart(s) && VisitsApart(s) && CreatorsClear(s)
  }

  /** A pass does not begin while a worker of an earlier one may still create an incident. */
  ghost predicate Orderly(s: State, a: Action) {
    a.Tick? && !s.detecting ==> NonePending(s)
  }

  /** Moving one worker, not back and not to a creation that is blocked, and changing incidents harmlessly. */
  lemma SetPcKeeps(s: State, w: nat, pc: Pc, incidents: seq<Incident>)
    requires Inv(s) && w < |s.workers| && UniqueOpen(incidents)
    requires pc.AtFind? || pc.AtCreate? ==> Pending(s.workers[w])
    requires pc.AtCreate? ==> FirstOpen(incidents, s.workers[w].deployment, s.workers[w].signal.ruleKey).None?
    requires forall i :: 0 <= i < |s.workers| && i != w && s.workers[i].pc.AtCreate? ==>
               FirstOpen(incidents, s.workers[i].deployment, s.workers[i].signal.ruleKey).None?
    ensures Inv(SetPc(s.(incidents := incidents), w, pc))
  {
    var s' := SetPc(s.(incidents := incidents), w, pc);
    hide FirstOpen, UniqueOpen;
    forall i | 0 <= i < |s'.workers|
      ensures s'.workers[i].deployment == s.workers[i].deployment && s'.workers[i].signal == s.workers[i].signal
      ensures Pending(s'.workers[i]) ==> Pending(s.workers[i]) && Visited(s', s'.workers[i].deployment)
    {
      if Pending(s'.workers[i]) { assert Visited(s, s.workers[i].deployment); }
    }
  }

  /** An append or an in-place change that opens no keyed incident. */
  lemma NothingOpens(before: seq<Incident>, after: seq<Incident>)
    requires |before| <= |after|
    requires forall i :: 0 <= i < |before| && after[i].open ==>
               before[i].open && after[i].deployment == before[i].deployment && after[i].ruleKey == before[i].ruleKey
    requires forall i :: |before| <= i < |after| ==> after[i].ruleKey.None?
    ensures UniqueOpen(before) ==> UniqueOpen(after)
    ensures forall d, k :: FirstOpen(before, d, k).None? ==> FirstOpen(after, d, k).None?
  {
  }

  /** A creation keeps open incidents unique exactly when none with its key is open. */
  lemma CreateKeepsUniqueIff(incidents: seq<Incident>, w: Worker)
    requires UniqueOpen(incidents)
    ensures UniqueOpen(incidents + [AutomaticIncident(w)]) <==>
            FirstOpen(incidents, w.deployment, w.signal.ruleKey).None?
  {
    var after := incidents + [AutomaticIncident(w)];
    var existing := FirstOpen(incidents, w.deployment, w.signal.ruleKey);
    if existing.Some? {
      assert after[existing.value] == incidents[existing.value] && after[|incidents|] == AutomaticIncident(w);
    }
  }

  lemma CreateKeeps(s: State, w: nat)
    requires Inv(s) && w < |s.workers| && s.workers[w].pc.AtCreate?
    ensures Inv(Apply(s, CreateIncident(w)))
  {
    var worker := s.workers[w];
    var after := s.incidents + [AutomaticIncident(worker)];
    CreateKeepsUniqueIff(s.incidents, worker);
    forall i | 0 <= i < |s.workers| && i != w && s.workers[i].pc.AtCreate?
      ensures FirstOpen(after, s.workers[i].deployment, s.workers[i].signal.ruleKey).None?
    {
      assert !SameKey(s.workers[if i < w then i else w], s.workers[if i < w then w else i]);
      assert FirstOpen(s.incidents, s.workers[i].deployment, s.workers[i].signal.ruleKey).None?;
      assert forall k :: 0 <= k < |after| ==> after[k] == if k < |s.incidents| then s.incidents[k] else AutomaticIncident(worker);
    }
    SetPcKeeps(s, w, if s.autoRca then AtStart(|s.incidents|) else Done, after);
  }

  /** A visit's workers are apart from each other and from the pending ones, which belong to other deployments. */
  lemma SampleApart(s: State, v: nat, more: seq<Worker>)
    requires WorkersApart(s) && VisitsApart(s) && v < |s.visits| && !s.visits[v].sampled
    requires forall i :: 0 <= i < |more| ==> more[i].pc.AtFind? && more[i].deployment == s.visits[v].deployment
    requires forall i, j :: 0 <= i < j < |more| ==> more[i].signal.ruleKey != more[j].signal.ruleKey
    ensures WorkersApart(s.(visits := s.visits[v := s.visits[v].(sampled := true)], workers := s.workers + more))
  {
    var s' := s.(visits := s.visits[v := s.visits[v].(sampled := true)], workers := s.workers + more);
    forall i, j | 0 <= i < j < |s'.workers| && Pending(s'.workers[i]) && Pending(s'.workers[j])
      ensures !SameKey(s'.workers[i], s'.workers[j])
    {
      if j >= |s.workers| {
        assert s'.workers[j] == more[j - |s.workers|];
        if i >= |s.workers| {
          assert s'.workers[i] == more[i - |s.workers|];
        } else {
          assert Visited(s, s.workers[i].deployment);
        }
      }
    }
  }

  lemma SampleVisits(s: State, v: nat, more: seq<Worker>)
    requires VisitsApart(s) && v < |s.visits| && !s.visits[v].sampled
    requires forall i :: 0 <= i < |more| ==> more[i].deployment == s.visits[v].deployment
    ensures VisitsApart(s.(visits := s.visits[v := s.visits[v].(sampled := true)], workers := s.workers + more))
  {
    var s' := s.(visits := s.visits[v := s.visits[v].(sampled := true)], workers := s.workers + more);
    forall i | 0 <= i < |s'.workers| && Pending(s'.workers[i]) ensures Visited(s', s'.workers[i].deployment) {
      if i < |s.workers| {
        var u :| 0 <= u < |s.visits| && s.visits[u].sampled && s.visits[u].deployment == s.workers[i].deployment;
        assert s'.visits[u] == s.visits[u];
      } else {
        assert s'.workers[i] == more[i - |s.workers|] && s'.visits[v].sampled;
      }
    }
  }

  function Sampled(s: State, v: nat, latest: Option<Sample>, previous: Option<Sample>): seq<Worker>
    requires v < |s.visits|
  {
    if latest.None? then [] else WorkersFor(s.batch, s.visits[v].deployment, SignalsOf(latest.value, previous))
  }

  lemma SampledApart(s: State, v: nat, latest: Option<Sample>, previous: Option<Sample>)
    requires v < |s.visits|
    ensures var more := Sampled(s, v, latest, previous);
            && (forall i :: 0 <= i < |more| ==> more[i].pc.AtFind? && more[i].deployment == s.visits[v].deployment)
            && (forall i, j :: 0 <= i < j < |more| ==> more[i].signal.ruleKey != more[j].signal.ruleKey)
  {
    if latest.Some? { SignalsAreDistinct(latest.value, previous); }
    hide SignalsOf;
  }

  lemma SampleKeeps(s: State, v: nat, latest: Option<Sample>, previous: Option<Sample>)
    requires Inv(s) && v < |s.visits| && !s.visits[v].sampled
    ensures Inv(Apply(s, SampleVisit(v, latest, previous)))
  {
    var s', more := Apply(s, SampleVisit(v, latest, previous)), Sampled(s, v, latest, previous);
    assert s'.workers == s.workers + more;
    SampledApart(s, v, latest, previous);
    hide SignalsOf, FirstOpen, Sampled;
    SampleApart(s, v, more);
    SampleVisits(s, v, more);
    hide WorkersApart, VisitsApart;
    assert forall i :: 0 <= i < |s'.workers| && s'.workers[i].pc.AtCreate? ==> i < |s.workers|;
  }

  /** Only the incident and run tables change, and no keyed incident is opened. */
  lemma RowsKeep(s: State, incidents: seq<Incident>, runs: seq<RcaRun>)
    requires Inv(s) && |s.incidents| <= |incidents|
    requires forall i :: 0 <= i < |s.incidents| && incidents[i].open ==>
               s.incidents[i].open && incidents[i].deployment == s.incidents[i].deployment &&
               incidents[i].ruleKey == s.incidents[i].ruleKey
    requires forall i :: |s.incidents| <= i < |incidents| ==> incidents[i].ruleKey.None?
    ensures Inv(s.(incidents := incidents, runs := runs))
  {
    NothingOpens(s.incidents, incidents);
  }

  lemma BatchKeeps(s: State, deployments: seq<string>)
    requires Inv(s) && Unvisited(s.visits, deployments)
    ensures Inv(s.(batch := s.batch + 1, visits := s.visits + VisitsFor(deployments)))
  {
    var s' := s.(batch := s.batch + 1, visits := s.visits + VisitsFor(deployments));
    forall i | 0 <= i < |s'.workers| && Pending(s'.workers[i]) ensures Visited(s', s'.workers[i].deployment) {
      var v :| 0 <= v < |s.visits| && s.visits[v].sampled && s.visits[v].deployment == s.workers[i].deployment;
      assert s'.visits[v] == s.visits[v];
    }
  }

  lemma FindKeeps(s: State, w: nat)
    requires Inv(s) && w < |s.workers| && s.workers[w].pc.AtFind?
    ensures Inv(Apply(s, Find(w)))
  {
    SetPcKeeps(s, w, Apply(s, Find(w)).workers[w].pc, s.incidents);
  }

  lemma UpdateKeeps(s: State, w: nat)
    requires Inv(s) && w < |s.workers| && s.workers[w].pc.AtUpdate? && s.workers[w].pc.id < |s.incidents|
    ensures Inv(Apply(s, Update(w)))
  {
    var incidents := Apply(s, Update(w)).incidents;
    NothingOpens(s.incidents, incidents);
    SetPcKeeps(s, w, Done, incidents);
  }

  lemma StartKeeps(s: State, w: nat)
    requires Inv(s) && w < |s.workers| && s.workers[w].pc.AtStart?
    ensures Inv(Apply(s, StartRca(w)))
  {
    SetPcKeeps(s, w, Done, s.incidents);
    RowsKeep(SetPc(s, w, Done), s.incidents, Apply(s, StartRca(w)).runs);
  }

  lemma RejectKeeps(s: State, w: nat)
    requires Inv(s) && w < |s.workers|
    ensures Inv(SetPc(s, w, Rejected))
  {
    SetPcKeeps(s, w, Rejected, s.incidents);
  }

  /** A tick keeps the invariant when no worker is pending: then its new pass visits nothing twice. */
  lemma TickKeeps(s: State)
    requires Inv(s) && Orderly(s, Tick)
    ensures Inv(Apply(s, Tick))
  {
  }

  lemma FlagKeeps(s: State, detecting: bool)
    requires Inv(s)
    ensures Inv(s.(detecting := detecting))
  {
    var s' := s.(detecting := detecting);
    forall i | 0 <= i < |s'.workers| && Pending(s'.workers[i]) ensures Visited(s', s'.workers[i].deployment) {
      assert Visited(s, s.workers[i].deployment);
    }
  }

  /** Every step, a rejection included, keeps the invariant when it is orderly. */
  lemma StepKeeps(s: State, a: Action)
    requires Inv(s) && Orderly(s, a)
    ensures Inv(Apply(s, a))
  {
    hide Inv;
    var s' := Apply(s, a);
    match a
    case Tick => TickKeeps(s);
    case Finish => FlagKeeps(s, false);
    case StartBatch(deployments) =>
      if s' != s { BatchKeeps(s, deployments); }
    case SampleVisit(v, latest, previous) =>
      if v < |s.visits| && !s.visits[v].sampled { SampleKeeps(s, v, latest, previous); }
    case Find(w) =>
      if w < |s.workers| && s.workers[w].pc.AtFind? { FindKeeps(s, w); }
    case Update(w) =>
      if w < |s.workers| && s.workers[w].pc.AtUpdate? && s.workers[w].pc.id < |s.incidents| { UpdateKeeps(s, w); }
    case CreateIncident(w) =>
      if w < |s.workers| && s.workers[w].pc.AtCreate? { CreateKeeps(s, w); }
    case StartRca(w) =>
      if w < |s.workers| && s.workers[w].pc.AtStart? { StartKeeps(s, w); }
    case Reject(w) =>
      if w < |s.workers| { RejectKeeps(s, w); }
    case CreateManual(_, _, _) => RowsKeep(s, s'.incidents, s'.runs);
    case StartManual(id) => RowsKeep(s, s'.incidents, s'.runs);
    case StartForDeployment(deployment) => RowsKeep(s, s'.incidents, s'.runs);
    case Resolve(id) => RowsKeep(s, s'.incidents, s'.runs);
  }

  ghost predicate AlwaysOrderly(autoRca: bool, actions: seq<Action>) {
    actions == [] ||
    var n := |actions| - 1;
    AlwaysOrderly(autoRca, actions[..n]) && Orderly(Run(autoRca, actions[..n]), actions[n])
  }

  ghost predicate NothingRejects(actions: seq<Action>) {
    forall k :: 0 <= k < |actions| ==> !actions[k].Reject?
  }

  lemma {:induction false} RunInv(autoRca: bool, actions: seq<Action>)
    requires AlwaysOrderly(autoRca, actions)
    ensures Inv(Run(autoRca, actions))
    decreases |actions|
  {
    if actions != [] {
      hide Inv, Apply, Orderly;
      RunInv(autoRca, actions[..|actions| - 1]);
      StepKeeps(Run(autoRca, actions[..|actions| - 1]), actions[|actions| - 1]);
    }
  }

  /**
   Over every interleaving, whatever rejects: never two open incidents with the same deployment and rule
   key, as long as no pass begins while a worker of an earlier one is still to find or create.
   */
  lemma AtMostOneOpen(autoRca: bool, actions: seq<Action>, deployment: string, key: string, i: nat, j: nat)
    requires AlwaysOrderly(autoRca, actions)
    ensures var incidents := Run(autoRca, actions).incidents;
            i < |incidents| && j < |incidents| && IsOpen(incidents[i], deployment, key) && IsOpen(incidents[j], deployment, key)
            ==> i == j
  {
    RunInv(autoRca, actions);
  }

  // ---------------------------------------------------------------- without rejections

  /**
   The workers from `n` on belong to passes in which nothing has rejected: unfinished ones are in the
   current batch, and none is left between passes.  The earlier ones are of older batches.
   */
  ghost predicate Calm(s: State, n: nat) {
    && n <= |s.workers|
    && (forall i :: 0 <= i < n ==> s.workers[i].batch < s.batch && !Pending(s.workers[i]))
    && (forall i :: n <= i < |s.workers| ==> s.workers[i].batch <= s.batch && !s.workers[i].pc.Rejected?)
    && (forall i :: n <= i < |s.workers| && !s.workers[i].pc.Done? ==> s.detecting && s.workers[i].batch == s.batch)
  }

  lemma SettledIsDone(s: State, n: nat)
    requires Calm(s, n) && Settled(s)
    ensures forall i :: n <= i < |s.workers| ==> s.workers[i].pc.Done?
  {
    forall i | n <= i < |s.workers| ensures s.workers[i].pc.Done? {
      assert s.workers[i] in s.workers;
    }
  }

  lemma SampleCalm(s: State, n: nat, v: nat, latest: Option<Sample>, previous: Option<Sample>)
    requires Calm(s, n) && (s.detecting || forall x :: 0 <= x < |s.visits| ==> s.visits[x].sampled)
    ensures Calm(Apply(s, SampleVisit(v, latest, previous)), n)
  {
    hide SignalsOf;
  }

  /** Between passes every visit has been sampled. */
  ghost predicate Rested(s: State) {
    s.detecting || forall v :: 0 <= v < |s.visits| ==> s.visits[v].sampled
  }

  lemma StepRested(s: State, a: Action)
    requires Rested(s)
    ensures Rested(Apply(s, a))
  {
    if a.Finish? && s.detecting && Settled(s) {
      assert forall v :: 0 <= v < |s.visits| ==> s.visits[v] in s.visits;
    }
  }

  lemma MoveCalm(s: State, n: nat, a: Action)
    requires Calm(s, n) && (a.Find? || a.Update? || a.CreateIncident? || a.StartRca?)
    ensures Calm(Apply(s, a), n)
  {
    var s' := Apply(s, a);
    hide FirstOpen;
    if s' != s {
      var w := a.worker;
      assert s'.workers == s.workers[w := s.workers[w].(pc := s'.workers[w].pc)];
      assert w < n || (s.workers[w].batch == s.batch && s.detecting);
    }
  }

  lemma StepCalm(s: State, n: nat, a: Action)
    requires Calm(s, n) && Rested(s) && !a.Reject?
    ensures Calm(Apply(s, a), n) && Orderly(s, a)
  {
    if (a.StartBatch? || a.Finish?) && Settled(s) {
      SettledIsDone(s, n);
    } else if a.SampleVisit? {
      SampleCalm(s, n, a.visit, a.latest, a.previous);
    } else if a.Find? || a.Update? || a.CreateIncident? || a.StartRca? {
      MoveCalm(s, n, a);
      hide Calm, Apply;
    }
  }

  lemma {:induction false} RunCalm(autoRca: bool, actions: seq<Action>)
    requires NothingRejects(actions)
    ensures AlwaysOrderly(autoRca, actions) && Calm(Run(autoRca, actions), 0) && Rested(Run(autoRca, actions))
    decreases |actions|
  {
    if actions != [] {
      hide Calm, Rested, Apply, Orderly;
      var s := Run(autoRca, actions[..|actions| - 1]);
      RunCalm(autoRca, actions[..|actions| - 1]);
      StepCalm(s, 0, actions[|actions| - 1]);
      StepRested(s, actions[|actions| - 1]);
    }
  }

  /** While nothing rejects every pass is orderly, so open incidents are unique. */
  lemma UniqueWithoutRejection(autoRca: bool, actions: seq<Action>)
    requires NothingRejects(actions)
    ensures AlwaysOrderly(autoRca, actions) && UniqueOpen(Run(autoRca, actions).incidents)
  {
    RunCalm(autoRca, actions);
    RunInv(autoRca, actions);
  }

  // ---------------------------------------------------------------- exactly when a pass may begin

  /** Batch numbers only grow, and every worker's signal came from some pair of samples. */
  ghost predicate Sourced(s: State) {
    forall i :: 0 <= i < |s.workers| ==> s.workers[i].batch <= s.batch && FromSamples(s.workers[i].signal)
  }

  ghost predicate FromSamples(signal: Signal) {
    exists latest: Sample, previous: Option<Sample> :: signal in SignalsOf(latest, previous)
  }

  lemma StepSourced(s: State, a: Action)
    requires Sourced(s)
    ensures Sourced(Apply(s, a))
  {
    var s' := Apply(s, a);
    hide SignalsOf, FirstOpen, Settled;
    forall i | 0 <= i < |s'.workers| ensures s'.workers[i].batch <= s'.batch && FromSamples(s'.workers[i].signal) {
      if i < |s.workers| {
        assert s'.workers[i].signal == s.workers[i].signal && s'.workers[i].batch == s.workers[i].batch;
      } else {
        assert s'.workers[i].signal == SignalsOf(a.latest.value, a.previous)[i - |s.workers|];
      }
    }
  }

  lemma {:induction false} RunSourced(autoRca: bool, actions: seq<Action>)
    ensures Sourced(Run(autoRca, actions)) && Rested(Run(autoRca, actions))
    decreases |actions|
  {
    if actions != [] {
      hide Sourced, Rested, Apply;
      RunSourced(autoRca, actions[..|actions| - 1]);
      StepSourced(Run(autoRca, actions[..|actions| - 1]), actions[|actions| - 1]);
      StepRested(Run(autoRca, actions[..|actions| - 1]), actions[|actions| - 1]);
    }
  }

  lemma {:induction false} CalmStaysUnique(s: State, n: nat, more: seq<Action>)
    requires Inv(s) && Calm(s, n) && Rested(s) && NothingRejects(more)
    ensures var t := RunFrom(s, more); Inv(t) && Calm(t, n) && Rested(t)
    decreases |more|
  {
    if more != [] {
      hide Inv, Calm, Rested, Apply, Orderly;
      var t, a := RunFrom(s, more[..|more| - 1]), more[|more| - 1];
      CalmStaysUnique(s, n, more[..|more| - 1]);
      StepCalm(t, n, a);
      StepRested(t, a);
      StepKeeps(t, a);
    }
  }

  /** A pass has begun, and worker `w` of an earlier one is about to create an incident nothing blocks. */
  ghost predicate Straggling(s: State, w: nat) {
    && s.detecting && s.visits == [] && w < |s.workers| && s.workers[w].pc.AtCreate?
    && FirstOpen(s.incidents, s.workers[w].deployment, s.workers[w].signal.ruleKey).None?
    && (forall i :: 0 <= i < |s.workers| ==> s.workers[i].batch < s.batch)
  }

  lemma ResolveClears(incidents: seq<Incident>, deployment: string, key: string)
    requires UniqueOpen(incidents) && FirstOpen(incidents, deployment, key).Some?
    ensures var id := FirstOpen(incidents, deployment, key).value;
            FirstOpen(incidents[id := incidents[id].(open := false)], deployment, key).None?
  {
  }

  /** Worker `w`, still to find, finds nothing open once what is open has been resolved. */
  lemma FindsNothing(s: State, w: nat) returns (more: seq<Action>)
    requires s.detecting && s.visits == [] && w < |s.workers| && s.workers[w].pc.AtFind? && UniqueOpen(s.incidents)
    requires forall i :: 0 <= i < |s.workers| ==> s.workers[i].batch < s.batch
    ensures NothingRejects(more) && Straggling(RunFrom(s, more), w)
    ensures RunFrom(s, more).workers[w].signal == s.workers[w].signal
  {
    var open := FirstOpen(s.incidents, s.workers[w].deployment, s.workers[w].signal.ruleKey);
    more := [];
    if open.Some? {
      ResolveClears(s.incidents, s.workers[w].deployment, s.workers[w].signal.ruleKey);
      RunSnoc(s, more, Resolve(open.value));
      more := more + [Resolve(open.value)];
    }
    hide Settled, SignalsOf;
    RunSnoc(s, more, Find(w));
    more := more + [Find(w)];
  }

  /** A second worker with the straggler's key, in the new pass. */
  lemma Overtaken(s: State, w: nat, latest: Sample, previous: Option<Sample>) returns (more: seq<Action>, x: nat)
    requires Straggling(s, w) && s.workers[w].signal in SignalsOf(latest, previous)
    ensures NothingRejects(more)
    ensures var t := RunFrom(s, more);
            && w < x < |t.workers| && t.incidents == s.incidents
            && t.workers[w] == s.workers[w] && t.workers[x].pc.AtFind? && SameKey(t.workers[x], t.workers[w])
  {
    var d, signals := s.workers[w].deployment, SignalsOf(latest, previous);
    var k :| 0 <= k < |signals| && signals[k] == s.workers[w].signal;
    x := |s.workers| + k;
    var s1 := Begun(s, w);
    SampleStep(s1, d, latest, previous);
    hide SignalsOf, FirstOpen, Apply, RunFrom;
    more := TwoSteps(s, StartBatch([d]), SampleVisit(0, Some(latest), previous));
    assert RunFrom(s, more).workers[x] == WorkersFor(s1.batch, d, signals)[k];
  }

  lemma SampleStep(s: State, d: string, latest: Sample, previous: Option<Sample>)
    requires s.visits == [Visit(d, false)]
    ensures var t := Apply(s, SampleVisit(0, Some(latest), previous));
            t.workers == s.workers + WorkersFor(s.batch, d, SignalsOf(latest, previous)) && t.incidents == s.incidents
  {
    hide SignalsOf;
  }

  lemma Begun(s: State, w: nat) returns (s1: State)
    requires Straggling(s, w)
    ensures s1 == Apply(s, StartBatch([s.workers[w].deployment]))
    ensures s1 == s.(batch := s.batch + 1, visits := [Visit(s.workers[w].deployment, false)])
  {
    assert forall x :: x in s.workers ==> x.batch != s.batch;
    assert Settled(s);
    s1 := Apply(s, StartBatch([s.workers[w].deployment]));
    assert s1.visits == [Visit(s.workers[w].deployment, false)];
  }

  lemma FindStep(s: State, x: nat)
    requires x < |s.workers| && s.workers[x].pc.AtFind?
    requires FirstOpen(s.incidents, s.workers[x].deployment, s.workers[x].signal.ruleKey).None?
    ensures Apply(s, Find(x)) == SetPc(s, x, AtCreate)
  {
  }

  lemma CreateStep(s: State, x: nat)
    requires x < |s.workers| && s.workers[x].pc.AtCreate?
    ensures var t := Apply(s, CreateIncident(x));
            && t.incidents == s.incidents + [AutomaticIncident(s.workers[x])]
            && |t.workers| == |s.workers|
            && forall i :: 0 <= i < |s.workers| && i != x ==> t.workers[i] == s.workers[i]
  {
  }

  lemma TwoSteps(s: State, a: Action, b: Action) returns (more: seq<Action>)
    requires !a.Reject? && !b.Reject?
    ensures NothingRejects(more) && RunFrom(s, more) == Apply(Apply(s, a), b)
  {
    hide Apply;
    more := [a];
    RunSnoc(s, [], a);
    assert [] + [a] == more;
    RunSnoc(s, more, b);
    more := more + [b];
  }

  lemma ThreeSteps(s: State, a: Action, b: Action, c: Action) returns (more: seq<Action>)
    requires !a.Reject? && !b.Reject? && !c.Reject?
    ensures NothingRejects(more) && RunFrom(s, more) == Apply(Apply(Apply(s, a), b), c)
  {
    hide Apply;
    more := TwoSteps(s, a, b);
    RunSnoc(s, more, c);
    more := more + [c];
  }

  /** Both of them create. */
  lemma BothCreate(s: State, w: nat, x: nat) returns (more: seq<Action>)
    requires w < x < |s.workers| && SameKey(s.workers[x], s.workers[w])
    requires s.workers[w].pc.AtCreate? && s.workers[x].pc.AtFind?
    requires FirstOpen(s.incidents, s.workers[w].deployment, s.workers[w].signal.ruleKey).None?
    ensures NothingRejects(more) && !UniqueOpen(RunFrom(s, more).incidents)
  {
    hide Apply, FirstOpen, UniqueOpen, RunFrom;
    FindStep(s, x);
    var s1 := SetPc(s, x, AtCreate);
    CreateStep(s1, x);
    CreateStep(Apply(s1, CreateIncident(x)), w);
    more := ThreeSteps(s, Find(x), CreateIncident(x), CreateIncident(w));
    TwoOpen(s.incidents, s1.workers[x], s.workers[w]);
  }

  lemma TwoOpen(incidents: seq<Incident>, a: Worker, b: Worker)
    requires SameKey(a, b)
    ensures !UniqueOpen(incidents + [AutomaticIncident(a)] + [AutomaticIncident(b)])
  {
    var after, n := incidents + [AutomaticIncident(a)] + [AutomaticIncident(b)], |incidents|;
    assert after[n] == AutomaticIncident(a) && after[n + 1] == AutomaticIncident(b);
  }

  /** Any worker that is still to find or create when a pass begins can be overtaken by that pass. */
  lemma PendingIsOvertaken(s: State, w: nat) returns (more: seq<Action>)
    requires Inv(s) && Sourced(s) && !s.detecting && w < |s.workers| && Pending(s.workers[w])
    ensures NothingRejects(more) && !UniqueOpen(RunFrom(Apply(s, Tick), more).incidents)
  {
    var t := Apply(s, Tick);
    var first: seq<Action> := [];
    if s.workers[w].pc.AtFind? { first := FindsNothing(t, w); }
    hide Apply;
    var s1 := RunFrom(t, first);
    assert FromSamples(s1.workers[w].signal);
    var latest: Sample, previous: Option<Sample> :| s1.workers[w].signal in SignalsOf(latest, previous);
    var second, x := Overtaken(s1, w, latest, previous);
    var third := BothCreate(RunFrom(s1, second), w, x);
    RunConcat(t, first, second);
    RunConcat(t, first + second, third);
    more := first + second + third;
  }

  /**
   Beginning a pass is safe, in the sense that nothing that follows without another rejection opens a second
   incident with a key, exactly when no worker is still to find or create.
   */
  lemma TickIsSafeIff(autoRca: bool, actions: seq<Action>)
    requires AlwaysOrderly(autoRca, actions) && !Run(autoRca, actions).detecting
    ensures var s := Run(autoRca, actions);
            (forall more | NothingRejects(more) :: UniqueOpen(RunFrom(Apply(s, Tick), more).incidents)) <==> NonePending(s)
  {
    var s := Run(autoRca, actions);
    RunInv(autoRca, actions);
    RunSourced(autoRca, actions);
    if NonePending(s) {
      StepKeeps(s, Tick);
      StepRested(s, Tick);
      assert Calm(Apply(s, Tick), |s.workers|);
      forall more | NothingRejects(more) ensures UniqueOpen(RunFrom(Apply(s, Tick), more).incidents) {
        CalmStaysUnique(Apply(s, Tick), |s.workers|, more);
      }
    } else {
      var w :| 0 <= w < |s.workers| && Pending(s.workers[w]);
      var more := PendingIsOvertaken(s, w);
    }
  }

  // ---------------------------------------------------------------- automatic runs

  /** Automatic runs of one incident, or of all of them. */
  function AutoRuns(runs: seq<RcaRun>, id: Option<nat>): nat {
    if runs == [] then 0
    else
      var last := runs[|runs| - 1];
      AutoRuns(runs[..|runs| - 1], id) +
      if last.source == Automatic && (id.None? || id.value == last.incident) then 1 else 0
  }

  predicate StartsFor(pc: Pc, id: Option<nat>) {
    pc.AtStart? && (id.None? || id.value == pc.id)
  }

  /** Workers that have created an incident (this one, or any) and are about to start its run. */
  function Starting(workers: seq<Worker>, id: Option<nat>): nat {
    if workers == [] then 0
    else Starting(workers[..|workers| - 1], id) + if StartsFor(workers[|workers| - 1].pc, id) then 1 else 0
  }

  function AutomaticIncidents(incidents: seq<Incident>, id: Option<nat>): nat {
    if incidents == [] then 0
    else
      var last := |incidents| - 1;
      AutomaticIncidents(incidents[..last], id) +
      if incidents[last].source == Automatic && (id.None? || id.value == last) then 1 else 0
  }

  lemma {:induction false} StartingUpdate(workers: seq<Worker>, w: nat, pc: Pc, id: Option<nat>)
    requires w < |workers|
    ensures Starting(workers[w := workers[w].(pc := pc)], id) + (if StartsFor(workers[w].pc, id) then 1 else 0) ==
            Starting(workers, id) + (if StartsFor(pc, id) then 1 else 0)
    decreases |workers|
  {
    var n := |workers| - 1;
    var updated := workers[w := workers[w].(pc := pc)];
    if w == n {
      assert updated[..n] == workers[..n];
    } else {
      StartingUpdate(workers[..n], w, pc, id);
      assert updated[..n] == workers[..n][w := workers[w].(pc := pc)];
    }
  }

  lemma {:induction false} StartingAppend(workers: seq<Worker>, more: seq<Worker>, id: Option<nat>)
    requires forall i :: 0 <= i < |more| ==> more[i].pc.AtFind?
    ensures Starting(workers + more, id) == Starting(workers, id)
    decreases |more|
  {
    if more == [] {
      assert workers + more == workers;
    } else {
      var n := |more| - 1;
      StartingAppend(workers, more[..n], id);
      assert (workers + more)[..|workers + more| - 1] == workers + more[..n];
    }
  }

  lemma {:induction false} SameSources(a: seq<Incident>, b: seq<Incident>, id: Option<nat>)
    requires |a| == |b| && forall i :: 0 <= i < |a| ==> a[i].source == b[i].source
    ensures AutomaticIncidents(a, id) == AutomaticIncidents(b, id)
    decreases |a|
  {
    if a != [] { SameSources(a[..|a| - 1], b[..|b| - 1], id); }
  }

  lemma IncidentAppended(incidents: seq<Incident>, i: Incident, id: Option<nat>)
    ensures AutomaticIncidents(incidents + [i], id) ==
            AutomaticIncidents(incidents, id) +
            if i.source == Automatic && (id.None? || id.value == |incidents|) then 1 else 0
  {
    assert (incidents + [i])[..|incidents + [i]| - 1] == incidents;
  }

  lemma RunAppended(runs: seq<RcaRun>, r: RcaRun, id: Option<nat>)
    ensures AutoRuns(runs + [r], id) ==
            AutoRuns(runs, id) + if r.source == Automatic && (id.None? || id.value == r.incident) then 1 else 0
  {
    assert (runs + [r])[..|runs + [r]| - 1] == runs;
  }

  /** The step rejects a worker that was about to start a run (of this incident, or of any). */
  predicate RejectsStart(s: State, a: Action, id: Option<nat>) {
    a.Reject? && a.worker < |s.workers| && StartsFor(s.workers[a.worker].pc, id)
  }

  /** How many steps of a run did. */
  function RejectedStarts(autoRca: bool, actions: seq<Action>, id: Option<nat>): nat {
    if actions == [] then 0
    else
      var n := |actions| - 1;
      RejectedStarts(autoRca, actions[..n], id) +
      if RejectsStart(Run(autoRca, actions[..n]), actions[n], id) then 1 else 0
  }

  /** With automatic RCA on, runs, starts in flight and lost starts add up to the automatic incidents. */
  ghost predicate Accounted(s: State, lost: nat, id: Option<nat>) {
    AutoRuns(s.runs, id) + Starting(s.workers, id) + lost == if s.autoRca then AutomaticIncidents(s.incidents, id) else 0
  }

  lemma CreateAccounted(s: State, w: nat, lost: nat, id: Option<nat>)
    requires Accounted(s, lost, id) && w < |s.workers| && s.workers[w].pc.AtCreate?
    ensures Accounted(Apply(s, CreateIncident(w)), lost, id)
  {
    StartingUpdate(s.workers, w, if s.autoRca then AtStart(|s.incidents|) else Done, id);
    IncidentAppended(s.incidents, AutomaticIncident(s.workers[w]), id);
    hide Starting, AutoRuns, AutomaticIncidents;
  }

  lemma StartAccounted(s: State, w: nat, lost: nat, id: Option<nat>)
    requires Accounted(s, lost, id) && w < |s.workers| && s.workers[w].pc.AtStart?
    ensures Accounted(Apply(s, StartRca(w)), lost, id)
  {
    StartingUpdate(s.workers, w, Done, id);
    RunAppended(s.runs, RcaRun(s.workers[w].pc.id, Automatic), id);
    hide Starting, AutoRuns, AutomaticIncidents;
  }

  lemma WorkerAccounted(s: State, a: Action, lost: nat, id: Option<nat>)
    requires Accounted(s, lost, id)
    requires a.Find? || a.Update? || a.CreateIncident? || a.StartRca? || a.Reject?
    ensures Accounted(Apply(s, a), lost + if RejectsStart(s, a, id) then 1 else 0, id)
  {
    var s' := Apply(s, a);
    hide FirstOpen, Starting, AutoRuns, AutomaticIncidents;
    if s' != s {
      if a.CreateIncident? { CreateAccounted(s, a.worker, lost, id); }
      else if a.StartRca? { StartAccounted(s, a.worker, lost, id); }
      else {
        StartingUpdate(s.workers, a.worker, s'.workers[a.worker].pc, id);
        if a.Update? { SameSources(s.incidents, s'.incidents, id); }
      }
    }
  }

  lemma OtherAccounted(s: State, a: Action, lost: nat, id: Option<nat>)
    requires Accounted(s, lost, id)
    requires a.StartManual? || a.StartForDeployment? || a.CreateManual? || a.Resolve?
    ensures Accounted(Apply(s, a), lost, id)
  {
    var s' := Apply(s, a);
    hide Starting, AutoRuns, AutomaticIncidents;
    if s'.runs != s.runs { RunAppended(s.runs, s'.runs[|s.runs|], id); }
    if a.Resolve? { SameSources(s.incidents, s'.incidents, id); }
    if a.StartForDeployment? || a.CreateManual? { IncidentAppended(s.incidents, s'.incidents[|s.incidents|], id); }
  }

  lemma SampleAccounted(s: State, a: Action, lost: nat, id: Option<nat>)
    requires Accounted(s, lost, id) && a.SampleVisit?
    ensures Accounted(Apply(s, a), lost, id)
  {
    hide SignalsOf, AutoRuns, AutomaticIncidents;
    var s' := Apply(s, a);
    var more := s'.workers[|s.workers|..];
    assert s'.workers == s.workers + more;
    StartingAppend(s.workers, more, id);
  }

  lemma StepAccounted(s: State, a: Action, lost: nat, id: Option<nat>)
    requires Accounted(s, lost, id)
    ensures Accounted(Apply(s, a), lost + if RejectsStart(s, a, id) then 1 else 0, id)
  {
    if a.Find? || a.Update? || a.CreateIncident? || a.StartRca? || a.Reject? {
      WorkerAccounted(s, a, lost, id);
    } else if a.StartManual? || a.StartForDeployment? || a.CreateManual? || a.Resolve? {
      OtherAccounted(s, a, lost, id);
    } else if a.SampleVisit? {
      SampleAccounted(s, a, lost, id);
    }
  }

  lemma {:induction false} RunAccounted(autoRca: bool, actions: seq<Action>, id: Option<nat>)
    ensures Accounted(Run(autoRca, actions), RejectedStarts(autoRca, actions, id), id)
    decreases |actions|
  {
    if actions != [] {
      hide Accounted, Apply, RejectsStart;
      var init := actions[..|actions| - 1];
      RunAccounted(autoRca, init, id);
      StepAccounted(Run(autoRca, init), actions[|actions| - 1], RejectedStarts(autoRca, init, id), id);
    }
  }

  lemma {:induction false} AutoRcaIsFixed(autoRca: bool, actions: seq<Action>)
    ensures Run(autoRca, actions).autoRca == autoRca
    decreases |actions|
  {
    if actions != [] { AutoRcaIsFixed(autoRca, actions[..|actions| - 1]); }
  }

  lemma OneIncident(incidents: seq<Incident>, id: nat)
    ensures AutomaticIncidents(incidents, Some(id)) ==
            if id < |incidents| && incidents[id].source == Automatic then 1 else 0
  {
  }

  /**
   With automatic RCA on, over every interleaving and whatever rejects: each automatic incident has one run,
   one start in flight or one rejected start, and no other incident has any.
   */
  lemma EveryAutomaticIncidentHasItsRun(actions: seq<Action>, id: nat)
    ensures var s := Run(true, actions);
            && AutoRuns(s.runs, None) + Starting(s.workers, None) + RejectedStarts(true, actions, None) ==
               AutomaticIncidents(s.incidents, None)
            && AutoRuns(s.runs, Some(id)) + Starting(s.workers, Some(id)) + RejectedStarts(true, actions, Some(id)) ==
               (if id < |s.incidents| && s.incidents[id].source == Automatic then 1 else 0)
  {
    RunAccounted(true, actions, None);
    RunAccounted(true, actions, Some(id));
    AutoRcaIsFixed(true, actions);
    OneIncident(Run(true, actions).incidents, id);
  }

  /** With automatic RCA off there are no automatic runs, whatever rejects. */
  lemma NoAutomaticRunsWhenOff(actions: seq<Action>)
    ensures AutoRuns(Run(false, actions).runs, None) == 0
  {
    RunAccounted(false, actions, None);
    AutoRcaIsFixed(false, actions);
  }

  // ---------------------------------------------------------------- a rejection ends the pass early

  /** How many steps of a run reject. */
  function Rejections(actions: seq<Action>): nat {
    if actions == [] then 0
    else Rejections(actions[..|actions| - 1]) + if actions[|actions| - 1].Reject? then 1 else 0
  }

  lemma {:induction false} RejectionsConcat(a: seq<Action>, b: seq<Action>)
    ensures Rejections(a + b) == Rejections(a) + Rejections(b)
    decreases |b|
  {
    if b == [] {
      assert a + b == a;
    } else {
      assert (a + b)[..|a + b| - 1] == a + b[..|b| - 1];
      RejectionsConcat(a, b[..|b| - 1]);
    }
  }

  lemma {:induction false} NoRejections(actions: seq<Action>)
    requires NothingRejects(actions)
    ensures Rejections(actions) == 0
    decreases |actions|
  {
    if actions != [] { NoRejections(actions[..|actions| - 1]); }
  }

  const TWO_SIGNALS := Sample("ok", 1, 0, 1, 0)

  lemma Extend(actions: seq<Action>, a: Action)
    ensures Run(true, actions + [a]) == Apply(Run(true, actions), a)
    ensures AlwaysOrderly(true, actions) && Orderly(Run(true, actions), a) ==> AlwaysOrderly(true, actions + [a])
  {
    assert (actions + [a])[..|actions + [a]| - 1] == actions;
  }

  /** Two workers of one deployment, both about to look for an open incident. */
  lemma FirstPass() returns (a: seq<Action>)
    ensures AlwaysOrderly(true, a) && NothingRejects(a)
    ensures var s := Run(true, a);
            && s.detecting && s.incidents == [] && s.visits == [Visit("d", true)]
            && |s.workers| == 2 && forall i :: 0 <= i < 2 ==>
                 s.workers[i].pc.AtFind? && s.workers[i].deployment == "d" && s.workers[i].batch == s.batch
  {
    a := [];
    Extend(a, Tick);
    a := a + [Tick];
    Extend(a, StartBatch(["d"]));
    a := a + [StartBatch(["d"])];
    assert Run(true, a).visits == [Visit("d", false)];
    Extend(a, SampleVisit(0, Some(TWO_SIGNALS), None));
    a := a + [SampleVisit(0, Some(TWO_SIGNALS), None)];
    var signals := SignalsOf(TWO_SIGNALS, None);
    assert |signals| == 2;
    assert Run(true, a).workers == WorkersFor(2, "d", signals);
  }

  lemma RejectedSettles(s: State)
    requires s.visits == [Visit("d", true)] && |s.workers| == 2
    requires s.workers[0].deployment == "d" && s.workers[1].deployment == "d"
    requires s.workers[1].pc.Rejected? && s.workers[1].batch == s.batch
    ensures Settled(s)
  {
    assert s.workers[1] in s.workers;
  }

  lemma OneRejection(a: seq<Action>)
    requires NothingRejects(a)
    ensures Rejections(a + [Reject(1)] + [Finish]) == 1
  {
    NoRejections(a);
    assert (a + [Reject(1)])[..|a + [Reject(1)]| - 1] == a;
    assert (a + [Reject(1)] + [Finish])[..|a + [Reject(1)]|] == a + [Reject(1)];
  }

  /** The second worker rejects, the pass ends, and the first is still about to look. */
  lemma RejectionLeavesPending() returns (a: seq<Action>)
    ensures AlwaysOrderly(true, a) && !Run(true, a).detecting && !NonePending(Run(true, a))
    ensures Rejections(a) == 1
  {
    a := FirstPass();
    OneRejection(a);
    var s := Run(true, a);
    RejectsSecond(s);
    var s1 := SetPc(s, 1, Rejected);
    RejectedSettles(s1);
    FinishesSettled(s1);
    hide Settled, Apply, Run, AlwaysOrderly;
    Extend(a, Reject(1));
    a := a + [Reject(1)];
    Extend(a, Finish);
    a := a + [Finish];
    assert Pending(s1.workers[0]);
  }

  lemma RejectsSecond(s: State)
    requires |s.workers| == 2 && s.workers[1].pc.AtFind?
    ensures Apply(s, Reject(1)) == SetPc(s, 1, Rejected)
  {
  }

  lemma FinishesSettled(s: State)
    requires s.detecting && Settled(s)
    ensures Apply(s, Finish) == s.(detecting := false)
  {
  }

  /** A single rejected step is enough for a second open incident with the same key. */
  lemma RejectionBreaksUniqueness()
    ensures exists actions: seq<Action> :: Rejections(actions) == 1 && !UniqueOpen(Run(true, actions).incidents)
  {
    var a := RejectionLeavesPending();
    TickIsSafeIff(true, a);
    hide UniqueOpen, Rejections;
    var more :| NothingRejects(more) && !UniqueOpen(RunFrom(Apply(Run(true, a), Tick), more).incidents);
    Extend(a, Tick);
    RunConcat(START(true), a + [Tick], more);
    RejectionsConcat(a, [Tick]);
    NoRejections([Tick]);
    RejectionsConcat(a + [Tick], more);
    NoRejections(more);
    assert Rejections(a + [Tick] + more) == 1 && !UniqueOpen(Run(true, a + [Tick] + more).incidents);
  }
}
