/**
 The incident service as it changes state; each method is one step of the Incidents protocol.  The
 protocol's invariant is the service's: every method keeps it, and beginning a pass does when no worker of
 an earlier pass is still to find or create.
 */
module IncidentsService {
  import opened Common
  import I = Incidents

  class IncidentsService {
    const autoRca: bool
    var isDetecting: bool
    var batch: nat                  // which `Promise.all` is running
    var visits: seq<I.Visit>
    var workers: seq<I.Worker>
    var incidents: seq<I.Incident>
    var runs: seq<I.RcaRun>

    function State(): I.State
      reads this
    {
      I.State(autoRca, isDetecting, batch, visits, workers, incidents, runs)
    }

    /** Open incidents are unique, and nothing in flight can change that. */
    ghost predicate Valid()
      reads this
    {
      I.Inv(State())
    }

    constructor (autoRca: bool)
      ensures State() == I.START(autoRca) && Valid()
    {
      this.autoRca := autoRca;
      isDetecting, batch, visits, workers, incidents, runs := false, 0, [], [], [], [];
    }

    // Pushes a signal for each condition that holds.
    static method BuildSignals(latest: I.Sample, previous: Option<I.Sample>) returns (signals: seq<I.Signal>)
      ensures signals == I.SignalsOf(latest, previous)
    {
      signals := [];
      if latest.desired > 0 && latest.ready < latest.desired {
        signals := signals + [I.Signal(I.READY_KEY, I.Critical, I.ReadyReplicas(latest.ready, latest.desired))];
      }
      if latest.warningEvents > 0 {
        signals := signals + [I.Signal(I.EVENTS_KEY, I.Warning, I.WarningEvents(latest.warningEvents))];
      }
      if previous.Some? && latest.restarts > previous.value.restarts {
        signals := signals + [I.Signal(I.RESTARTS_KEY, I.Warning, I.RestartsIncreased(previous.value.restarts, latest.restarts))];
      }
      if latest.status == "failed" || latest.status == "warning" {
        signals := signals + [I.Signal(I.StatusKey(latest.status), if latest.status == "failed" then I.Critical else I.Warning,
                                       I.HealthStatus(latest.status))];
      }
    }

    // detectIncidents up to the workspace list: a second caller returns at once.
    method BeginPass()
      modifies this
      ensures State() == I.Apply(old(State()), I.Tick)
      ensures isDetecting && (if old(isDetecting) then State() == old(State()) else visits == [] && workers == old(workers))
      ensures old(Valid()) && I.Orderly(old(State()), I.Tick) ==> Valid()
    {
      hide I.Inv;
      if Valid() && I.Orderly(State(), I.Tick) { I.StepKeeps(State(), I.Tick); }
      if isDetecting { return; }
      isDetecting := true;
      batch := batch + 1;
      visits := [];
    }

    // One workspace: a visit for each of its distinct deployments, once the previous batch has settled.
    method StartBatch(deployments: seq<string>)
      requires isDetecting && I.Settled(State()) && I.Unvisited(visits, deployments)
      modifies this
      ensures State() == I.Apply(old(State()), I.StartBatch(deployments))
      ensures |visits| == |old(visits)| + |deployments| && old(visits) <= visits
      ensures forall i :: 0 <= i < |deployments| ==> visits[|old(visits)| + i] == I.Visit(deployments[i], false)
      ensures old(Valid()) ==> Valid()
    {
      hide I.Inv;
      if Valid() { I.StepKeeps(State(), I.StartBatch(deployments)); }
      batch := batch + 1;
      var k := 0;
      while k < |deployments|
        invariant 0 <= k <= |deployments|
        invariant visits == old(visits) + I.VisitsFor(deployments)[..k]
        modifies this`visits
      {
        visits := visits + [I.Visit(deployments[k], false)];
        k := k + 1;
      }
    }

    // detectDeploymentIncidents: read the samples and open one worker per signal.
    method Visit(v: nat, latest: Option<I.Sample>, previous: Option<I.Sample>)
      requires v < |visits| && !visits[v].sampled
      modifies this
      ensures State() == I.Apply(old(State()), I.SampleVisit(v, latest, previous))
      ensures latest.None? ==> workers == old(workers)
      ensures latest.Some? ==>
                workers == old(workers) + I.WorkersFor(batch, old(visits)[v].deployment, I.SignalsOf(latest.value, previous))
      ensures old(Valid()) ==> Valid()
    {
      hide I.Inv, I.SignalsOf;
      if Valid() { I.StepKeeps(State(), I.SampleVisit(v, latest, previous)); }
      visits := visits[v := visits[v].(sampled := true)];
      if latest.None? { return; }
      var signals := BuildSignals(latest.value, previous);
      ghost var before, added := workers, I.WorkersFor(batch, visits[v].deployment, signals);
      var k := 0;
      while k < |signals|
        invariant 0 <= k <= |signals|
        invariant workers == before + added[..k]
        modifies this`workers
      {
        workers := workers + [I.Worker(batch, visits[v].deployment, signals[k], I.AtFind)];
        k := k + 1;
      }
    }

    // A query of a worker rejects: the worker is abandoned, and its visit settles without waiting for the others.
    method Abandon(w: nat)
      requires w < |workers| && !workers[w].pc.Done?
      modifies this
      ensures State() == I.Apply(old(State()), I.Reject(w))
      ensures old(Valid()) ==> Valid()
    {
      hide I.Inv;
      if Valid() { I.StepKeeps(State(), I.Reject(w)); }
      workers := workers[w := workers[w].(pc := I.Rejected)];
    }

    // openAutomaticIncident, first segment: the lookup.
    method FindExisting(w: nat)
      requires w < |workers| && workers[w].pc.AtFind?
      modifies this
      ensures State() == I.Apply(old(State()), I.Find(w))
      ensures workers[w].pc.AtCreate? <==>
                forall i :: 0 <= i < |incidents| ==>
                  !I.IsOpen(incidents[i], old(workers)[w].deployment, old(workers)[w].signal.ruleKey)
      ensures workers[w].pc.AtUpdate? ==>
                && workers[w].pc.id < |incidents|
                && I.IsOpen(incidents[workers[w].pc.id], old(workers)[w].deployment, old(workers)[w].signal.ruleKey)
      ensures old(Valid()) ==> Valid()
    {
      hide I.Inv;
      if Valid() { I.StepKeeps(State(), I.Find(w)); }
      var deployment, key := workers[w].deployment, workers[w].signal.ruleKey;
      var i := 0;
      while i < |incidents| && !I.IsOpen(incidents[i], deployment, key)
        invariant 0 <= i <= |incidents|
        invariant forall k :: 0 <= k < i ==> !I.IsOpen(incidents[k], deployment, key)
      {
        i := i + 1;
      }
      FirstOpenIs(incidents, deployment, key, i);
      workers := workers[w := workers[w].(pc := if i < |incidents| then I.AtUpdate(i) else I.AtCreate)];
    }

    static lemma {:induction false} FirstOpenIs(incidents: seq<I.Incident>, deployment: string, key: string, i: nat)
      requires i <= |incidents| && forall k :: 0 <= k < i ==> !I.IsOpen(incidents[k], deployment, key)
      requires i < |incidents| ==> I.IsOpen(incidents[i], deployment, key)
      ensures I.FirstOpen(incidents, deployment, key) == if i < |incidents| then Some(i) else None
      decreases |incidents|
    {
      if i < |incidents| && i < |incidents| - 1 {
        FirstOpenIs(incidents[..|incidents| - 1], deployment, key, i);
      }
    }

    // Second segment, when an open incident was found; its status is not touched.
    method UpdateExisting(w: nat)
      requires w < |workers| && workers[w].pc.AtUpdate? && workers[w].pc.id < |incidents|
      modifies this
      ensures State() == I.Apply(old(State()), I.Update(w))
      ensures var id, signal := old(workers)[w].pc.id, old(workers)[w].signal;
              && |incidents| == |old(incidents)|
              && incidents[id] == old(incidents)[id].(severity := signal.severity, summary := signal.summary)
              && forall i :: 0 <= i < |incidents| && i != id ==> incidents[i] == old(incidents)[i]
      ensures old(Valid()) ==> Valid()
    {
      hide I.Inv;
      if Valid() { I.StepKeeps(State(), I.Update(w)); }
      var id, signal := workers[w].pc.id, workers[w].signal;
      incidents := incidents[id := incidents[id].(severity := signal.severity, summary := signal.summary)];
      workers := workers[w := workers[w].(pc := I.Done)];
    }

    // Second segment, when none was found.
    method CreateAutomatic(w: nat)
      requires w < |workers| && workers[w].pc.AtCreate?
      modifies this
      ensures State() == I.Apply(old(State()), I.CreateIncident(w))
      ensures var worker := old(workers)[w];
              incidents == old(incidents) + [I.Incident(worker.deployment, Some(worker.signal.ruleKey), I.Automatic, true,
                                                        worker.signal.severity, worker.signal.summary)]
      ensures old(Valid()) ==> Valid()
    {
      hide I.Inv;
      if Valid() { I.StepKeeps(State(), I.CreateIncident(w)); }
      var id, worker := |incidents|, workers[w];
      incidents := incidents + [I.Incident(worker.deployment, Some(worker.signal.ruleKey), I.Automatic, true,
                                           worker.signal.severity, worker.signal.summary)];
      workers := workers[w := worker.(pc := if autoRca then I.AtStart(id) else I.Done)];
    }

    // Last segment, with automatic RCA on.
    method StartAutomaticRca(w: nat)
      requires w < |workers| && workers[w].pc.AtStart?
      modifies this
      ensures State() == I.Apply(old(State()), I.StartRca(w))
      ensures runs == old(runs) + [I.RcaRun(old(workers)[w].pc.id, I.Automatic)]
      ensures old(Valid()) ==> Valid()
    {
      hide I.Inv;
      if Valid() { I.StepKeeps(State(), I.StartRca(w)); }
      runs := runs + [I.RcaRun(workers[w].pc.id, I.Automatic)];
      workers := workers[w := workers[w].(pc := I.Done)];
    }

    // The `finally` of the pass, once its last batch has settled.
    method EndPass()
      requires isDetecting && I.Settled(State())
      modifies this
      ensures State() == I.Apply(old(State()), I.Finish)
      ensures !isDetecting && workers == old(workers) && incidents == old(incidents) && runs == old(runs)
      ensures old(Valid()) ==> Valid()
    {
      hide I.Inv;
      if Valid() { I.StepKeeps(State(), I.Finish); }
      isDetecting := false;
    }

    method CreateManualIncident(deployment: string, severity: Option<I.Severity>, summary: Option<string>)
      modifies this
      ensures State() == I.Apply(old(State()), I.CreateManual(deployment, severity, summary))
      ensures incidents == old(incidents) + [I.Incident(deployment, None, I.Manual, true,
                                                        if severity.Some? then severity.value else I.Warning, I.Given(summary))]
      ensures old(Valid()) ==> Valid()
    {
      hide I.Inv;
      if Valid() { I.StepKeeps(State(), I.CreateManual(deployment, severity, summary)); }
      incidents := incidents + [I.Incident(deployment, None, I.Manual, true, severity.GetOr(I.Warning), I.Given(summary))];
    }

    method Resolve(id: nat) returns (found: bool)
      modifies this
      ensures found == (id < |incidents|) && State() == I.Apply(old(State()), I.Resolve(id))
      ensures |incidents| == |old(incidents)|
      ensures forall i :: 0 <= i < |incidents| ==>
                incidents[i] == if i == id then old(incidents)[i].(open := false) else old(incidents)[i]
      ensures old(Valid()) ==> Valid()
    {
      hide I.Inv;
      if Valid() { I.StepKeeps(State(), I.Resolve(id)); }
      found := id < |incidents|;
      if found { incidents := incidents[id := incidents[id].(open := false)]; }
    }
  }
}
