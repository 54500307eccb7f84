/**
 The agent service as it changes state: the repository's transactions and the segments of
 `run_rca` between two suspension points.  Each method is one action of RunProtocol.
 */
module RcaAgent {
  import opened Common
  import RP = RunProtocol
  import RO = RunOutcomes

  class RunRepository {
    var rows: map<RP.Id, RP.Row>
    var order: seq<RP.Id>
    var log: seq<RP.Event>

    function Db(): RP.Db
      reads this
    {
      RP.Db(rows, order, log)
    }

    /** Every row says what its event log says. */
    ghost predicate Valid()
      reads this
    {
      RP.Logged(Db())
    }

    constructor ()
      ensures Db() == RP.START.db && Valid()
    {
      rows, order, log := map[], [], [];
    }

    // The insert fails when the event's run does not exist in its workspace (foreign key).
    method AddRunEvent(e: RP.Event) returns (ok: bool)
      modifies this`log
      ensures ok == (e.run in rows && rows[e.run].workspace == e.workspace)
      ensures log == if ok then old(log) + [e] else old(log)
    {
      ok := e.run in rows && rows[e.run].workspace == e.workspace;
      if ok { log := log + [e]; }
    }

    // startForIncident, startForDeployment: the row and its first event in one transaction.
    method CreateRun(workspace: RP.Id, incident: RP.Id, id: RP.Id, now: int)
      modifies this
      ensures Db() == RP.CreateRun(old(Db()), workspace, incident, id, now)
      ensures id !in old(rows) ==>
                && rows == old(rows)[id := RP.Row(workspace, incident, RP.Pending, None, None, None, None)]
                && order == old(order) + [id] && log == old(log) + [RP.Event(id, workspace, RP.RunCreated, now, "")]
      ensures old(Valid()) ==> Valid()
    {
      if Valid() { RP.CreateLogged(Db(), workspace, incident, id, now); }
      if id in rows { return; }
      rows := rows[id := RP.Row(workspace, incident, RP.Pending, None, None, None, None)];
      order := order + [id];
      var ok := AddRunEvent(RP.Event(id, workspace, RP.RunCreated, now, ""));
    }

    method MarkRunning(workspace: RP.Id, id: RP.Id, now: int) returns (claimed: bool)
      modifies this
      ensures (Db(), claimed) == RP.MarkRunning(old(Db()), workspace, id, now)
      ensures claimed <==>
                && id in old(rows) && old(rows)[id].workspace == workspace
                && (old(rows)[id].status == RP.Pending || old(rows)[id].status == RP.Failed)
      ensures old(Valid()) ==> Valid()
    {
      if Valid() { RP.ClaimLogged(Db(), workspace, id, now); }
      claimed := id in rows && rows[id].workspace == workspace && rows[id].status in {RP.Pending, RP.Failed};
      if claimed {
        var startedAt := if rows[id].startedAt.None? then Some(now) else rows[id].startedAt;
        rows := rows[id := rows[id].(status := RP.Running, startedAt := startedAt, errorMessage := None)];
        var ok := AddRunEvent(RP.Event(id, workspace, RP.RunRunning, now, ""));
      }
    }

    // `ok` is false when the transaction raises and rolls back.
    method CompleteRun(workspace: RP.Id, id: RP.Id, result: string, now: int) returns (ok: bool)
      modifies this
      ensures (Db(), ok) == RP.CompleteRun(old(Db()), workspace, id, result, now)
      ensures ok <==> id in old(rows) && old(rows)[id].workspace == workspace
      ensures old(Valid()) ==> (Valid() <==> (ok ==> old(rows)[id].status == RP.Running))
    {
      if Valid() && RP.Matches(Db(), workspace, id) { RP.CompleteLoggedIff(Db(), workspace, id, result, now); }
      var before := rows;
      if id in rows && rows[id].workspace == workspace {
        rows := rows[id := rows[id].(status := RP.Completed, result := Some(result),
                                     completedAt := Some(now), errorMessage := None)];
      }
      ok := AddRunEvent(RP.Event(id, workspace, RP.RunCompleted, now, ""));
      if !ok { rows := before; }
    }

    method FailRun(workspace: RP.Id, id: RP.Id, message: string, now: int) returns (ok: bool)
      modifies this
      ensures (Db(), ok) == RP.FailRun(old(Db()), workspace, id, message, now)
      ensures ok <==> id in old(rows) && old(rows)[id].workspace == workspace
      ensures old(Valid()) ==> (Valid() <==> (ok ==> old(rows)[id].status == RP.Running))
    {
      if Valid() && RP.Matches(Db(), workspace, id) { RP.FailLogged(Db(), workspace, id, message, now); }
      var before := rows;
      if id in rows && rows[id].workspace == workspace {
        rows := rows[id := rows[id].(status := RP.Failed, errorMessage := Some(message), completedAt := Some(now))];
      }
      ok := AddRunEvent(RP.Event(id, workspace, RP.RunFailed, now, RP.Truncate(message, 500)));
      if !ok { rows := before; }
    }

    // The first `limit` pending rows of the workspace, oldest first.
    method PendingRuns(workspace: RP.Id, limit: nat) returns (ids: seq<RP.Id>)
      ensures ids == RP.Take(RP.PendingIn(rows, order, workspace), limit)
    {
      ids := [];
      var i := 0;
      while i < |order| && |ids| < limit
        invariant 0 <= i <= |order|
        invariant ids == RP.PendingIn(rows, order[..i], workspace) && |ids| <= limit
      {
        assert order[..i + 1][..i] == order[..i];
        var id := order[i];
        if id in rows && rows[id].workspace == workspace && rows[id].status == RP.Pending {
          ids := ids + [id];
        }
        i := i + 1;
      }
      RP.PendingPrefix(rows, order, i, workspace);
      assert order[..|order|] == order;
    }
  }

  // The protocol's invariant is the agent's: every method keeps it, except the handler, which keeps it
  // exactly when its fail_run is harmless.
  class Agent {
    const repo: RunRepository
    var tasks: seq<RP.Task>

    function State(): RP.State
      reads this, repo
    {
      RP.State(repo.Db(), tasks)
    }

    /** At most one owner per run, owned runs are running, and every row says what its log says. */
    ghost predicate Valid()
      reads this, repo
    {
      RP.Inv(State())
    }

    constructor ()
      ensures State() == RP.START && fresh(repo) && Valid()
    {
      repo := new RunRepository();
      tasks := [];
    }

    // POST /rca-agent/runs: 404 unless the run exists with that incident.
    method StartRun(workspace: RP.Id, run: RP.Id, incident: RP.Id) returns (accepted: bool)
      modifies this
      ensures accepted <==>
                run in repo.rows && repo.rows[run].workspace == workspace && repo.rows[run].incident == incident
      ensures State() == RP.Apply(old(State()), RP.Trigger(workspace, run, incident))
      ensures tasks == if accepted then old(tasks) + [RP.Task(workspace, run, incident, RP.AtClaim, false)] else old(tasks)
      ensures old(Valid()) ==> Valid()
    {
      hide RP.Inv;
      if Valid() { RP.StepKeepsIff(State(), RP.Trigger(workspace, run, incident)); }
      if !(run in repo.rows && repo.rows[run].workspace == workspace) || repo.rows[run].incident != incident {
        return false;
      }
      tasks := tasks + [RP.Task(workspace, run, incident, RP.AtClaim, false)];
      return true;
    }

    // The part of one poll sweep that concerns one workspace.
    method PollWorkspace(workspace: RP.Id)
      modifies this
      ensures State() == RP.Apply(old(State()), RP.Poll(workspace))
      ensures old(Valid()) ==> Valid()
    {
      hide RP.Inv;
      if Valid() { RP.StepKeepsIff(State(), RP.Poll(workspace)); }
      var ids := repo.PendingRuns(workspace, 3);
      RP.PendingInRows(repo.rows, repo.order, workspace);
      ghost var spawned := RP.Spawned(repo.Db(), ids);
      var k := 0;
      while k < |ids|
        invariant 0 <= k <= |ids|
        invariant tasks == old(tasks) + spawned[..k]
      {
        var row := repo.rows[ids[k]];
        tasks := tasks + [RP.Task(row.workspace, ids[k], row.incident, RP.AtClaim, false)];
        k := k + 1;
      }
    }

    // One sweep of poll_pending_runs over the workspaces it reaches before an exception, if any.
    method PollPendingRuns(workspaces: seq<RP.Id>)
      modifies this
      ensures State() == RP.RunFrom(old(State()), seq(|workspaces|, i requires 0 <= i < |workspaces| => RP.Poll(workspaces[i])))
      ensures old(Valid()) ==> Valid()
    {
      ghost var polls := seq(|workspaces|, i requires 0 <= i < |workspaces| => RP.Poll(workspaces[i]));
      var k := 0;
      while k < |workspaces|
        invariant 0 <= k <= |workspaces|
        invariant State() == RP.RunFrom(old(State()), polls[..k])
        invariant old(Valid()) ==> Valid()
      {
        assert polls[..k + 1][..k] == polls[..k];
        PollWorkspace(workspaces[k]);
        k := k + 1;
      }
      assert polls[..k] == polls;
    }

    // The claim, or the exception it raises.
    method Begin(i: nat, now: int, raises: Option<string>)
      requires i < |tasks| && tasks[i].pc.AtClaim?
      modifies this, repo
      ensures State() == RP.Apply(old(State()), if raises.Some? then RP.ClaimRaises(i, raises.value) else RP.Claim(i, now))
      ensures old(Valid()) ==> Valid()
      ensures old(Valid()) && raises.None? ==>
                (RP.Owns(State(), i) <==>
                 RP.Matches(old(repo.Db()), old(tasks)[i].workspace, old(tasks)[i].run) &&
                 RO.LogAllowsClaim(old(repo.Db()), old(tasks)[i].run))
    {
      if Valid() && raises.None? { RO.ClaimSucceedsIff(State(), i, now); }
      hide RP.Inv;
      if Valid() { RP.StepKeepsIff(State(), if raises.Some? then RP.ClaimRaises(i, raises.value) else RP.Claim(i, now)); }
      var t := tasks[i];
      if raises.Some? {
        tasks := tasks[i := t.(pc := RP.AtFail(raises.value))];
        return;
      }
      var claimed := repo.MarkRunning(t.workspace, t.run, now);
      tasks := tasks[i := t.(pc := if claimed then RP.Claimed else RP.Finished, claimed := claimed)];
    }

    // The thread and the graph give a report or raise.
    method Analyse(i: nat, outcome: Result<string, string>)
      requires i < |tasks| && tasks[i].pc.Claimed?
      modifies this
      ensures State() == RP.Apply(old(State()), RP.Analyse(i, outcome))
      ensures old(Valid()) ==> Valid()
    {
      hide RP.Inv;
      if Valid() { RP.StepKeepsIff(State(), RP.Analyse(i, outcome)); }
      match outcome
      case Ok(report) => tasks := tasks[i := tasks[i].(pc := RP.AtComplete(report))];
      case Err(message) => tasks := tasks[i := tasks[i].(pc := RP.AtFail(message))];
    }

    // The completion, or the exception it raises.
    method Complete(i: nat, now: int, raises: Option<string>)
      requires i < |tasks| && tasks[i].pc.AtComplete?
      modifies this, repo
      ensures State() == RP.Apply(old(State()), if raises.Some? then RP.CompleteRaises(i, raises.value) else RP.Complete(i, now))
      ensures old(Valid()) ==> Valid()
    {
      hide RP.Inv;
      if Valid() { RP.StepKeepsIff(State(), if raises.Some? then RP.CompleteRaises(i, raises.value) else RP.Complete(i, now)); }
      var t := tasks[i];
      if raises.Some? {
        tasks := tasks[i := t.(pc := RP.AtFail(raises.value))];
        return;
      }
      var ok := repo.CompleteRun(t.workspace, t.run, t.pc.report, now);
      tasks := tasks[i := t.(pc := if ok then RP.Finished else RP.AtFail("foreign key violation"))];
    }

    // The exception handler, with no check that the task ever owned the run.
    method Handle(i: nat, now: int, raises: bool)
      requires i < |tasks| && tasks[i].pc.AtFail?
      modifies this, repo
      ensures State() == RP.Apply(old(State()), if raises then RP.FailRaises(i) else RP.Fail(i, now))
      ensures old(Valid()) ==> (Valid() <==> RP.Harmless(old(State()), if raises then RP.FailRaises(i) else RP.Fail(i, now)))
    {
      hide RP.Inv, RP.Harmless;
      if Valid() { RP.StepKeepsIff(State(), if raises then RP.FailRaises(i) else RP.Fail(i, now)); }
      var t := tasks[i];
      if !raises {
        var ok := repo.FailRun(t.workspace, t.run, t.pc.message, now);
      }
      tasks := tasks[i := t.(pc := RP.Finished)];
    }
  }
}
