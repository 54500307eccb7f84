/**
 What the steps of the run protocol achieve: which claims succeed, which runs a poll picks up, and where
 a stored result or error comes from.
 */
module RunOutcomes {
  import opened Common
  import opened RunProtocol

  // ---------------------------------------------------------------- claims

  /** The run's log allows a claim: it has just been created, or its last attempt failed. */
  predicate LogAllowsClaim(db: Db, run: Id) {
    var events := EventsOf(db.log, run);
    events != [] && events[|events| - 1].kind in {RunCreated, RunFailed}
  }

  lemma LastKindTells(kinds: seq<EventKind>, status: Status)
    requires Replay(kinds) == Some(status)
    ensures kinds != []
    ensures kinds[|kinds| - 1] in {RunCreated, RunFailed} <==> status == Pending || status == Failed
  {
  }

  lemma LastEventTellsStatus(db: Db, id: Id)
    requires Logged(db) && id in db.rows
    ensures LogAllowsClaim(db, id) <==> db.rows[id].status == Pending || db.rows[id].status == Failed
  {
    hide EventsOf, FirstClaim, LastEnd, Replay;
    var events := EventsOf(db.log, id);
    assert RowAgrees(db.rows[id], events);
    LastKindTells(Kinds(events), db.rows[id].status);
  }

  /** A claim succeeds exactly on a run of the task's workspace whose log ends with its creation or a failure. */
  lemma ClaimSucceedsIff(s: State, i: nat, now: int)
    requires Inv(s) && At(s, i) && s.tasks[i].pc.AtClaim?
    ensures Owns(Apply(s, Claim(i, now)), i) <==>
            Matches(s.db, s.tasks[i].workspace, s.tasks[i].run) && LogAllowsClaim(s.db, s.tasks[i].run)
  {
    hide Exclusive, Logged, LogAllowsClaim;
    if s.tasks[i].run in s.db.rows { LastEventTellsStatus(s.db, s.tasks[i].run); }
  }

  // ---------------------------------------------------------------- polls

  /** The workspace's pending run. */
  predicate IsPending(db: Db, workspace: Id, id: Id) {
    id in db.rows && db.rows[id].workspace == workspace && db.rows[id].status == Pending
  }

  /** The creation order lists every row once. */
  ghost predicate Ordered(db: Db) {
    && (forall id :: id in db.rows <==> id in db.order)
    && (forall i, j :: 0 <= i < j < |db.order| ==> db.order[i] != db.order[j])
  }

  lemma StepOrdered(s: State, a: Action)
    requires Ordered(s.db)
    ensures Ordered(Apply(s, a).db)
  {
    match a
    case Create(workspace, incident, run, now) =>
    case Claim(i, now) =>
    case Complete(i, now) =>
    case Fail(i, now) =>
    case _ =>
  }

  lemma {:induction false} RunOrdered(actions: seq<Action>)
    ensures Ordered(RunFrom(START, actions).db)
  {
    if actions != [] {
      hide Ordered, Apply;
      RunOrdered(actions[..|actions| - 1]);
      StepOrdered(RunFrom(START, actions[..|actions| - 1]), actions[|actions| - 1]);
    } else {
      assert RunFrom(START, actions) == START;
    }
  }

  /** `a` was created before `b`. */
  ghost predicate Older(db: Db, a: Id, b: Id) {
    exists i, j :: 0 <= i < j < |db.order| && db.order[i] == a && db.order[j] == b
  }

  lemma {:induction false} PendingIff(db: Db, order: seq<Id>, workspace: Id, id: Id)
    ensures id in PendingIn(db.rows, order, workspace) <==> id in order && IsPending(db, workspace, id)
    decreases |order|
  {
    if order != [] {
      assert order == order[..|order| - 1] + [order[|order| - 1]];
      PendingIff(db, order[..|order| - 1], workspace, id);
    }
  }

  /** Where in the order each of them stands. */
  lemma {:induction false} PendingPlaces(db: Db, order: seq<Id>, workspace: Id) returns (at: seq<nat>)
    ensures |at| == |PendingIn(db.rows, order, workspace)|
    ensures forall k :: 0 <= k < |at| ==> at[k] < |order| && order[at[k]] == PendingIn(db.rows, order, workspace)[k]
    ensures forall k, l :: 0 <= k < l < |at| ==> at[k] < at[l]
    decreases |order|
  {
    at := [];
    if order != [] {
      var init, last := order[..|order| - 1], order[|order| - 1];
      at := PendingPlaces(db, init, workspace);
      if IsPending(db, workspace, last) { at := at + [|order| - 1]; }
    }
  }

  /** The runs for which a poll of the workspace spawns tasks. */
  function PolledRuns(s: State, workspace: Id): seq<Id> {
    var tasks := Apply(s, Poll(workspace)).tasks;
    seq(|tasks| - |s.tasks|, i requires 0 <= i < |tasks| - |s.tasks| => tasks[|s.tasks| + i].run)
  }

  lemma PolledAreFirst(s: State, workspace: Id)
    ensures var pending := PendingIn(s.db.rows, s.db.order, workspace);
            PolledRuns(s, workspace) == if |pending| <= 3 then pending else pending[..3]
  {
    PendingInRows(s.db.rows, s.db.order, workspace);
    hide PendingIn;
  }

  /**
   In every reachable state a poll spawns one unclaimed task for each of the workspace's three oldest pending
   runs, or for all of them when there are fewer.
   */
  lemma PollSpawnsOldest(actions: seq<Action>, workspace: Id, id: Id)
    ensures var s := RunFrom(START, actions);
            var polled := PolledRuns(s, workspace);
            && |polled| <= 3
            && (id in polled ==> IsPending(s.db, workspace, id))
            && (IsPending(s.db, workspace, id) && id !in polled ==>
                  |polled| == 3 && forall k :: 0 <= k < 3 ==> Older(s.db, polled[k], id))
            && forall k, l :: 0 <= k < l < |polled| ==> Older(s.db, polled[k], polled[l])
  {
    RunOrdered(actions);
    var s := RunFrom(START, actions);
    hide RunFrom, Apply, PendingIn, PolledRuns;
    PolledAreFirst(s, workspace);
    PendingIff(s.db, s.db.order, workspace, id);
    var at := PendingPlaces(s.db, s.db.order, workspace);
    var pending := PendingIn(s.db.rows, s.db.order, workspace);
    forall k, l | 0 <= k < l < |pending| ensures Older(s.db, pending[k], pending[l]) {
      assert s.db.order[at[k]] == pending[k] && s.db.order[at[l]] == pending[l];
    }
    if id in pending {
      var l :| 0 <= l < |pending| && pending[l] == id;
      assert l < 3 ==> id in PolledRuns(s, workspace);
    }
  }

  /** Each of those tasks is its row's, and has claimed nothing yet. */
  lemma PolledTasks(s: State, workspace: Id, i: nat)
    requires |s.tasks| <= i < |Apply(s, Poll(workspace)).tasks|
    ensures var t := Apply(s, Poll(workspace)).tasks[i];
            && t.run in s.db.rows && t.workspace == s.db.rows[t.run].workspace && t.incident == s.db.rows[t.run].incident
            && t.pc == AtClaim && !t.claimed
  {
    PendingInRows(s.db.rows, s.db.order, workspace);
    hide PendingIn;
  }

  // ---------------------------------------------------------------- results and errors

  /** The analysis of task `i` gave this report. */
  ghost predicate ReportedBy(actions: seq<Action>, i: nat, report: string) {
    Analyse(i, Ok(report)) in actions
  }

  /** Some step of task `i` raised with this message (a missing row makes the completion itself raise). */
  ghost predicate RaisedBy(actions: seq<Action>, i: nat, message: string) {
    || Analyse(i, Err(message)) in actions || ClaimRaises(i, message) in actions || CompleteRaises(i, message) in actions
    || message == "foreign key violation"
  }

  ghost predicate TaskSourced(actions: seq<Action>, i: nat, pc: Pc) {
    match pc
    case AtComplete(report) => ReportedBy(actions, i, report)
    case AtFail(message) => RaisedBy(actions, i, message)
    case _ => true
  }

  ghost predicate RowSourced(actions: seq<Action>, tasks: seq<Task>, id: Id, row: Row) {
    && (row.result.Some? ==>
          exists i :: 0 <= i < |tasks| && tasks[i].run == id && ReportedBy(actions, i, row.result.value))
    && (row.errorMessage.Some? ==>
          exists i :: 0 <= i < |tasks| && tasks[i].run == id && RaisedBy(actions, i, row.errorMessage.value))
  }

  ghost predicate Sourced(actions: seq<Action>, s: State) {
    && (forall i :: 0 <= i < |s.tasks| ==> TaskSourced(actions, i, s.tasks[i].pc))
    && (forall id :: id in s.db.rows ==> RowSourced(actions, s.tasks, id, s.db.rows[id]))
  }

  /** A longer history, more tasks and other program counters take no source away. */
  lemma RowStaysSourced(actions: seq<Action>, a: Action, before: seq<Task>, after: seq<Task>, id: Id, row: Row)
    requires RowSourced(actions, before, id, row) && |before| <= |after|
    requires forall i :: 0 <= i < |before| ==> after[i].run == before[i].run
    ensures RowSourced(actions + [a], after, id, row)
  {
    if row.result.Some? {
      var i :| 0 <= i < |before| && before[i].run == id && ReportedBy(actions, i, row.result.value);
      assert after[i].run == id && ReportedBy(actions + [a], i, row.result.value);
    }
    if row.errorMessage.Some? {
      var i :| 0 <= i < |before| && before[i].run == id && RaisedBy(actions, i, row.errorMessage.value);
      assert after[i].run == id && RaisedBy(actions + [a], i, row.errorMessage.value);
    }
  }

  lemma TaskStaysSourced(actions: seq<Action>, a: Action, i: nat, pc: Pc)
    requires TaskSourced(actions, i, pc)
    ensures TaskSourced(actions + [a], i, pc)
  {
  }

  lemma TasksStepSourced(actions: seq<Action>, s: State, a: Action, i: nat)
    requires Sourced(actions, s) && i < |Apply(s, a).tasks|
    ensures TaskSourced(actions + [a], i, Apply(s, a).tasks[i].pc)
    ensures i < |s.tasks| ==> Apply(s, a).tasks[i].run == s.tasks[i].run
    ensures |s.tasks| <= |Apply(s, a).tasks|
  {
    hide RowSourced;
    if a.Poll? { PendingInRows(s.db.rows, s.db.order, a.workspace); }
    if i < |s.tasks| { TaskStaysSourced(actions, a, i, s.tasks[i].pc); }
    assert a in actions + [a];
  }

  /** A row changes only by its task's step, which brings its own report or message. */
  lemma RowsStepSourced(actions: seq<Action>, s: State, a: Action, id: Id)
    requires Sourced(actions, s) && id in Apply(s, a).db.rows
    ensures RowSourced(actions, s.tasks, id, Apply(s, a).db.rows[id])
  {
    var row := Apply(s, a).db.rows[id];
    if id in s.db.rows { assert RowSourced(actions, s.tasks, id, s.db.rows[id]); }
    match a
    case Create(workspace, incident, run, now) =>
    case Claim(i, now) =>
    case Complete(i, now) =>
      if At(s, i) && s.tasks[i].pc.AtComplete? && s.tasks[i].run == id {
        assert TaskSourced(actions, i, s.tasks[i].pc);
      }
    case Fail(i, now) =>
      if At(s, i) && s.tasks[i].pc.AtFail? && s.tasks[i].run == id {
        assert TaskSourced(actions, i, s.tasks[i].pc);
      }
    case _ =>
  }

  lemma StepSourced(actions: seq<Action>, s: State, a: Action)
    requires Sourced(actions, s)
    ensures Sourced(actions + [a], Apply(s, a))
  {
    var s' := Apply(s, a);
    hide Apply, RowSourced, TaskSourced;
    forall i | 0 <= i < |s'.tasks|
      ensures TaskSourced(actions + [a], i, s'.tasks[i].pc)
      ensures i < |s.tasks| ==> s'.tasks[i].run == s.tasks[i].run
    {
      TasksStepSourced(actions, s, a, i);
    }
    TaskCount(s, a);
    forall id | id in s'.db.rows ensures RowSourced(actions + [a], s'.tasks, id, s'.db.rows[id]) {
      RowsStepSourced(actions, s, a, id);
      RowStaysSourced(actions, a, s.tasks, s'.tasks, id, s'.db.rows[id]);
    }
  }

  lemma TaskCount(s: State, a: Action)
    ensures |s.tasks| <= |Apply(s, a).tasks|
  {
    if a.Poll? { PendingInRows(s.db.rows, s.db.order, a.workspace); }
  }

  lemma {:induction false} RunSourced(actions: seq<Action>)
    ensures Sourced(actions, RunFrom(START, actions))
  {
    if actions != [] {
      hide Sourced, Apply;
      var init, last := actions[..|actions| - 1], actions[|actions| - 1];
      RunSourced(init);
      StepSourced(init, RunFrom(START, init), last);
      assert actions == init + [last];
    } else {
      assert RunFrom(START, actions) == START;
    }
  }

  /**
   In every reachable state a stored result is a report that the analysis of one of the run's tasks gave, and a
   stored error is a message with which one of them raised.
   */
  lemma OutcomesComeFromTasks(actions: seq<Action>, id: Id)
    requires id in RunFrom(START, actions).db.rows
    ensures var s := RunFrom(START, actions);
            && (s.db.rows[id].result.Some? ==>
                  exists i :: 0 <= i < |s.tasks| && s.tasks[i].run == id && ReportedBy(actions, i, s.db.rows[id].result.value))
            && (s.db.rows[id].errorMessage.Some? ==>
                  exists i :: 0 <= i < |s.tasks| && s.tasks[i].run == id && RaisedBy(actions, i, s.db.rows[id].errorMessage.value))
  {
    RunSourced(actions);
    var s := RunFrom(START, actions);
    hide RunFrom;
    assert RowSourced(actions, s.tasks, id, s.db.rows[id]);
  }

  /** The owner's completion stores its report, and its failure its message. */
  lemma OwnerStoresOutcome(s: State, i: nat, now: int)
    requires Claims(s) && Owns(s, i)
    ensures s.tasks[i].pc.AtComplete? ==>
              var rows := Apply(s, Complete(i, now)).db.rows;
              && s.tasks[i].run in rows && rows[s.tasks[i].run].status == Completed
              && rows[s.tasks[i].run].result == Some(s.tasks[i].pc.report)
    ensures s.tasks[i].pc.AtFail? ==>
              var rows := Apply(s, Fail(i, now)).db.rows;
              && s.tasks[i].run in rows && rows[s.tasks[i].run].status == Failed
              && rows[s.tasks[i].run].errorMessage == Some(s.tasks[i].pc.message)
  {
    hide Exclusive;
    ClaimedRunning(s, i);
  }

  /** An analysis that reports, then completes, stores its report; one that raises, then fails, its message. */
  lemma AnalysisIsStored(s: State, i: nat, outcome: Result<string, string>, now: int)
    requires Claims(s) && Owns(s, i) && s.tasks[i].pc.Claimed?
    ensures var id, analysed := s.tasks[i].run, Apply(s, Analyse(i, outcome));
            match outcome
            case Ok(report) =>
              var rows := Apply(analysed, Complete(i, now)).db.rows;
              id in rows && rows[id].status == Completed && rows[id].result == Some(report)
            case Err(message) =>
              var rows := Apply(analysed, Fail(i, now)).db.rows;
              id in rows && rows[id].status == Failed && rows[id].errorMessage == Some(message)
  {
    var a := Analyse(i, outcome);
    StepExcludesIff(s, a);
    hide Exclusive;
    OwnerStoresOutcome(Apply(s, a), i, now);
  }
}
