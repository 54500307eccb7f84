/**
 The RCA run protocol: any number of `run_rca` tasks race to claim the rows of the shared run
 table.  Every database transaction is one atomic step.  A run of the system is a sequence of
 actions; an action that is not enabled does nothing, so every sequence is a run.
 */
module RunProtocol {
  import opened Common

  type Id = string

  datatype Status = Pending | Running | Completed | Failed

  datatype EventKind = RunCreated | RunRunning | RunCompleted | RunFailed

  datatype Event = Event(run: Id, workspace: Id, kind: EventKind, at: int, error: string)

  datatype Row = Row(
    workspace: Id,
    incident: Id,
    status: Status,
    result: Option<string>,
    errorMessage: Option<string>,
    startedAt: Option<int>,
    completedAt: Option<int>)

  /** The run table, its rows in creation order, and the event table. */
  datatype Db = Db(rows: map<Id, Row>, order: seq<Id>, log: seq<Event>)

  // ---------------------------------------------------------------- transactions

  /** A statement `WHERE id = ... AND workspaceId = ...` finds a row. */
  predicate Matches(db: Db, workspace: Id, id: Id) {
    id in db.rows && db.rows[id].workspace == workspace
  }

  predicate Claimable(db: Db, workspace: Id, id: Id) {
    Matches(db, workspace, id) && db.rows[id].status in {Pending, Failed}
  }

  function CreateRun(db: Db, workspace: Id, incident: Id, id: Id, now: int): Db {
    if id in db.rows then db
    else
      Db(db.rows[id := Row(workspace, incident, Pending, None, None, None, None)],
         db.order + [id],
         db.log + [Event(id, workspace, RunCreated, now, "")])
  }

  function MarkRunning(db: Db, workspace: Id, id: Id, now: int): (Db, bool) {
    if Claimable(db, workspace, id) then
      var row := db.rows[id];
      (db.(rows := db.rows[id := row.(status := Running,
                                      startedAt := Some(row.startedAt.GetOr(now)),
                                      errorMessage := None)],
           log := db.log + [Event(id, workspace, RunRunning, now, "")]),
       true)
    else (db, false)
  }

  /** When no row matches, the event insert violates its foreign key and the transaction fails. */
  function CompleteRun(db: Db, workspace: Id, id: Id, result: string, now: int): (Db, bool) {
    if Matches(db, workspace, id) then
      (db.(rows := db.rows[id := db.rows[id].(status := Completed, result := Some(result),
                                              completedAt := Some(now), errorMessage := None)],
           log := db.log + [Event(id, workspace, RunCompleted, now, "")]),
       true)
    else (db, false)
  }

  function Truncate(s: string, limit: nat): string {
    if |s| <= limit then s else s[..limit]
  }

  function FailRun(db: Db, workspace: Id, id: Id, message: string, now: int): (Db, bool) {
    if Matches(db, workspace, id) then
      (db.(rows := db.rows[id := db.rows[id].(status := Failed, errorMessage := Some(message),
                                              completedAt := Some(now))],
           log := db.log + [Event(id, workspace, RunFailed, now, Truncate(message, 500))]),
       true)
    else (db, false)
  }

  /** The ids among `order` of the pending rows of one workspace, oldest first. */
  function PendingIn(rows: map<Id, Row>, order: seq<Id>, workspace: Id): seq<Id> {
    if order == [] then []
    else
      var before := PendingIn(rows, order[..|order| - 1], workspace);
      var id := order[|order| - 1];
      if id in rows && rows[id].workspace == workspace && rows[id].status == Pending
      then before + [id] else before
  }

  lemma {:induction false} PendingPrefix(rows: map<Id, Row>, order: seq<Id>, i: nat, workspace: Id)
    requires i <= |order|
    ensures PendingIn(rows, order[..i], workspace) <= PendingIn(rows, order, workspace)
    decreases |order|
  {
    if i == |order| {
      assert order[..i] == order;
    } else {
      var init := order[..|order| - 1];
      PendingPrefix(rows, init, i, workspace);
      assert order[..i] == init[..i];
    }
  }

  function Take(s: seq<Id>, limit: nat): seq<Id> {
    if |s| <= limit then s else s[..limit]
  }

  // ---------------------------------------------------------------- tasks

  /** Where a `run_rca` task stands.  `AtFail` is the exception handler. */
  datatype Pc = AtClaim | Claimed | AtComplete(report: string) | AtFail(message: string) | Finished

  /** `claimed` is the local variable of that name; it stays false when `mark_running` raises. */
  datatype Task = Task(workspace: Id, run: Id, incident: Id, pc: Pc, claimed: bool)

  datatype State = State(db: Db, tasks: seq<Task>)

  datatype Action =
    | Create(workspace: Id, incident: Id, run: Id, now: int)  // startForIncident, startForDeployment
    | Trigger(workspace: Id, run: Id, incident: Id)           // POST /rca-agent/runs
    | Poll(workspace: Id)                                     // one workspace of a poll sweep
    | Claim(task: nat, now: int)                              // mark_running commits
    | ClaimRaises(task: nat, message: string)                 // mark_running raises
    | Analyse(task: nat, outcome: Result<string, string>)     // thread, graph: a report or an exception
    | Complete(task: nat, now: int)                           // complete_run commits
    | CompleteRaises(task: nat, message: string)              // complete_run raises, nothing committed
    | Fail(task: nat, now: int)                               // fail_run commits
    | FailRaises(task: nat)                                   // fail_run raises: the task dies
    | Kill(task: nat)                                         // the process stops

  function Spawned(db: Db, ids: seq<Id>): (tasks: seq<Task>)
    requires forall i :: 0 <= i < |ids| ==> ids[i] in db.rows
    ensures |tasks| == |ids|
  {
    seq(|ids|, i requires 0 <= i < |ids| =>
      Task(db.rows[ids[i]].workspace, ids[i], db.rows[ids[i]].incident, AtClaim, false))
  }

  lemma PendingInRows(rows: map<Id, Row>, order: seq<Id>, workspace: Id)
    ensures forall i :: 0 <= i < |PendingIn(rows, order, workspace)| ==>
              PendingIn(rows, order, workspace)[i] in rows
  {
  }

  predicate At(s: State, i: nat) {
    i < |s.tasks|
  }

  function Move(s: State, i: nat, pc: Pc): State
    requires At(s, i)
  {
    s.(tasks := s.tasks[i := s.tasks[i].(pc := pc)])
  }

  function ApplyClaim(s: State, i: nat, now: int): State
    requires At(s, i)
  {
    var t := s.tasks[i];
    var (db, claimed) := MarkRunning(s.db, t.workspace, t.run, now);
    State(db, s.tasks[i := t.(pc := if claimed then Claimed else Finished, claimed := claimed)])
  }

  function ApplyComplete(s: State, i: nat, now: int): State
    requires At(s, i) && s.tasks[i].pc.AtComplete?
  {
    var t := s.tasks[i];
    var (db, ok) := CompleteRun(s.db, t.workspace, t.run, t.pc.report, now);
    Move(s.(db := db), i, if ok then Finished else AtFail("foreign key violation"))
  }

  function ApplyFail(s: State, i: nat, now: int): State
    requires At(s, i) && s.tasks[i].pc.AtFail?
  {
    var t := s.tasks[i];
    Move(s.(db := FailRun(s.db, t.workspace, t.run, t.pc.message, now).0), i, Finished)
  }

  function Apply(s: State, a: Action): State {
    match a
    case Create(workspace, incident, run, now) =>
      s.(db := CreateRun(s.db, workspace, incident, run, now))
    case Trigger(workspace, run, incident) =>
      if Matches(s.db, workspace, run) && s.db.rows[run].incident == incident
      then s.(tasks := s.tasks + [Task(workspace, run, incident, AtClaim, false)])
      else s
    case Poll(workspace) =>
      PendingInRows(s.db.rows, s.db.order, workspace);
      s.(tasks := s.tasks + Spawned(s.db, Take(PendingIn(s.db.rows, s.db.order, workspace), 3)))
    case Claim(i, now) =>
      if At(s, i) && s.tasks[i].pc.AtClaim? then ApplyClaim(s, i, now) else s
    case ClaimRaises(i, message) =>
      if At(s, i) && s.tasks[i].pc.AtClaim? then Move(s, i, AtFail(message)) else s
    case Analyse(i, outcome) =>
      if At(s, i) && s.tasks[i].pc.Claimed?
      then Move(s, i, match outcome case Ok(report) => AtComplete(report) case Err(e) => AtFail(e))
      else s
    case Complete(i, now) =>
      if At(s, i) && s.tasks[i].pc.AtComplete? then ApplyComplete(s, i, now) else s
    case CompleteRaises(i, message) =>
      if At(s, i) && s.tasks[i].pc.AtComplete? then Move(s, i, AtFail(message)) else s
    case Fail(i, now) =>
      if At(s, i) && s.tasks[i].pc.AtFail? then ApplyFail(s, i, now) else s
    case FailRaises(i) =>
      if At(s, i) && s.tasks[i].pc.AtFail? then Move(s, i, Finished) else s
    case Kill(i) =>
      if At(s, i) then Move(s, i, Finished) else s
  }

  const START := State(Db(map[], [], []), [])

  /** The state after a sequence of actions. */
  function RunFrom(s: State, actions: seq<Action>): State {
    if actions == [] then s
    else Apply(RunFrom(s, actions[..|actions| - 1]), actions[|actions| - 1])
  }

  // ---------------------------------------------------------------- the event log

  /** The events of one run, in insertion order. */
  function EventsOf(log: seq<Event>, run: Id): seq<Event> {
    if log == [] then []
    else
      var before := EventsOf(log[..|log| - 1], run);
      var last := log[|log| - 1];
      if last.run == run then before + [last] else before
  }

  function Kinds(events: seq<Event>): (kinds: seq<EventKind>)
    ensures |kinds| == |events|
  {
    seq(|events|, i requires 0 <= i < |events| => events[i].kind)
  }

  /** Replays the event kinds through the status machine; None marks an impossible sequence. */
  function Replay(kinds: seq<EventKind>): Option<Status> {
    if kinds == [] then None
    else if kinds == [RunCreated] then Some(Pending)
    else
      match (Replay(kinds[..|kinds| - 1]), kinds[|kinds| - 1])
      case (Some(Pending), RunRunning) => Some(Running)
      case (Some(Failed), RunRunning) => Some(Running)
      case (Some(Running), RunCompleted) => Some(Completed)
      case (Some(Running), RunFailed) => Some(Failed)
      case _ => None
  }

  /** (running failed)^n */
  function Attempts(n: nat): seq<EventKind> {
    if n == 0 then [] else Attempts(n - 1) + [RunRunning, RunFailed]
  }

  /** What a run's log looks like after `n` failed attempts when it has the given status. */
  function Shape(n: nat, status: Status): seq<EventKind> {
    [RunCreated] + Attempts(n) +
    (match status
     case Running => [RunRunning]
     case Completed => [RunRunning, RunCompleted]
     case _ => [])
  }

  ghost predicate HasShape(kinds: seq<EventKind>, status: Status) {
    exists n: nat ::
      kinds == Shape(n, status) && (status == Pending ==> n == 0) && (status == Failed ==> n > 0)
  }

  lemma {:induction false} AppendKind(kinds: seq<EventKind>, kind: EventKind)
    requires kinds != []
    ensures Replay(kinds + [kind]) ==
            match (Replay(kinds), kind)
            case (Some(Pending), RunRunning) => Some(Running)
            case (Some(Failed), RunRunning) => Some(Running)
            case (Some(Running), RunCompleted) => Some(Completed)
            case (Some(Running), RunFailed) => Some(Failed)
            case _ => None
  {
    assert (kinds + [kind])[..|kinds + [kind]| - 1] == kinds;
  }

  /** One more event, on the shape of each status. */
  lemma ShapeGrows(n: nat)
    ensures Shape(n, Running) == Shape(n, Failed) + [RunRunning]
    ensures Shape(n, Running) == Shape(n, Pending) + [RunRunning]
    ensures Shape(n, Completed) == Shape(n, Running) + [RunCompleted]
    ensures Shape(n + 1, Failed) == Shape(n, Running) + [RunFailed]
  {
  }

  lemma ReplayRunning(n: nat, status: Status)
    requires status == Pending || status == Failed
    requires Replay(Shape(n, status)) == Some(status)
    ensures Replay(Shape(n, Running)) == Some(Running)
  {
    ShapeGrows(n);
    AppendKind(Shape(n, status), RunRunning);
  }

  lemma ReplayEnded(n: nat)
    requires Replay(Shape(n, Running)) == Some(Running)
    ensures Replay(Shape(n, Completed)) == Some(Completed)
    ensures Replay(Shape(n + 1, Failed)) == Some(Failed)
  {
    ShapeGrows(n);
    AppendKind(Shape(n, Running), RunCompleted);
    AppendKind(Shape(n, Running), RunFailed);
  }

  lemma {:induction false} ReplayShape(n: nat, status: Status)
    requires status == Pending ==> n == 0
    requires status == Failed ==> n > 0
    ensures Replay(Shape(n, status)) == Some(status)
    decreases n, if status == Completed then 2 else if status == Running then 1 else 0
  {
    match status
    case Pending =>
      assert Shape(0, Pending) == [RunCreated];
    case Running =>
      var before := if n == 0 then Pending else Failed;
      ReplayShape(n, before);
      ReplayRunning(n, before);
    case Completed =>
      ReplayShape(n, Running);
      ReplayEnded(n);
    case Failed =>
      ReplayShape(n - 1, Running);
      ReplayEnded(n - 1);
  }

  lemma ShapeStep(init: seq<EventKind>, before: Status, kind: EventKind, after: Status)
    requires HasShape(init, before)
    requires match kind
             case RunCreated => false
             case RunRunning => before in {Pending, Failed} && after == Running
             case RunCompleted => before == Running && after == Completed
             case RunFailed => before == Running && after == Failed
    ensures HasShape(init + [kind], after)
  {
    var n: nat :| init == Shape(n, before) && (before == Pending ==> n == 0) && (before == Failed ==> n > 0);
    ShapeGrows(n);
    var m := if after == Failed then n + 1 else n;
    assert init + [kind] == Shape(m, after);
  }

  lemma {:induction false} ShapeIfReplay(kinds: seq<EventKind>, status: Status)
    requires Replay(kinds) == Some(status)
    ensures HasShape(kinds, status)
    decreases |kinds|
  {
    if kinds == [RunCreated] {
      assert kinds == Shape(0, Pending);
    } else {
      hide HasShape;
      var init, last := kinds[..|kinds| - 1], kinds[|kinds| - 1];
      var before := Replay(init).value;
      ShapeIfReplay(init, before);
      ShapeStep(init, before, last, status);
      assert kinds == init + [last];
    }
  }

  /** The status machine accepts exactly created (running failed)* (nothing | running | running completed). */
  lemma ReplayIffShape(kinds: seq<EventKind>, status: Status)
    ensures Replay(kinds) == Some(status) <==> HasShape(kinds, status)
  {
    if HasShape(kinds, status) {
      var n: nat :| kinds == Shape(n, status) && (status == Pending ==> n == 0) && (status == Failed ==> n > 0);
      ReplayShape(n, status);
    } else if Replay(kinds) == Some(status) {
      ShapeIfReplay(kinds, status);
    }
  }

  /** The time of the first claim recorded in a log. */
  function FirstClaim(events: seq<Event>): Option<int> {
    if events == [] then None
    else
      var before := FirstClaim(events[..|events| - 1]);
      var last := events[|events| - 1];
      if before.None? && last.kind == RunRunning then Some(last.at) else before
  }

  /** The time of the last completion or failure recorded in a log. */
  function LastEnd(events: seq<Event>): Option<int> {
    if events == [] then None
    else
      var last := events[|events| - 1];
      if last.kind in {RunCompleted, RunFailed} then Some(last.at)
      else LastEnd(events[..|events| - 1])
  }

  lemma EventsOfAppend(log: seq<Event>, e: Event, run: Id)
    ensures EventsOf(log + [e], run) == if e.run == run then EventsOf(log, run) + [e] else EventsOf(log, run)
  {
    assert (log + [e])[..|log + [e]| - 1] == log;
  }

  lemma EventsOfEmpty(log: seq<Event>, run: Id)
    requires forall i :: 0 <= i < |log| ==> log[i].run != run
    ensures EventsOf(log, run) == []
  {
  }

  lemma EventAppended(events: seq<Event>, e: Event)
    ensures Kinds(events + [e]) == Kinds(events) + [e.kind]
    ensures FirstClaim(events + [e]) ==
            if FirstClaim(events).None? && e.kind == RunRunning then Some(e.at) else FirstClaim(events)
    ensures LastEnd(events + [e]) == if e.kind in {RunCompleted, RunFailed} then Some(e.at) else LastEnd(events)
  {
    assert (events + [e])[..|events + [e]| - 1] == events;
  }

  // ---------------------------------------------------------------- invariant

  /** Task `i` is between its successful claim and its complete_run or fail_run. */
  predicate Owns(s: State, i: nat) {
    At(s, i) && s.tasks[i].claimed && !s.tasks[i].pc.Finished?
  }

  ghost predicate Owned(s: State, run: Id) {
    exists i: nat :: Owns(s, i) && s.tasks[i].run == run
  }

  /** What a row says is what its event log says. */
  ghost predicate RowAgrees(row: Row, events: seq<Event>) {
    && Replay(Kinds(events)) == Some(row.status)
    && row.startedAt == FirstClaim(events)
    && row.completedAt == LastEnd(events)
    && (row.result.Some? <==> row.status == Completed)
    && (row.errorMessage.Some? <==> row.status == Failed)
    && (row.errorMessage.Some? ==> events != [] && TellsError(events[|events| - 1], row.errorMessage.value))
  }

  /** The event carries the message, or the first 500 characters of a longer one. */
  predicate TellsError(e: Event, message: string) {
    e.error <= message && |e.error| == if |message| < 500 then |message| else 500
  }

  ghost predicate Exclusive(s: State) {
    && (forall i: nat, j: nat :: Owns(s, i) && Owns(s, j) && s.tasks[i].run == s.tasks[j].run ==> i == j)
    && (forall i: nat :: Owns(s, i) ==>
          Matches(s.db, s.tasks[i].workspace, s.tasks[i].run) &&
          s.db.rows[s.tasks[i].run].status == Running)
  }

  ghost predicate Logged(db: Db) {
    && (forall id :: id in db.rows ==> RowAgrees(db.rows[id], EventsOf(db.log, id)))
    && (forall k :: 0 <= k < |db.log| ==> db.log[k].run in db.rows)
  }

  /** Claims are exclusive, and a task past its claim has made it. */
  ghost predicate Claims(s: State) {
    && Exclusive(s)
    && (forall i: nat :: At(s, i) && s.tasks[i].pc.Claimed? ==> s.tasks[i].claimed)
    && (forall i: nat :: At(s, i) && s.tasks[i].pc.AtComplete? ==> s.tasks[i].claimed)
    && (forall i: nat :: At(s, i) && s.tasks[i].pc.AtClaim? ==> !s.tasks[i].claimed)
  }

  ghost predicate Inv(s: State) {
    Claims(s) && Logged(s.db)
  }

  /** The handler of a task whose claim raised: its fail_run is not guarded by ownership. */
  predicate StrayFail(s: State, a: Action) {
    a.Fail? && At(s, a.task) && s.tasks[a.task].pc.AtFail? && !s.tasks[a.task].claimed &&
    Matches(s.db, s.tasks[a.task].workspace, s.tasks[a.task].run)
  }

  /** A stray fail_run takes a run away from the task that owns it. */
  ghost predicate Steals(s: State, a: Action) {
    StrayFail(s, a) && Owned(s, s.tasks[a.task].run)
  }

  /** A stray fail_run does no harm when its row is running and nobody owns it any more. */
  ghost predicate Harmless(s: State, a: Action) {
    StrayFail(s, a) ==>
      var run := s.tasks[a.task].run;
      s.db.rows[run].status == Running && !Owned(s, run)
  }

  /** One transaction changes one row and appends one event about it. */
  lemma RowLogged(db: Db, id: Id, row: Row, e: Event)
    requires Logged(db) && e.run == id
    requires RowAgrees(row, EventsOf(db.log, id) + [e])
    ensures Logged(db.(rows := db.rows[id := row], log := db.log + [e]))
  {
    var db' := db.(rows := db.rows[id := row], log := db.log + [e]);
    forall x | x in db'.rows
      ensures RowAgrees(db'.rows[x], EventsOf(db'.log, x))
    {
      EventsOfAppend(db.log, e, x);
    }
  }

  lemma CreateLogged(db: Db, workspace: Id, incident: Id, id: Id, now: int)
    requires Logged(db)
    ensures Logged(CreateRun(db, workspace, incident, id, now))
  {
    if id !in db.rows {
      var row := Row(workspace, incident, Pending, None, None, None, None);
      var e := Event(id, workspace, RunCreated, now, "");
      EventsOfEmpty(db.log, id);
      assert [] + [e] == [e] && Kinds([e]) == [RunCreated];
      EventAppended([], e);
      RowLogged(db, id, row, e);
      assert CreateRun(db, workspace, incident, id, now) ==
             db.(rows := db.rows[id := row], log := db.log + [e]).(order := db.order + [id]);
    }
  }

  /** Appending one event to a row's log, seen through the status machine. */
  lemma LogStep(db: Db, id: Id, e: Event)
    requires Logged(db) && id in db.rows
    ensures var es := EventsOf(db.log, id);
            && es != []
            && Replay(Kinds(es + [e])) ==
               (match (db.rows[id].status, e.kind)
                case (Pending, RunRunning) => Some(Running)
                case (Failed, RunRunning) => Some(Running)
                case (Running, RunCompleted) => Some(Completed)
                case (Running, RunFailed) => Some(Failed)
                case _ => None)
            && FirstClaim(es + [e]) ==
               (if db.rows[id].startedAt.None? && e.kind == RunRunning then Some(e.at) else db.rows[id].startedAt)
            && LastEnd(es + [e]) ==
               (if e.kind in {RunCompleted, RunFailed} then Some(e.at) else db.rows[id].completedAt)
  {
    var es := EventsOf(db.log, id);
    assert RowAgrees(db.rows[id], es);
    EventAppended(es, e);
    AppendKind(Kinds(es), e.kind);
  }

  lemma ClaimLogged(db: Db, workspace: Id, id: Id, now: int)
    requires Logged(db)
    ensures Logged(MarkRunning(db, workspace, id, now).0)
  {
    if Claimable(db, workspace, id) {
      var e := Event(id, workspace, RunRunning, now, "");
      LogStep(db, id, e);
      RowLogged(db, id, MarkRunning(db, workspace, id, now).0.rows[id], e);
    }
  }

  /** A completion may be logged exactly when the run is running. */
  lemma CompleteLoggedIff(db: Db, workspace: Id, id: Id, result: string, now: int)
    requires Logged(db) && Matches(db, workspace, id)
    ensures Logged(CompleteRun(db, workspace, id, result, now).0) <==> db.rows[id].status == Running
  {
    var e := Event(id, workspace, RunCompleted, now, "");
    LogStep(db, id, e);
    var db' := CompleteRun(db, workspace, id, result, now).0;
    EventsOfAppend(db.log, e, id);
    if db.rows[id].status == Running {
      RowLogged(db, id, db'.rows[id], e);
    } else {
      assert !RowAgrees(db'.rows[id], EventsOf(db'.log, id));
    }
  }

  /** A failure may be logged exactly when the run is running. */
  lemma FailLogged(db: Db, workspace: Id, id: Id, message: string, now: int)
    requires Logged(db) && Matches(db, workspace, id)
    ensures Logged(FailRun(db, workspace, id, message, now).0) <==> db.rows[id].status == Running
  {
    var e := Event(id, workspace, RunFailed, now, Truncate(message, 500));
    LogStep(db, id, e);
    var db' := FailRun(db, workspace, id, message, now).0;
    EventsOfAppend(db.log, e, id);
    if db.rows[id].status == Running {
      RowLogged(db, id, db'.rows[id], e);
    } else {
      assert !RowAgrees(db'.rows[id], EventsOf(db'.log, id));
    }
  }

  // ---------------------------------------------------------------- one step

  lemma ClaimExclusive(s: State, i: nat, now: int)
    requires Exclusive(s) && At(s, i) && s.tasks[i].pc.AtClaim? && !s.tasks[i].claimed
    ensures Exclusive(ApplyClaim(s, i, now))
  {
    var s' := ApplyClaim(s, i, now);
    var run := s.tasks[i].run;
    forall j: nat | Owns(s', j) && j != i
      ensures Owns(s, j) && s'.tasks[j] == s.tasks[j] && (Owns(s', i) ==> s.tasks[j].run != run)
      ensures Matches(s'.db, s'.tasks[j].workspace, s'.tasks[j].run) && s'.db.rows[s'.tasks[j].run].status == Running
    {
      assert Owns(s, j);
    }
  }

  lemma ClaimClaims(s: State, i: nat, now: int)
    requires Claims(s) && At(s, i) && s.tasks[i].pc.AtClaim?
    ensures Claims(ApplyClaim(s, i, now))
  {
    hide Exclusive;
    ClaimExclusive(s, i, now);
    var s' := ApplyClaim(s, i, now);
    assert forall j: nat :: At(s', j) && j != i ==> s'.tasks[j] == s.tasks[j];
  }

  lemma CompleteExclusive(s: State, i: nat, now: int)
    requires Exclusive(s) && Owns(s, i) && s.tasks[i].pc.AtComplete?
    ensures Exclusive(ApplyComplete(s, i, now))
  {
    var s' := ApplyComplete(s, i, now);
    forall j: nat | Owns(s', j)
      ensures j != i && Owns(s, j) && s'.tasks[j] == s.tasks[j] && s.tasks[j].run != s.tasks[i].run
    {
    }
  }

  lemma CompleteClaims(s: State, i: nat, now: int)
    requires Claims(s) && At(s, i) && s.tasks[i].pc.AtComplete?
    ensures Claims(ApplyComplete(s, i, now))
  {
    hide Exclusive;
    CompleteExclusive(s, i, now);
    var s' := ApplyComplete(s, i, now);
    assert forall j: nat :: At(s', j) && j != i ==> s'.tasks[j] == s.tasks[j];
  }

  /** A fail_run lets the claims stand exactly when it is its own task's, changes no row, or nobody owns the run. */
  lemma FailExclusiveIff(s: State, i: nat, now: int)
    requires Exclusive(s) && At(s, i) && s.tasks[i].pc.AtFail?
    ensures Exclusive(ApplyFail(s, i, now)) <==> !Steals(s, Fail(i, now))
  {
    var t := s.tasks[i];
    var s' := ApplyFail(s, i, now);
    forall j: nat | Owns(s', j) ensures j != i && Owns(s, j) && s'.tasks[j] == s.tasks[j] {
    }
    if t.claimed {
      assert Owns(s, i);
    } else if Steals(s, Fail(i, now)) {
      var j: nat :| Owns(s, j) && s.tasks[j].run == t.run;
      assert Owns(s', j);
    }
  }

  lemma FailClaimsIff(s: State, i: nat, now: int)
    requires Claims(s) && At(s, i) && s.tasks[i].pc.AtFail?
    ensures Claims(ApplyFail(s, i, now)) <==> !Steals(s, Fail(i, now))
  {
    hide Exclusive, Steals;
    FailExclusiveIff(s, i, now);
    var s' := ApplyFail(s, i, now);
    assert forall j: nat :: At(s', j) && j != i ==> At(s, j) && s'.tasks[j] == s.tasks[j];
  }

  lemma CreateClaims(s: State, workspace: Id, incident: Id, run: Id, now: int)
    requires Claims(s)
    ensures Claims(s.(db := CreateRun(s.db, workspace, incident, run, now)))
  {
    var s' := s.(db := CreateRun(s.db, workspace, incident, run, now));
    assert forall j: nat :: Owns(s', j) ==> Owns(s, j);
  }

  lemma MoveExclusive(s: State, i: nat, pc: Pc)
    requires Exclusive(s) && At(s, i) && (s.tasks[i].claimed && !pc.Finished? ==> Owns(s, i))
    ensures Exclusive(Move(s, i, pc))
  {
    var s' := Move(s, i, pc);
    assert forall j: nat :: Owns(s', j) ==> Owns(s, j) && s'.tasks[j].run == s.tasks[j].run && s'.tasks[j].workspace == s.tasks[j].workspace;
  }

  lemma MoveClaims(s: State, i: nat, pc: Pc)
    requires Claims(s) && At(s, i)
    requires s.tasks[i].claimed || pc.AtFail? || pc.Finished?
    requires s.tasks[i].claimed ==> !pc.AtClaim?
    requires s.tasks[i].claimed && !pc.Finished? ==> Owns(s, i)
    ensures Claims(Move(s, i, pc))
  {
    hide Exclusive;
    MoveExclusive(s, i, pc);
    var s' := Move(s, i, pc);
    assert forall j: nat :: At(s', j) && j != i ==> s'.tasks[j] == s.tasks[j];
  }

  lemma SpawnClaims(s: State, more: seq<Task>)
    requires Claims(s)
    requires forall i :: 0 <= i < |more| ==> more[i].pc.AtClaim? && !more[i].claimed
    ensures Claims(s.(tasks := s.tasks + more))
  {
    var s' := s.(tasks := s.tasks + more);
    forall i: nat | At(s', i)
      ensures (i < |s.tasks| && s'.tasks[i] == s.tasks[i]) ||
              (s'.tasks[i].pc.AtClaim? && !s'.tasks[i].claimed)
    {
    }
    assert forall j: nat :: Owns(s', j) ==> Owns(s, j) && s'.tasks[j] == s.tasks[j];
  }

  /** Exclusion survives a step exactly when the step does not steal a run. */
  lemma StepExcludesIff(s: State, a: Action)
    requires Claims(s)
    ensures Claims(Apply(s, a)) <==> !Steals(s, a)
  {
    hide Exclusive;
    match a
    case Create(workspace, incident, run, now) =>
      CreateClaims(s, workspace, incident, run, now);
    case Trigger(workspace, run, incident) =>
      SpawnClaims(s, [Task(workspace, run, incident, AtClaim, false)]);
    case Poll(workspace) =>
      PendingInRows(s.db.rows, s.db.order, workspace);
      SpawnClaims(s, Spawned(s.db, Take(PendingIn(s.db.rows, s.db.order, workspace), 3)));
    case Claim(i, now) =>
      if At(s, i) && s.tasks[i].pc.AtClaim? { ClaimClaims(s, i, now); }
    case ClaimRaises(i, message) =>
      if At(s, i) && s.tasks[i].pc.AtClaim? { MoveClaims(s, i, AtFail(message)); }
    case Analyse(i, outcome) =>
      if At(s, i) && s.tasks[i].pc.Claimed? {
        MoveClaims(s, i, match outcome case Ok(report) => AtComplete(report) case Err(e) => AtFail(e));
      }
    case Complete(i, now) =>
      if At(s, i) && s.tasks[i].pc.AtComplete? { CompleteClaims(s, i, now); }
    case CompleteRaises(i, message) =>
      if At(s, i) && s.tasks[i].pc.AtComplete? { MoveClaims(s, i, AtFail(message)); }
    case Fail(i, now) =>
      if At(s, i) && s.tasks[i].pc.AtFail? { FailClaimsIff(s, i, now); }
    case FailRaises(i) =>
      if At(s, i) && s.tasks[i].pc.AtFail? { MoveClaims(s, i, Finished); }
    case Kill(i) =>
      if At(s, i) { MoveClaims(s, i, Finished); }
  }

  /** A task that claimed its run finds the row running. */
  lemma ClaimedRunning(s: State, i: nat)
    requires Claims(s) && At(s, i) && s.tasks[i].claimed && !s.tasks[i].pc.Finished?
    ensures Matches(s.db, s.tasks[i].workspace, s.tasks[i].run) && s.db.rows[s.tasks[i].run].status == Running
  {
    assert Owns(s, i);
  }

  /** Rows and log keep agreeing exactly when the step is not a stray fail_run on a row that is not running. */
  lemma StepLogsIff(s: State, a: Action)
    requires Claims(s) && Logged(s.db)
    ensures Logged(Apply(s, a).db) <==> (StrayFail(s, a) ==> s.db.rows[s.tasks[a.task].run].status == Running)
  {
    hide Exclusive, Logged;
    match a
    case Create(workspace, incident, run, now) => CreateLogged(s.db, workspace, incident, run, now);
    case Claim(i, now) =>
      if At(s, i) { ClaimLogged(s.db, s.tasks[i].workspace, s.tasks[i].run, now); }
    case Complete(i, now) =>
      if At(s, i) && s.tasks[i].pc.AtComplete? {
        ClaimedRunning(s, i);
        CompleteLoggedIff(s.db, s.tasks[i].workspace, s.tasks[i].run, s.tasks[i].pc.report, now);
      }
    case Fail(i, now) =>
      if At(s, i) && s.tasks[i].pc.AtFail? && Matches(s.db, s.tasks[i].workspace, s.tasks[i].run) {
        if s.tasks[i].claimed { ClaimedRunning(s, i); }
        FailLogged(s.db, s.tasks[i].workspace, s.tasks[i].run, s.tasks[i].pc.message, now);
      }
    case _ =>
  }

  /** Both survive a step exactly when the step is not a harmful stray fail_run. */
  lemma StepKeepsIff(s: State, a: Action)
    requires Inv(s)
    ensures Inv(Apply(s, a)) <==> Harmless(s, a)
  {
    hide Claims, Logged, Apply;
    StepExcludesIff(s, a);
    StepLogsIff(s, a);
  }

  // ---------------------------------------------------------------- every run

  ghost predicate NeverSteals(actions: seq<Action>) {
    actions == [] ||
    var n := |actions| - 1;
    NeverSteals(actions[..n]) && !Steals(RunFrom(START, actions[..n]), actions[n])
  }

  ghost predicate AlwaysExclusive(actions: seq<Action>) {
    && Claims(RunFrom(START, actions))
    && (actions == [] || AlwaysExclusive(actions[..|actions| - 1]))
  }

  /** Claims are exclusive in every state of a run exactly when no step of it steals a run from its owner. */
  lemma {:induction false} RunExcludesIff(actions: seq<Action>)
    ensures AlwaysExclusive(actions) <==> NeverSteals(actions)
  {
    if actions != [] {
      hide Claims, Steals, Apply;
      var n := |actions| - 1;
      RunExcludesIff(actions[..n]);
      if AlwaysExclusive(actions[..n]) { StepExcludesIff(RunFrom(START, actions[..n]), actions[n]); }
    }
  }

  /** Every step of the run is harmless. */
  ghost predicate AlwaysHarmless(actions: seq<Action>) {
    actions == [] ||
    var n := |actions| - 1;
    AlwaysHarmless(actions[..n]) && Harmless(RunFrom(START, actions[..n]), actions[n])
  }

  /** Every state of the run satisfies the invariant. */
  ghost predicate AlwaysInv(actions: seq<Action>) {
    && Inv(RunFrom(START, actions))
    && (actions == [] || AlwaysInv(actions[..|actions| - 1]))
  }

  lemma RunSnoc(actions: seq<Action>, a: Action)
    ensures RunFrom(START, actions + [a]) == Apply(RunFrom(START, actions), a)
  {
    assert (actions + [a])[..|actions + [a]| - 1] == actions;
  }

  /** The invariant holds in every state of a run exactly when each of its steps is harmless. */
  lemma {:induction false} RunKeepsIff(actions: seq<Action>)
    ensures AlwaysInv(actions) <==> AlwaysHarmless(actions)
  {
    if actions != [] {
      var n := |actions| - 1;
      RunKeepsIff(actions[..n]);
      if AlwaysInv(actions[..n]) {
        StepKeepsIff(RunFrom(START, actions[..n]), actions[n]);
      }
    }
  }

  /** Every exception handler belongs to a task whose claim succeeded. */
  ghost predicate HandlersOwn(s: State) {
    forall i: nat :: At(s, i) && s.tasks[i].pc.AtFail? ==> s.tasks[i].claimed
  }

  ghost predicate ClaimsNeverRaise(actions: seq<Action>) {
    forall k :: 0 <= k < |actions| ==> !actions[k].ClaimRaises?
  }

  lemma HandlersStep(s: State, a: Action)
    requires Inv(s) && HandlersOwn(s) && !a.ClaimRaises?
    ensures Harmless(s, a) && HandlersOwn(Apply(s, a))
  {
    hide Exclusive, Logged;
    if a.Poll? {
      PendingInRows(s.db.rows, s.db.order, a.workspace);
    }
    var s' := Apply(s, a);
    forall i: nat | At(s', i) && s'.tasks[i].pc.AtFail?
      ensures s'.tasks[i].claimed
    {
      if i < |s.tasks| { assert At(s, i); }
    }
  }

  /** Exceptions after the claim, dying handlers and killed tasks never break the invariant. */
  lemma {:induction false} RunInv(actions: seq<Action>)
    requires ClaimsNeverRaise(actions)
    ensures Inv(RunFrom(START, actions)) && HandlersOwn(RunFrom(START, actions))
    decreases |actions|
  {
    if actions != [] {
      hide Inv, HandlersOwn, Harmless, Apply;
      var n := |actions| - 1;
      RunInv(actions[..n]);
      HandlersStep(RunFrom(START, actions[..n]), actions[n]);
      StepKeepsIff(RunFrom(START, actions[..n]), actions[n]);
    }
  }

  /** Mutual exclusion, over every interleaving of every number of tasks. */
  lemma AtMostOneOwner(actions: seq<Action>, i: nat, j: nat)
    requires ClaimsNeverRaise(actions)
    ensures var s := RunFrom(START, actions);
            && (Owns(s, i) ==> Matches(s.db, s.tasks[i].workspace, s.tasks[i].run) &&
                               s.db.rows[s.tasks[i].run].status == Running)
            && (Owns(s, i) && Owns(s, j) && s.tasks[i].run == s.tasks[j].run ==> i == j)
  {
    RunInv(actions);
  }

  /** The stored log of every run, in every reachable state, and what the row says about it. */
  lemma LogTellsRow(actions: seq<Action>, id: Id)
    requires ClaimsNeverRaise(actions)
    requires id in RunFrom(START, actions).db.rows
    ensures var db := RunFrom(START, actions).db;
            var row, events := db.rows[id], EventsOf(db.log, id);
            && Replay(Kinds(events)) == Some(row.status)
            && HasShape(Kinds(events), row.status)
            && row.startedAt == FirstClaim(events)
            && row.completedAt == LastEnd(events)
            && (row.result.Some? <==> row.status == Completed)
            && (row.errorMessage.Some? <==> row.status == Failed)
            && (row.errorMessage.Some? ==> events != [] && TellsError(events[|events| - 1], row.errorMessage.value))
  {
    RunInv(actions);
    var db := RunFrom(START, actions).db;
    ReplayIffShape(Kinds(EventsOf(db.log, id)), db.rows[id].status);
  }

  /** A run's row and log are the same in both databases. */
  predicate SameRun(before: Db, after: Db, id: Id) {
    && id in before.rows && id in after.rows && after.rows[id] == before.rows[id]
    && EventsOf(after.log, id) == EventsOf(before.log, id)
  }

  /** A task about to complete or to fail its run owns it. */
  lemma EndingOwns(s: State, i: nat)
    requires Inv(s) && HandlersOwn(s) && At(s, i) && (s.tasks[i].pc.AtComplete? || s.tasks[i].pc.AtFail?)
    ensures s.tasks[i].run in s.db.rows && s.db.rows[s.tasks[i].run].status == Running
  {
    assert Owns(s, i);
  }

  lemma CompletedStays(s: State, a: Action, id: Id)
    requires Inv(s) && HandlersOwn(s) && id in s.db.rows && s.db.rows[id].status == Completed
    ensures SameRun(s.db, Apply(s, a).db, id)
  {
    hide Inv, HandlersOwn, EventsOf, Replay;
    match a
    case Create(workspace, incident, run, now) =>
      EventsOfAppend(s.db.log, Event(run, workspace, RunCreated, now, ""), id);
    case Claim(i, now) =>
      if At(s, i) {
        EventsOfAppend(s.db.log, Event(s.tasks[i].run, s.tasks[i].workspace, RunRunning, now, ""), id);
      }
    case Complete(i, now) =>
      if At(s, i) && s.tasks[i].pc.AtComplete? {
        EndingOwns(s, i);
        EventsOfAppend(s.db.log, Event(s.tasks[i].run, s.tasks[i].workspace, RunCompleted, now, ""), id);
      }
    case Fail(i, now) =>
      if At(s, i) && s.tasks[i].pc.AtFail? {
        EndingOwns(s, i);
        EventsOfAppend(s.db.log,
          Event(s.tasks[i].run, s.tasks[i].workspace, RunFailed, now, Truncate(s.tasks[i].pc.message, 500)), id);
      }
    case _ =>
  }

  lemma CompletedStep(before: Db, actions: seq<Action>, a: Action, id: Id)
    requires ClaimsNeverRaise(actions)
    requires SameRun(before, RunFrom(START, actions).db, id) && before.rows[id].status == Completed
    ensures SameRun(before, RunFrom(START, actions + [a]).db, id)
  {
    hide RunFrom, Apply, Inv, HandlersOwn, EventsOf;
    RunInv(actions);
    RunSnoc(actions, a);
    CompletedStays(RunFrom(START, actions), a, id);
  }

  /** A completed run keeps its row, its result and its log whatever happens afterwards. */
  lemma {:induction false} CompletedIsFinal(actions: seq<Action>, more: seq<Action>, id: Id)
    requires ClaimsNeverRaise(actions) && ClaimsNeverRaise(more)
    requires var db := RunFrom(START, actions).db; id in db.rows && db.rows[id].status == Completed
    ensures SameRun(RunFrom(START, actions).db, RunFrom(START, actions + more).db, id)
    decreases |more|
  {
    if more == [] {
      assert actions + more == actions;
    } else {
      hide RunFrom, SameRun;
      var init := more[..|more| - 1];
      CompletedIsFinal(actions, init, id);
      CompletedStep(RunFrom(START, actions).db, actions + init, more[|more| - 1], id);
      assert actions + more == actions + init + [more[|more| - 1]];
    }
  }

  /** One created run and three tasks, the first of which has claimed it. */
  lemma OneOwnerThreeTasks(actions: seq<Action>)
    requires actions == [Create("w", "i", "r", 0), Trigger("w", "r", "i"), Trigger("w", "r", "i"),
                         Trigger("w", "r", "i"), Claim(0, 1)]
    ensures var s := RunFrom(START, actions);
            && Matches(s.db, "w", "r") && s.db.rows["r"].status == Running
            && s.tasks == [Task("w", "r", "i", Claimed, true), Task("w", "r", "i", AtClaim, false),
                           Task("w", "r", "i", AtClaim, false)]
  {
    var s1 := Apply(START, actions[0]);
    assert RunFrom(START, actions[..0]) == START;
    assert actions[..1] == actions[..0] + [actions[0]];
    RunSnoc(actions[..0], actions[0]);
    assert Matches(s1.db, "w", "r") && s1.tasks == [];
    assert actions[..2] == actions[..1] + [actions[1]];
    RunSnoc(actions[..1], actions[1]);
    assert actions[..3] == actions[..2] + [actions[2]];
    RunSnoc(actions[..2], actions[2]);
    assert actions[..4] == actions[..3] + [actions[3]];
    RunSnoc(actions[..3], actions[3]);
    assert actions == actions[..4] + [actions[4]];
    RunSnoc(actions[..4], actions[4]);
  }

  lemma StrayFailThenClaim(s: State)
    requires Matches(s.db, "w", "r") && s.db.rows["r"].status == Running
    requires s.tasks == [Task("w", "r", "i", Claimed, true), Task("w", "r", "i", AtClaim, false),
                         Task("w", "r", "i", AtClaim, false)]
    ensures !Exclusive(Apply(Apply(Apply(s, ClaimRaises(1, "timeout")), Fail(1, 2)), Claim(2, 3)))
  {
    var failed := Apply(Apply(s, ClaimRaises(1, "timeout")), Fail(1, 2));
    assert failed.tasks[0] == s.tasks[0] && failed.tasks[2] == s.tasks[2];
    assert Claimable(failed.db, "w", "r");
    var s' := Apply(failed, Claim(2, 3));
    assert Owns(s', 0) && Owns(s', 2) && s'.tasks[0].run == s'.tasks[2].run;
  }

  /** How many claims of a run raise. */
  function RaisingClaims(actions: seq<Action>): nat {
    if actions == [] then 0
    else RaisingClaims(actions[..|actions| - 1]) + if actions[|actions| - 1].ClaimRaises? then 1 else 0
  }

  lemma RaisingSnoc(actions: seq<Action>, a: Action)
    ensures RaisingClaims(actions + [a]) == RaisingClaims(actions) + if a.ClaimRaises? then 1 else 0
  {
    assert (actions + [a])[..|actions + [a]| - 1] == actions;
  }

  lemma {:induction false} NoneRaises(actions: seq<Action>)
    requires ClaimsNeverRaise(actions)
    ensures RaisingClaims(actions) == 0
  {
    if actions != [] { NoneRaises(actions[..|actions| - 1]); }
  }

  lemma ThreeMoreSteps(actions: seq<Action>, a: Action, b: Action, c: Action) returns (longer: seq<Action>)
    requires ClaimsNeverRaise(actions) && a.ClaimRaises? && !b.ClaimRaises? && !c.ClaimRaises?
    ensures RunFrom(START, longer) == Apply(Apply(Apply(RunFrom(START, actions), a), b), c)
    ensures RaisingClaims(longer) == 1
  {
    hide RunFrom, Apply, RaisingClaims;
    NoneRaises(actions);
    RunSnoc(actions, a);
    RaisingSnoc(actions, a);
    longer := actions + [a];
    RunSnoc(longer, b);
    RaisingSnoc(longer, b);
    longer := longer + [b];
    RunSnoc(longer, c);
    RaisingSnoc(longer, c);
    longer := longer + [c];
  }

  /** The unguarded handler: a single raising claim is enough to give a run two owners. */
  lemma RaisingClaimBreaksExclusion()
    ensures exists actions: seq<Action> :: RaisingClaims(actions) == 1 && !Exclusive(RunFrom(START, actions))
  {
    var actions := [Create("w", "i", "r", 0), Trigger("w", "r", "i"), Trigger("w", "r", "i"),
                    Trigger("w", "r", "i"), Claim(0, 1)];
    OneOwnerThreeTasks(actions);
    StrayFailThenClaim(RunFrom(START, actions));
    var longer := ThreeMoreSteps(actions, ClaimRaises(1, "timeout"), Fail(1, 2), Claim(2, 3));
  }

  // ---------------------------------------------------------------- stranded runs

  /** The row says the run is being worked on, and no task owns it. */
  ghost predicate Stranded(s: State, id: Id) {
    id in s.db.rows && s.db.rows[id].status == Running && !Owned(s, id)
  }

  /** An owner that is killed, or whose fail_run raises, strands its run. */
  lemma LostOwnerStrands(s: State, i: nat, a: Action)
    requires Inv(s) && Owns(s, i) && (a == Kill(i) || (a == FailRaises(i) && s.tasks[i].pc.AtFail?))
    ensures Stranded(Apply(s, a), s.tasks[i].run)
  {
    hide Logged;
    ClaimedRunning(s, i);
    assert Apply(s, a) == Move(s, i, Finished);
    NobodyElse(s, i);
  }

  lemma NobodyElse(s: State, i: nat)
    requires Exclusive(s) && Owns(s, i)
    ensures !Owned(Move(s, i, Finished), s.tasks[i].run)
  {
    var s' := Move(s, i, Finished);
    assert forall j: nat :: Owns(s', j) ==> j != i && Owns(s, j) && s'.tasks[j] == s.tasks[j];
  }

  /** A task that is about to end a run owns it. */
  lemma EndingIsOwner(s: State, i: nat)
    requires Claims(s) && HandlersOwn(s) && At(s, i) && (s.tasks[i].pc.AtComplete? || s.tasks[i].pc.AtFail?)
    ensures Owned(s, s.tasks[i].run)
  {
    assert Owns(s, i);
  }

  lemma StrandedRow(s: State, a: Action, id: Id)
    requires Inv(s) && HandlersOwn(s) && !a.ClaimRaises? && Stranded(s, id)
    ensures SameRun(s.db, Apply(s, a).db, id)
  {
    hide Exclusive, Logged, EventsOf, Owned;
    match a
    case Create(workspace, incident, run, now) =>
      EventsOfAppend(s.db.log, Event(run, workspace, RunCreated, now, ""), id);
    case Claim(i, now) =>
      if At(s, i) {
        EventsOfAppend(s.db.log, Event(s.tasks[i].run, s.tasks[i].workspace, RunRunning, now, ""), id);
      }
    case Complete(i, now) =>
      if At(s, i) && s.tasks[i].pc.AtComplete? {
        EndingIsOwner(s, i);
        EventsOfAppend(s.db.log, Event(s.tasks[i].run, s.tasks[i].workspace, RunCompleted, now, ""), id);
      }
    case Fail(i, now) =>
      if At(s, i) && s.tasks[i].pc.AtFail? {
        EndingIsOwner(s, i);
        EventsOfAppend(s.db.log,
          Event(s.tasks[i].run, s.tasks[i].workspace, RunFailed, now, Truncate(s.tasks[i].pc.message, 500)), id);
      }
    case _ =>
  }

  lemma StrandedOwner(s: State, a: Action, id: Id)
    requires Stranded(s, id)
    ensures !Owned(Apply(s, a), id)
  {
    hide EventsOf;
    if a.Poll? { PendingInRows(s.db.rows, s.db.order, a.workspace); }
    var s' := Apply(s, a);
    forall j: nat | Owns(s', j) ensures s'.tasks[j].run != id {
      assert j < |s.tasks| && s'.tasks[j].run == s.tasks[j].run;
      assert s.tasks[j].run == id ==> !Owns(s, j);
    }
  }

  lemma StrandedStep(before: Db, actions: seq<Action>, a: Action, id: Id)
    requires ClaimsNeverRaise(actions) && !a.ClaimRaises?
    requires Stranded(RunFrom(START, actions), id) && SameRun(before, RunFrom(START, actions).db, id)
    ensures Stranded(RunFrom(START, actions + [a]), id) && SameRun(before, RunFrom(START, actions + [a]).db, id)
  {
    hide Apply, Owned, EventsOf, RunFrom, Inv, HandlersOwn;
    RunInv(actions);
    StrandedRow(RunFrom(START, actions), a, id);
    StrandedOwner(RunFrom(START, actions), a, id);
    RunSnoc(actions, a);
  }

  /** A stranded run keeps its row and its log, whatever follows: no trigger, poll or claim gets it going again. */
  lemma {:induction false} StrandedForever(actions: seq<Action>, more: seq<Action>, id: Id)
    requires ClaimsNeverRaise(actions) && ClaimsNeverRaise(more) && Stranded(RunFrom(START, actions), id)
    ensures SameRun(RunFrom(START, actions).db, RunFrom(START, actions + more).db, id)
    ensures Stranded(RunFrom(START, actions + more), id)
    decreases |more|
  {
    if more == [] {
      assert actions + more == actions;
    } else {
      hide RunFrom, Stranded, SameRun;
      var init, last := more[..|more| - 1], more[|more| - 1];
      StrandedForever(actions, init, id);
      StrandedStep(RunFrom(START, actions).db, actions + init, last, id);
      assert actions + more == actions + init + [last];
    }
  }

  /** An owner can still end its run. */
  lemma OwnerCanEnd(actions: seq<Action>, i: nat) returns (more: seq<Action>)
    requires Claims(RunFrom(START, actions)) && Owns(RunFrom(START, actions), i)
    ensures ClaimsNeverRaise(more)
    ensures var run, db := RunFrom(START, actions).tasks[i].run, RunFrom(START, actions + more).db;
            run in db.rows && db.rows[run].status != Running
  {
    var s := RunFrom(START, actions);
    ClaimedRunning(s, i);
    hide Exclusive, RunFrom;
    match s.tasks[i].pc
    case AtFail(_) =>
      RunSnoc(actions, Fail(i, 0));
      more := [Fail(i, 0)];
    case AtComplete(_) =>
      RunSnoc(actions, Complete(i, 0));
      more := [Complete(i, 0)];
    case Claimed =>
      RunSnoc(actions, Analyse(i, Ok("")));
      RunSnoc(actions + [Analyse(i, Ok(""))], Complete(i, 0));
      more := [Analyse(i, Ok("")), Complete(i, 0)];
      assert actions + more == actions + [Analyse(i, Ok(""))] + [Complete(i, 0)];
  }

  /** While no claim raises, a running run can still end exactly when a task owns it. */
  lemma CanEndIffOwned(actions: seq<Action>, id: Id)
    requires ClaimsNeverRaise(actions)
    requires id in RunFrom(START, actions).db.rows && RunFrom(START, actions).db.rows[id].status == Running
    ensures Owned(RunFrom(START, actions), id) <==>
            exists more :: ClaimsNeverRaise(more) && EndedIn(RunFrom(START, actions + more).db, id)
  {
    var s := RunFrom(START, actions);
    RunInv(actions);
    hide RunFrom;
    if Owned(s, id) {
      var i: nat :| Owns(s, i) && s.tasks[i].run == id;
      var more := OwnerCanEnd(actions, i);
      assert EndedIn(RunFrom(START, actions + more).db, id);
    } else {
      forall more | ClaimsNeverRaise(more) ensures !EndedIn(RunFrom(START, actions + more).db, id) {
        StrandedForever(actions, more, id);
      }
    }
  }

  predicate EndedIn(db: Db, id: Id) {
    id in db.rows && db.rows[id].status != Running
  }
}
