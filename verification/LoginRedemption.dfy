/**
 Concurrent login callbacks.  Each `consumeLoginAttempt` is two steps of one transaction, a find and a
 delete; other callbacks run between them.  Deleting a row that is gone raises.
 */
module LoginRedemption {
  import opened Common

  const LOGIN_ATTEMPT_MS := 10 * 60_000

  datatype Pc =
    | AtFind
    | Found(expired: bool, foundAt: int, expiresAt: int)
    | Redeemed(foundAt: int, expiresAt: int)
    | Refused                                             // returned null
    | Raised                                              // the delete found no row

  datatype Callback = Callback(state: string, pc: Pc)

  /** `issued` is the history of creations. */
  datatype State = State(rows: map<string, int>, callbacks: seq<Callback>, issued: seq<Issue>)

  datatype Issue = Issue(state: string, at: int)

  datatype Action =
    | CreateAttempt(state: string, now: int)
    | Arrive(state: string)
    | Find(i: nat, now: int)
    | Delete(i: nat)
    | Cleanup(now: int)

  function SetPc(s: State, i: nat, pc: Pc): State
    requires i < |s.callbacks|
  {
    s.(callbacks := s.callbacks[i := s.callbacks[i].(pc := pc)])
  }

  function Apply(s: State, a: Action): State {
    match a
    case CreateAttempt(state, now) =>
      if state in s.rows then s
      else s.(rows := s.rows[state := now + LOGIN_ATTEMPT_MS], issued := s.issued + [Issue(state, now)])
    case Arrive(state) => s.(callbacks := s.callbacks + [Callback(state, AtFind)])
    case Find(i, now) =>
      if i < |s.callbacks| && s.callbacks[i].pc.AtFind? then
        var state := s.callbacks[i].state;
        SetPc(s, i, if state in s.rows then Found(s.rows[state] <= now, now, s.rows[state]) else Refused)
      else s
    case Delete(i) =>
      if i < |s.callbacks| && s.callbacks[i].pc.Found? then
        var state, found := s.callbacks[i].state, s.callbacks[i].pc;
        if state !in s.rows then SetPc(s, i, Raised)
        else SetPc(s.(rows := s.rows - {state}), i,
                   if found.expired then Refused else Redeemed(found.foundAt, found.expiresAt))
      else s
    case Cleanup(now) => s.(rows := map x | x in s.rows && s.rows[x] > now :: s.rows[x])
  }

  const START := State(map[], [], [])

  function RunFrom(s: State, actions: seq<Action>): State {
    if actions == [] then s else Apply(RunFrom(s, actions[..|actions| - 1]), actions[|actions| - 1])
  }

  function Run(actions: seq<Action>): State {
    RunFrom(START, actions)
  }

  /** How many callbacks have redeemed the state. */
  function Redemptions(callbacks: seq<Callback>, state: string): nat {
    if callbacks == [] then 0
    else
      Redemptions(callbacks[..|callbacks| - 1], state) +
      var last := callbacks[|callbacks| - 1];
      if last.state == state && last.pc.Redeemed? then 1 else 0
  }

  /** How many times the state has been created. */
  function Issues(issued: seq<Issue>, state: string): nat {
    if issued == [] then 0
    else Issues(issued[..|issued| - 1], state) + if issued[|issued| - 1].state == state then 1 else 0
  }

  function Stored(s: State, state: string): nat {
    if state in s.rows then 1 else 0
  }

  lemma {:induction false} RedemptionsUpdate(callbacks: seq<Callback>, i: nat, pc: Pc, state: string)
    requires i < |callbacks| && !callbacks[i].pc.Redeemed?
    ensures Redemptions(callbacks[i := callbacks[i].(pc := pc)], state) ==
            Redemptions(callbacks, state) + if callbacks[i].state == state && pc.Redeemed? then 1 else 0
    decreases |callbacks|
  {
    var n := |callbacks| - 1;
    var updated := callbacks[i := callbacks[i].(pc := pc)];
    if i == n {
      assert updated[..n] == callbacks[..n];
    } else {
      RedemptionsUpdate(callbacks[..n], i, pc, state);
      assert updated[..n] == callbacks[..n][i := callbacks[i].(pc := pc)];
    }
  }

  lemma IssuesAppended(issued: seq<Issue>, e: Issue, state: string)
    ensures Issues(issued + [e], state) == Issues(issued, state) + if e.state == state then 1 else 0
  {
    assert (issued + [e])[..|issued + [e]| - 1] == issued;
  }

  lemma CallbackArrives(callbacks: seq<Callback>, x: string, state: string)
    ensures Redemptions(callbacks + [Callback(x, AtFind)], state) == Redemptions(callbacks, state)
  {
    assert (callbacks + [Callback(x, AtFind)])[..|callbacks + [Callback(x, AtFind)]| - 1] == callbacks;
  }

  /** What was redeemed and what is stored was created. */
  ghost predicate Accounted(s: State, state: string) {
    Redemptions(s.callbacks, state) + Stored(s, state) <= Issues(s.issued, state)
  }

  lemma FindConserves(s: State, i: nat, now: int, state: string)
    requires Accounted(s, state) && i < |s.callbacks| && s.callbacks[i].pc.AtFind?
    ensures Accounted(Apply(s, Find(i, now)), state)
  {
    hide Redemptions, Issues;
    RedemptionsUpdate(s.callbacks, i, Apply(s, Find(i, now)).callbacks[i].pc, state);
  }

  lemma DeleteConserves(s: State, i: nat, state: string)
    requires Accounted(s, state) && i < |s.callbacks| && s.callbacks[i].pc.Found?
    ensures Accounted(Apply(s, Delete(i)), state)
  {
    hide Redemptions, Issues;
    RedemptionsUpdate(s.callbacks, i, Apply(s, Delete(i)).callbacks[i].pc, state);
  }

  /** Every step conserves the account of one state. */
  lemma StepConserves(s: State, a: Action, state: string)
    requires Accounted(s, state)
    ensures Accounted(Apply(s, a), state)
  {
    hide Redemptions, Issues;
    match a
    case CreateAttempt(x, now) => IssuesAppended(s.issued, Issue(x, now), state);
    case Arrive(x) => CallbackArrives(s.callbacks, x, state);
    case Find(i, now) => if i < |s.callbacks| && s.callbacks[i].pc.AtFind? { FindConserves(s, i, now, state); }
    case Delete(i) => if i < |s.callbacks| && s.callbacks[i].pc.Found? { DeleteConserves(s, i, state); }
    case Cleanup(now) =>
  }

  /** Over every interleaving, each creation of a state is redeemed at most once. */
  lemma {:induction false} RedeemedAtMostOnce(actions: seq<Action>, state: string)
    ensures var s := Run(actions); Redemptions(s.callbacks, state) + Stored(s, state) <= Issues(s.issued, state)
    decreases |actions|
  {
    if actions != [] {
      hide Redemptions, Issues, Stored, Apply;
      RedeemedAtMostOnce(actions[..|actions| - 1], state);
      StepConserves(Run(actions[..|actions| - 1]), actions[|actions| - 1], state);
    }
  }

  // ---------------------------------------------------------------- the losers of a race

  /** Callback `i` has found the attempt of this state and is about to delete it. */
  predicate Racing(s: State, i: nat, state: string) {
    i < |s.callbacks| && s.callbacks[i].state == state && s.callbacks[i].pc.Found?
  }

  predicate Outcome(s: State, i: nat, pc: Pc) {
    i < |s.callbacks| && s.callbacks[i].pc == pc
  }

  /** The row of the state is gone, and callback `j` has raised or is still about to find that out. */
  predicate Lost(s: State, j: nat, state: string) {
    state !in s.rows && (Racing(s, j, state) || Outcome(s, j, Raised))
  }

  lemma LostStep(s: State, a: Action, j: nat, state: string)
    requires Lost(s, j, state) && !(a.CreateAttempt? && a.state == state)
    ensures Lost(Apply(s, a), j, state)
    ensures a == Delete(j) ==> Outcome(Apply(s, a), j, Raised)
    ensures Outcome(s, j, Raised) ==> Outcome(Apply(s, a), j, Raised)
  {
  }

  lemma {:induction false} LosersRaise(s: State, more: seq<Action>, j: nat, state: string)
    requires Lost(s, j, state)
    requires forall k :: 0 <= k < |more| ==> !(more[k].CreateAttempt? && more[k].state == state)
    ensures Lost(RunFrom(s, more), j, state)
    ensures Delete(j) in more ==> Outcome(RunFrom(s, more), j, Raised)
    decreases |more|
  {
    if more != [] {
      hide Apply, Lost, Outcome;
      var init, last := more[..|more| - 1], more[|more| - 1];
      assert more == init + [last];
      LosersRaise(s, init, j, state);
      LostStep(RunFrom(s, init), last, j, state);
    }
  }

  /**
   Of the callbacks that found one attempt, the first to delete decides: it redeems exactly an unexpired
   attempt, and unless the state is created again every other one raises on its own deletion, whatever runs
   in between.
   */
  lemma FirstDeletionWins(s: State, i: nat, j: nat, more: seq<Action>, state: string)
    requires Racing(s, i, state) && Racing(s, j, state) && i != j && state in s.rows
    requires forall k :: 0 <= k < |more| ==> !(more[k].CreateAttempt? && more[k].state == state)
    ensures var found, t := s.callbacks[i].pc, Apply(s, Delete(i));
            && Outcome(t, i, if found.expired then Refused else Redeemed(found.foundAt, found.expiresAt))
            && !Outcome(RunFrom(t, more), j, Refused)
            && (Delete(j) in more ==> Outcome(RunFrom(t, more), j, Raised))
  {
    LosersRaise(Apply(s, Delete(i)), more, j, state);
  }

  // ---------------------------------------------------------------- an attempt can be redeemed

  /** In the run that leads to `t`, no callback of the state deletes, and no cleanup comes after the expiry. */
  predicate LeavesRow(actions: seq<Action>, t: State, state: string, expiresAt: int) {
    forall k :: 0 <= k < |actions| ==>
      && (actions[k].Delete? ==> actions[k].i >= |t.callbacks| || t.callbacks[actions[k].i].state != state)
      && (actions[k].Cleanup? ==> actions[k].now < expiresAt)
  }

  lemma StepKeepsCallback(s: State, a: Action, j: nat)
    requires j < |s.callbacks|
    ensures j < |Apply(s, a).callbacks| && Apply(s, a).callbacks[j].state == s.callbacks[j].state
    ensures s.callbacks[j].pc.Found? && a != Delete(j) ==> Apply(s, a).callbacks[j] == s.callbacks[j]
    ensures s.callbacks[j].pc.AtFind? && !(a.Find? && a.i == j) ==> Apply(s, a).callbacks[j] == s.callbacks[j]
  {
  }

  /** A cleanup leaves exactly the attempts that have not expired. */
  lemma CleanupLeaves(s: State, now: int, state: string)
    ensures state in Apply(s, Cleanup(now)).rows <==> state in s.rows && now < s.rows[state]
  {
  }

  lemma {:induction false} RowStays(s: State, actions: seq<Action>, t: State, state: string)
    requires state in s.rows && t == RunFrom(s, actions) && LeavesRow(actions, t, state, s.rows[state])
    ensures state in t.rows && t.rows[state] == s.rows[state]
    decreases |actions|
  {
    if actions != [] {
      var init, last := actions[..|actions| - 1], actions[|actions| - 1];
      var u := RunFrom(s, init);
      forall j: nat | j < |u.callbacks| ensures j < |t.callbacks| && t.callbacks[j].state == u.callbacks[j].state {
        StepKeepsCallback(u, last, j);
      }
      hide RunFrom;
      assert LeavesRow(init, u, state, s.rows[state]);
      RowStays(s, init, u, state);
    }
  }

  lemma {:induction false} FoundStays(s: State, actions: seq<Action>, i: nat)
    requires i < |s.callbacks| && s.callbacks[i].pc.Found? && Delete(i) !in actions
    ensures i < |RunFrom(s, actions).callbacks| && RunFrom(s, actions).callbacks[i] == s.callbacks[i]
    decreases |actions|
  {
    if actions != [] {
      hide Apply;
      var init, last := actions[..|actions| - 1], actions[|actions| - 1];
      assert actions == init + [last];
      FoundStays(s, init, i);
      StepKeepsCallback(RunFrom(s, init), last, i);
    }
  }

  /**
   A created attempt that no other callback deletes first is redeemed by a callback that looks for it within ten
   minutes, whatever else runs before the lookup and between the lookup and the deletion.
   */
  lemma FirstFinderRedeems(s: State, state: string, at: int, before: seq<Action>, i: nat, now: int, between: seq<Action>)
    requires state !in s.rows && now < at + LOGIN_ATTEMPT_MS
    requires var u := RunFrom(Apply(s, CreateAttempt(state, at)), before);
             && LeavesRow(before, u, state, at + LOGIN_ATTEMPT_MS)
             && i < |u.callbacks| && u.callbacks[i] == Callback(state, AtFind)
             && LeavesRow(between, RunFrom(Apply(u, Find(i, now)), between), state, at + LOGIN_ATTEMPT_MS)
    ensures var u := RunFrom(Apply(s, CreateAttempt(state, at)), before);
            Outcome(Apply(RunFrom(Apply(u, Find(i, now)), between), Delete(i)), i, Redeemed(now, at + LOGIN_ATTEMPT_MS))
  {
    var created := Apply(s, CreateAttempt(state, at));
    var u := RunFrom(created, before);
    var found := Apply(u, Find(i, now));
    var t := RunFrom(found, between);
    RowStays(created, before, u, state);
    assert found.callbacks[i] == Callback(state, Found(false, now, at + LOGIN_ATTEMPT_MS));
    RowStays(found, between, t, state);
    CallbackStays(found, between, i);
    FoundStays(found, between, i);
    hide RunFrom, LeavesRow;
  }

  lemma {:induction false} CallbackStays(s: State, actions: seq<Action>, i: nat)
    requires i < |s.callbacks|
    ensures i < |RunFrom(s, actions).callbacks| && RunFrom(s, actions).callbacks[i].state == s.callbacks[i].state
    decreases |actions|
  {
    if actions != [] {
      hide Apply;
      CallbackStays(s, actions[..|actions| - 1], i);
      StepKeepsCallback(RunFrom(s, actions[..|actions| - 1]), actions[|actions| - 1], i);
    }
  }

  // ---------------------------------------------------------------- in time

  /** The instant of an action that has one. */
  function When(a: Action): Option<int> {
    match a
    case CreateAttempt(_, now) => Some(now)
    case Find(_, now) => Some(now)
    case Cleanup(now) => Some(now)
    case _ => None
  }

  /** The clock never goes back, and does not pass `now`. */
  ghost predicate Monotone(actions: seq<Action>, now: int) {
    && (forall i, j :: 0 <= i < j < |actions| && When(actions[i]).Some? && When(actions[j]).Some? ==>
          When(actions[i]).value <= When(actions[j]).value)
    && (forall i :: 0 <= i < |actions| && When(actions[i]).Some? ==> When(actions[i]).value <= now)
  }

  /** The state was created less than ten minutes before `expiresAt`, and not after `now`. */
  ghost predicate WasIssued(issued: seq<Issue>, state: string, expiresAt: int, now: int) {
    Issue(state, expiresAt - LOGIN_ATTEMPT_MS) in issued && expiresAt - LOGIN_ATTEMPT_MS <= now
  }

  ghost predicate CallbackTimely(issued: seq<Issue>, c: Callback) {
    match c.pc
    case Found(expired, foundAt, expiresAt) =>
      WasIssued(issued, c.state, expiresAt, foundAt) && (expired <==> expiresAt <= foundAt)
    case Redeemed(foundAt, expiresAt) => WasIssued(issued, c.state, expiresAt, foundAt) && foundAt < expiresAt
    case _ => true
  }

  ghost predicate Timely(s: State, now: int) {
    && (forall x :: x in s.rows ==> WasIssued(s.issued, x, s.rows[x], now))
    && (forall i :: 0 <= i < |s.callbacks| ==> CallbackTimely(s.issued, s.callbacks[i]))
  }

  lemma StepTimely(s: State, a: Action, before: int, now: int)
    requires Timely(s, before) && before <= now && (When(a).Some? ==> before <= When(a).value <= now)
    ensures Timely(Apply(s, a), now)
  {
    var s' := Apply(s, a);
    assert forall e :: e in s.issued ==> e in s'.issued;
    forall i | 0 <= i < |s'.callbacks| ensures CallbackTimely(s'.issued, s'.callbacks[i]) {
      if i < |s.callbacks| { assert CallbackTimely(s.issued, s.callbacks[i]); }
    }
  }

  lemma {:induction false} AlwaysTimely(actions: seq<Action>, now: int)
    requires Monotone(actions, now)
    ensures Timely(Run(actions), now)
    decreases |actions|
  {
    if actions != [] {
      var init, last := actions[..|actions| - 1], actions[|actions| - 1];
      var before := if When(last).Some? then When(last).value else now;
      AlwaysTimely(init, before);
      StepTimely(Run(init), last, before, now);
    }
  }

  /** Every redemption found its attempt after a creation of that state, and less than ten minutes after it. */
  lemma RedeemedWithinTenMinutes(actions: seq<Action>, now: int, i: nat)
    requires Monotone(actions, now)
    requires i < |Run(actions).callbacks| && Run(actions).callbacks[i].pc.Redeemed?
    ensures exists e ::
              && e in Run(actions).issued && e.state == Run(actions).callbacks[i].state
              && e.at <= Run(actions).callbacks[i].pc.foundAt < e.at + LOGIN_ATTEMPT_MS
  {
    AlwaysTimely(actions, now);
    var c := Run(actions).callbacks[i];
    assert CallbackTimely(Run(actions).issued, c);
    assert Issue(c.state, c.pc.expiresAt - LOGIN_ATTEMPT_MS) in Run(actions).issued;
  }
}
