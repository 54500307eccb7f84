/**
 Sessions and login attempts.  Tokens, states and their hashes are identified (the hash is taken to
 be injective); every operation happens at one instant.
 */
module Sessions {
  import opened Common

  type Token = string

  const LOGIN_ATTEMPT_MS := 10 * 60_000

  datatype Config = Config(idleMs: int, absoluteMs: int)

  datatype Attempt = Attempt(payload: string, expiresAt: int)

  datatype Session = Session(workspace: string, idleExpiresAt: int, absoluteExpiresAt: int)

  datatype State = State(attempts: map<Token, Attempt>, sessions: map<Token, Session>)

  datatype Op =
    | CreateLoginAttempt(state: Token, payload: string)
    | ConsumeLoginAttempt(state: Token)
    | CreateSession(token: Token, workspace: string, replace: Option<Token>)
    | Authenticate(token: Token, active: set<string>)   // `active`: the workspaces that are active now
    | Destroy(token: Token)
    | Cleanup

  datatype Timed = Timed(at: int, op: Op)

  datatype Reply =
    | Created
    | Duplicate                    // the primary key is taken; nothing is written
    | Consumed(payload: string)
    | Principal(token: Token, workspace: string)
    | Null
    | Deleted
    | Removed(count: int)

  const EMPTY := State(map[], map[])

  function Min(a: int, b: int): int { if a < b then a else b }

  /** Expired attempts and sessions are gone. */
  function Cleaned(s: State, now: int): State {
    State(map h | h in s.attempts && s.attempts[h].expiresAt > now :: s.attempts[h],
          map h | h in s.sessions && s.sessions[h].idleExpiresAt > now && s.sessions[h].absoluteExpiresAt > now
            :: s.sessions[h])
  }

  /** The new session is there and the replaced one is not. */
  function WithSession(sessions: map<Token, Session>, token: Token, x: Session, replace: Option<Token>): map<Token, Session> {
    var put := sessions[token := x];
    if replace.Some? then put - {replace.value} else put
  }

  /** A token is shown: a session that has expired or whose workspace is inactive goes, another one slides. */
  function Present(c: Config, sessions: map<Token, Session>, token: Token, active: set<string>, at: int)
    : (map<Token, Session>, Reply)
  {
    if token !in sessions then (sessions, Null)
    else
      var x := sessions[token];
      if x.idleExpiresAt <= at || x.absoluteExpiresAt <= at || x.workspace !in active
      then (sessions - {token}, Null)
      else (sessions[token := x.(idleExpiresAt := Min(at + c.idleMs, x.absoluteExpiresAt))], Principal(token, x.workspace))
  }

  function Apply(c: Config, s: State, t: Timed): (State, Reply) {
    match t.op
    case CreateLoginAttempt(state, payload) =>
      if state in s.attempts then (s, Duplicate)
      else (s.(attempts := s.attempts[state := Attempt(payload, t.at + LOGIN_ATTEMPT_MS)]), Created)
    case ConsumeLoginAttempt(state) =>
      (s.(attempts := s.attempts - {state}),
       if state in s.attempts && s.attempts[state].expiresAt > t.at then Consumed(s.attempts[state].payload) else Null)
    case CreateSession(token, workspace, replace) =>
      if token in s.sessions then (s, Duplicate)
      else
        var x := Session(workspace, t.at + c.idleMs, t.at + c.absoluteMs);
        (s.(sessions := WithSession(s.sessions, token, x, replace)), Created)
    case Authenticate(token, active) =>
      var (sessions, reply) := Present(c, s.sessions, token, active, t.at);
      (s.(sessions := sessions), reply)
    case Destroy(token) => (s.(sessions := s.sessions - {token}), Deleted)
    case Cleanup =>
      var cleaned := Cleaned(s, t.at);
      (cleaned, Removed(|s.attempts| - |cleaned.attempts| + |s.sessions| - |cleaned.sessions|))
  }

  function Run(c: Config, ops: seq<Timed>): State {
    if ops == [] then EMPTY else Apply(c, Run(c, ops[..|ops| - 1]), ops[|ops| - 1]).0
  }

  /** The reply to the operation at position `k`. */
  function ReplyAt(c: Config, ops: seq<Timed>, k: nat): Reply
    requires k < |ops|
  {
    Apply(c, Run(c, ops[..k]), ops[k]).1
  }

  // ---------------------------------------------------------------- premises

  ghost predicate Monotone(ops: seq<Timed>) {
    forall i, j :: 0 <= i <= j < |ops| ==> ops[i].at <= ops[j].at
  }

  /** Random states and tokens: no two creations use the same one, and a replaced token is an older one. */
  ghost predicate FreshTokens(ops: seq<Timed>) {
    && (forall i, j :: 0 <= i < j < |ops| && ops[i].op.CreateSession? && ops[j].op.CreateSession? ==>
          ops[i].op.token != ops[j].op.token)
    && (forall i, j :: 0 <= i < j < |ops| && ops[i].op.CreateLoginAttempt? && ops[j].op.CreateLoginAttempt? ==>
          ops[i].op.state != ops[j].op.state)
    && (forall i :: 0 <= i < |ops| && ops[i].op.CreateSession? ==> ops[i].op.replace != Some(ops[i].op.token))
  }

  // ---------------------------------------------------------------- cleanup is unobservable

  /** The operations without the cleanups. */
  function Strip(ops: seq<Timed>): seq<Timed> {
    if ops == [] then []
    else
      var rest := Strip(ops[..|ops| - 1]);
      if ops[|ops| - 1].op.Cleanup? then rest else rest + [ops[|ops| - 1]]
  }

  /** The replies to everything but the cleanups, in order. */
  function Replies(c: Config, ops: seq<Timed>): seq<Reply> {
    if ops == [] then []
    else
      var init, last := ops[..|ops| - 1], ops[|ops| - 1];
      var before := Replies(c, init);
      if last.op.Cleanup? then before else before + [Apply(c, Run(c, init), last).1]
  }

  ghost predicate AttemptsLag(full: map<Token, Attempt>, cleaned: map<Token, Attempt>, now: int) {
    && (forall h :: h in cleaned ==> h in full && full[h] == cleaned[h])
    && (forall h :: h in full && h !in cleaned ==> full[h].expiresAt <= now)
  }

  ghost predicate SessionsLag(full: map<Token, Session>, cleaned: map<Token, Session>, now: int) {
    && (forall h :: h in cleaned ==> h in full && full[h] == cleaned[h])
    && (forall h :: h in full && h !in cleaned ==> full[h].idleExpiresAt <= now || full[h].absoluteExpiresAt <= now)
  }

  /** `cleaned` is `full` without some entries that have expired by `now`. */
  ghost predicate Lags(full: State, cleaned: State, now: int) {
    AttemptsLag(full.attempts, cleaned.attempts, now) && SessionsLag(full.sessions, cleaned.sessions, now)
  }

  /** The creation's primary key is taken. */
  predicate Taken(s: State, op: Op) {
    (op.CreateLoginAttempt? && op.state in s.attempts) || (op.CreateSession? && op.token in s.sessions)
  }

  // Both maps change in the same way.

  lemma AttemptsLagAdd(full: map<Token, Attempt>, cleaned: map<Token, Attempt>, now: int, h: Token, x: Attempt)
    requires AttemptsLag(full, cleaned, now) && h !in full
    ensures AttemptsLag(full[h := x], cleaned[h := x], now)
  {
  }

  lemma AttemptsLagRemove(full: map<Token, Attempt>, cleaned: map<Token, Attempt>, now: int, h: Token)
    requires AttemptsLag(full, cleaned, now)
    ensures AttemptsLag(full - {h}, cleaned - {h}, now)
  {
  }

  lemma SessionsLagPut(full: map<Token, Session>, cleaned: map<Token, Session>, now: int, h: Token, x: Session)
    requires SessionsLag(full, cleaned, now) && (h in full <==> h in cleaned)
    ensures SessionsLag(full[h := x], cleaned[h := x], now)
  {
  }

  lemma SessionsLagRemove(full: map<Token, Session>, cleaned: map<Token, Session>, now: int, h: Token)
    requires SessionsLag(full, cleaned, now)
    ensures SessionsLag(full - {h}, cleaned - {h}, now)
    ensures h !in cleaned ==> SessionsLag(full - {h}, cleaned, now)
  {
  }

  lemma AuthenticateLags(c: Config, full: State, cleaned: State, t: Timed)
    requires Lags(full, cleaned, t.at) && t.op.Authenticate?
    ensures Lags(Apply(c, full, t).0, Apply(c, cleaned, t).0, t.at)
    ensures Apply(c, full, t).1 == Apply(c, cleaned, t).1
  {
    hide AttemptsLag, SessionsLag, Cleaned, WithSession, Present;
    PresentLags(c, full.sessions, cleaned.sessions, t.op.token, t.op.active, t.at);
  }

  lemma PresentLags(c: Config, full: map<Token, Session>, cleaned: map<Token, Session>, token: Token, active: set<string>, at: int)
    requires SessionsLag(full, cleaned, at)
    ensures var (f, x), (l, y) := Present(c, full, token, active, at), Present(c, cleaned, token, active, at);
            SessionsLag(f, l, at) && x == y
  {
    hide SessionsLag;
    SessionsLagSame(full, cleaned, at, token);
    SessionsLagRemove(full, cleaned, at, token);
    if token in cleaned {
      SessionsLagPut(full, cleaned, at, token, full[token].(idleExpiresAt := Min(at + c.idleMs, full[token].absoluteExpiresAt)));
    }
  }

  lemma CreateSessionLags(c: Config, full: State, cleaned: State, t: Timed)
    requires Lags(full, cleaned, t.at) && t.op.CreateSession?
    requires Taken(full, t.op) ==> Taken(cleaned, t.op)
    ensures Lags(Apply(c, full, t).0, Apply(c, cleaned, t).0, t.at)
    ensures Apply(c, full, t).1 == Apply(c, cleaned, t).1
  {
    hide AttemptsLag, SessionsLag, WithSession, Cleaned;
    var token, x := t.op.token, Session(t.op.workspace, t.at + c.idleMs, t.at + c.absoluteMs);
    SessionsLagSame(full.sessions, cleaned.sessions, t.at, token);
    SessionsLagCreate(full.sessions, cleaned.sessions, t.at, token, x, t.op.replace);
  }

  lemma SessionsLagSame(full: map<Token, Session>, cleaned: map<Token, Session>, now: int, h: Token)
    requires SessionsLag(full, cleaned, now)
    ensures h in cleaned ==> h in full && full[h] == cleaned[h]
    ensures h in full && h !in cleaned ==> full[h].idleExpiresAt <= now || full[h].absoluteExpiresAt <= now
  {
  }

  lemma SessionsLagCreate(full: map<Token, Session>, cleaned: map<Token, Session>, now: int, h: Token, x: Session, replace: Option<Token>)
    requires SessionsLag(full, cleaned, now) && (h in full <==> h in cleaned)
    ensures SessionsLag(WithSession(full, h, x, replace), WithSession(cleaned, h, x, replace), now)
  {
    SessionsLagPut(full, cleaned, now, h, x);
    if replace.Some? { SessionsLagRemove(full[h := x], cleaned[h := x], now, replace.value); }
  }

  lemma CleanupLags(full: State, cleaned: State, at: int)
    requires Lags(full, cleaned, at)
    ensures Lags(full, Cleaned(cleaned, at), at)
  {
  }

  lemma OtherLags(c: Config, full: State, cleaned: State, t: Timed)
    requires Lags(full, cleaned, t.at)
    requires t.op.CreateLoginAttempt? || t.op.ConsumeLoginAttempt? || t.op.Destroy?
    requires Taken(full, t.op) ==> Taken(cleaned, t.op)
    ensures Lags(Apply(c, full, t).0, Apply(c, cleaned, t).0, t.at)
    ensures Apply(c, full, t).1 == Apply(c, cleaned, t).1
  {
    if t.op.Destroy? {
      hide AttemptsLag, SessionsLag;
      SessionsLagRemove(full.sessions, cleaned.sessions, t.at, t.op.token);
    } else {
      var h := t.op.state;
      assert h in cleaned.attempts ==> h in full.attempts && full.attempts[h] == cleaned.attempts[h];
      assert h in full.attempts && h !in cleaned.attempts ==> full.attempts[h].expiresAt <= t.at;
      hide AttemptsLag, SessionsLag;
      AttemptsLagRemove(full.attempts, cleaned.attempts, t.at, h);
      if t.op.CreateLoginAttempt? && h !in full.attempts {
        AttemptsLagAdd(full.attempts, cleaned.attempts, t.at, h, Attempt(t.op.payload, t.at + LOGIN_ATTEMPT_MS));
      }
    }
  }

  lemma StepLags(c: Config, full: State, cleaned: State, t: Timed)
    requires Lags(full, cleaned, t.at)
    requires Taken(full, t.op) ==> Taken(cleaned, t.op)
    ensures Lags(if t.op.Cleanup? then full else Apply(c, full, t).0, Apply(c, cleaned, t).0, t.at)
    ensures !t.op.Cleanup? ==> Apply(c, full, t).1 == Apply(c, cleaned, t).1
  {
    hide Lags, Taken;
    match t.op
    case CreateSession(_, _, _) => CreateSessionLags(c, full, cleaned, t);
    case Authenticate(_, _) => AuthenticateLags(c, full, cleaned, t);
    case Cleanup => CleanupLags(full, cleaned, t.at);
    case _ => OtherLags(c, full, cleaned, t);
  }

  /**
   Operation `k` creates a state or token that is still stored in the run without cleanups, while the run with
   them has swept it away.
   */
  predicate Swept(c: Config, ops: seq<Timed>, k: nat)
    requires k < |ops|
  {
    Taken(Run(c, Strip(ops[..k])), ops[k].op) && !Taken(Run(c, ops[..k]), ops[k].op)
  }

  ghost predicate NothingSwept(c: Config, ops: seq<Timed>) {
    forall k :: 0 <= k < |ops| ==> !Swept(c, ops, k)
  }

  lemma SweptSnoc(c: Config, ops: seq<Timed>, t: Timed)
    ensures NothingSwept(c, ops + [t]) <==>
            NothingSwept(c, ops) && (Taken(Run(c, Strip(ops)), t.op) ==> Taken(Run(c, ops), t.op))
  {
    var all := ops + [t];
    forall k | 0 <= k < |ops| ensures Swept(c, all, k) == Swept(c, ops, k) {
      assert all[..k] == ops[..k];
    }
    assert all[..|ops|] == ops && all[|ops|] == t;
    assert Swept(c, all, |ops|) == (Taken(Run(c, Strip(ops)), t.op) && !Taken(Run(c, ops), t.op));
    hide Swept, Taken;
  }

  lemma MonotoneSnoc(ops: seq<Timed>, t: Timed)
    requires Monotone(ops + [t])
    ensures Monotone(ops) && (ops != [] ==> ops[|ops| - 1].at <= t.at)
  {
    assert forall i :: 0 <= i < |ops| ==> (ops + [t])[i] == ops[i];
    assert (ops + [t])[|ops|] == t;
  }

  /** The cleaned run lags behind the other one and answers alike. */
  ghost predicate Simulates(c: Config, ops: seq<Timed>, now: int) {
    Lags(Run(c, Strip(ops)), Run(c, ops), now) && Replies(c, ops) == Replies(c, Strip(ops))
  }

  lemma SimulationStep(c: Config, ops: seq<Timed>, t: Timed)
    requires Simulates(c, ops, t.at) && (Taken(Run(c, Strip(ops)), t.op) ==> Taken(Run(c, ops), t.op))
    ensures Simulates(c, ops + [t], t.at)
  {
    hide Run, Strip, Replies, Apply, Taken, Lags;
    StepLags(c, Run(c, Strip(ops)), Run(c, ops), t);
    Snoc(c, ops, t);
    Snoc(c, Strip(ops), t);
  }

  lemma {:induction false} CleanupSimulation(c: Config, ops: seq<Timed>, now: int)
    requires Monotone(ops) && NothingSwept(c, ops)
    requires ops != [] ==> ops[|ops| - 1].at <= now
    ensures Simulates(c, ops, now)
    decreases |ops|
  {
    if ops != [] {
      var init, last := ops[..|ops| - 1], ops[|ops| - 1];
      assert ops == init + [last];
      MonotoneSnoc(init, last);
      SweptSnoc(c, init, last);
      hide Monotone, NothingSwept, Run, Strip, Replies, Taken, Simulates;
      CleanupSimulation(c, init, last.at);
      SimulationStep(c, init, last);
      SimulatesLater(c, ops, last.at, now);
    }
  }

  lemma SimulatesLater(c: Config, ops: seq<Timed>, at: int, now: int)
    requires Simulates(c, ops, at) && at <= now
    ensures Simulates(c, ops, now)
  {
    hide Run, Strip, Replies;
    LagsLater(Run(c, Strip(ops)), Run(c, ops), at, now);
  }

  lemma LagsLater(full: State, cleaned: State, at: int, now: int)
    requires Lags(full, cleaned, at) && at <= now
    ensures Lags(full, cleaned, now)
  {
  }

  lemma EqualStep(c: Config, ops: seq<Timed>, t: Timed)
    requires Replies(c, ops + [t]) == Replies(c, Strip(ops + [t])) && |Replies(c, ops)| == |Replies(c, Strip(ops))|
    ensures Replies(c, ops) == Replies(c, Strip(ops))
    ensures Taken(Run(c, Strip(ops)), t.op) ==> Taken(Run(c, ops), t.op)
  {
    hide Run, Strip, Replies, Apply, Taken;
    Snoc(c, ops, t);
    Snoc(c, Strip(ops), t);
    TakenIsDuplicate(c, Run(c, Strip(ops)), Run(c, ops), t);
    SnocEqual(Replies(c, ops), Replies(c, Strip(ops)), Apply(c, Run(c, ops), t).1, Apply(c, Run(c, Strip(ops)), t).1);
  }

  lemma {:induction false} AsManyReplies(c: Config, ops: seq<Timed>)
    ensures |Replies(c, ops)| == |Replies(c, Strip(ops))|
    decreases |ops|
  {
    if ops != [] {
      hide Run, Strip, Replies, Apply;
      var init, last := ops[..|ops| - 1], ops[|ops| - 1];
      assert ops == init + [last];
      AsManyReplies(c, init);
      Snoc(c, init, last);
      Snoc(c, Strip(init), last);
    }
  }

  /** Equal replies mean that nothing created was swept: one run would have answered `Duplicate`, the other not. */
  lemma {:induction false} EqualRepliesSweepNothing(c: Config, ops: seq<Timed>)
    requires Replies(c, ops) == Replies(c, Strip(ops))
    ensures NothingSwept(c, ops)
    decreases |ops|
  {
    if ops != [] {
      hide Run, Strip, Replies, Apply, Taken, NothingSwept, Swept;
      var init, last := ops[..|ops| - 1], ops[|ops| - 1];
      assert ops == init + [last];
      AsManyReplies(c, init);
      EqualStep(c, init, last);
      EqualRepliesSweepNothing(c, init);
      SweptSnoc(c, init, last);
    }
  }

  lemma TakenIsDuplicate(c: Config, full: State, cleaned: State, t: Timed)
    ensures Taken(full, t.op) && !Taken(cleaned, t.op) ==> Apply(c, full, t).1 != Apply(c, cleaned, t).1
    ensures t.op.Cleanup? ==> !Taken(full, t.op)
  {
  }

  lemma SnocEqual(a: seq<Reply>, b: seq<Reply>, x: Reply, y: Reply)
    requires |a| == |b|
    ensures a + [x] == b + [y] <==> a == b && x == y
  {
    if a + [x] == b + [y] {
      assert (a + [x])[..|a|] == a && (b + [y])[..|b|] == b;
      assert (a + [x])[|a|] == x && (b + [y])[|b|] == y;
    }
  }

  /**
   Inserting cleanups changes no reply to any other operation exactly when no operation creates a state or
   token that a cleanup has swept away and that would otherwise still be stored.
   */
  lemma CleanupUnobservableIff(c: Config, ops: seq<Timed>)
    requires Monotone(ops)
    ensures Replies(c, ops) == Replies(c, Strip(ops)) <==> NothingSwept(c, ops)
  {
    if NothingSwept(c, ops) {
      CleanupSimulation(c, ops, if ops == [] then 0 else ops[|ops| - 1].at);
    } else if Replies(c, ops) == Replies(c, Strip(ops)) {
      EqualRepliesSweepNothing(c, ops);
    }
  }

  /** Only created states and tokens are stored. */
  lemma {:induction false} StoredWereCreated(c: Config, ops: seq<Timed>, h: Token)
    ensures h in Run(c, ops).sessions ==> exists i :: 0 <= i < |ops| && ops[i].op.CreateSession? && ops[i].op.token == h
    ensures h in Run(c, ops).attempts ==> exists i :: 0 <= i < |ops| && ops[i].op.CreateLoginAttempt? && ops[i].op.state == h
    decreases |ops|
  {
    if ops != [] {
      var init, last := ops[..|ops| - 1], ops[|ops| - 1];
      StoredWereCreated(c, init, h);
      NewlyStored(c, Run(c, init), last, h);
      hide Apply;
      assert forall i :: 0 <= i < |init| ==> init[i] == ops[i];
    }
  }

  lemma NewlyStored(c: Config, s: State, t: Timed, h: Token)
    ensures h in Apply(c, s, t).0.sessions && h !in s.sessions ==> t.op.CreateSession? && t.op.token == h
    ensures h in Apply(c, s, t).0.attempts && h !in s.attempts ==> t.op.CreateLoginAttempt? && t.op.state == h
  {
  }

  lemma {:induction false} StripSome(ops: seq<Timed>)
    ensures forall k :: 0 <= k < |Strip(ops)| ==> Strip(ops)[k] in ops
    decreases |ops|
  {
    if ops != [] {
      StripSome(ops[..|ops| - 1]);
    }
  }

  /** A creation's state or token is not stored yet, with or without the cleanups so far. */
  lemma FreshAtCreation(c: Config, ops: seq<Timed>, last: Timed)
    requires FreshTokens(ops + [last])
    ensures last.op.CreateSession? ==> last.op.token !in Run(c, Strip(ops)).sessions
    ensures last.op.CreateLoginAttempt? ==> last.op.state !in Run(c, Strip(ops)).attempts
  {
    var all := ops + [last];
    if last.op.CreateSession? { StoredWereCreated(c, Strip(ops), last.op.token); }
    if last.op.CreateLoginAttempt? { StoredWereCreated(c, Strip(ops), last.op.state); }
    StripSome(ops);
    assert all[|ops|] == last;
    assert forall i :: 0 <= i < |ops| ==> all[i] == ops[i];
  }

  /** With fresh states and tokens, inserting cleanups anywhere changes no reply to any other operation. */
  lemma CleanupIsUnobservable(c: Config, ops: seq<Timed>)
    requires Monotone(ops) && FreshTokens(ops)
    ensures Replies(c, ops) == Replies(c, Strip(ops))
  {
    forall k | 0 <= k < |ops| ensures !Swept(c, ops, k) {
      FreshPrefix(ops, k);
      FreshAtCreation(c, ops[..k], ops[k]);
    }
    CleanupUnobservableIff(c, ops);
  }

  lemma FreshPrefix(ops: seq<Timed>, k: nat)
    requires k < |ops| && FreshTokens(ops)
    ensures FreshTokens(ops[..k] + [ops[k]])
  {
    assert ops[..k] + [ops[k]] == ops[..k + 1];
  }

  // ---------------------------------------------------------------- which reuse is visible

  /** The time of the last cleanup. */
  function LastCleanup(ops: seq<Timed>): Option<int> {
    if ops == [] then None
    else if ops[|ops| - 1].op.Cleanup? then Some(ops[|ops| - 1].at)
    else LastCleanup(ops[..|ops| - 1])
  }

  lemma LastCleanupSnoc(ops: seq<Timed>, t: Timed)
    ensures LastCleanup(ops + [t]) == if t.op.Cleanup? then Some(t.at) else LastCleanup(ops)
  {
    assert (ops + [t])[..|ops + [t]| - 1] == ops;
  }

  predicate SweptAt(expiresAt: int, cleanup: Option<int>) {
    cleanup.Some? && expiresAt <= cleanup.value
  }

  ghost predicate AttemptsLagExactly(full: map<Token, Attempt>, cleaned: map<Token, Attempt>, cleanup: Option<int>) {
    && (forall h :: h in cleaned ==> h in full)
    && (forall h :: h in full ==> (h !in cleaned <==> SweptAt(full[h].expiresAt, cleanup)))
  }

  ghost predicate SessionsLagExactly(full: map<Token, Session>, cleaned: map<Token, Session>, cleanup: Option<int>) {
    && (forall h :: h in cleaned ==> h in full)
    && (forall h :: h in full ==>
          (h !in cleaned <==> SweptAt(Min(full[h].idleExpiresAt, full[h].absoluteExpiresAt), cleanup)))
  }

  /** `cleaned` is `full` without exactly what had expired at the last cleanup. */
  ghost predicate LagsExactly(full: State, cleaned: State, cleanup: Option<int>) {
    AttemptsLagExactly(full.attempts, cleaned.attempts, cleanup) && SessionsLagExactly(full.sessions, cleaned.sessions, cleanup)
  }

  lemma AttemptsExactPut(full: map<Token, Attempt>, cleaned: map<Token, Attempt>, cleanup: Option<int>, h: Token, x: Attempt)
    requires AttemptsLagExactly(full, cleaned, cleanup) && !SweptAt(x.expiresAt, cleanup)
    ensures AttemptsLagExactly(full[h := x], cleaned[h := x], cleanup)
    ensures AttemptsLagExactly(full - {h}, cleaned - {h}, cleanup)
  {
  }

  lemma SessionsExactPut(full: map<Token, Session>, cleaned: map<Token, Session>, cleanup: Option<int>, h: Token, x: Session)
    requires SessionsLagExactly(full, cleaned, cleanup)
    requires !SweptAt(Min(x.idleExpiresAt, x.absoluteExpiresAt), cleanup)
    ensures SessionsLagExactly(full[h := x], cleaned[h := x], cleanup)
  {
  }

  lemma SessionsExactRemove(full: map<Token, Session>, cleaned: map<Token, Session>, cleanup: Option<int>, h: Token)
    requires SessionsLagExactly(full, cleaned, cleanup)
    ensures SessionsLagExactly(full - {h}, cleaned - {h}, cleanup)
    ensures h !in cleaned ==> SessionsLagExactly(full - {h}, cleaned, cleanup)
  {
  }

  lemma LoginLagsExactly(c: Config, full: State, cleaned: State, t: Timed, cleanup: Option<int>)
    requires LagsExactly(full, cleaned, cleanup) && cleanup.GetOr(t.at) <= t.at
    requires t.op.CreateLoginAttempt? || t.op.ConsumeLoginAttempt?
    requires Taken(full, t.op) ==> Taken(cleaned, t.op)
    ensures LagsExactly(Apply(c, full, t).0, Apply(c, cleaned, t).0, cleanup)
  {
    var h := t.op.state;
    var x := Attempt(if t.op.CreateLoginAttempt? then t.op.payload else "", t.at + LOGIN_ATTEMPT_MS);
    assert h in cleaned.attempts ==> h in full.attempts;
    hide AttemptsLagExactly, SessionsLagExactly;
    AttemptsExactPut(full.attempts, cleaned.attempts, cleanup, h, x);
  }

  lemma CreateLagsExactly(c: Config, full: State, cleaned: State, t: Timed, cleanup: Option<int>)
    requires c.idleMs > 0 && c.absoluteMs > 0 && t.op.CreateSession?
    requires LagsExactly(full, cleaned, cleanup) && cleanup.GetOr(t.at) <= t.at
    requires Taken(full, t.op) ==> Taken(cleaned, t.op)
    ensures LagsExactly(Apply(c, full, t).0, Apply(c, cleaned, t).0, cleanup)
  {
    hide AttemptsLagExactly, SessionsLagExactly, WithSession, Cleaned;
    var token, x := t.op.token, Session(t.op.workspace, t.at + c.idleMs, t.at + c.absoluteMs);
    SessionsExactSame(full.sessions, cleaned.sessions, cleanup, token);
    SessionsExactCreate(full.sessions, cleaned.sessions, cleanup, token, x, t.op.replace);
  }

  lemma SessionsExactSame(full: map<Token, Session>, cleaned: map<Token, Session>, cleanup: Option<int>, h: Token)
    requires SessionsLagExactly(full, cleaned, cleanup)
    ensures h in cleaned ==> h in full
  {
  }

  lemma SessionsExactCreate(full: map<Token, Session>, cleaned: map<Token, Session>, cleanup: Option<int>, h: Token, x: Session,
                            replace: Option<Token>)
    requires SessionsLagExactly(full, cleaned, cleanup)
    requires !SweptAt(Min(x.idleExpiresAt, x.absoluteExpiresAt), cleanup)
    ensures SessionsLagExactly(WithSession(full, h, x, replace), WithSession(cleaned, h, x, replace), cleanup)
  {
    SessionsExactPut(full, cleaned, cleanup, h, x);
    if replace.Some? { SessionsExactRemove(full[h := x], cleaned[h := x], cleanup, replace.value); }
  }

  lemma AuthenticateLagsExactly(c: Config, full: State, cleaned: State, t: Timed, cleanup: Option<int>)
    requires c.idleMs > 0 && t.op.Authenticate?
    requires Lags(full, cleaned, t.at) && LagsExactly(full, cleaned, cleanup) && cleanup.GetOr(t.at) <= t.at
    ensures LagsExactly(Apply(c, full, t).0, Apply(c, cleaned, t).0, cleanup)
  {
    hide AttemptsLagExactly, SessionsLagExactly, AttemptsLag, SessionsLag, Cleaned, WithSession, Present;
    PresentLagsExactly(c, full.sessions, cleaned.sessions, t.op.token, t.op.active, t.at, cleanup);
  }

  lemma PresentLagsExactly(c: Config, full: map<Token, Session>, cleaned: map<Token, Session>, token: Token, active: set<string>,
                           at: int, cleanup: Option<int>)
    requires c.idleMs > 0 && SessionsLag(full, cleaned, at) && cleanup.GetOr(at) <= at
    requires SessionsLagExactly(full, cleaned, cleanup)
    ensures SessionsLagExactly(Present(c, full, token, active, at).0, Present(c, cleaned, token, active, at).0, cleanup)
  {
    hide SessionsLag, SessionsLagExactly;
    SessionsLagSame(full, cleaned, at, token);
    SessionsExactRemove(full, cleaned, cleanup, token);
    if token in cleaned && full[token].absoluteExpiresAt > at {
      var x := full[token];
      SessionsExactPut(full, cleaned, cleanup, token, x.(idleExpiresAt := Min(at + c.idleMs, x.absoluteExpiresAt)));
    }
  }

  lemma DestroyLagsExactly(c: Config, full: State, cleaned: State, t: Timed, cleanup: Option<int>)
    requires LagsExactly(full, cleaned, cleanup) && t.op.Destroy?
    ensures LagsExactly(Apply(c, full, t).0, Apply(c, cleaned, t).0, cleanup)
  {
    hide AttemptsLagExactly, SessionsLagExactly;
    SessionsExactRemove(full.sessions, cleaned.sessions, cleanup, t.op.token);
  }

  lemma CleanupLagsExactly(full: State, cleaned: State, at: int, cleanup: Option<int>)
    requires Lags(full, cleaned, at) && LagsExactly(full, cleaned, cleanup) && cleanup.GetOr(at) <= at
    ensures LagsExactly(full, Cleaned(cleaned, at), Some(at))
  {
    assert forall h :: h in cleaned.attempts ==> full.attempts[h] == cleaned.attempts[h];
    assert forall h :: h in cleaned.sessions ==> full.sessions[h] == cleaned.sessions[h];
  }

  lemma StepLagsExactly(c: Config, full: State, cleaned: State, t: Timed, cleanup: Option<int>)
    requires c.idleMs > 0 && c.absoluteMs > 0
    requires Lags(full, cleaned, t.at) && LagsExactly(full, cleaned, cleanup) && cleanup.GetOr(t.at) <= t.at
    requires Taken(full, t.op) ==> Taken(cleaned, t.op)
    ensures LagsExactly(if t.op.Cleanup? then full else Apply(c, full, t).0, Apply(c, cleaned, t).0,
                        if t.op.Cleanup? then Some(t.at) else cleanup)
  {
    hide Lags, LagsExactly, Taken;
    match t.op
    case CreateLoginAttempt(_, _) => LoginLagsExactly(c, full, cleaned, t, cleanup);
    case ConsumeLoginAttempt(_) => LoginLagsExactly(c, full, cleaned, t, cleanup);
    case CreateSession(_, _, _) => CreateLagsExactly(c, full, cleaned, t, cleanup);
    case Authenticate(token, _) => AuthenticateLagsExactly(c, full, cleaned, t, cleanup);
    case Destroy(_) => DestroyLagsExactly(c, full, cleaned, t, cleanup);
    case Cleanup => CleanupLagsExactly(full, cleaned, t.at, cleanup);
  }

  ghost predicate ExactlyBehind(c: Config, ops: seq<Timed>, now: int) {
    && Lags(Run(c, Strip(ops)), Run(c, ops), now)
    && LagsExactly(Run(c, Strip(ops)), Run(c, ops), LastCleanup(ops)) && LastCleanup(ops).GetOr(now) <= now
  }

  lemma ExactStep(c: Config, ops: seq<Timed>, t: Timed)
    requires c.idleMs > 0 && c.absoluteMs > 0 && ExactlyBehind(c, ops, t.at)
    requires Taken(Run(c, Strip(ops)), t.op) ==> Taken(Run(c, ops), t.op)
    ensures ExactlyBehind(c, ops + [t], t.at)
  {
    hide Run, Strip, LastCleanup, Apply, Taken, Lags, LagsExactly;
    StepLags(c, Run(c, Strip(ops)), Run(c, ops), t);
    StepLagsExactly(c, Run(c, Strip(ops)), Run(c, ops), t, LastCleanup(ops));
    Snoc(c, ops, t);
    Snoc(c, Strip(ops), t);
    LastCleanupSnoc(ops, t);
  }

  lemma ExactLater(c: Config, ops: seq<Timed>, at: int, now: int)
    requires ExactlyBehind(c, ops, at) && at <= now
    ensures ExactlyBehind(c, ops, now)
  {
    hide Run, Strip, LastCleanup, LagsExactly;
    LagsLater(Run(c, Strip(ops)), Run(c, ops), at, now);
  }

  lemma {:induction false} LagIsExact(c: Config, ops: seq<Timed>, now: int)
    requires c.idleMs > 0 && c.absoluteMs > 0 && Monotone(ops) && NothingSwept(c, ops)
    requires ops != [] ==> ops[|ops| - 1].at <= now
    ensures ExactlyBehind(c, ops, now)
    decreases |ops|
  {
    if ops != [] {
      var init, last := ops[..|ops| - 1], ops[|ops| - 1];
      assert ops == init + [last];
      MonotoneSnoc(init, last);
      SweptSnoc(c, init, last);
      hide Monotone, NothingSwept, Run, Strip, Taken, ExactlyBehind;
      LagIsExact(c, init, last.at);
      ExactStep(c, init, last);
      ExactLater(c, ops, last.at, now);
    }
  }

  /** When what the operation creates is stored, its expiry. */
  function TakenUntil(s: State, op: Op): Option<int> {
    match op
    case CreateLoginAttempt(state, _) =>
      if state in s.attempts then Some(s.attempts[state].expiresAt) else None
    case CreateSession(token, _, _) =>
      if token in s.sessions then Some(Min(s.sessions[token].idleExpiresAt, s.sessions[token].absoluteExpiresAt)) else None
    case _ => None
  }

  /**
   The first reuse that cleanups make visible is of an entry that, without cleanups, would still be stored and
   had expired by the last cleanup.
   */
  lemma SweptIffExpired(c: Config, ops: seq<Timed>, k: nat)
    requires k < |ops| && Monotone(ops) && c.idleMs > 0 && c.absoluteMs > 0
    requires NothingSwept(c, ops[..k])
    ensures var until := TakenUntil(Run(c, Strip(ops[..k])), ops[k].op);
            Swept(c, ops, k) <==> until.Some? && SweptAt(until.value, LastCleanup(ops[..k]))
  {
    MonotonePrefix(ops, k);
    LagIsExact(c, ops[..k], ops[k].at);
    hide Run, Strip, LastCleanup, Monotone, NothingSwept, Lags;
  }

  lemma MonotonePrefix(ops: seq<Timed>, k: nat)
    requires k < |ops| && Monotone(ops)
    ensures Monotone(ops[..k]) && (k > 0 ==> ops[..k][k - 1].at <= ops[k].at)
  {
  }

  /** For instance, a cleanup lets an expired state be used again. */
  lemma CleanupObservableOnReuse(c: Config)
    ensures var ops := [Timed(0, CreateLoginAttempt("s", "p")), Timed(LOGIN_ATTEMPT_MS, Cleanup),
                        Timed(LOGIN_ATTEMPT_MS, CreateLoginAttempt("s", "p"))];
            Monotone(ops) && Replies(c, ops) != Replies(c, Strip(ops))
  {
    var a, b := Timed(0, CreateLoginAttempt("s", "p")), Timed(LOGIN_ATTEMPT_MS, Cleanup);
    var d := Timed(LOGIN_ATTEMPT_MS, CreateLoginAttempt("s", "p"));
    SweptState(c, a, b, d);
    CleanupUnobservableIff(c, [a, b, d]);
  }

  lemma SweptState(c: Config, a: Timed, b: Timed, d: Timed)
    requires a == Timed(0, CreateLoginAttempt("s", "p")) && b == Timed(LOGIN_ATTEMPT_MS, Cleanup)
    requires d == Timed(LOGIN_ATTEMPT_MS, CreateLoginAttempt("s", "p"))
    ensures Swept(c, [a, b, d], 2)
  {
    Snoc(c, [], a);
    Snoc(c, [a], b);
    hide Replies;
    assert [] + [a] == [a] && [a] + [b] == [a, b] && [a, b, d][..2] == [a, b];
    assert "s" in Run(c, [a]).attempts && Run(c, [a]).attempts["s"].expiresAt == LOGIN_ATTEMPT_MS;
    assert "s" !in Run(c, [a, b]).attempts;
  }

  lemma RunSnoc(c: Config, ops: seq<Timed>, t: Timed)
    ensures Run(c, ops + [t]) == Apply(c, Run(c, ops), t).0
  {
    assert (ops + [t])[..|ops + [t]| - 1] == ops;
  }

  lemma Snoc(c: Config, ops: seq<Timed>, t: Timed)
    ensures Run(c, ops + [t]) == Apply(c, Run(c, ops), t).0
    ensures Strip(ops + [t]) == if t.op.Cleanup? then Strip(ops) else Strip(ops) + [t]
    ensures Replies(c, ops + [t]) == if t.op.Cleanup? then Replies(c, ops) else Replies(c, ops) + [Apply(c, Run(c, ops), t).1]
  {
    assert (ops + [t])[..|ops + [t]| - 1] == ops;
  }

  // ---------------------------------------------------------------- the history rule

  /** What the history says about a token: when it was created and last accepted. */
  datatype Lease = Lease(created: int, lastSeen: int, workspace: string)

  predicate Current(c: Config, l: Lease, at: int, active: set<string>) {
    at < l.created + c.absoluteMs && at < l.lastSeen + c.idleMs && l.workspace in active
  }

  /** What one operation does to a token's lease. */
  function NextLease(c: Config, before: Option<Lease>, t: Timed, token: Token): Option<Lease> {
    match t.op
    case CreateSession(x, workspace, replace) =>
      if replace == Some(token) then None
      else if x == token then Some(Lease(t.at, t.at, workspace))
      else before
    case Destroy(x) => if x == token then None else before
    case Authenticate(x, active) =>
      if x != token then before
      else if before.Some? && Current(c, before.value, t.at, active) then Some(before.value.(lastSeen := t.at))
      else None
    case _ => before
  }

  /** The lease of a token before operation `k`, read off the operations alone: no stored expiry, no cleanup. */
  function LeaseAt(c: Config, ops: seq<Timed>, k: nat, token: Token): Option<Lease>
    requires k <= |ops|
  {
    if k == 0 then None else NextLease(c, LeaseAt(c, ops, k - 1, token), ops[k - 1], token)
  }

  /** The stored session carries the lease's limits. */
  ghost predicate Stores(c: Config, x: Session, l: Lease) {
    && x.workspace == l.workspace
    && x.absoluteExpiresAt == l.created + c.absoluteMs
    && (x.idleExpiresAt == l.lastSeen + c.idleMs || x.idleExpiresAt == Min(l.lastSeen + c.idleMs, x.absoluteExpiresAt))
  }

  /** A token is stored with its lease's limits, or its lease has run out, or it has none. */
  ghost predicate Reflects(c: Config, s: State, lease: Option<Lease>, token: Token, now: int) {
    if token in s.sessions then lease.Some? && Stores(c, s.sessions[token], lease.value)
    else lease.Some? ==> lease.value.created + c.absoluteMs <= now || lease.value.lastSeen + c.idleMs <= now
  }

  lemma AuthenticateReflects(c: Config, s: State, lease: Option<Lease>, t: Timed, token: Token, now: int)
    requires Reflects(c, s, lease, token, t.at) && t.at <= now && t.op.Authenticate?
    ensures Reflects(c, Apply(c, s, t).0, NextLease(c, lease, t, token), token, now)
  {
    hide Cleaned, WithSession;
  }

  lemma CreateReflects(c: Config, s: State, lease: Option<Lease>, t: Timed, token: Token, now: int)
    requires Reflects(c, s, lease, token, t.at) && t.at <= now && t.op.CreateSession?
    requires t.op.token !in s.sessions && t.op.replace != Some(t.op.token)
    ensures Reflects(c, Apply(c, s, t).0, NextLease(c, lease, t, token), token, now)
  {
    hide Cleaned;
  }

  lemma CleanupReflects(c: Config, s: State, lease: Option<Lease>, t: Timed, token: Token, now: int)
    requires Reflects(c, s, lease, token, t.at) && t.at <= now && t.op.Cleanup?
    ensures Reflects(c, Apply(c, s, t).0, NextLease(c, lease, t, token), token, now)
  {
    hide WithSession;
    assert Apply(c, s, t).0 == Cleaned(s, t.at);
  }

  lemma OtherReflects(c: Config, s: State, lease: Option<Lease>, t: Timed, token: Token, now: int)
    requires Reflects(c, s, lease, token, t.at) && t.at <= now
    requires t.op.CreateLoginAttempt? || t.op.ConsumeLoginAttempt? || t.op.Destroy?
    ensures Reflects(c, Apply(c, s, t).0, NextLease(c, lease, t, token), token, now)
  {
    hide Cleaned, WithSession;
  }

  lemma StepReflects(c: Config, s: State, lease: Option<Lease>, t: Timed, token: Token, now: int)
    requires Reflects(c, s, lease, token, t.at) && t.at <= now
    requires t.op.CreateSession? ==> t.op.token !in s.sessions && t.op.replace != Some(t.op.token)
    ensures Reflects(c, Apply(c, s, t).0, NextLease(c, lease, t, token), token, now)
  {
    hide Reflects, Apply, NextLease;
    match t.op
    case CreateSession(x, workspace, replace) => CreateReflects(c, s, lease, t, token, now);
    case Authenticate(x, active) => AuthenticateReflects(c, s, lease, t, token, now);
    case Cleanup => CleanupReflects(c, s, lease, t, token, now);
    case _ => OtherReflects(c, s, lease, t, token, now);
  }

  lemma StoreStep(c: Config, ops: seq<Timed>, j: nat, token: Token, now: int)
    requires j < |ops| && FreshTokens(ops) && ops[j].at <= now
    requires Reflects(c, Run(c, ops[..j]), LeaseAt(c, ops, j, token), token, ops[j].at)
    ensures Reflects(c, Run(c, ops[..j + 1]), LeaseAt(c, ops, j + 1, token), token, now)
  {
    hide Reflects, Apply, NextLease, Run, FreshTokens;
    assert ops[..j + 1] == ops[..j] + [ops[j]];
    RunSnoc(c, ops[..j], ops[j]);
    NotYetStored(c, ops, j);
    FreshReplace(ops, j);
    StepReflects(c, Run(c, ops[..j]), LeaseAt(c, ops, j, token), ops[j], token, now);
  }

  lemma {:induction false} StoreReflectsLease(c: Config, ops: seq<Timed>, k: nat, token: Token, now: int)
    requires k <= |ops| && Monotone(ops) && FreshTokens(ops)
    requires k > 0 ==> ops[k - 1].at <= now
    ensures Reflects(c, Run(c, ops[..k]), LeaseAt(c, ops, k, token), token, now)
  {
    if k > 0 {
      hide Reflects, LeaseAt, Run, FreshTokens;
      StoreReflectsLease(c, ops, k - 1, token, ops[k - 1].at);
      StoreStep(c, ops, k - 1, token, now);
    }
  }

  lemma FreshReplace(ops: seq<Timed>, k: nat)
    requires k < |ops| && FreshTokens(ops)
    ensures ops[k].op.CreateSession? ==> ops[k].op.replace != Some(ops[k].op.token)
  {
  }

  lemma NotYetStored(c: Config, ops: seq<Timed>, k: nat)
    requires k < |ops| && FreshTokens(ops)
    ensures ops[k].op.CreateSession? ==> ops[k].op.token !in Run(c, ops[..k]).sessions
  {
    if ops[k].op.CreateSession? { StoredWereCreated(c, ops[..k], ops[k].op.token); }
    assert forall i :: 0 <= i < k ==> ops[..k][i] == ops[i];
  }

  /** `authenticate` accepts a token exactly when the history says its lease is current. */
  lemma AuthenticateFollowsHistory(c: Config, ops: seq<Timed>, k: nat)
    requires k < |ops| && Monotone(ops) && FreshTokens(ops) && ops[k].op.Authenticate?
    ensures var token, lease := ops[k].op.token, LeaseAt(c, ops, k, ops[k].op.token);
            ReplyAt(c, ops, k) ==
            if lease.Some? && Current(c, lease.value, ops[k].at, ops[k].op.active)
            then Principal(token, lease.value.workspace) else Null
  {
    StoreReflectsLease(c, ops, k, ops[k].op.token, ops[k].at);
  }

  /** Operation `j` takes the token away: destroyed, replaced, or rejected. */
  ghost predicate Ends(c: Config, ops: seq<Timed>, j: nat, token: Token)
    requires j < |ops|
  {
    match ops[j].op
    case Destroy(x) => x == token
    case CreateSession(_, _, replace) => replace == Some(token)
    case Authenticate(x, _) => x == token && ReplyAt(c, ops, j) == Null
    case _ => false
  }

  /** Operation `j` shows the token to `authenticate`. */
  predicate Shows(ops: seq<Timed>, j: nat, token: Token)
    requires j < |ops|
  {
    ops[j].op.Authenticate? && ops[j].op.token == token
  }

  /** Nothing since its creation at `i` has taken the token away, and it was last shown at `m` (or created there). */
  ghost predicate Unbroken(c: Config, ops: seq<Timed>, i: nat, m: nat, k: nat, token: Token)
    requires k <= |ops|
  {
    && i <= m < k
    && ops[i].op.CreateSession? && ops[i].op.token == token
    && (forall j :: i < j < k ==> !Ends(c, ops, j, token))
    && (m == i || Shows(ops, m, token))
    && (forall j :: m < j < k ==> !Shows(ops, j, token))
  }

  function LastShown(ops: seq<Timed>, i: nat, k: nat, token: Token): (m: nat)
    requires i < k <= |ops|
    ensures i <= m < k && (m == i || Shows(ops, m, token))
    ensures forall j :: m < j < k ==> !Shows(ops, j, token)
  {
    if k == i + 1 then i
    else if Shows(ops, k - 1, token) then k - 1
    else LastShown(ops, i, k - 1, token)
  }

  /** An unbroken history that is longer than its creation was unbroken one operation earlier. */
  lemma UnbrokenBefore(c: Config, ops: seq<Timed>, i: nat, m: nat, j: nat, token: Token) returns (earlier: nat)
    requires j < |ops| && i < j && Unbroken(c, ops, i, m, j + 1, token)
    ensures Unbroken(c, ops, i, earlier, j, token) && !Ends(c, ops, j, token)
    ensures m == if Shows(ops, j, token) then j else earlier
  {
    earlier := if Shows(ops, j, token) then LastShown(ops, i, j, token) else m;
  }

  /** What an operation ends has no lease afterwards, what it shows has none or was last seen then. */
  lemma LeaseStep(c: Config, ops: seq<Timed>, j: nat, token: Token)
    requires j < |ops| && Monotone(ops) && FreshTokens(ops)
    ensures var before, after := LeaseAt(c, ops, j, token), LeaseAt(c, ops, j + 1, token);
            if ops[j].op.CreateSession? && ops[j].op.token == token
            then after == Some(Lease(ops[j].at, ops[j].at, ops[j].op.workspace))
            else if Ends(c, ops, j, token) then after.None?
            else if Shows(ops, j, token) then before.Some? && after == Some(before.value.(lastSeen := ops[j].at))
            else after == before
  {
    if Shows(ops, j, token) { AuthenticateFollowsHistory(c, ops, j); }
    hide Monotone, ReplyAt, Current;
  }

  /** The lease and the history that gives it its instants. */
  ghost predicate Explained(c: Config, ops: seq<Timed>, i: nat, m: nat, k: nat, token: Token)
    requires k <= |ops|
  {
    Unbroken(c, ops, i, m, k, token) && LeaseAt(c, ops, k, token) == Some(Lease(ops[i].at, ops[m].at, ops[i].op.workspace))
  }

  /** One operation later the history still explains the lease. */
  lemma ExplainStep(c: Config, ops: seq<Timed>, i: nat, m: nat, j: nat, token: Token)
    requires j < |ops| && Monotone(ops) && FreshTokens(ops)
    requires Explained(c, ops, i, m, j, token) && LeaseAt(c, ops, j + 1, token).Some?
    ensures Explained(c, ops, i, if Shows(ops, j, token) then j else m, j + 1, token)
  {
    LeaseStep(c, ops, j, token);
    OtherToken(c, ops, i, j, token);
    hide LeaseAt, Monotone, FreshTokens;
  }

  lemma {:induction false} LeaseIsExplained(c: Config, ops: seq<Timed>, k: nat, token: Token) returns (i: nat, m: nat)
    requires k <= |ops| && Monotone(ops) && FreshTokens(ops) && LeaseAt(c, ops, k, token).Some?
    ensures Explained(c, ops, i, m, k, token)
    decreases k
  {
    var j := k - 1;
    LeaseStep(c, ops, j, token);
    hide Monotone, FreshTokens, LeaseAt;
    if ops[j].op.CreateSession? && ops[j].op.token == token {
      i, m := j, j;
    } else {
      i, m := LeaseIsExplained(c, ops, j, token);
      ExplainStep(c, ops, i, m, j, token);
      m := if Shows(ops, j, token) then j else m;
    }
  }

  lemma {:induction false} UnbrokenHasLease(c: Config, ops: seq<Timed>, i: nat, m: nat, k: nat, token: Token)
    requires k <= |ops| && Monotone(ops) && FreshTokens(ops) && Unbroken(c, ops, i, m, k, token)
    ensures LeaseAt(c, ops, k, token) == Some(Lease(ops[i].at, ops[m].at, ops[i].op.workspace))
    decreases k
  {
    var j := k - 1;
    LeaseStep(c, ops, j, token);
    hide Monotone, FreshTokens, LeaseAt;
    if i < j {
      var earlier := UnbrokenBefore(c, ops, i, m, j, token);
      UnbrokenHasLease(c, ops, i, earlier, j, token);
      OtherToken(c, ops, i, j, token);
    }
  }

  /** After its creation a token is not created again. */
  lemma OtherToken(c: Config, ops: seq<Timed>, i: nat, j: nat, token: Token)
    requires i < j < |ops| && FreshTokens(ops) && ops[i].op.CreateSession? && ops[i].op.token == token
    ensures !(ops[j].op.CreateSession? && ops[j].op.token == token)
  {
  }

  /** A lease exists exactly when the token's history since its creation is unbroken, and it tells both instants. */
  lemma LeaseIffUnbroken(c: Config, ops: seq<Timed>, k: nat, token: Token)
    requires k <= |ops| && Monotone(ops) && FreshTokens(ops)
    ensures LeaseAt(c, ops, k, token).Some? <==> exists i: nat, m: nat :: Unbroken(c, ops, i, m, k, token)
    ensures forall i: nat, m: nat :: Unbroken(c, ops, i, m, k, token) ==>
              LeaseAt(c, ops, k, token) == Some(Lease(ops[i].at, ops[m].at, ops[i].op.workspace))
  {
    forall i: nat, m: nat | Unbroken(c, ops, i, m, k, token)
      ensures LeaseAt(c, ops, k, token) == Some(Lease(ops[i].at, ops[m].at, ops[i].op.workspace))
    {
      UnbrokenHasLease(c, ops, i, m, k, token);
    }
    if LeaseAt(c, ops, k, token).Some? {
      var i, m := LeaseIsExplained(c, ops, k, token);
    }
  }

  /** The history rule: `authenticate` succeeds exactly for a token whose history is unbroken, before both limits. */
  lemma AuthenticateIffHistory(c: Config, ops: seq<Timed>, k: nat)
    requires k < |ops| && Monotone(ops) && FreshTokens(ops) && ops[k].op.Authenticate?
    ensures ReplyAt(c, ops, k).Principal? <==>
            exists i: nat, m: nat ::
              && Unbroken(c, ops, i, m, k, ops[k].op.token)
              && ops[k].at < ops[i].at + c.absoluteMs
              && ops[k].at < ops[m].at + c.idleMs
              && ops[i].op.workspace in ops[k].op.active
  {
    AuthenticateFollowsHistory(c, ops, k);
    LeaseIffUnbroken(c, ops, k, ops[k].op.token);
  }

  // ---------------------------------------------------------------- login attempts

  /** The state was created at `i` and not presented since. */
  ghost predicate Unused(ops: seq<Timed>, i: nat, k: nat, state: Token)
    requires k <= |ops|
  {
    && i < k && ops[i].op.CreateLoginAttempt? && ops[i].op.state == state
    && forall j :: i < j < k ==> ops[j].op != ConsumeLoginAttempt(state)
  }

  /** What is stored about a login state, or why nothing is. */
  ghost predicate StoredAs(ops: seq<Timed>, k: nat, state: Token, attempts: map<Token, Attempt>, now: int)
    requires k <= |ops|
  {
    if state in attempts then
      exists i: nat :: Unused(ops, i, k, state) && attempts[state] == Attempt(ops[i].op.payload, ops[i].at + LOGIN_ATTEMPT_MS)
    else
      forall i: nat :: Unused(ops, i, k, state) ==> ops[i].at + LOGIN_ATTEMPT_MS <= now
  }

  /** What one operation does to the attempt stored for a state. */
  predicate AttemptMoves(before: map<Token, Attempt>, after: map<Token, Attempt>, t: Timed, state: Token) {
    if state in before then
      if t.op == ConsumeLoginAttempt(state) || (t.op.Cleanup? && before[state].expiresAt <= t.at)
      then state !in after
      else state in after && after[state] == before[state]
    else if t.op.CreateLoginAttempt? && t.op.state == state
    then state in after && after[state] == Attempt(t.op.payload, t.at + LOGIN_ATTEMPT_MS)
    else state !in after
  }

  lemma AttemptStep(c: Config, ops: seq<Timed>, k: nat, state: Token)
    requires k < |ops|
    ensures AttemptMoves(Run(c, ops[..k]).attempts, Run(c, ops[..k + 1]).attempts, ops[k], state)
  {
    assert ops[..k + 1] == ops[..k] + [ops[k]];
    Snoc(c, ops[..k], ops[k]);
  }

  lemma UnusedSnoc(ops: seq<Timed>, i: nat, j: nat, state: Token)
    requires i < j < |ops|
    ensures Unused(ops, i, j + 1, state) <==> Unused(ops, i, j, state) && ops[j].op != ConsumeLoginAttempt(state)
  {
    if Unused(ops, i, j + 1, state) {
      assert forall x :: i < x < j ==> ops[x].op != ConsumeLoginAttempt(state);
    }
  }

  lemma StoredStep(ops: seq<Timed>, j: nat, state: Token, before: map<Token, Attempt>, after: map<Token, Attempt>, now: int)
    requires j < |ops| && FreshTokens(ops) && ops[j].at <= now
    requires StoredAs(ops, j, state, before, ops[j].at)
    requires AttemptMoves(before, after, ops[j], state)
    ensures StoredAs(ops, j + 1, state, after, now)
  {
    forall i: nat | i < j { UnusedSnoc(ops, i, j, state); }
    if state in before {
      var i: nat :| Unused(ops, i, j, state) && before[state] == Attempt(ops[i].op.payload, ops[i].at + LOGIN_ATTEMPT_MS);
      if state in after { assert Unused(ops, i, j + 1, state); }
    } else if state in after {
      assert Unused(ops, j, j + 1, state);
    }
  }

  lemma {:induction false} AttemptsAreStored(c: Config, ops: seq<Timed>, k: nat, state: Token, now: int)
    requires k <= |ops| && Monotone(ops) && FreshTokens(ops)
    requires k > 0 ==> ops[k - 1].at <= now
    ensures StoredAs(ops, k, state, Run(c, ops[..k]).attempts, now)
  {
    if k > 0 {
      AttemptsAreStored(c, ops, k - 1, state, ops[k - 1].at);
      AttemptStep(c, ops, k - 1, state);
      StoredStep(ops, k - 1, state, Run(c, ops[..k - 1]).attempts, Run(c, ops[..k]).attempts, now);
    }
  }

  /** A login state is redeemed at most once and only within ten minutes of its creation. */
  lemma ConsumeIffUnused(c: Config, ops: seq<Timed>, k: nat)
    requires k < |ops| && Monotone(ops) && FreshTokens(ops) && ops[k].op.ConsumeLoginAttempt?
    ensures ReplyAt(c, ops, k).Consumed? <==>
            exists i: nat :: Unused(ops, i, k, ops[k].op.state) && ops[k].at < ops[i].at + LOGIN_ATTEMPT_MS
    ensures forall i: nat :: Unused(ops, i, k, ops[k].op.state) && ReplyAt(c, ops, k).Consumed? ==>
              ReplyAt(c, ops, k) == Consumed(ops[i].op.payload)
  {
    hide Run, FreshTokens, Unused;
    AttemptsAreStored(c, ops, k, ops[k].op.state, ops[k].at);
    SoleCreation(ops, k, ops[k].op.state);
  }

  /** A state that is created once is unused since at most one creation. */
  lemma SoleCreation(ops: seq<Timed>, k: nat, state: Token)
    requires k <= |ops| && FreshTokens(ops)
    ensures forall i: nat, j: nat :: Unused(ops, i, k, state) && Unused(ops, j, k, state) ==> i == j
  {
  }
}
