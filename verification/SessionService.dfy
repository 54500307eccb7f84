/**
 The session service as it changes its two tables.  A ghost history of the operations ties the tables to
 the runs of Sessions, so that the results about histories hold of the service's replies.
 */
module SessionService {
  import opened Common
  import S = Sessions

  class SessionService {
    const config: S.Config
    var attempts: map<S.Token, S.Attempt>
    var sessions: map<S.Token, S.Session>
    ghost var history: seq<S.Timed>

    function State(): S.State
      reads this
    {
      S.State(attempts, sessions)
    }

    /** The tables are what the history of operations makes of empty ones. */
    ghost predicate Valid()
      reads this
    {
      State() == S.Run(config, history)
    }

    /** The history is in time order, and states and tokens are random. */
    ghost predicate Regular()
      reads this
    {
      S.Monotone(history) && S.FreshTokens(history)
    }

    // The history rules, for an operation on the present tables.
    lemma FollowsHistory(t: S.Timed)
      requires Valid()
      ensures var all := history + [t];
              S.Monotone(all) && S.FreshTokens(all) ==>
              && (t.op.Authenticate? ==>
                    (S.Apply(config, State(), t).1.Principal? <==>
                     exists i: nat, m: nat ::
                       && S.Unbroken(config, all, i, m, |history|, t.op.token)
                       && t.at < all[i].at + config.absoluteMs
                       && t.at < all[m].at + config.idleMs
                       && all[i].op.workspace in t.op.active))
              && (t.op.ConsumeLoginAttempt? ==>
                    (S.Apply(config, State(), t).1.Consumed? <==>
                     exists i: nat :: S.Unused(all, i, |history|, t.op.state) && t.at < all[i].at + S.LOGIN_ATTEMPT_MS))
    {
      hide S.Apply, S.Unbroken, S.Unused, S.Monotone, S.FreshTokens;
      var all := history + [t];
      assert all[..|history|] == history && all[|history|] == t;
      if S.Monotone(all) && S.FreshTokens(all) {
        if t.op.Authenticate? { S.AuthenticateIffHistory(config, all, |history|); }
        if t.op.ConsumeLoginAttempt? { S.ConsumeIffUnused(config, all, |history|); }
      }
    }

    constructor (config: S.Config)
      ensures this.config == config && State() == S.EMPTY && history == [] && Valid()
    {
      this.config, attempts, sessions, history := config, map[], map[], [];
    }

    method CreateLoginAttempt(state: S.Token, payload: string, now: int) returns (reply: S.Reply)
      requires Valid()
      modifies this
      ensures (State(), reply) == S.Apply(config, old(State()), S.Timed(now, S.CreateLoginAttempt(state, payload)))
      ensures Valid() && history == old(history) + [S.Timed(now, S.CreateLoginAttempt(state, payload))]
      ensures reply == S.Created <==> state !in old(attempts)
      ensures reply == S.Created ==> attempts == old(attempts)[state := S.Attempt(payload, now + 600_000)]
    {
      hide S.Run, S.Monotone, S.FreshTokens, S.Unbroken, S.Unused, S.Cleaned, S.WithSession;
      S.RunSnoc(config, history, S.Timed(now, S.CreateLoginAttempt(state, payload)));
      history := history + [S.Timed(now, S.CreateLoginAttempt(state, payload))];
      if state in attempts { return S.Duplicate; }
      attempts := attempts[state := S.Attempt(payload, now + 10 * 60_000)];
      return S.Created;
    }

    // Finds the attempt, deletes it whether or not it has expired, and returns it only when it has not.
    method ConsumeLoginAttempt(state: S.Token, now: int) returns (reply: S.Reply)
      requires Valid()
      modifies this
      ensures (State(), reply) == S.Apply(config, old(State()), S.Timed(now, S.ConsumeLoginAttempt(state)))
      ensures Valid() && history == old(history) + [S.Timed(now, S.ConsumeLoginAttempt(state))]
      ensures Regular() ==>
                (reply.Consumed? <==>
                 exists i: nat ::
                   S.Unused(history, i, |old(history)|, state) && now < history[i].at + S.LOGIN_ATTEMPT_MS)
    {
      FollowsHistory(S.Timed(now, S.ConsumeLoginAttempt(state)));
      hide S.Run, S.Monotone, S.FreshTokens, S.Unbroken, S.Unused, S.Cleaned, S.WithSession;
      S.RunSnoc(config, history, S.Timed(now, S.ConsumeLoginAttempt(state)));
      history := history + [S.Timed(now, S.ConsumeLoginAttempt(state))];
      if state !in attempts {
        assert attempts - {state} == attempts;
        return S.Null;
      }
      var attempt := attempts[state];
      attempts := attempts - {state};
      return if attempt.expiresAt <= now then S.Null else S.Consumed(attempt.payload);
    }

    // The transaction: the new session is created and the replaced one deleted.
    method Replace(token: S.Token, session: S.Session, replace: Option<S.Token>)
      modifies this`sessions
      ensures sessions == S.WithSession(old(sessions), token, session, replace)
      ensures replace.Some? ==> replace.value !in sessions
      ensures replace != Some(token) ==> token in sessions && sessions[token] == session
    {
      sessions := sessions[token := session];
      if replace.Some? { sessions := sessions - {replace.value}; }
    }

    method CreateSession(token: S.Token, workspace: string, replace: Option<S.Token>, now: int) returns (reply: S.Reply)
      requires Valid()
      modifies this
      ensures (State(), reply) == S.Apply(config, old(State()), S.Timed(now, S.CreateSession(token, workspace, replace)))
      ensures Valid() && history == old(history) + [S.Timed(now, S.CreateSession(token, workspace, replace))]
      ensures reply == S.Created <==> token !in old(sessions)
      ensures reply == S.Created && replace.Some? ==> replace.value !in sessions
      ensures reply == S.Created && replace != Some(token) ==>
                token in sessions && sessions[token] == S.Session(workspace, now + config.idleMs, now + config.absoluteMs)
    {
      hide S.Run, S.Monotone, S.FreshTokens, S.Unbroken, S.Unused, S.Cleaned, S.WithSession;
      S.RunSnoc(config, history, S.Timed(now, S.CreateSession(token, workspace, replace)));
      history := history + [S.Timed(now, S.CreateSession(token, workspace, replace))];
      if token in sessions { return S.Duplicate; }
      var session := S.Session(workspace, now + config.idleMs, now + config.absoluteMs);
      Replace(token, session, replace);
      return S.Created;
    }

    // Deletes a session found expired or in an inactive workspace; otherwise slides its idle expiry.
    method Authenticate(token: S.Token, active: set<string>, now: int) returns (reply: S.Reply)
      requires Valid()
      modifies this
      ensures (State(), reply) == S.Apply(config, old(State()), S.Timed(now, S.Authenticate(token, active)))
      ensures Valid() && history == old(history) + [S.Timed(now, S.Authenticate(token, active))]
      ensures reply.Principal? ==>
                && token in sessions && sessions[token].idleExpiresAt <= sessions[token].absoluteExpiresAt
                && (sessions[token].idleExpiresAt == now + config.idleMs ||
                    sessions[token].idleExpiresAt == sessions[token].absoluteExpiresAt < now + config.idleMs)
      ensures !reply.Principal? ==> token !in sessions
      ensures Regular() ==>
                (reply.Principal? <==>
                 exists i: nat, m: nat ::
                   && S.Unbroken(config, history, i, m, |old(history)|, token)
                   && now < history[i].at + config.absoluteMs
                   && now < history[m].at + config.idleMs
                   && history[i].op.workspace in active)
    {
      FollowsHistory(S.Timed(now, S.Authenticate(token, active)));
      hide S.Run, S.Monotone, S.FreshTokens, S.Unbroken, S.Unused, S.Cleaned, S.WithSession;
      S.RunSnoc(config, history, S.Timed(now, S.Authenticate(token, active)));
      history := history + [S.Timed(now, S.Authenticate(token, active))];
      if token !in sessions { return S.Null; }
      var session := sessions[token];
      if session.idleExpiresAt <= now || session.absoluteExpiresAt <= now || session.workspace !in active {
        sessions := sessions - {token};
        return S.Null;
      }
      var idle := if now + config.idleMs < session.absoluteExpiresAt then now + config.idleMs else session.absoluteExpiresAt;
      sessions := sessions[token := session.(idleExpiresAt := idle)];
      return S.Principal(token, session.workspace);
    }

    method Destroy(token: S.Token, now: int) returns (reply: S.Reply)
      requires Valid()
      modifies this
      ensures (State(), reply) == S.Apply(config, old(State()), S.Timed(now, S.Destroy(token)))
      ensures Valid() && history == old(history) + [S.Timed(now, S.Destroy(token))]
      ensures sessions == old(sessions) - {token} && attempts == old(attempts)
    {
      hide S.Run, S.Monotone, S.FreshTokens, S.Unbroken, S.Unused, S.Cleaned, S.WithSession;
      S.RunSnoc(config, history, S.Timed(now, S.Destroy(token)));
      history := history + [S.Timed(now, S.Destroy(token))];
      sessions := sessions - {token};
      return S.Deleted;
    }

    // One transaction: both tables lose what has expired; the count is what was removed.
    method Cleanup(now: int) returns (count: int)
      requires Valid()
      modifies this
      ensures (State(), S.Removed(count)) == S.Apply(config, old(State()), S.Timed(now, S.Cleanup))
      ensures Valid() && history == old(history) + [S.Timed(now, S.Cleanup)]
      ensures forall h :: h in attempts <==> h in old(attempts) && now < old(attempts)[h].expiresAt
      ensures forall h :: h in sessions <==>
                h in old(sessions) && now < old(sessions)[h].idleExpiresAt && now < old(sessions)[h].absoluteExpiresAt
      ensures count == (|old(attempts)| - |attempts|) + (|old(sessions)| - |sessions|)
    {
      hide S.Run, S.Monotone, S.FreshTokens, S.Unbroken, S.Unused, S.WithSession;
      S.RunSnoc(config, history, S.Timed(now, S.Cleanup));
      history := history + [S.Timed(now, S.Cleanup)];
      var before := |attempts| + |sessions|;
      attempts := map h | h in attempts && attempts[h].expiresAt > now :: attempts[h];
      sessions := map h | h in sessions && sessions[h].idleExpiresAt > now && sessions[h].absoluteExpiresAt > now :: sessions[h];
      count := before - |attempts| - |sessions|;
    }
  }
}
