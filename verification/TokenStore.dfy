/** Login tokens with lazy expiry, compared with a store that never forgets. */
module TokenStore {
  import opened Basics
  import opened RateLimiters

  datatype User = User(userId: int, username: string)

  datatype AuthSession = AuthSession(token: string, user: User, expiresAt: int)

  type Tokens = map<string, AuthSession>

  // Calls that reach the token table, with the clock readings the calls take.
  datatype Event =
    | Issue(token: string, user: User, now: int)
    | Revoke(token: string)
    | Check(token: string, now: int)

  datatype LoginOutcome = RateLimited | Unauthorized | LoggedIn(session: AuthSession)

  // ---- Transitions ----

  function Cleaned(tokens: Tokens, now: int): Tokens {
    map t | t in tokens && now <= tokens[t].expiresAt :: tokens[t]
  }

  function Lookup(tokens: Tokens, token: string, now: int): Option<AuthSession> {
    if token in tokens && now <= tokens[token].expiresAt then Some(tokens[token]) else None
  }

  function AfterCheck(tokens: Tokens, token: string, now: int): Tokens {
    if token in tokens && now > tokens[token].expiresAt then tokens - {token} else tokens
  }

  function Next(ttl: int, tokens: Tokens, e: Event): Tokens {
    match e
    case Issue(token, user, now) => Cleaned(tokens, now)[token := AuthSession(token, user, now + ttl)]
    case Revoke(token) => tokens - {token}
    case Check(token, now) => AfterCheck(tokens, token, now)
  }

  function Run(ttl: int, events: seq<Event>): Tokens {
    if events == [] then map[] else Next(ttl, Run(ttl, events[..|events| - 1]), events[|events| - 1])
  }

  // The same history on a table from which only logging out removes a token.
  function Unpurged(ttl: int, events: seq<Event>): Tokens {
    if events == [] then map[]
    else
      var before := Unpurged(ttl, events[..|events| - 1]);
      match events[|events| - 1]
      case Issue(token, user, now) => before[token := AuthSession(token, user, now + ttl)]
      case Revoke(token) => before - {token}
      case Check(token, now) => before
  }

  // ---- Lazy expiry is unobservable through token checks ----

  // No clock reading of the history is later than now, and none is earlier than a preceding one.
  ghost predicate ClockRises(events: seq<Event>, now: int) {
    && (forall i :: 0 <= i < |events| && !events[i].Revoke? ==> events[i].now <= now)
    && (forall i, j :: 0 <= i < j < |events| && !events[i].Revoke? && !events[j].Revoke? ==>
          events[i].now <= events[j].now)
  }

  // The table is the unpurged one without some entries that have expired.
  ghost predicate PurgedOnlyExpired(tokens: Tokens, unpurged: Tokens, now: int) {
    && (forall t :: t in tokens ==> t in unpurged && tokens[t] == unpurged[t])
    && (forall t :: t in unpurged && t !in tokens ==> unpurged[t].expiresAt < now)
  }

  lemma {:induction false} OnlyExpiredArePurged(ttl: int, events: seq<Event>, now: int)
    requires ClockRises(events, now)
    ensures PurgedOnlyExpired(Run(ttl, events), Unpurged(ttl, events), now)
  {
    if events == [] {
    } else {
      var rest, last := events[..|events| - 1], events[|events| - 1];
      OnlyExpiredArePurged(ttl, rest, if last.Revoke? then now else last.now);
    }
  }

  // With a clock that does not run backwards, a check answers as if nothing had ever been purged.
  lemma CheckIgnoresPurging(ttl: int, events: seq<Event>, token: string, now: int)
    requires ClockRises(events, now)
    ensures Lookup(Run(ttl, events), token, now) == Lookup(Unpurged(ttl, events), token, now)
  {
    OnlyExpiredArePurged(ttl, events, now);
  }

  // The i-th event issued the token, and nobody issued or revoked that token since.
  ghost predicate IssuedLast(events: seq<Event>, i: nat, token: string) {
    && i < |events| && events[i].Issue? && events[i].token == token
    && (forall j :: i < j < |events| ==> events[j].Check? || events[j].token != token)
  }

  lemma {:induction false} UnpurgedMeaning(ttl: int, events: seq<Event>, token: string)
    ensures token in Unpurged(ttl, events) <==> exists i: nat :: IssuedLast(events, i, token)
    ensures forall i: nat :: IssuedLast(events, i, token) ==>
              Unpurged(ttl, events)[token] == AuthSession(token, events[i].user, events[i].now + ttl)
  {
    if events == [] {
    } else {
      var n := |events| - 1;
      var rest, last := events[..n], events[n];
      UnpurgedMeaning(ttl, rest, token);
      forall i: nat ensures IssuedLast(events, i, token)
                            <==> if i == n then last.Issue? && last.token == token
                                 else IssuedLast(rest, i, token) && (last.Check? || last.token != token)
      {
        IssuedLastStep(events, i, token);
      }
      if last.Issue? && last.token == token {
        assert IssuedLast(events, n, token);
      } else if last.Check? || last.token != token {
        assert Unpurged(ttl, rest).Keys * {token} == Unpurged(ttl, events).Keys * {token};
        if i: nat :| IssuedLast(rest, i, token) {
          assert IssuedLast(events, i, token);
        }
      }
    }
  }

  lemma IssuedLastStep(events: seq<Event>, i: nat, token: string)
    requires events != []
    ensures var n := |events| - 1;
            IssuedLast(events, i, token)
            <==> if i == n then events[n].Issue? && events[n].token == token
                 else IssuedLast(events[..n], i, token) && (events[n].Check? || events[n].token != token)
  {
    var n := |events| - 1;
    if i < n && IssuedLast(events, i, token) {
      assert events[..n][i] == events[i];
      forall j | i < j < n ensures events[..n][j].Check? || events[..n][j].token != token {
        assert events[..n][j] == events[j];
      }
    }
    if i < n && IssuedLast(events[..n], i, token) && (events[n].Check? || events[n].token != token) {
      assert events[..n][i] == events[i];
      forall j | i < j < |events| ensures events[j].Check? || events[j].token != token {
        assert j < n ==> events[..n][j] == events[j];
      }
    }
  }

  // A check succeeds exactly for a token whose latest issue has not expired and was not followed by a logout.
  lemma CheckSucceedsExactly(ttl: int, events: seq<Event>, token: string, now: int)
    requires ClockRises(events, now)
    ensures Lookup(Run(ttl, events), token, now).Some?
            <==> exists i: nat :: IssuedLast(events, i, token) && now <= events[i].now + ttl
  {
    CheckIgnoresPurging(ttl, events, token, now);
    UnpurgedMeaning(ttl, events, token);
    if i: nat :| IssuedLast(events, i, token) {
      assert Unpurged(ttl, events)[token].expiresAt == events[i].now + ttl;
    }
  }

  // What a successful check returns: the user and the expiry of the latest issue.
  lemma CheckReturnsTheIssue(ttl: int, events: seq<Event>, i: nat, token: string, now: int)
    requires ClockRises(events, now) && IssuedLast(events, i, token) && now <= events[i].now + ttl
    ensures Lookup(Run(ttl, events), token, now) == Some(AuthSession(token, events[i].user, events[i].now + ttl))
  {
    hide IssuedLast, Unpurged, Run, ClockRises;
    CheckIgnoresPurging(ttl, events, token, now);
    UnpurgedMeaning(ttl, events, token);
    assert IssuedLast(events, i, token);
    IssuedIsIssue(events, i, token);
  }

  lemma IssuedIsIssue(events: seq<Event>, i: nat, token: string)
    requires IssuedLast(events, i, token)
    ensures i < |events| && events[i].Issue?
  {
  }

  // ---- Logging out shows what was purged ----

  // What takes a token issued with this expiry out of the table, clock or no clock: a logout, a new issue, any later
  // login that finds it expired, or a check that does.
  predicate Ends(e: Event, token: string, expiresAt: int) {
    match e
    case Issue(t, _, now) => t == token || now > expiresAt
    case Revoke(t) => t == token
    case Check(t, now) => t == token && now > expiresAt
  }

  ghost predicate StillHeld(ttl: int, events: seq<Event>, i: nat, token: string) {
    && i < |events| && events[i].Issue? && events[i].token == token
    && (forall j :: i < j < |events| ==> !Ends(events[j], token, events[i].now + ttl))
  }

  lemma StillHeldStep(ttl: int, events: seq<Event>, i: nat, token: string)
    requires events != []
    ensures var n := |events| - 1;
            StillHeld(ttl, events, i, token)
            <==> if i == n then events[n].Issue? && events[n].token == token
                 else StillHeld(ttl, events[..n], i, token) && !Ends(events[n], token, events[i].now + ttl)
  {
    var n := |events| - 1;
    if i < n {
      assert events[..n][i] == events[i];
      assert forall j :: i < j < n ==> events[..n][j] == events[j];
    }
  }

  // The answer of a logout: the token is held exactly when nothing ended it since its issue. Unlike a check, it can
  // depend on other users' logins.
  lemma {:induction false} LogoutAnswersExactly(ttl: int, events: seq<Event>, token: string)
    ensures token in Run(ttl, events) <==> exists i: nat :: StillHeld(ttl, events, i, token)
    ensures forall i: nat :: StillHeld(ttl, events, i, token) ==>
              token in Run(ttl, events) && Run(ttl, events)[token].expiresAt == events[i].now + ttl
  {
    if events == [] {
    } else {
      var n := |events| - 1;
      var rest, last := events[..n], events[n];
      LogoutAnswersExactly(ttl, rest, token);
      forall i: nat ensures StillHeld(ttl, events, i, token)
                            <==> if i == n then last.Issue? && last.token == token
                                 else StillHeld(ttl, rest, i, token) && !Ends(last, token, events[i].now + ttl)
      {
        StillHeldStep(ttl, events, i, token);
      }
      if last.Issue? && last.token == token {
        assert StillHeld(ttl, events, n, token);
      } else if token in Run(ttl, events) {
        var i: nat :| StillHeld(ttl, rest, i, token);
        assert StillHeld(ttl, events, i, token);
      }
    }
  }

  // No later login of anybody and no later check of the token reads a clock beyond its expiry.
  ghost predicate Undisturbed(ttl: int, events: seq<Event>, i: nat, token: string)
  {
    i < |events| && events[i].Issue? && forall j :: i < j < |events| ==>
      match events[j]
      case Issue(_, _, now) => now <= events[i].now + ttl
      case Revoke(_) => true
      case Check(t, now) => t == token ==> now <= events[i].now + ttl
  }

  lemma HeldIsUndisturbed(ttl: int, events: seq<Event>, i: nat, token: string)
    ensures StillHeld(ttl, events, i, token) <==> IssuedLast(events, i, token) && Undisturbed(ttl, events, i, token)
  {
  }

  lemma IssuedLastOnce(events: seq<Event>, i: nat, j: nat, token: string)
    requires IssuedLast(events, i, token) && IssuedLast(events, j, token)
    ensures i == j
  {
  }

  // A logout answers as if nothing had ever been purged exactly when nothing could purge the token since its issue.
  lemma LogoutAgreesExactly(ttl: int, events: seq<Event>, token: string)
    ensures (token in Run(ttl, events) <==> token in Unpurged(ttl, events))
            <==> forall i: nat :: IssuedLast(events, i, token) ==> Undisturbed(ttl, events, i, token)
  {
    hide IssuedLast, StillHeld, Undisturbed;
    LogoutAnswersExactly(ttl, events, token);
    UnpurgedMeaning(ttl, events, token);
    forall i: nat ensures StillHeld(ttl, events, i, token)
                          <==> IssuedLast(events, i, token) && Undisturbed(ttl, events, i, token)
    {
      HeldIsUndisturbed(ttl, events, i, token);
    }
    forall i: nat, j: nat | IssuedLast(events, i, token) && IssuedLast(events, j, token) ensures i == j {
      IssuedLastOnce(events, i, j, token);
    }
  }

  // Two histories that differ only in another user's login answer the same logout differently.
  lemma LogoutRevealsCleanup(u: User)
    ensures var quiet, busy := [Issue("a", u, 0)], [Issue("a", u, 0), Issue("b", u, 11)];
            "a" in Run(10, quiet) && "a" !in Run(10, busy) && "a" in Unpurged(10, busy)
  {
    var busy := [Issue("a", u, 0), Issue("b", u, 11)];
    assert busy[..1] == [Issue("a", u, 0)];
    assert [Issue("a", u, 0)][..0] == [];
  }

  class AuthService {
    const ttl: int
    const rateLimiter: RateLimiter
    var sessions: Tokens

    constructor (ttl: int, policy: Policy)
      ensures this.ttl == ttl && sessions == map[]
      ensures fresh(rateLimiter) && rateLimiter.policy == policy && rateLimiter.buckets == map[]
    {
      this.ttl, sessions := ttl, map[];
      rateLimiter := new RateLimiter(policy);
    }

    // account is the user record if the name is known and the password matches; token is the newly drawn token.
    method Login(ip: string, account: Option<User>, token: string, now: int) returns (outcome: LoginOutcome)
      modifies this, rateLimiter
      ensures rateLimiter.buckets == RateLimiters.After(rateLimiter.policy, old(rateLimiter.buckets), Call(ip, now))
      ensures var allowed := Allows(rateLimiter.policy, BucketOf(old(rateLimiter.buckets), ip), now);
              && (outcome == RateLimited <==> !allowed)
              && (outcome == Unauthorized <==> allowed && account.None?)
              && (outcome.LoggedIn? ==> outcome.session == AuthSession(token, account.value, now + ttl))
      ensures sessions == if outcome.LoggedIn? then Next(ttl, old(sessions), Issue(token, account.value, now))
                          else old(sessions)
    {
      var allowed := rateLimiter.Allow(ip, now);
      if !allowed {
        return RateLimited;
      }
      if account.None? {
        return Unauthorized;
      }
      CleanupExpired(now);
      var session := AuthSession(token, account.value, now + ttl);
      sessions := sessions[token := session];
      return LoggedIn(session);
    }

    method Logout(token: string) returns (removed: bool)
      modifies this
      ensures removed <==> token in old(sessions)
      ensures sessions == Next(ttl, old(sessions), Revoke(token))
    {
      removed := token in sessions;
      sessions := sessions - {token};
    }

    method ValidateToken(token: string, now: int) returns (session: Option<AuthSession>)
      modifies this
      ensures session == Lookup(old(sessions), token, now)
      ensures sessions == Next(ttl, old(sessions), Check(token, now))
    {
      if token !in sessions {
        return None;
      }
      var found := sessions[token];
      if now > found.expiresAt {
        sessions := sessions - {token};
        return None;
      }
      return Some(found);
    }

    // Walks over the table in some order and erases what has expired.
    method CleanupExpired(now: int)
      modifies this
      ensures sessions == Cleaned(old(sessions), now)
    {
      ghost var all := sessions;
      var rest := sessions.Keys;
      while rest != {}
        invariant rest <= all.Keys
        invariant forall t :: t in sessions <==> t in all && (t in rest || now <= all[t].expiresAt)
        invariant forall t :: t in sessions ==> sessions[t] == all[t]
        decreases rest
      {
        HasMember(rest);
        var t :| t in rest;
        if now > sessions[t].expiresAt {
          sessions := sessions - {t};
        }
        rest := rest - {t};
      }
    }
  }
}
