/** Where the sessions of canvas-agent/src/local-runtime-session.ts come from: what every call answers and leaves
    behind, said of the table before and after, and over runs the signature each session goes back to. */
module SessionOpenings {
  import opened Wrappers
  import opened Sessions

  // ---------------------------------------------------------------- challenges

  /** The table but for what has expired. */
  ghost predicate Pruned(t: Table, now: Time, t': Table) {
    && t'.registrations == t.registrations && t'.nextId == t.nextId
    && (forall c :: c in t'.challenges <==> c in t.challenges && t.challenges[c].expiresAt > now)
    && (forall c :: c in t'.challenges ==> t'.challenges[c] == t.challenges[c])
    && (forall s :: s in t'.sessions <==> s in t.sessions && t.sessions[s].expiresAt > now)
    && (forall s :: s in t'.sessions ==> t'.sessions[s] == t.sessions[s])
  }

  lemma {:induction false} PruneDrops(t: Table, now: Time)
    ensures Pruned(t, now, Prune(t, now))
  {
  }

  /** The key a challenge is asked for. */
  function AskedKey(input: ChallengeInput): Option<Key> {
    match input
    case PublicKey(key) => key
    case KeyId(key) => Some(key)
  }

  lemma {:induction false} NextIsUndrawn(setup: Setup, t: Table, now: Time)
    requires Inv(setup, t)
    ensures t.nextId !in t.challenges && t.nextId !in Prune(t, now).challenges
  {
    hide ValidNonce;
  }

  /** A challenge handed out for this origin and key that has not expired. */
  predicate Awaits(t: Table, c: Id, origin: string, key: Key, now: Time) {
    c in t.challenges && now < t.challenges[c].expiresAt
      && t.challenges[c] == t.challenges[c].(origin := origin, keyId := key)
  }

  predicate Reuses(t: Table, origin: string, input: ChallengeInput, now: Time) {
    && input.PublicKey? && input.key.Some? && Registration(input.key.value, origin) !in t.registrations
    && exists c :: c in t.challenges && Awaits(t, c, origin, input.key.value, now)
  }

  lemma {:induction false} PendingPruned(t: Table, c: Id, origin: string, key: Key, now: Time)
    ensures Pending(Prune(t, now), c, origin, key, now) <==> Awaits(t, c, origin, key, now)
  {
  }

  lemma {:induction false} PrunedReuses(t: Table, origin: string, key: Key, now: Time)
    ensures !Found(t.registrations, origin, key) && (exists c :: Pending(Prune(t, now), c, origin, key, now))
       <==> Reuses(t, origin, PublicKey(Some(key)), now)
  {
    forall c ensures Pending(Prune(t, now), c, origin, key, now) <==> Awaits(t, c, origin, key, now) {
      PendingPruned(t, c, origin, key, now);
    }
    assert forall c :: Awaits(t, c, origin, key, now) ==> c in t.challenges;
    hide Prune, Pending, Awaits;
  }

  lemma {:induction false} IssueAnswers(t: Table, origin: string, key: Key, now: Time)
    requires t.nextId !in t.challenges
    ensures var (t', r) := Issue(t, origin, key, now);
      && (r.Ok? <==> |t.challenges| < MAX_PENDING_CHALLENGES) && t'.registrations == t.registrations
      && t'.sessions == t.sessions && (r.Err? ==> t' == t)
      && (r.Ok? ==>
            && r.value == t.nextId && t'.challenges - {t.nextId} == t.challenges
            && t.nextId in t'.challenges && t'.challenges[t.nextId].expiresAt == now + CHALLENGE_TTL_MS
            && Awaits(t', t.nextId, origin, key, now))
  {
  }

  lemma {:induction false} ChallengeAnswers(setup: Setup, t: Table, t': Table, origin: string, input: ChallengeInput,
      now: Time,
      result: Result<Id, SessionError>)
    requires Challenged(setup, t, t', origin, input, now, result)
    requires t.nextId !in t.challenges && t.nextId !in Prune(t, now).challenges
    ensures var pruned := Prune(t, now); var key := AskedKey(input); var reuses := Reuses(t, origin, input, now);
      && (result.Ok? <==>
            && origin in setup.trustedOrigins && key.Some?
            && (input.KeyId? ==> Registration(key.value, origin) in t.registrations)
            && (reuses || |pruned.challenges| < MAX_PENDING_CHALLENGES))
      && (result.Ok? ==>
            && Awaits(t', result.value, origin, key.value, now)
            && if reuses then t' == pruned && result.value in t.challenges
               else
                 && result.value !in t.challenges && t'.registrations == t.registrations
                 && t'.sessions == pruned.sessions
                 && t'.challenges - {result.value} == pruned.challenges
                 && t'.challenges[result.value].expiresAt == now + CHALLENGE_TTL_MS)
      && (result.Err? ==> t' == if origin in setup.trustedOrigins then pruned else t)
  {
    PruneDrops(t, now);
    if origin in setup.trustedOrigins && AskedKey(input).Some? {
      var key := AskedKey(input).value;
      PrunedReuses(t, origin, key, now);
      IssueAnswers(Prune(t, now), origin, key, now);
      if result.Ok? {
        PendingPruned(t, result.value, origin, key, now);
        AwaitsHere(t, result.value, origin, key, now);
      }
    }
    hide Prune, Reuses, Issue, Pending, Awaits, Pruned;
  }

  lemma {:induction false} AwaitsHere(t: Table, c: Id, origin: string, key: Key, now: Time)
    ensures Awaits(t, c, origin, key, now) ==> c in t.challenges
    ensures Awaits(Prune(t, now), c, origin, key, now) <==> Awaits(t, c, origin, key, now)
  {
  }

  /** A challenge is answered exactly for a trusted origin and a key that is well formed and, if named by its id,
      registered, while there is room for it or the unregistered key has one already. What is answered is pending for
      this origin and key: it was so before, or it is new, the only change, and lasts for CHALLENGE_TTL_MS. */
  lemma {:induction false} ChallengedExactly(setup: Setup, t: Table, event: Event, t': Table)
    requires Inv(setup, t) && Steps(setup, t, event, t') && event.call.CreateChallenge?
    ensures var (origin, input, now) := (event.call.origin, event.call.input, event.now);
            var pruned := Prune(t, now);
            var key := AskedKey(input);
            var reuses := Reuses(t, origin, input, now);
      && (event.result.Ok? <==>
            && origin in setup.trustedOrigins && key.Some?
            && (input.KeyId? ==> Registration(key.value, origin) in t.registrations)
            && (reuses || |pruned.challenges| < MAX_PENDING_CHALLENGES))
      && (event.result.Ok? ==>
            && Awaits(t', event.result.value, origin, key.value, now)
            && if reuses then t' == pruned && event.result.value in t.challenges
               else
                 && event.result.value !in t.challenges && t'.registrations == t.registrations
                 && t'.sessions == pruned.sessions
                 && t'.challenges - {event.result.value} == pruned.challenges
                 && t'.challenges[event.result.value].expiresAt == now + CHALLENGE_TTL_MS)
      && (event.result.Err? ==> t' == if origin in setup.trustedOrigins then pruned else t)
  {
    NextIsUndrawn(setup, t, event.now);
    hide Inv;
    ChallengeAnswers(setup, t, t', event.call.origin, event.call.input, event.now, event.result);
  }

  /** Why a challenge is refused. */
  lemma {:induction false} ChallengeRefusals(setup: Setup, t: Table, event: Event, t': Table)
    requires Inv(setup, t) && Steps(setup, t, event, t') && event.call.CreateChallenge? && event.result.Err?
    ensures var (origin, input) := (event.call.origin, event.call.input);
      && (event.result.error == OriginNotTrusted <==> origin !in setup.trustedOrigins)
      && (event.result.error == PublicKeyInvalid <==> origin in setup.trustedOrigins && input == PublicKey(None))
      && (event.result.error == RegistrationNotFound <==>
            && origin in setup.trustedOrigins && input.KeyId?
            && Registration(input.keyId, origin) !in t.registrations)
      && event.result.error in {OriginNotTrusted, PublicKeyInvalid, RegistrationNotFound, RateLimited}
  {
    hide ValidNonce, Prune, Pending;
  }

  // ---------------------------------------------------------------- openings

  /** The challenge is in the table, not expired, for this trusted origin, and the signature verifies under its key over
      its own id, nonce and expiry. */
  predicate Signed(setup: Setup, t: Table, origin: string, challengeId: Id, signature: string, now: Time) {
    && origin in setup.trustedOrigins && challengeId in t.challenges
    && var challenge := t.challenges[challengeId];
       && challenge.origin == origin && now < challenge.expiresAt
       && setup.verifies(challenge.keyId,
            ChallengePayload(challengeId, challenge.nonce, origin, challenge.expiresAt), signature)
  }

  lemma {:induction false} NextIsNew(setup: Setup, t: Table)
    requires Inv(setup, t)
    ensures t.nextId !in t.sessions
  {
    hide ValidNonce;
  }

  lemma {:induction false} ExchangeOpens(setup: Setup, t: Table, origin: string, c: Id, signature: string, now: Time)
    requires t.nextId !in t.sessions
    ensures var (t', r) := Exchange(setup, t, origin, c, signature, now);
      && (r.Ok? <==> Signed(setup, t, origin, c, signature, now))
      && (r.Ok? ==>
            var (key, s) := (t.challenges[c].keyId, r.value);
            && s !in t.sessions && s in t'.sessions && t'.sessions - {s} == t.sessions
            && t'.sessions[s] == Session(key, origin, setup.scopes, now + SESSION_TTL_MS, {})
            && t'.challenges == t.challenges - {c}
            && t'.registrations == t.registrations
                 + if Registration(key, origin) in t.registrations then [] else [Registration(key, origin)])
      && (r.Err? ==>
            && t'.sessions == t.sessions && t'.registrations == t.registrations
            && t'.challenges == if origin in setup.trustedOrigins then t.challenges - {c} else t.challenges)
  {
    var (t', r) := Exchange(setup, t, origin, c, signature, now);
    if r.Ok? {
      assert t'.sessions - {r.value} == t.sessions;
    } else {
      assert c !in t.challenges ==> t.challenges - {c} == t.challenges;
    }
  }

  /** An exchange passes exactly when it was signed for. It opens one new session for the challenge's key and origin
      with the setup's scopes, for SESSION_TTL_MS, and leaves the key registered and everything else as it was. */
  lemma {:induction false} OpenedExactly(setup: Setup, t: Table, event: Event, t': Table)
    requires Inv(setup, t) && Steps(setup, t, event, t') && event.call.ExchangeChallenge?
    ensures var (origin, c, now) := (event.call.origin, event.call.challengeId, event.now);
      && (event.result.Ok? <==> Signed(setup, t, origin, c, event.call.signature, now))
      && (event.result.Ok? ==>
            var (key, s) := (t.challenges[c].keyId, event.result.value);
            && s !in t.sessions && s in t'.sessions && t'.sessions - {s} == t.sessions
            && t'.sessions[s] == Session(key, origin, setup.scopes, now + SESSION_TTL_MS, {})
            && t'.challenges == t.challenges - {c}
            && t'.registrations == t.registrations
                 + if Registration(key, origin) in t.registrations then [] else [Registration(key, origin)])
      && (event.result.Err? ==>
            && t'.sessions == t.sessions && t'.registrations == t.registrations
            && t'.challenges == if origin in setup.trustedOrigins then t.challenges - {c} else t.challenges)
  {
    NextIsNew(setup, t);
    hide Inv, Signed;
    ExchangeOpens(setup, t, event.call.origin, event.call.challengeId, event.call.signature, event.now);
    hide Exchange;
  }

  /** Why an exchange is refused. */
  lemma {:induction false} ExchangeRefusals(setup: Setup, t: Table, event: Event, t': Table)
    requires Inv(setup, t) && Steps(setup, t, event, t') && event.call.ExchangeChallenge? && event.result.Err?
    ensures var (origin, c) := (event.call.origin, event.call.challengeId);
      && (event.result.error == OriginNotTrusted <==> origin !in setup.trustedOrigins)
      && (event.result.error == ChallengeProofInvalid <==>
            && origin in setup.trustedOrigins && c in t.challenges && t.challenges[c].origin == origin
            && event.now < t.challenges[c].expiresAt)
      && event.result.error in {OriginNotTrusted, ChallengeInvalid, ChallengeProofInvalid}
  {
    hide ValidNonce, Inv;
  }

  // ---------------------------------------------------------------- requests

  /** Everything a request is checked against. */
  predicate Admitted(setup: Setup, t: Table, request: Request, now: Time) {
    && request.sessionId in t.sessions
    && var session := t.sessions[request.sessionId];
       && now < session.expiresAt && session.origin == request.origin && request.origin in setup.trustedOrigins
       && -REQUEST_CLOCK_SKEW_MS <= now - request.timestamp <= REQUEST_CLOCK_SKEW_MS
       && request.scope in session.scopes
       && ValidNonce(request.requestNonce) && request.requestNonce !in session.usedNonces
       && |session.usedNonces| < MAX_SESSION_NONCES
       && Registration(session.keyId, request.origin) in t.registrations
       && setup.verifies(session.keyId,
            RequestPayload(request.sessionId, session.keyId, request.request, request.origin, request.requestNonce,
              request.timestamp, session.expiresAt), request.proof)
  }

  /** A request passes exactly when all that is checked holds, and then its nonce is used up and nothing else changes. A
      request that does not pass changes nothing, but for dropping a session it finds expired or unregistered. */
  lemma {:induction false} PassesExactly(setup: Setup, t: Table, event: Event, t': Table)
    requires Inv(setup, t) && Steps(setup, t, event, t') && event.call.VerifyRequest?
    ensures var (request, now) := (event.call.request, event.now); var s := request.sessionId;
      && (Passes(event) <==> Admitted(setup, t, request, now))
      && t'.registrations == t.registrations && t'.challenges == t.challenges && t'.nextId == t.nextId
      && t'.sessions - {s} == t.sessions - {s}
      && (Passes(event) ==>
            s in t'.sessions
            && t'.sessions[s] == t.sessions[s].(usedNonces := t.sessions[s].usedNonces + {request.requestNonce}))
      && (!Passes(event) && s in t.sessions ==>
            if s in t'.sessions then t'.sessions[s] == t.sessions[s]
            else t.sessions[s].expiresAt <= now
                 || Registration(t.sessions[s].keyId, request.origin) !in t.registrations)
  {
    hide ValidNonce, Inv;
  }

  /** A refused request is refused for the first thing in this order that does not hold. */
  lemma {:induction false} RequestRefusals(setup: Setup, t: Table, event: Event, t': Table)
    requires Steps(setup, t, event, t') && event.call.VerifyRequest? && event.result.Err?
    ensures var (request, now) := (event.call.request, event.now);
            var session := if request.sessionId in t.sessions then t.sessions[request.sessionId]
                           else Session(0, "", {}, now, {});
            var open := request.sessionId in t.sessions && now < session.expiresAt;
            var trusted := open && request.origin in setup.trustedOrigins;
            var own := trusted && session.origin == request.origin;
            var recent := own && -REQUEST_CLOCK_SKEW_MS <= now - request.timestamp <= REQUEST_CLOCK_SKEW_MS;
            var scoped := recent && request.scope in session.scopes;
            var spelled := scoped && ValidNonce(request.requestNonce);
            var unused := spelled && request.requestNonce !in session.usedNonces;
            var within := unused && |session.usedNonces| < MAX_SESSION_NONCES;
            var known := within && Registration(session.keyId, request.origin) in t.registrations;
      && (event.result.error == OriginNotTrusted <==> open && !trusted)
      && (event.result.error == RequestStale <==> own && !recent)
      && (event.result.error == ScopeDenied <==> recent && !scoped)
      && (event.result.error == NonceInvalid <==> scoped && !spelled)
      && (event.result.error == RequestReplayed <==> spelled && !unused)
      && (event.result.error == RateLimited <==> unused && !within)
      && (event.result.error == RequestProofInvalid <==> known)
      && (event.result.error == SessionInvalid <==> !open || (trusted && !own) || (within && !known))
  {
    hide ValidNonce;
  }

  // ---------------------------------------------------------------- revocation

  /** Revoking ends exactly one session; revoking its key ends all and only what belongs to that key and origin. */
  lemma {:induction false} RevokesExactly(setup: Setup, t: Table, event: Event, t': Table)
    requires Steps(setup, t, event, t') && (event.call.Revoke? || event.call.RevokeKey?)
    ensures var s := event.call.sessionId;
      && (event.result == if s in t.sessions then Ok(s) else Err(SessionInvalid))
      && (s !in t.sessions ==> t' == t)
      && (s in t.sessions && event.call.Revoke? ==> t' == t.(sessions := t.sessions - {s}))
      && (s in t.sessions && event.call.RevokeKey? ==>
            var gone := Registration(t.sessions[s].keyId, t.sessions[s].origin);
            && (forall r :: r in t'.registrations <==> r in t.registrations && r != gone)
            && (forall c :: c in t'.challenges <==>
                  c in t.challenges && Registration(t.challenges[c].keyId, t.challenges[c].origin) != gone)
            && (forall c :: c in t'.challenges ==> t'.challenges[c] == t.challenges[c])
            && (forall o :: o in t'.sessions <==>
                  o in t.sessions && Registration(t.sessions[o].keyId, t.sessions[o].origin) != gone)
            && (forall o :: o in t'.sessions ==> t'.sessions[o] == t.sessions[o]))
  {
  }

  // ---------------------------------------------------------------- over whole runs

  /** The event opened this session, signed for under its key and origin. */
  predicate OpenedBy(setup: Setup, t: Table, event: Event, s: Id, session: Session) {
    && Opens(event) && event.result.value == s
    && Signed(setup, t, event.call.origin, event.call.challengeId, event.call.signature, event.now)
    && session.origin == event.call.origin && session.keyId == t.challenges[event.call.challengeId].keyId
    && session.scopes == setup.scopes && session.expiresAt == event.now + SESSION_TTL_MS
  }

  lemma {:induction false} StepOpens(setup: Setup, t: Table, event: Event, t': Table, s: Id)
    requires Inv(setup, t) && Steps(setup, t, event, t') && s in t'.sessions && s !in t.sessions
    ensures OpenedBy(setup, t, event, s, t'.sessions[s])
  {
    OnlyExchangeOpens(setup, t, event, t', s);
    OpenedExactly(setup, t, event, t');
    hide Inv, Steps, Signed;
    assert s == event.result.value;
  }

  lemma {:induction false} CreatingOpensNone(setup: Setup, t: Table, t': Table, origin: string, input: ChallengeInput,
      now: Time,
      result: Result<Id, SessionError>, s: Id)
    requires Challenged(setup, t, t', origin, input, now, result) && s in t'.sessions
    ensures s in t.sessions
  {
    hide Pending;
  }

  lemma {:induction false} VerifyingOpensNone(setup: Setup, t: Table, request: Request, now: Time, s: Id)
    requires s in Verify(setup, t, request, now).0.sessions
    ensures s in t.sessions
  {
    hide ValidNonce;
  }

  lemma {:induction false} RefusalOpensNone(setup: Setup, t: Table, origin: string, c: Id, signature: string, now: Time)
    requires Exchange(setup, t, origin, c, signature, now).1.Err?
    ensures Exchange(setup, t, origin, c, signature, now).0.sessions == t.sessions
  {
  }

  lemma {:induction false} OnlyExchangeOpens(setup: Setup, t: Table, event: Event, t': Table, s: Id)
    requires Steps(setup, t, event, t') && s in t'.sessions && s !in t.sessions
    ensures event.call.ExchangeChallenge? && event.result.Ok?
  {
    match event.call {
      case CreateChallenge(origin, input) =>
        CreatingOpensNone(setup, t, t', origin, input, event.now, event.result, s);
      case VerifyRequest(request) => VerifyingOpensNone(setup, t, request, event.now, s);
      case ExchangeChallenge(origin, c, signature) =>
        if event.result.Err? {
          RefusalOpensNone(setup, t, origin, c, signature, event.now);
        }
      case _ =>
    }
    hide Challenged, Verify, Exchange;
  }

  /** Main result: every session there ever is goes back to one exchange that was signed for under its key. */
  lemma {:induction false} SessionsGoBack(setup: Setup, run: Run, i: nat, s: Id) returns (j: nat)
    requires Runs(setup, run) && i < |run.tables| && s in run.tables[i].sessions
    ensures j < i && OpenedBy(setup, run.tables[j], run.events[j], s, run.tables[i].sessions[s])
    decreases i
  {
    hide Inv, Steps, OpenedBy;
    RunInv(setup, run, i - 1);
    if s in run.tables[i - 1].sessions {
      j := SessionsGoBack(setup, run, i - 1, s);
      StepFollows(setup, run.tables[i - 1], run.events[i - 1], run.tables[i], s);
      OpenedStays(setup, run.tables[j], run.events[j], s, run.tables[i - 1].sessions[s], run.tables[i].sessions[s]);
    } else {
      StepOpens(setup, run.tables[i - 1], run.events[i - 1], run.tables[i], s);
      j := i - 1;
    }
  }

  lemma {:induction false} OpenedStays(setup: Setup, t: Table, event: Event, s: Id, before: Session, after: Session)
    requires OpenedBy(setup, t, event, s, before) && after.(usedNonces := {}) == before.(usedNonces := {})
    ensures OpenedBy(setup, t, event, s, after)
  {
  }

  /** The event registered this key for this origin by opening a session. */
  predicate RegisteredBy(setup: Setup, t: Table, event: Event, registration: Registration) {
    && Opens(event)
    && Signed(setup, t, event.call.origin, event.call.challengeId, event.call.signature, event.now)
    && registration == Registration(t.challenges[event.call.challengeId].keyId, event.call.origin)
  }

  lemma {:induction false} StepRegisters(setup: Setup, t: Table, event: Event, t': Table, registration: Registration)
    requires Inv(setup, t) && Steps(setup, t, event, t')
    requires registration in t'.registrations && registration !in t.registrations
    ensures RegisteredBy(setup, t, event, registration)
  {
    hide ValidNonce, Pending, Inv;
    if event.call.ExchangeChallenge? {
      OpenedExactly(setup, t, event, t');
    }
  }

  /** Every registration was there at the start or goes back to such an exchange. */
  lemma {:induction false} RegistrationsGoBack(setup: Setup, run: Run, i: nat, registration: Registration)
    returns (j: nat)
    requires Runs(setup, run) && i < |run.tables| && registration in run.tables[i].registrations
    ensures registration in run.tables[0].registrations
         || (j < i && RegisteredBy(setup, run.tables[j], run.events[j], registration))
    decreases i
  {
    hide Inv, Steps, RegisteredBy;
    j := 0;
    if i > 0 {
      RunInv(setup, run, i - 1);
      if registration in run.tables[i - 1].registrations {
        j := RegistrationsGoBack(setup, run, i - 1, registration);
      } else {
        StepRegisters(setup, run.tables[i - 1], run.events[i - 1], run.tables[i], registration);
        j := i - 1;
      }
    }
  }

  /** The event handed out this challenge for its origin and key. */
  predicate IssuedBy(event: Event, c: Id, challenge: Challenge) {
    && event.call.CreateChallenge? && event.result == Ok(c)
    && challenge.origin == event.call.origin && Some(challenge.keyId) == AskedKey(event.call.input)
    && challenge.expiresAt == event.now + CHALLENGE_TTL_MS
  }

  lemma {:induction false} StepIssues(setup: Setup, t: Table, event: Event, t': Table, c: Id)
    requires Inv(setup, t) && Steps(setup, t, event, t') && c in t'.challenges
    ensures if c in t.challenges then t'.challenges[c] == t.challenges[c] else IssuedBy(event, c, t'.challenges[c])
  {
    hide ValidNonce, Inv;
    if event.call.CreateChallenge? {
      ChallengedExactly(setup, t, event, t');
      PruneDrops(t, event.now);
      hide Steps, Prune, Pending;
      var pruned := Prune(t, event.now);
      if c in pruned.challenges {
        assert t'.challenges[c] == pruned.challenges[c];
      }
    } else if event.call.ExchangeChallenge? {
      OpenedExactly(setup, t, event, t');
    }
  }

  /** And every challenge was handed out for its origin and key, CHALLENGE_TTL_MS before it expires. */
  lemma {:induction false} ChallengesGoBack(setup: Setup, run: Run, i: nat, c: Id) returns (j: nat)
    requires Runs(setup, run) && i < |run.tables| && c in run.tables[i].challenges
    ensures j < i && IssuedBy(run.events[j], c, run.tables[i].challenges[c])
    decreases i
  {
    hide Inv, Steps, IssuedBy;
    RunInv(setup, run, i - 1);
    StepIssues(setup, run.tables[i - 1], run.events[i - 1], run.tables[i], c);
    if c in run.tables[i - 1].challenges {
      j := ChallengesGoBack(setup, run, i - 1, c);
    } else {
      j := i - 1;
    }
  }
}
