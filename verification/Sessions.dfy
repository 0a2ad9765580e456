/** The signed-session table of canvas-agent/src/local-runtime-session.ts: challenges, sessions with their used
    nonces, and the browser registrations behind them. */
module Sessions {
  import opened Wrappers

  type Time = int
  /** A freshly drawn random identifier, numbered in the order of drawing. */
  type Id = nat
  /** A browser's public key; its hash, the key id, is taken to be injective and so represented by the key. */
  type Key = nat
  type Scope = string

  const CHALLENGE_TTL_MS: int := 60000
  const SESSION_TTL_MS: int := 600000
  const REQUEST_CLOCK_SKEW_MS: int := 30000
  const MAX_SESSION_NONCES: nat := 2048
  const MAX_PENDING_CHALLENGES: nat := 64

  datatype Registration = Registration(keyId: Key, origin: string)
  datatype Challenge = Challenge(nonce: Id, origin: string, keyId: Key, expiresAt: Time)
  datatype Session = Session(keyId: Key, origin: string, scopes: set<Scope>, expiresAt: Time, usedNonces: set<string>)

  datatype Table = Table(registrations: seq<Registration>, challenges: map<Id, Challenge>, sessions: map<Id,
      Session>, nextId: Id)

  /** What is signed. */
  datatype Payload =
    | ChallengePayload(challengeId: Id, nonce: Id, origin: string, expiresAt: Time)
    | RequestPayload(sessionId: Id, keyId: Key, request: string, origin: string, requestNonce: string, timestamp: int,
      sessionExpiresAt: Time)

  /** Endpoint and instance are constants of every payload; `verifies` is the signature check. */
  datatype Setup = Setup(trustedOrigins: set<string>, scopes: set<Scope>, verifies: (Key, Payload, string) -> bool)

  datatype SessionError =
    | OriginNotTrusted | PublicKeyInvalid | RegistrationNotFound | RateLimited | ChallengeInvalid
    | ChallengeProofInvalid | SessionInvalid | RequestStale | ScopeDenied | NonceInvalid | RequestReplayed
    | RequestProofInvalid

  /** A malformed public key is None. */
  datatype ChallengeInput = PublicKey(key: Option<Key>) | KeyId(keyId: Key)

  datatype Request = Request(sessionId: Id, origin: string, request: string, requestNonce: string, timestamp: int,
      proof: string, scope: Scope)

  function Found(registrations: seq<Registration>, origin: string, keyId: Key): bool {
    Registration(keyId, origin) in registrations
  }

  /** At least 22 characters of the URL alphabet, which is at least 16 bytes. */
  predicate ValidNonce(nonce: string) {
    |nonce| >= 22 && forall c ::
      c in nonce ==> 'A' <= c <= 'Z' || 'a' <= c <= 'z' || '0' <= c <= '9' || c == '_' || c == '-'
  }

  // ---------------------------------------------------------------- what each call does to the table

  function Prune(t: Table, now: Time): Table {
    t.(challenges := map c | c in t.challenges && t.challenges[c].expiresAt > now :: t.challenges[c],
       sessions := map s | s in t.sessions && t.sessions[s].expiresAt > now :: t.sessions[s])
  }

  predicate Pending(t: Table, c: Id, origin: string, key: Key, now: Time) {
    c in t.challenges && t.challenges[c].origin == origin && t.challenges[c].keyId == key
      && t.challenges[c].expiresAt > now
  }

  /** createSignedChallenge; it draws an id and a nonce. */
  function Issue(t: Table, origin: string, key: Key, now: Time): (r: (Table, Result<Id, SessionError>)) {
    if |t.challenges| >= MAX_PENDING_CHALLENGES then (t, Err(RateLimited))
    else (t.(challenges := t.challenges[t.nextId := Challenge(t.nextId + 1, origin, key, now + CHALLENGE_TTL_MS)],
      nextId := t.nextId + 2),
          Ok(t.nextId))
  }

  /** createChallenge: a pending challenge of an unregistered key is handed out again. */
  ghost predicate Challenged(setup: Setup, t: Table, t': Table, origin: string, input: ChallengeInput, now: Time,
      r: Result<Id, SessionError>) {
    if origin !in setup.trustedOrigins then t' == t && r == Err(OriginNotTrusted)
    else
      var pruned := Prune(t, now);
      match input
      case PublicKey(None) => t' == pruned && r == Err(PublicKeyInvalid)
      case PublicKey(Some(key)) =>
        if !Found(t.registrations, origin, key) && exists c :: Pending(pruned, c, origin, key, now)
        then t' == pruned && r.Ok? && Pending(pruned, r.value, origin, key, now)
        else (t', r) == Issue(pruned, origin, key, now)
      case KeyId(key) =>
        if !Found(t.registrations, origin, key) then t' == pruned && r == Err(RegistrationNotFound)
        else (t', r) == Issue(pruned, origin, key, now)
  }

  function Exchange(setup: Setup, t: Table, origin: string, challengeId: Id, signature: string,
      now: Time): (r: (Table, Result<Id, SessionError>)) {
    if origin !in setup.trustedOrigins then (t, Err(OriginNotTrusted))
    else if challengeId !in t.challenges then (t, Err(ChallengeInvalid))
    else
      var challenge := t.challenges[challengeId];
      var spent := t.(challenges := t.challenges - {challengeId});
      if challenge.expiresAt <= now || challenge.origin != origin then (spent, Err(ChallengeInvalid))
      else if !setup.verifies(challenge.keyId,
        ChallengePayload(challengeId, challenge.nonce, origin, challenge.expiresAt), signature)
      then (spent, Err(ChallengeProofInvalid))
      else
        var registrations := if Found(t.registrations, origin, challenge.keyId) then t.registrations
                             else t.registrations + [Registration(challenge.keyId, origin)];
        var session := Session(challenge.keyId, origin, setup.scopes, now + SESSION_TTL_MS, {});
        (spent.(registrations := registrations, sessions := t.sessions[t.nextId := session], nextId := t.nextId + 1),
          Ok(t.nextId))
  }

  function RequestProof(t: Table, request: Request): Payload
    requires request.sessionId in t.sessions
  {
    var session := t.sessions[request.sessionId];
    RequestPayload(request.sessionId, session.keyId, request.request, request.origin, request.requestNonce,
      request.timestamp, session.expiresAt)
  }

  function Verify(setup: Setup, t: Table, request: Request, now: Time): (r: (Table, Result<Id, SessionError>)) {
    if request.sessionId !in t.sessions then (t, Err(SessionInvalid))
    else
      var session := t.sessions[request.sessionId];
      var without := t.(sessions := t.sessions - {request.sessionId});
      if session.expiresAt <= now then (without, Err(SessionInvalid))
      else if request.origin !in setup.trustedOrigins then (t, Err(OriginNotTrusted))
      else if session.origin != request.origin then (t, Err(SessionInvalid))
      else if now - request.timestamp > REQUEST_CLOCK_SKEW_MS || request.timestamp - now > REQUEST_CLOCK_SKEW_MS
        then (t, Err(RequestStale))
      else if request.scope !in session.scopes then (t, Err(ScopeDenied))
      else if !ValidNonce(request.requestNonce) then (t, Err(NonceInvalid))
      else if request.requestNonce in session.usedNonces then (t, Err(RequestReplayed))
      else if |session.usedNonces| >= MAX_SESSION_NONCES then (t, Err(RateLimited))
      else if !Found(t.registrations, request.origin, session.keyId) then (without, Err(SessionInvalid))
      else if !setup.verifies(session.keyId, RequestProof(t, request), request.proof) then (t, Err(RequestProofInvalid))
      else
        (t.(sessions :=
          t.sessions[request.sessionId := session.(usedNonces := session.usedNonces + {request.requestNonce})]),
         Ok(request.sessionId))
  }

  function RevokeSession(t: Table, sessionId: Id): (r: (Table, Result<Id, SessionError>)) {
    if sessionId !in t.sessions then (t, Err(SessionInvalid))
      else (t.(sessions := t.sessions - {sessionId}), Ok(sessionId))
  }

  function Unregister(registrations: seq<Registration>, gone: Registration): (r: seq<Registration>)
    ensures forall x :: x in r <==> x in registrations && x != gone
  {
    if registrations == [] then []
    else
      var front := Unregister(registrations[..|registrations| - 1], gone);
      assert forall x ::
        x in registrations <==> x in registrations[..|registrations| - 1] || x == registrations[|registrations| - 1];
      if registrations[|registrations| - 1] == gone then front else front + [registrations[|registrations| - 1]]
  }

  function Revoked(t: Table, keyId: Key, origin: string): Table {
    t.(registrations := Unregister(t.registrations, Registration(keyId, origin)),
       challenges := map c | c in t.challenges
         && !(t.challenges[c].keyId == keyId && t.challenges[c].origin == origin) :: t.challenges[c],
       sessions := map s | s in t.sessions && !(t.sessions[s].keyId == keyId && t.sessions[s].origin == origin) ::
         t.sessions[s])
  }

  function RevokeRegistration(t: Table, sessionId: Id): (r: (Table, Result<Id, SessionError>)) {
    if sessionId !in t.sessions then (t, Err(SessionInvalid))
    else (Revoked(t, t.sessions[sessionId].keyId, t.sessions[sessionId].origin), Ok(sessionId))
  }

  // ---------------------------------------------------------------- runs

  datatype Call =
    | CreateChallenge(origin: string, input: ChallengeInput)
    | ExchangeChallenge(origin: string, challengeId: Id, signature: string)
    | VerifyRequest(request: Request)
    | Revoke(sessionId: Id)
    | RevokeKey(sessionId: Id)
    | TimerFires(sessionId: Id)
    | Dispose

  datatype Event = Event(call: Call, now: Time, result: Result<Id, SessionError>)

  ghost predicate Steps(setup: Setup, t: Table, event: Event, t': Table) {
    match event.call
    case CreateChallenge(origin, input) => Challenged(setup, t, t', origin, input, event.now, event.result)
    case ExchangeChallenge(origin, challengeId, signature) =>
        (t', event.result) == Exchange(setup, t, origin, challengeId, signature, event.now)
    case VerifyRequest(request) => (t', event.result) == Verify(setup, t, request, event.now)
    case Revoke(sessionId) => (t', event.result) == RevokeSession(t, sessionId)
    case RevokeKey(sessionId) => (t', event.result) == RevokeRegistration(t, sessionId)
    case TimerFires(sessionId) => t' == t.(sessions := t.sessions - {sessionId})
    case Dispose => t' == t.(challenges := map[], sessions := map[])
  }

  datatype Run = Run(tables: seq<Table>, events: seq<Event>)

  predicate Empty(t: Table) {
    t.challenges == map[] && t.sessions == map[]
  }

  /** From an empty table with any registrations; no clock is assumed to be monotone. */
  ghost predicate Runs(setup: Setup, run: Run) {
    && |run.tables| == |run.events| + 1 && Empty(run.tables[0])
    && forall i :: 0 <= i < |run.events| ==> Steps(setup, run.tables[i], run.events[i], run.tables[i + 1])
  }

  /** Identifiers in use were drawn, limits are kept, and what is held is for trusted origins. */
  predicate Inv(setup: Setup, t: Table) {
    && (forall c :: c in t.challenges ==> c < t.nextId && t.challenges[c].origin in setup.trustedOrigins)
    && (forall s :: s in t.sessions ==>
          && s < t.nextId && t.sessions[s].origin in setup.trustedOrigins
          && |t.sessions[s].usedNonces| <= MAX_SESSION_NONCES
          && forall n :: n in t.sessions[s].usedNonces ==> ValidNonce(n))
    && |t.challenges| <= MAX_PENDING_CHALLENGES
  }

  lemma {:induction false} FewerChallenges(a: map<Id, Challenge>, b: map<Id, Challenge>)
    requires b.Keys <= a.Keys
    ensures |b| <= |a|
  {
    SubsetCount(b.Keys, a.Keys);
  }

  lemma {:induction false} SubsetCount(a: set<Id>, b: set<Id>)
    requires a <= b
    ensures |a| <= |b|
    decreases |a|
  {
    if a != {} {
      var x :| x in a;
      SubsetCount(a - {x}, b - {x});
    }
  }

  lemma {:induction false} CreateKeeps(setup: Setup, t: Table, t': Table, origin: string, input: ChallengeInput,
      now: Time,
      r: Result<Id, SessionError>)
    requires Inv(setup, t) && Challenged(setup, t, t', origin, input, now, r)
    ensures Inv(setup, t') && t.nextId <= t'.nextId
  {
    hide ValidNonce;
    var pruned := Prune(t, now);
    FewerChallenges(t.challenges, pruned.challenges);
    assert Inv(setup, pruned);
    hide Prune;
    if t' != pruned && t' != t {
      assert |t'.challenges| <= |pruned.challenges| + 1;
    }
  }

  lemma {:induction false} ExchangeKeeps(setup: Setup, t: Table, origin: string, challengeId: Id, signature: string,
      now: Time)
    requires Inv(setup, t)
    ensures var t' := Exchange(setup, t, origin, challengeId, signature, now).0; Inv(setup, t') && t.nextId <= t'.nextId
  {
    hide ValidNonce;
    FewerChallenges(t.challenges, t.challenges - {challengeId});
  }

  lemma {:induction false} VerifyKeeps(setup: Setup, t: Table, request: Request, now: Time)
    requires Inv(setup, t)
    ensures var t' := Verify(setup, t, request, now).0; Inv(setup, t') && t.nextId == t'.nextId
  {
    hide ValidNonce;
  }

  lemma {:induction false} RemovalKeeps(setup: Setup, t: Table, t': Table)
    requires Inv(setup, t) && t'.nextId == t.nextId
    requires forall c :: c in t'.challenges ==> c in t.challenges && t'.challenges[c] == t.challenges[c]
    requires forall s :: s in t'.sessions ==> s in t.sessions && t'.sessions[s] == t.sessions[s]
    ensures Inv(setup, t')
  {
    hide ValidNonce;
    FewerChallenges(t.challenges, t'.challenges);
  }

  lemma {:induction false} StepKeeps(setup: Setup, t: Table, event: Event, t': Table)
    requires Inv(setup, t) && Steps(setup, t, event, t')
    ensures Inv(setup, t') && t.nextId <= t'.nextId
  {
    hide Inv, Challenged, Exchange, Verify;
    match event.call {
      case CreateChallenge(origin, input) => CreateKeeps(setup, t, t', origin, input, event.now, event.result);
      case ExchangeChallenge(origin, challengeId, signature) =>
          ExchangeKeeps(setup, t, origin, challengeId, signature, event.now);
      case VerifyRequest(request) => VerifyKeeps(setup, t, request, event.now);
      case _ => RemovalKeeps(setup, t, t');
    }
  }

  lemma {:induction false} RunInv(setup: Setup, run: Run, i: nat)
    requires Runs(setup, run) && i < |run.tables|
    ensures Inv(setup, run.tables[i])
    decreases i
  {
    hide Inv, Steps;
    if i == 0 {
      EmptyInv(setup, run.tables[0]);
    } else {
      RunInv(setup, run, i - 1);
      StepKeeps(setup, run.tables[i - 1], run.events[i - 1], run.tables[i]);
    }
  }

  lemma {:induction false} EmptyInv(setup: Setup, t: Table)
    requires Empty(t)
    ensures Inv(setup, t)
  {
  }

  /** A session id that has been drawn and is not in use is never used again. */
  predicate Over(t: Table, s: Id) {
    s < t.nextId && s !in t.sessions
  }

  /** The session keeps its key, origin, scopes and expiry, and forgets no nonce. */
  predicate SessionFollows(t: Table, t': Table, s: Id) {
    s in t.sessions && s in t'.sessions ==>
      && t'.sessions[s].(usedNonces := {}) == t.sessions[s].(usedNonces := {})
      && t.sessions[s].usedNonces <= t'.sessions[s].usedNonces
  }

  lemma {:induction false} OpenedFollows(setup: Setup, t: Table, event: Event, t': Table, s: Id)
    requires Inv(setup, t) && Steps(setup, t, event, t')
    requires event.call.CreateChallenge? || event.call.ExchangeChallenge?
    ensures SessionFollows(t, t', s) && (Over(t, s) ==> Over(t', s))
  {
    hide ValidNonce, Pending;
  }

  lemma {:induction false} VerifiedFollows(setup: Setup, t: Table, request: Request, now: Time, s: Id)
    requires Inv(setup, t)
    ensures var t' := Verify(setup, t, request, now).0; SessionFollows(t, t', s) && (Over(t, s) ==> Over(t', s))
  {
    hide ValidNonce;
  }

  lemma {:induction false} StepFollows(setup: Setup, t: Table, event: Event, t': Table, s: Id)
    requires Inv(setup, t) && Steps(setup, t, event, t')
    ensures SessionFollows(t, t', s) && (Over(t, s) ==> Over(t', s))
  {
    hide Inv, Challenged, Exchange, Verify;
    if event.call.CreateChallenge? || event.call.ExchangeChallenge? {
      OpenedFollows(setup, t, event, t', s);
    } else if event.call.VerifyRequest? {
      VerifiedFollows(setup, t, event.call.request, event.now, s);
    }
  }

  lemma {:induction false} OverStays(setup: Setup, run: Run, i: nat, j: nat, s: Id)
    requires Runs(setup, run) && i <= j < |run.tables| && Over(run.tables[i], s)
    ensures Over(run.tables[j], s)
    decreases j
  {
    hide Inv, Steps, Over;
    if i < j {
      OverStays(setup, run, i, j - 1, s);
      RunInv(setup, run, j - 1);
      StepFollows(setup, run.tables[j - 1], run.events[j - 1], run.tables[j], s);
    }
  }

  lemma {:induction false} SessionStays(setup: Setup, run: Run, i: nat, j: nat, s: Id)
    requires Runs(setup, run) && i <= j < |run.tables| && s in run.tables[i].sessions && s in run.tables[j].sessions
    ensures SessionFollows(run.tables[i], run.tables[j], s)
    decreases j
  {
    hide Inv, Steps;
    if i < j {
      RunInv(setup, run, j - 1);
      StepFollows(setup, run.tables[j - 1], run.events[j - 1], run.tables[j], s);
      if s !in run.tables[j - 1].sessions {
        RunInv(setup, run, i);
        DrawnBefore(setup, run, i, j - 1, s);
      }
      SessionStays(setup, run, i, j - 1, s);
    }
  }

  lemma {:induction false} DrawnBefore(setup: Setup, run: Run, i: nat, j: nat, s: Id)
    requires Runs(setup, run) && i <= j < |run.tables| && s in run.tables[i].sessions
    ensures s < run.tables[j].nextId
    decreases j
  {
    RunInv(setup, run, i);
    if i < j {
      DrawnBefore(setup, run, i, j - 1, s);
      RunInv(setup, run, j - 1);
      hide Inv, Steps;
      StepKeeps(setup, run.tables[j - 1], run.events[j - 1], run.tables[j]);
    }
  }

  // ---------------------------------------------------------------- what is promised

  predicate Passes(event: Event) {
    event.call.VerifyRequest? && event.result.Ok?
  }

  /** Everything an accepted request was checked against. */
  lemma {:induction false} PassedRequest(setup: Setup, t: Table, event: Event, t': Table)
    requires Inv(setup, t) && Steps(setup, t, event, t') && Passes(event)
    ensures var request := event.call.request;
      && request.sessionId in t.sessions
      && var session := t.sessions[request.sessionId];
      && session.origin == request.origin && request.origin in setup.trustedOrigins
      && session.expiresAt > event.now
        && -REQUEST_CLOCK_SKEW_MS <= event.now - request.timestamp <= REQUEST_CLOCK_SKEW_MS
      && request.scope in session.scopes && Found(t.registrations, request.origin, session.keyId)
      && request.requestNonce !in session.usedNonces
      && setup.verifies(session.keyId, RequestProof(t, request), request.proof)
      && request.sessionId in t'.sessions && request.requestNonce in t'.sessions[request.sessionId].usedNonces
  {
    hide ValidNonce;
  }

  /** Main result: over any run, one session accepts one nonce at most once. */
  lemma {:induction false} NonceAcceptedOnce(setup: Setup, run: Run, i: nat, j: nat)
    requires Runs(setup, run) && i < j < |run.events| && Passes(run.events[i]) && Passes(run.events[j])
    requires run.events[i].call.request.sessionId == run.events[j].call.request.sessionId
    ensures run.events[i].call.request.requestNonce != run.events[j].call.request.requestNonce
  {
    var s := run.events[i].call.request.sessionId;
    RunInv(setup, run, i);
    RunInv(setup, run, j);
    assert Steps(setup, run.tables[i], run.events[i], run.tables[i + 1]);
    assert Steps(setup, run.tables[j], run.events[j], run.tables[j + 1]);
    hide Inv, Steps, Runs;
    PassedRequest(setup, run.tables[i], run.events[i], run.tables[i + 1]);
    PassedRequest(setup, run.tables[j], run.events[j], run.tables[j + 1]);
    SessionStays(setup, run, i + 1, j, s);
  }

  /** No request on a session passes at or after the expiry it was opened with, whatever happened in between. */
  lemma {:induction false} ExpiredSessionRefused(setup: Setup, run: Run, i: nat, j: nat, s: Id)
    requires Runs(setup, run) && i <= j < |run.events|
    requires s in run.tables[i].sessions && run.tables[i].sessions[s].expiresAt <= run.events[j].now
    ensures !(Passes(run.events[j]) && run.events[j].call.request.sessionId == s)
  {
    RunInv(setup, run, j);
    assert Steps(setup, run.tables[j], run.events[j], run.tables[j + 1]);
    if Passes(run.events[j]) {
      hide Inv, Steps, Runs;
      PassedRequest(setup, run.tables[j], run.events[j], run.tables[j + 1]);
      if s in run.tables[j].sessions {
        SessionStays(setup, run, i, j, s);
      }
    }
  }

  predicate ClockRises(run: Run) {
    forall i, j :: 0 <= i < j < |run.events| ==> run.events[i].now <= run.events[j].now
  }

  /** While the clock never steps back, a session that was found expired once is refused for good, still in the
      table or not. */
  lemma {:induction false} ExpiredForGood(setup: Setup, run: Run, i: nat, k: nat, j: nat, s: Id)
    requires Runs(setup, run) && ClockRises(run) && i <= k <= j < |run.events|
    requires s in run.tables[i].sessions && run.tables[i].sessions[s].expiresAt <= run.events[k].now
    ensures !(Passes(run.events[j]) && run.events[j].call.request.sessionId == s)
  {
    hide Runs;
    ExpiredSessionRefused(setup, run, i, j, s);
  }

  /** Once a session is out of the table, by revocation, disposal, its timer, or a request that found it expired,
      no request on it is ever accepted again. */
  lemma {:induction false} GoneSessionRefused(setup: Setup, run: Run, i: nat, j: nat, s: Id)
    requires Runs(setup, run) && i <= j < |run.events| && Over(run.tables[i], s)
    ensures !(Passes(run.events[j]) && run.events[j].call.request.sessionId == s)
  {
    OverStays(setup, run, i, j, s);
    RunInv(setup, run, j);
    assert Steps(setup, run.tables[j], run.events[j], run.tables[j + 1]);
    if Passes(run.events[j]) {
      hide Inv, Steps, Runs;
      PassedRequest(setup, run.tables[j], run.events[j], run.tables[j + 1]);
    }
  }

  /** Revoking a registration ends every session of that key and origin at once, and drops its challenges. */
  lemma {:induction false} RevokedKeyRefused(setup: Setup, run: Run, i: nat, j: nat, s: Id)
    requires Runs(setup, run) && i < j < |run.events|
    requires run.events[i].call.RevokeKey? && run.events[i].result.Ok?
    requires run.events[i].call.sessionId in run.tables[i].sessions
    requires s in run.tables[i].sessions
    requires var revoked := run.tables[i].sessions[run.events[i].call.sessionId];
      run.tables[i].sessions[s].keyId == revoked.keyId && run.tables[i].sessions[s].origin == revoked.origin
    ensures !(Passes(run.events[j]) && run.events[j].call.request.sessionId == s)
  {
    RunInv(setup, run, i);
    assert Steps(setup, run.tables[i], run.events[i], run.tables[i + 1]);
    assert Over(run.tables[i + 1], s);
    GoneSessionRefused(setup, run, i + 1, j, s);
  }

  predicate Opens(event: Event) {
    event.call.ExchangeChallenge? && event.result.Ok?
  }

  lemma {:induction false} StepSpends(setup: Setup, t: Table, event: Event, t': Table, c: Id)
    requires Inv(setup, t) && Steps(setup, t, event, t')
    ensures c < t.nextId && c !in t.challenges ==> c < t'.nextId && c !in t'.challenges
    ensures event.call.ExchangeChallenge? && event.call.challengeId == c && event.result.Ok? ==>
              c in t.challenges && c < t.nextId && c !in t'.challenges && event.result.value == t.nextId
  {
    hide ValidNonce;
  }

  lemma {:induction false} SpentStays(setup: Setup, run: Run, i: nat, j: nat, c: Id)
    requires Runs(setup, run) && i <= j < |run.tables| && c < run.tables[i].nextId && c !in run.tables[i].challenges
    ensures c < run.tables[j].nextId && c !in run.tables[j].challenges
    decreases j
  {
    hide Inv, Steps;
    if i < j {
      SpentStays(setup, run, i, j - 1, c);
      RunInv(setup, run, j - 1);
      StepSpends(setup, run.tables[j - 1], run.events[j - 1], run.tables[j], c);
    }
  }

  /** A challenge opens at most one session. */
  lemma {:induction false} ChallengeOpensOnce(setup: Setup, run: Run, i: nat, j: nat)
    requires Runs(setup, run) && i < j < |run.events| && Opens(run.events[i]) && Opens(run.events[j])
    ensures run.events[i].call.challengeId != run.events[j].call.challengeId
  {
    var c := run.events[i].call.challengeId;
    RunInv(setup, run, i);
    RunInv(setup, run, j);
    assert Steps(setup, run.tables[i], run.events[i], run.tables[i + 1]);
    assert Steps(setup, run.tables[j], run.events[j], run.tables[j + 1]);
    hide Inv, Steps, Runs;
    StepKeeps(setup, run.tables[i], run.events[i], run.tables[i + 1]);
    StepSpends(setup, run.tables[i], run.events[i], run.tables[i + 1], c);
    SpentStays(setup, run, i + 1, j, c);
    StepSpends(setup, run.tables[j], run.events[j], run.tables[j + 1], run.events[j].call.challengeId);
  }

  // ---------------------------------------------------------------- the manager

  class LocalRuntimeSessionManager {
    const setup: Setup
    var registrations: seq<Registration>
    var challenges: map<Id, Challenge>
    var sessions: map<Id, Session>
    var nextId: Id

    constructor (setup: Setup, registrations: seq<Registration>)
      ensures this.setup == setup && Empty(State()) && this.registrations == registrations
    {
      this.setup := setup;
      this.registrations := registrations;
      challenges, sessions, nextId := map[], map[], 0;
    }

    function State(): Table
      reads this
    {
      Table(registrations, challenges, sessions, nextId)
    }

    method PruneExpired(now: Time)
      modifies this
      ensures State() == Prune(old(State()), now)
    {
      var pending := challenges.Keys;
      while pending != {}
        invariant pending <= old(challenges).Keys && sessions == old(sessions) && registrations == old(registrations)
        invariant nextId == old(nextId)
        invariant forall c ::
            c in challenges <==> c in old(challenges) && (c in pending || old(challenges)[c].expiresAt > now)
        invariant forall c :: c in challenges ==> challenges[c] == old(challenges)[c]
        decreases pending
      {
        var c :| c in pending;
        pending := pending - {c};
        if challenges[c].expiresAt <= now {
          challenges := challenges - {c};
        }
      }
      assert challenges == Prune(old(State()), now).challenges;
      var open := sessions.Keys;
      while open != {}
        invariant open <= old(sessions).Keys && challenges == Prune(old(State()), now).challenges
        invariant registrations == old(registrations) && nextId == old(nextId)
        invariant forall s :: s in sessions <==> s in old(sessions) && (s in open || old(sessions)[s].expiresAt > now)
        invariant forall s :: s in sessions ==> sessions[s] == old(sessions)[s]
        decreases open
      {
        var s :| s in open;
        open := open - {s};
        if sessions[s].expiresAt <= now {
          sessions := sessions - {s};
        }
      }
      assert sessions == Prune(old(State()), now).sessions;
    }

    method CreateSignedChallenge(origin: string, key: Key, now: Time) returns (r: Result<Id, SessionError>)
      modifies this
      ensures (State(), r) == Issue(old(State()), origin, key, now)
    {
      if |challenges| >= MAX_PENDING_CHALLENGES {
        return Err(RateLimited);
      }
      var id, nonce := nextId, nextId + 1;
      nextId := nextId + 2;
      challenges := challenges[id := Challenge(nonce, origin, key, now + CHALLENGE_TTL_MS)];
      return Ok(id);
    }

    method CreateChallenge(origin: string, input: ChallengeInput, now: Time) returns (r: Result<Id, SessionError>)
      modifies this
      ensures Challenged(setup, old(State()), State(), origin, input, now, r)
    {
      if origin !in setup.trustedOrigins {
        return Err(OriginNotTrusted);
      }
      PruneExpired(now);
      if input.PublicKey? {
        if input.key.None? {
          return Err(PublicKeyInvalid);
        }
        var key := input.key.value;
        if !Found(registrations, origin, key) && exists c :: c in challenges && Pending(State(), c, origin, key, now) {
          var c :| c in challenges && Pending(State(), c, origin, key, now);
          return Ok(c);
        }
        r := CreateSignedChallenge(origin, key, now);
      } else {
        if !Found(registrations, origin, input.keyId) {
          return Err(RegistrationNotFound);
        }
        r := CreateSignedChallenge(origin, input.keyId, now);
      }
    }

    method ExchangeChallenge(origin: string, challengeId: Id, signature: string, now: Time) returns (r: Result<Id,
        SessionError>)
      modifies this
      ensures (State(), r) == Exchange(setup, old(State()), origin, challengeId, signature, now)
    {
      if origin !in setup.trustedOrigins {
        return Err(OriginNotTrusted);
      }
      if challengeId !in challenges {
        return Err(ChallengeInvalid);
      }
      var challenge := challenges[challengeId];
      challenges := challenges - {challengeId};
      if challenge.expiresAt <= now || challenge.origin != origin {
        return Err(ChallengeInvalid);
      }
      if !setup.verifies(challenge.keyId, ChallengePayload(challengeId, challenge.nonce, origin, challenge.expiresAt),
        signature) {
        return Err(ChallengeProofInvalid);
      }
      if !Found(registrations, origin, challenge.keyId) {
        registrations := registrations + [Registration(challenge.keyId, origin)];
      }
      var id := nextId;
      nextId := nextId + 1;
      sessions := sessions[id := Session(challenge.keyId, origin, setup.scopes, now + SESSION_TTL_MS, {})];
      return Ok(id);
    }

    method VerifyRequest(request: Request, now: Time) returns (r: Result<Id, SessionError>)
      modifies this
      ensures (State(), r) == Verify(setup, old(State()), request, now)
    {
      if request.sessionId !in sessions {
        return Err(SessionInvalid);
      }
      var session := sessions[request.sessionId];
      if session.expiresAt <= now {
        sessions := sessions - {request.sessionId};
        return Err(SessionInvalid);
      }
      if request.origin !in setup.trustedOrigins {
        return Err(OriginNotTrusted);
      }
      if session.origin != request.origin {
        return Err(SessionInvalid);
      }
      if now - request.timestamp > REQUEST_CLOCK_SKEW_MS || request.timestamp - now > REQUEST_CLOCK_SKEW_MS {
        return Err(RequestStale);
      }
      if request.scope !in session.scopes {
        return Err(ScopeDenied);
      }
      if !ValidNonce(request.requestNonce) {
        return Err(NonceInvalid);
      }
      if request.requestNonce in session.usedNonces {
        return Err(RequestReplayed);
      }
      if |session.usedNonces| >= MAX_SESSION_NONCES {
        return Err(RateLimited);
      }
      if !Found(registrations, request.origin, session.keyId) {
        sessions := sessions - {request.sessionId};
        return Err(SessionInvalid);
      }
      if !setup.verifies(session.keyId, RequestProof(State(), request), request.proof) {
        return Err(RequestProofInvalid);
      }
      sessions := sessions[request.sessionId := session.(usedNonces := session.usedNonces + {request.requestNonce})];
      return Ok(request.sessionId);
    }

    method RevokeOne(sessionId: Id) returns (r: Result<Id, SessionError>)
      modifies this
      ensures (State(), r) == RevokeSession(old(State()), sessionId)
    {
      if sessionId !in sessions {
        return Err(SessionInvalid);
      }
      sessions := sessions - {sessionId};
      return Ok(sessionId);
    }

    /** revokeRegistration: three loops, over registrations, challenges and sessions. */
    method RevokeKey(sessionId: Id) returns (r: Result<Id, SessionError>)
      modifies this
      ensures (State(), r) == RevokeRegistration(old(State()), sessionId)
    {
      if sessionId !in sessions {
        return Err(SessionInvalid);
      }
      var keyId, origin := sessions[sessionId].keyId, sessions[sessionId].origin;
      registrations := Unregister(registrations, Registration(keyId, origin));
      var pending := challenges.Keys;
      while pending != {}
        invariant pending <= old(challenges).Keys && sessions == old(sessions) && nextId == old(nextId)
        invariant registrations == Unregister(old(registrations), Registration(keyId, origin))
        invariant forall c :: c in challenges <==>
          c in old(challenges)
            && (c in pending || !(old(challenges)[c].keyId == keyId && old(challenges)[c].origin == origin))
        invariant forall c :: c in challenges ==> challenges[c] == old(challenges)[c]
        decreases pending
      {
        var c :| c in pending;
        pending := pending - {c};
        if challenges[c].keyId == keyId && challenges[c].origin == origin {
          challenges := challenges - {c};
        }
      }
      assert challenges == Revoked(old(State()), keyId, origin).challenges;
      var open := sessions.Keys;
      while open != {}
        invariant open <= old(sessions).Keys && challenges == Revoked(old(State()), keyId, origin).challenges
        invariant nextId == old(nextId)
        invariant registrations == Unregister(old(registrations), Registration(keyId, origin))
        invariant forall s :: s in sessions <==>
          s in old(sessions) && (s in open || !(old(sessions)[s].keyId == keyId && old(sessions)[s].origin == origin))
        invariant forall s :: s in sessions ==> sessions[s] == old(sessions)[s]
        decreases open
      {
        var s :| s in open;
        open := open - {s};
        if sessions[s].keyId == keyId && sessions[s].origin == origin {
          sessions := sessions - {s};
        }
      }
      assert sessions == Revoked(old(State()), keyId, origin).sessions;
      return Ok(sessionId);
    }
  }
}
