/** What the updates of canvas-agent/src/dreamina-cli-arbiter.ts are for: what each of them answers and leaves in the
    file, and over runs that a holder who beats in time stays current and alone. */
module ArbiterLeases {
  import opened Wrappers
  import opened Arbiter

  /** The lease is this holder's and runs until `expiry` and no longer. */
  ghost predicate RunsUntil(state: State, requestId: RequestId, fenceEpoch: int, expiry: Time) {
    forall at: Time :: Current(state, requestId, fenceEpoch, at) <==> at < expiry
  }

  /** No lease is anybody's at any time. */
  ghost predicate Free(state: State) {
    forall requestId: RequestId, fenceEpoch: int, at: Time :: !Current(state, requestId, fenceEpoch, at)
  }

  predicate SameSession(before: State, after: State) {
    after.sessionEpoch == before.sessionEpoch && after.accountBinding == before.accountBinding
  }

  predicate SameLine(before: State, after: State) {
    after.queue == before.queue && after.nextTicket == before.nextTicket
      && after.nextFenceEpoch == before.nextFenceEpoch
  }

  /** The counters still have room for one more update. */
  predicate HasRoom(state: State) {
    && state.revision < MAX_SAFE_INTEGER && state.nextTicket < MAX_SAFE_INTEGER
    && state.nextFenceEpoch < MAX_SAFE_INTEGER && state.sessionEpoch < MAX_SAFE_INTEGER
  }

  /** In `before` the queue has this entry and it has not expired. */
  predicate Waits(before: State, requestId: RequestId, ticket: int, now: Time) {
    exists e :: e in before.queue && e.requestId == requestId && e.ticket == ticket && now < e.expiresAt
  }

  predicate LeaseLives(before: State, now: Time) {
    before.active.Some? && now < before.active.value.expiresAt
  }

  /** Nobody unexpired in the queue has a smaller ticket. */
  predicate IsNext(before: State, ticket: int, now: Time) {
    forall e :: e in before.queue && now < e.expiresAt ==> ticket <= e.ticket
  }

  /** The session is the one that was read, if any was. */
  predicate InSession(state: State, expected: Option<Session>) {
    expected == None || expected == Some(Session(state.sessionEpoch, state.accountBinding))
  }

  // ---------------------------------------------------------------- beating

  /** A heartbeat goes through exactly for the holder whose session is as expected, and then the lease runs until
      now + leaseMs and nothing else changes. */
  lemma {:induction false} BeatExtends(state: State, requestId: RequestId, fenceEpoch: int, expected: Option<Session>,
      now: Time,
      leaseMs: nat)
    requires ValidState(state) && HasRoom(state)
    ensures var result := Mutate(state, Heartbeat(requestId, fenceEpoch, expected), now, leaseMs);
      && (result.Ok? <==> Holds(state, requestId, fenceEpoch) && InSession(state, expected))
      && (result.Ok? ==>
            && RunsUntil(result.value, requestId, fenceEpoch, now + leaseMs)
            && SameSession(state, result.value) && SameLine(state, result.value))
      && (result.Err? ==> result.error == if Holds(state, requestId, fenceEpoch) then AccountChanged else Fenced)
  {
  }

  /** A release frees the lease of its holder, and changes nothing for anybody else. */
  lemma {:induction false} ReleaseFrees(state: State, requestId: RequestId, fenceEpoch: int, now: Time, leaseMs: nat)
    requires ValidState(state) && HasRoom(state)
    ensures var result := Mutate(state, Release(requestId, fenceEpoch), now, leaseMs);
      && result.Ok? && SameSession(state, result.value) && SameLine(state, result.value)
      && (if Holds(state, requestId, fenceEpoch) then Free(result.value) else result.value.active == state.active)
  {
  }

  // ---------------------------------------------------------------- sessions

  /** A session is committed exactly under an unexpired lease of this fence: the binding is then the given one, and the
      epoch rises by one exactly if it was another. */
  lemma {:induction false} CommitBinds(state: State, fenceEpoch: int, binding: Option<string>, now: Time, leaseMs: nat)
    requires ValidState(state) && HasRoom(state)
    ensures var result := Mutate(state, CommitSession(fenceEpoch, binding), now, leaseMs);
      && (result.Ok? <==> LeaseLives(state, now) && state.active.value.fenceEpoch == fenceEpoch)
      && (result.Ok? ==>
            && result.value.accountBinding == binding && result.value.active == state.active
            && SameLine(state, result.value)
            && result.value.sessionEpoch - state.sessionEpoch == if state.accountBinding == binding then 0 else 1)
      && (result.Err? ==> result.error == Fenced)
  {
  }

  /** Advancing forgets the account and always raises the epoch, so that no session read before is expected any more. */
  lemma {:induction false} AdvanceForgets(state: State, fenceEpoch: int, now: Time, leaseMs: nat)
    requires ValidState(state) && HasRoom(state)
    ensures var result := Mutate(state, AdvanceSession(fenceEpoch), now, leaseMs);
      && (result.Ok? <==> LeaseLives(state, now) && state.active.value.fenceEpoch == fenceEpoch)
      && (result.Ok? ==>
            && result.value.accountBinding == None && result.value.sessionEpoch == state.sessionEpoch + 1
            && result.value.active == state.active && SameLine(state, result.value)
            && forall read: Session :: InSession(state, Some(read)) ==> !InSession(result.value, Some(read)))
      && (result.Err? ==> result.error == Fenced)
  {
  }

  // ---------------------------------------------------------------- waiting and granting

  lemma {:induction false} PrunedMembers(state: State, now: Time)
    requires ValidState(state)
    ensures ValidState(Prune(state, now)) && DistinctQueue(Prune(state, now).queue)
    ensures forall e :: e in Prune(state, now).queue <==> e in state.queue && now < e.expiresAt
  {
    PruneFacts(state, now);
  }

  lemma {:induction false} QueuedExactly(state: State, requestId: RequestId, ticket: int, now: Time)
    requires ValidState(state)
    ensures Queued(Prune(state, now).queue, requestId, ticket) <==> Waits(state, requestId, ticket, now)
  {
    PrunedMembers(state, now);
    var queue := Prune(state, now).queue;
    hide Prune, ValidState;
    if Waits(state, requestId, ticket, now) {
      var e :| e in state.queue && e.requestId == requestId && e.ticket == ticket && now < e.expiresAt;
      assert e in queue;
    }
    if Queued(queue, requestId, ticket) {
      var i :| 0 <= i < |queue| && queue[i].requestId == requestId && queue[i].ticket == ticket;
      assert queue[i] in state.queue;
    }
  }

  /** In a queue of distinct tickets the first in line is whoever has the smallest. */
  lemma {:induction false} FirstHasSmallest(queue: seq<QueueEntry>, requestId: RequestId, ticket: int)
    requires DistinctQueue(queue) && Queued(queue, requestId, ticket)
    ensures FirstInLine(queue, requestId) <==> forall e :: e in queue ==> ticket <= e.ticket
  {
    if FirstInLine(queue, requestId) {
      FirstIsSmallest(queue, requestId, ticket);
    } else if forall e :: e in queue ==> ticket <= e.ticket {
      SmallestIsFirst(queue, requestId, ticket);
    }
  }

  lemma {:induction false} SmallestIsFirst(queue: seq<QueueEntry>, requestId: RequestId, ticket: int)
    requires DistinctQueue(queue) && Queued(queue, requestId, ticket) && forall e :: e in queue ==> ticket <= e.ticket
    ensures FirstInLine(queue, requestId)
  {
    var i :| 0 <= i < |queue| && queue[i].requestId == requestId && queue[i].ticket == ticket;
    forall j | 0 <= j < |queue|
      ensures queue[i].ticket <= queue[j].ticket && (j < i ==> queue[i].ticket != queue[j].ticket)
    {
      assert queue[j] in queue;
    }
    hide DistinctQueue;
  }

  lemma {:induction false} FirstExactly(state: State, requestId: RequestId, ticket: int, now: Time)
    requires ValidState(state) && Waits(state, requestId, ticket, now)
    ensures FirstInLine(Prune(state, now).queue, requestId) <==> IsNext(state, ticket, now)
  {
    PrunedMembers(state, now);
    QueuedExactly(state, requestId, ticket, now);
    FirstHasSmallest(Prune(state, now).queue, requestId, ticket);
    hide Prune, ValidState, Waits, FirstInLine, DistinctQueue, Queued;
  }

  /** What an attempt to be granted comes to. */
  datatype Answer = Gone | Waiting | Refused | Granted

  /** A request that is not waiting any more is turned away. Otherwise it waits while a lease lives or a smaller ticket
      waits, is refused if the session is not the expected one, and is granted in every other case. */
  function Answered(state: State, requestId: RequestId, ticket: int, expected: Option<Session>, now: Time): Answer {
    if !Waits(state, requestId, ticket, now) then Gone
    else if LeaseLives(state, now) || !IsNext(state, ticket, now) then Waiting
    else if !InSession(state, expected) then Refused
    else Granted
  }

  /** Nothing has changed but what had expired. */
  ghost predicate WaitedOn(state: State, now: Time, after: State) {
    && SameSession(state, after) && after.nextTicket == state.nextTicket
    && after.nextFenceEpoch == state.nextFenceEpoch
    && after.active == (if LeaseLives(state, now) then state.active else None)
    && forall e :: e in after.queue <==> e in state.queue && now < e.expiresAt
  }

  /** The request has the lease until `expiry`, under a fence never issued before, and has left the queue. */
  ghost predicate GrantedTo(state: State, requestId: RequestId, now: Time, expiry: Time, after: State) {
    && SameSession(state, after) && after.nextTicket == state.nextTicket
    && after.nextFenceEpoch == state.nextFenceEpoch + 1
    && RunsUntil(after, requestId, state.nextFenceEpoch, expiry)
    && forall e :: e in after.queue <==> e in state.queue && now < e.expiresAt && e.requestId != requestId
  }

  lemma {:induction false} PruningWaits(state: State, now: Time)
    requires ValidState(state) && HasRoom(state)
    ensures var pruned := Prune(state, now); var after := pruned.(revision := pruned.revision + 1);
      ValidState(after) && WaitedOn(state, now, after)
  {
    PrunedMembers(state, now);
    PrunedFields(state, now);
    GrantedValid(Prune(state, now), 0, now, 0);
    hide Prune, ValidState, DistinctQueue;
  }

  lemma {:induction false} MutateWrites(state: State, step: Step, now: Time, leaseMs: nat, updated: State)
    requires Update(state, step, now, leaseMs) == Ok(updated) && ValidState(updated.(revision := updated.revision + 1))
    ensures Mutate(state, step, now, leaseMs) == Ok(updated.(revision := updated.revision + 1))
  {
    hide Update, ValidState;
  }

  lemma {:induction false} WaitingAnswers(state: State, requestId: RequestId, ticket: int, expected: Option<Session>,
      now: Time,
      leaseMs: nat)
    requires ValidState(state) && HasRoom(state) && Waits(state, requestId, ticket, now)
    requires LeaseLives(state, now) || !IsNext(state, ticket, now)
    ensures var result := Mutate(state, TryGrant(requestId, ticket, expected), now, leaseMs);
      result.Ok? && WaitedOn(state, now, result.value)
  {
    var pruned, step := Prune(state, now), TryGrant(requestId, ticket, expected);
    QueuedExactly(state, requestId, ticket, now);
    FirstExactly(state, requestId, ticket, now);
    PrunedFields(state, now);
    PruningWaits(state, now);
    hide Prune, Queued, FirstInLine, IsNext, Waits, ValidState, Expects, Update, WaitedOn, Mutate, HasRoom;
    assert pruned.active.Some? || !FirstInLine(pruned.queue, requestId);
    assert Update(state, step, now, leaseMs) == Ok(pruned) by {
      UpdateTries(state, requestId, ticket, expected, now, leaseMs);
    }
    MutateWrites(state, step, now, leaseMs, pruned);
  }

  /** The pruned state with the lease given to the request. */
  function WithLease(pruned: State, requestId: RequestId, expiry: Time): State {
    pruned.(revision := pruned.revision + 1, nextFenceEpoch := pruned.nextFenceEpoch + 1,
            queue := Filter(pruned.queue, Other(requestId)),
            active := Some(Lease(requestId, pruned.nextFenceEpoch, expiry)))
  }

  lemma {:induction false} LeasingGrants(state: State, requestId: RequestId, now: Time, leaseMs: nat)
    requires ValidState(state) && HasRoom(state)
    ensures var after := WithLease(Prune(state, now), requestId, now + leaseMs);
      ValidState(after) && GrantedTo(state, requestId, now, now + leaseMs, after)
  {
    PrunedMembers(state, now);
    PrunedFields(state, now);
    OtherFacts(Prune(state, now).queue, requestId);
    GrantedValid(Prune(state, now), requestId, now, leaseMs);
    hide Prune, Filter, DistinctQueue, ValidState;
  }

  lemma {:induction false} GrantAnswers(state: State, requestId: RequestId, ticket: int, expected: Option<Session>,
      now: Time,
      leaseMs: nat)
    requires ValidState(state) && HasRoom(state) && Waits(state, requestId, ticket, now)
    requires !LeaseLives(state, now) && IsNext(state, ticket, now)
    ensures var result := Mutate(state, TryGrant(requestId, ticket, expected), now, leaseMs);
      if InSession(state, expected) then result.Ok? && GrantedTo(state, requestId, now, now + leaseMs, result.value)
      else result == Err(AccountChanged)
  {
    QueuedExactly(state, requestId, ticket, now);
    FirstExactly(state, requestId, ticket, now);
    UpdateTries(state, requestId, ticket, expected, now, leaseMs);
    PrunedFields(state, now);
    LeasingGrants(state, requestId, now, leaseMs);
    hide Prune, Queued, FirstInLine, Filter, IsNext, Waits, ValidState, Update, GrantedTo;
  }

  lemma {:induction false} GoneAnswers(state: State, requestId: RequestId, ticket: int, expected: Option<Session>,
      now: Time,
      leaseMs: nat)
    requires ValidState(state) && !Waits(state, requestId, ticket, now)
    ensures Mutate(state, TryGrant(requestId, ticket, expected), now, leaseMs) == Err(Busy)
  {
    QueuedExactly(state, requestId, ticket, now);
    hide Prune, Queued, Waits;
  }

  /** A grant gives the lease until now + leaseMs under a fence never issued before; a request that has to wait finds
      the file with nothing changed but what had expired. */
  lemma {:induction false} GrantsExactly(state: State, requestId: RequestId, ticket: int, expected: Option<Session>,
      now: Time,
      leaseMs: nat)
    requires ValidState(state) && HasRoom(state)
    ensures var result := Mutate(state, TryGrant(requestId, ticket, expected), now, leaseMs);
      match Answered(state, requestId, ticket, expected, now)
      case Gone => result == Err(Busy)
      case Refused => result == Err(AccountChanged)
      case Waiting => result.Ok? && WaitedOn(state, now, result.value)
      case Granted => result.Ok? && GrantedTo(state, requestId, now, now + leaseMs, result.value)
  {
    match Answered(state, requestId, ticket, expected, now) {
      case Gone => GoneAnswers(state, requestId, ticket, expected, now, leaseMs);
      case Waiting => WaitingAnswers(state, requestId, ticket, expected, now, leaseMs);
      case _ => GrantAnswers(state, requestId, ticket, expected, now, leaseMs);
    }
  }

  /** The three ways out of the update for a request that waits. */
  lemma {:induction false} UpdateTries(state: State, requestId: RequestId, ticket: int, expected: Option<Session>,
      now: Time,
      leaseMs: nat)
    requires Queued(Prune(state, now).queue, requestId, ticket)
    ensures var (pruned, result) :=
        (Prune(state, now), Update(state, TryGrant(requestId, ticket, expected), now, leaseMs));
      && (pruned.active.Some? || !FirstInLine(pruned.queue, requestId) ==> result == Ok(pruned))
      && (pruned.active.None? && FirstInLine(pruned.queue, requestId) ==>
            && (!Expects(pruned, expected) ==> result == Err(AccountChanged))
            && (Expects(pruned, expected) ==>
                  result == Ok(pruned.(nextFenceEpoch := pruned.nextFenceEpoch + 1,
                                       queue := Filter(pruned.queue, Other(requestId)),
                                       active := Some(Lease(requestId, pruned.nextFenceEpoch, now + leaseMs))))))
  {
    hide Prune, Queued, FirstInLine, Filter;
  }

  lemma {:induction false} PrunedFields(state: State, now: Time)
    ensures var pruned := Prune(state, now);
      && SameSession(state, pruned) && pruned.revision == state.revision && pruned.nextTicket == state.nextTicket
      && pruned.nextFenceEpoch == state.nextFenceEpoch
      && pruned.active == if LeaseLives(state, now) then state.active else None
  {
  }

  lemma {:induction false} GrantedValid(pruned: State, requestId: RequestId, now: Time, leaseMs: nat)
    requires ValidState(pruned) && HasRoom(pruned)
    ensures ValidState(pruned.(revision := pruned.revision + 1))
    ensures ValidState(pruned.(revision := pruned.revision + 1, nextFenceEpoch := pruned.nextFenceEpoch + 1,
                               queue := Filter(pruned.queue, Other(requestId)),
                               active := Some(Lease(requestId, pruned.nextFenceEpoch, now + leaseMs))))
  {
    OtherFacts(pruned.queue, requestId);
    var rest := Filter(pruned.queue, Other(requestId));
    forall i | 0 <= i < |rest| ensures SafeInteger(rest[i].ticket, 1) {
      assert rest[i] in pruned.queue;
    }
  }

  /** The entries that have not expired. */
  function Waiters(state: State, now: Time): seq<QueueEntry> {
    Prune(state, now).queue
  }

  /** A new request is turned away exactly when the queue is full of unexpired ones; otherwise it waits behind all of
      them, with the next ticket and until its deadline. */
  lemma {:induction false} EnqueueWaits(state: State, requestId: RequestId, deadline: Time, now: Time, leaseMs: nat)
    requires ValidState(state) && HasRoom(state)
    requires forall e :: e in state.queue ==> e.requestId != requestId && e.ticket < state.nextTicket
    ensures var result := Mutate(state, Step.Enqueue(requestId, deadline), now, leaseMs);
      && (result.Ok? <==> |Waiters(state, now)| < MAX_QUEUE)
      && (result.Err? ==> result.error == Busy)
      && (result.Ok? ==>
            && SameSession(state, result.value) && result.value.nextFenceEpoch == state.nextFenceEpoch
            && result.value.nextTicket == state.nextTicket + 1
            && result.value.active == (if LeaseLives(state, now) then state.active else None)
            && (forall at: Time ::
                  Waits(result.value, requestId, state.nextTicket, at) <==> at < deadline)
            && (forall e :: e in result.value.queue <==>
                  || (e in state.queue && now < e.expiresAt)
                  || e == QueueEntry(requestId, state.nextTicket, deadline)))
  {
    PrunedMembers(state, now);
    PrunedFields(state, now);
    var pruned, entry := Prune(state, now), QueueEntry(requestId, state.nextTicket, deadline);
    assert forall e :: e in pruned.queue + [entry] <==> e in pruned.queue || e == entry;
    assert forall i :: 0 <= i < |pruned.queue| ==> pruned.queue[i] in state.queue;
    hide Prune;
  }

  /** Withdrawing takes the request, and nobody else, out of the queue. */
  lemma {:induction false} WithdrawLeaves(state: State, requestId: RequestId, now: Time, leaseMs: nat)
    requires ValidState(state) && HasRoom(state)
    ensures var result := Mutate(state, Withdraw(requestId), now, leaseMs);
      && result.Ok? && SameSession(state, result.value) && result.value.active == state.active
      && result.value.nextTicket == state.nextTicket && result.value.nextFenceEpoch == state.nextFenceEpoch
      && forall e :: e in result.value.queue <==> e in state.queue && e.requestId != requestId
  {
    OtherFacts(state.queue, requestId);
    var rest := Filter(state.queue, Other(requestId));
    forall i | 0 <= i < |rest| ensures SafeInteger(rest[i].ticket, 1) {
      assert rest[i] in state.queue;
    }
  }

  // ---------------------------------------------------------------- over whole runs

  /** Any steps of any processes, one after the other. */
  predicate Follow(run: seq<System>, steps: seq<Option<Step>>) {
    |run| == |steps| + 1 && forall i :: 0 <= i < |steps| ==> Next(run[i], steps[i], run[i + 1])
  }

  /** The lease is this holder's and lives at least until `expiry`. */
  predicate Keeps(s: System, requestId: RequestId, fenceEpoch: int, expiry: Time) {
    Holds(s.state, requestId, fenceEpoch) && expiry <= s.state.active.value.expiresAt && expiry <= s.now + s.leaseMs
  }

  /** The step is a grant of this lease or a beat of its holder. */
  predicate Renews(s: System, step: Option<Step>, requestId: RequestId, fenceEpoch: int) {
    && step.Some?
    && (|| (Grants(s.state, step.value, s.now) && step.value.requestId == requestId
            && fenceEpoch == s.state.nextFenceEpoch)
        || (step.value.Heartbeat? && step.value.requestId == requestId && step.value.fenceEpoch == fenceEpoch))
  }

  lemma {:induction false} RenewingKeeps(s: System, step: Option<Step>, t: System, requestId: RequestId,
      fenceEpoch: int)
    requires Next(s, step, t) && Renews(s, step, requestId, fenceEpoch)
    ensures Keeps(t, requestId, fenceEpoch, s.now + s.leaseMs)
  {
    hide ValidState, FirstInLine, Departures, Tickets;
  }

  lemma {:induction false} StepKeepsLease(s: System, step: Option<Step>, t: System, requestId: RequestId,
      fenceEpoch: int, expiry: Time)
    requires Next(s, step, t) && Keeps(s, requestId, fenceEpoch, expiry)
    requires s.now < expiry && step != Some(Release(requestId, fenceEpoch))
    ensures Keeps(t, requestId, fenceEpoch, expiry) && t.grants == s.grants
  {
    hide ValidState, FirstInLine, Departures, Tickets;
  }

  /** Main result: a holder whose last grant or beat went through less than leaseMs ago, and who has not released, is
      still current whatever everybody else did, and nobody else was granted anything meanwhile. */
  lemma {:induction false} HolderStaysCurrent(run: seq<System>, steps: seq<Option<Step>>, i: nat, j: nat,
      requestId: RequestId, fenceEpoch: int)
    requires Follow(run, steps) && i < j < |run| && Renews(run[i], steps[i], requestId, fenceEpoch)
    requires run[j].now < run[i].now + run[i].leaseMs
    requires forall k :: i < k < j ==> steps[k] != Some(Release(requestId, fenceEpoch))
    ensures Current(run[j].state, requestId, fenceEpoch, run[j].now)
    ensures Keeps(run[j], requestId, fenceEpoch, run[i].now + run[i].leaseMs)
    ensures run[j].grants == run[i + 1].grants && run[j].leaseMs == run[i].leaseMs
    decreases j
  {
    hide Next, Renews;
    if j == i + 1 {
      RenewingKeeps(run[i], steps[i], run[j], requestId, fenceEpoch);
      ClockOnward(run[i], steps[i], run[j]);
    } else {
      ClockOnward(run[j - 1], steps[j - 1], run[j]);
      HolderStaysCurrent(run, steps, i, j - 1, requestId, fenceEpoch);
      StepKeepsLease(run[j - 1], steps[j - 1], run[j], requestId, fenceEpoch, run[i].now + run[i].leaseMs);
    }
  }

  lemma {:induction false} ClockOnward(s: System, step: Option<Step>, t: System)
    requires Next(s, step, t)
    ensures s.now <= t.now && t.leaseMs == s.leaseMs
  {
    hide Mutate, Grants;
  }

  // ---------------------------------------------------------------- which of two files is the later one

  /** Recovery refuses a file in place of another exactly if it has given out less, or has another account in the same
      session. */
  lemma {:induction false} RefusedExactly(previous: State, current: State)
    ensures !Progresses(previous, current) <==>
      || current.nextTicket < previous.nextTicket || current.nextFenceEpoch < previous.nextFenceEpoch
      || current.sessionEpoch < previous.sessionEpoch
      || (current.sessionEpoch == previous.sessionEpoch && current.accountBinding != previous.accountBinding)
  {
  }

  /** Over any run every later state is taken for the successor of every earlier one. */
  lemma {:induction false} RunProgresses(run: seq<System>, steps: seq<Option<Step>>, i: nat, j: nat)
    requires Follow(run, steps) && i <= j < |run|
    ensures Progresses(run[i].state, run[j].state) && run[i].state.revision <= run[j].state.revision
    decreases j
  {
    if i < j {
      RunProgresses(run, steps, i, j - 1);
      StepProgresses(run[j - 1], steps[j - 1], run[j]);
    }
    hide Next;
  }

  lemma {:induction false} StepProgresses(s: System, step: Option<Step>, t: System)
    requires Next(s, step, t)
    ensures Progresses(s.state, t.state) && s.state.revision <= t.state.revision
  {
    if step.Some? {
      MutateProgresses(s.state, step.value, s.now, s.leaseMs);
    }
    hide Mutate, Grants, Departures, Tickets, Progresses;
  }

  /** And an earlier one is taken for the successor of a later one, but for its revision, exactly if between them nobody
      queued, nobody was granted a lease, and the session stayed. */
  lemma {:induction false} OlderRefusedExactly(run: seq<System>, steps: seq<Option<Step>>, i: nat, j: nat)
    requires Follow(run, steps) && i <= j < |run|
    ensures
      var (older, later) := (run[i].state, run[j].state);
      Progresses(later, older) <==>
        && later.nextTicket == older.nextTicket && later.nextFenceEpoch == older.nextFenceEpoch
        && later.sessionEpoch == older.sessionEpoch
  {
    RunProgresses(run, steps, i, j);
  }
}
