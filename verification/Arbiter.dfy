/** The cross-process CLI arbiter of canvas-agent/src/dreamina-cli-arbiter.ts: a ticket queue, one fenced
    lease, and the account session it protects, kept in one state file. */
module Arbiter {
  import opened Wrappers

  type Time = int
  /** A freshly generated request UUID, numbered in the order of generation. */
  type RequestId = nat

  datatype Session = Session(epoch: int, accountBinding: Option<string>)
  datatype QueueEntry = QueueEntry(requestId: RequestId, ticket: int, expiresAt: Time)
  datatype Lease = Lease(requestId: RequestId, fenceEpoch: int, expiresAt: Time)

  datatype State = State(
    revision: int,
    nextTicket: int,
    nextFenceEpoch: int,
    sessionEpoch: int,
    accountBinding: Option<string>,
    queue: seq<QueueEntry>,
    active: Option<Lease>)

  const EMPTY: State := State(0, 1, 1, 0, None, [], None)
  const MAX_QUEUE: nat := 1000

  datatype ArbiterError = Busy | Fenced | AccountChanged | Invalid

  predicate SafeInteger(value: int, low: int) {
    low <= value <= MAX_SAFE_INTEGER
  }

  /** validState; the field formats are not represented. */
  predicate ValidState(state: State) {
    && SafeInteger(state.revision, 0) && SafeInteger(state.nextTicket, 1)
    && SafeInteger(state.nextFenceEpoch, 1) && SafeInteger(state.sessionEpoch, 0)
    && |state.queue| <= MAX_QUEUE
    && (forall i :: 0 <= i < |state.queue| ==> SafeInteger(state.queue[i].ticket, 1))
    && (forall i, j :: 0 <= i < j < |state.queue| ==>
          state.queue[i].requestId != state.queue[j].requestId && state.queue[i].ticket != state.queue[j].ticket)
    && (state.active.Some? ==> SafeInteger(state.active.value.fenceEpoch, 1))
  }

  // ---------------------------------------------------------------- updates

  /** The entries of `queue` that satisfy `keep`, in order: Array.prototype.filter. */
  function Filter(queue: seq<QueueEntry>, keep: QueueEntry -> bool): (kept: seq<QueueEntry>)
    ensures |kept| <= |queue|
  {
    if queue == [] then [] else (if keep(queue[0]) then [queue[0]] else []) + Filter(queue[1..], keep)
  }

  function Unexpired(now: Time): QueueEntry -> bool {
    (entry: QueueEntry) => now < entry.expiresAt
  }

  function Other(requestId: RequestId): QueueEntry -> bool {
    (entry: QueueEntry) => entry.requestId != requestId
  }

  /** pruneExpired. */
  function Prune(state: State, now: Time): State {
    state.(queue := Filter(state.queue, Unexpired(now)),
           active := if state.active.Some? && state.active.value.expiresAt <= now then None else state.active)
  }

  predicate Expects(state: State, expected: Option<Session>) {
    expected.Some? ==>
      state.sessionEpoch == expected.value.epoch && state.accountBinding == expected.value.accountBinding
  }

  predicate Holds(state: State, requestId: RequestId, fenceEpoch: int) {
    state.active.Some? && state.active.value.requestId == requestId && state.active.value.fenceEpoch == fenceEpoch
  }

  /** assertLeaseState. */
  predicate LeaseCurrent(state: State, fenceEpoch: int, now: Time) {
    state.active.Some? && state.active.value.fenceEpoch == fenceEpoch && now < state.active.value.expiresAt
  }

  /** What assertCurrent reads. */
  predicate Current(state: State, requestId: RequestId, fenceEpoch: int, now: Time) {
    Holds(state, requestId, fenceEpoch) && now < state.active.value.expiresAt
  }

  predicate Queued(queue: seq<QueueEntry>, requestId: RequestId, ticket: int) {
    exists i :: 0 <= i < |queue| && queue[i].requestId == requestId && queue[i].ticket == ticket
  }

  /** The entry with the smallest ticket belongs to `requestId`. */
  predicate FirstInLine(queue: seq<QueueEntry>, requestId: RequestId) {
    exists i :: 0 <= i < |queue| && queue[i].requestId == requestId &&
      (forall j :: 0 <= j < i ==> queue[i].ticket < queue[j].ticket) &&
      (forall j :: i < j < |queue| ==> queue[i].ticket <= queue[j].ticket)
  }

  /** One read-modify-write of the state file. Waiting is a TryGrant that grants nothing. */
  datatype Step =
    | Enqueue(requestId: RequestId, deadline: Time)
    | TryGrant(requestId: RequestId, ticket: int, expected: Option<Session>)
    | CommitSession(fenceEpoch: int, binding: Option<string>)
    | AdvanceSession(fenceEpoch: int)
    | Heartbeat(requestId: RequestId, fenceEpoch: int, expected: Option<Session>)
    | Release(requestId: RequestId, fenceEpoch: int)
    | Withdraw(requestId: RequestId)

  /** The request gets the lease on the pruned state. */
  predicate Granting(pruned: State, requestId: RequestId) {
    pruned.active.None? && FirstInLine(pruned.queue, requestId)
  }

  /** The update callback handed to mutate. */
  function Update(state: State, step: Step, now: Time, leaseMs: nat): Result<State, ArbiterError> {
    match step
    case Enqueue(requestId, deadline) =>
      var pruned := Prune(state, now);
      if |pruned.queue| >= MAX_QUEUE then Err(Busy)
      else Ok(pruned.(nextTicket := pruned.nextTicket + 1,
                      queue := pruned.queue + [QueueEntry(requestId, pruned.nextTicket, deadline)]))
    case TryGrant(requestId, ticket, expected) =>
      var pruned := Prune(state, now);
      if !Queued(pruned.queue, requestId, ticket) then Err(Busy)
      else if !Granting(pruned, requestId) then Ok(pruned)
      else if !Expects(pruned, expected) then Err(AccountChanged)
      else Ok(pruned.(nextFenceEpoch := pruned.nextFenceEpoch + 1, queue := Filter(pruned.queue, Other(requestId)),
                      active := Some(Lease(requestId, pruned.nextFenceEpoch, now + leaseMs))))
    case CommitSession(fenceEpoch, binding) =>
      if !LeaseCurrent(state, fenceEpoch, now) then Err(Fenced)
      else if state.accountBinding == binding then Ok(state)
      else Ok(state.(sessionEpoch := state.sessionEpoch + 1, accountBinding := binding))
    case AdvanceSession(fenceEpoch) =>
      if !LeaseCurrent(state, fenceEpoch, now) then Err(Fenced)
      else Ok(state.(sessionEpoch := state.sessionEpoch + 1, accountBinding := None))
    case Heartbeat(requestId, fenceEpoch, expected) =>
      if !Holds(state, requestId, fenceEpoch) then Err(Fenced)
      else if !Expects(state, expected) then Err(AccountChanged)
      else Ok(state.(active := Some(Lease(requestId, fenceEpoch, now + leaseMs))))
    case Release(requestId, fenceEpoch) =>
      Ok(if Holds(state, requestId, fenceEpoch) then state.(active := None) else state)
    case Withdraw(requestId) => Ok(state.(queue := Filter(state.queue, Other(requestId))))
  }

  /** mutate: a thrown update, or a state validState rejects, leaves the file alone. */
  function Mutate(state: State, step: Step, now: Time, leaseMs: nat): Result<State, ArbiterError> {
    match Update(state, step, now, leaseMs)
    case Err(e) => Err(e)
    case Ok(updated) =>
      var next := updated.(revision := updated.revision + 1);
      if ValidState(next) then Ok(next) else Err(Invalid)
  }

  // ---------------------------------------------------------------- queue facts

  lemma {:induction false} FilterMembers(queue: seq<QueueEntry>, keep: QueueEntry -> bool)
    ensures forall e :: e in Filter(queue, keep) <==> e in queue && keep(e)
  {
    if queue != [] {
      FilterMembers(queue[1..], keep);
      assert queue == [queue[0]] + queue[1..];
    }
  }

  predicate DistinctQueue(queue: seq<QueueEntry>) {
    forall i, j :: 0 <= i < j < |queue| ==>
      queue[i].requestId != queue[j].requestId && queue[i].ticket != queue[j].ticket
  }

  lemma {:induction false} FilterDistinct(queue: seq<QueueEntry>, keep: QueueEntry -> bool)
    requires DistinctQueue(queue)
    ensures DistinctQueue(Filter(queue, keep))
  {
    if queue != [] {
      FilterDistinct(queue[1..], keep);
      FilterMembers(queue[1..], keep);
      var rest := Filter(queue[1..], keep);
      forall j | 0 <= j < |rest| ensures rest[j].requestId != queue[0].requestId && rest[j].ticket != queue[0].ticket {
        assert rest[j] in queue[1..];
      }
    }
  }

  // ---------------------------------------------------------------- the system of arbiters

  datatype Grant = Grant(requestId: RequestId, ticket: int, fenceEpoch: int)
  datatype Fate = WasGranted | HasExpired | WasWithdrawn

  /** The file, the clock, and what happened so far: all leases granted, in order, and what became of every
      ticket that ever stood in the queue. */
  datatype System = System(
    state: State, now: Time, nextRequest: RequestId, grants: seq<Grant>, issued: set<int>, fates: map<int, Fate>,
      leaseMs: nat)

  function Tickets(queue: seq<QueueEntry>): set<int> {
    set e | e in queue :: e.ticket
  }

  /** The tickets that left the queue in a step, with the reason. */
  function Departures(before: State, step: Step, now: Time, after: State): map<int, Fate> {
    map t | t in Tickets(before.queue) && t !in Tickets(after.queue) ::
      if (step.Enqueue? || step.TryGrant?) && t !in Tickets(Prune(before, now).queue) then HasExpired
      else if step.TryGrant? then WasGranted
      else WasWithdrawn
  }

  predicate Grants(before: State, step: Step, now: Time) {
    step.TryGrant? && Granting(Prune(before, now), step.requestId)
  }

  /** Time passes, or some process's mutate goes through; refused mutates change nothing. */
  predicate Next(s: System, step: Option<Step>, t: System) {
    match step
    case None => s.now <= t.now && t == s.(now := t.now)
    case Some(act) =>
      && Mutate(s.state, act, s.now, s.leaseMs).Ok?
      && (act.Enqueue? ==> act.requestId == s.nextRequest)
      && var after := Mutate(s.state, act, s.now, s.leaseMs).value;
         t == s.(state := after,
                 nextRequest := if act.Enqueue? then s.nextRequest + 1 else s.nextRequest,
                 grants := if Grants(s.state, act, s.now)
                           then s.grants + [Grant(act.requestId, act.ticket, after.active.value.fenceEpoch)]
                             else s.grants,
                 issued := s.issued + Tickets(after.queue),
                 fates := s.fates + Departures(s.state, act, s.now, after))
  }

  /** Everything queued was numbered and ticketed before. */
  predicate QueueInv(s: System) {
    forall e :: e in s.state.queue ==> e.requestId < s.nextRequest && e.ticket < s.state.nextTicket
  }

  /** Every ticket ever queued is still queued or has met its fate, never both. */
  predicate FateInv(s: System) {
    && (forall t :: t in s.issued + Tickets(s.state.queue) ==>
          t in s.issued && t < s.state.nextTicket && (t in Tickets(s.state.queue) <==> t !in s.fates))
    && (forall t :: t in s.fates ==> t in s.issued)
  }

  /** Fences and tickets of the grants only rise, and stay below all that is still to come. */
  predicate GrantInv(s: System) {
    && (forall i :: 0 <= i < |s.grants| ==>
          && s.grants[i].fenceEpoch < s.state.nextFenceEpoch && s.grants[i].ticket < s.state.nextTicket
          && forall e :: e in s.state.queue ==> s.grants[i].ticket < e.ticket)
    && (forall i, j :: 0 <= i < j < |s.grants| ==>
          s.grants[i].fenceEpoch < s.grants[j].fenceEpoch && s.grants[i].ticket < s.grants[j].ticket)
  }

  /** The lease in the file is the last one granted. */
  predicate ActiveInv(s: System) {
    s.state.active.Some? ==>
      && s.grants != []
      && var last := s.grants[|s.grants| - 1];
         last.requestId == s.state.active.value.requestId && last.fenceEpoch == s.state.active.value.fenceEpoch
  }

  predicate Inv(s: System) {
    ValidState(s.state) && QueueInv(s) && FateInv(s) && GrantInv(s) && ActiveInv(s)
  }

  /** Any valid file whose counters are above what it has issued; a lease found in it counts as granted first. */
  predicate Init(s: System) {
    && ValidState(s.state)
    && (forall e :: e in s.state.queue ==> e.requestId < s.nextRequest && e.ticket < s.state.nextTicket)
    && (s.state.active.Some? ==> s.state.active.value.fenceEpoch < s.state.nextFenceEpoch)
    && s.grants == (if s.state.active.None? then []
                    else [Grant(s.state.active.value.requestId, 0, s.state.active.value.fenceEpoch)])
    && s.issued == Tickets(s.state.queue) && s.fates == map[]
  }

  lemma {:induction false} PruneFacts(state: State, now: Time)
    requires ValidState(state)
    ensures ValidState(Prune(state, now))
    ensures forall e :: e in Prune(state, now).queue <==> e in state.queue && now < e.expiresAt
  {
    FilterMembers(state.queue, Unexpired(now));
    FilterDistinct(state.queue, Unexpired(now));
    var kept := Filter(state.queue, Unexpired(now));
    forall i | 0 <= i < |kept| ensures SafeInteger(kept[i].ticket, 1) {
      assert kept[i] in state.queue;
    }
  }

  lemma {:induction false} OtherFacts(queue: seq<QueueEntry>, requestId: RequestId)
    requires DistinctQueue(queue)
    ensures DistinctQueue(Filter(queue, Other(requestId)))
    ensures forall e :: e in Filter(queue, Other(requestId)) <==> e in queue && e.requestId != requestId
  {
    FilterMembers(queue, Other(requestId));
    FilterDistinct(queue, Other(requestId));
  }

  /** Who is first in line has the smallest ticket, and it is the ticket it was queued with. */
  lemma {:induction false} FirstIsSmallest(queue: seq<QueueEntry>, requestId: RequestId, ticket: int)
    requires DistinctQueue(queue) && Queued(queue, requestId, ticket) && FirstInLine(queue, requestId)
    ensures forall e :: e in queue && e.requestId != requestId ==> ticket < e.ticket
    ensures forall e :: e in queue && e.requestId == requestId ==> e.ticket == ticket
  {
  }

  lemma {:induction false} InitInv(s: System)
    requires Init(s)
    ensures Inv(s)
  {
  }

  /** Departing tickets are recorded; an arriving one is new. */
  lemma {:induction false} FatesKeep(s: System, act: Step, t: System)
    requires FateInv(s) && s.state.nextTicket <= t.state.nextTicket
    requires t.issued == s.issued + Tickets(t.state.queue)
    requires t.fates == s.fates + Departures(s.state, act, s.now, t.state)
    requires forall e :: e in t.state.queue ==>
      e in s.state.queue || (s.state.nextTicket <= e.ticket < t.state.nextTicket && e.ticket !in s.fates)
    ensures FateInv(t)
  {
    hide Departures;
    forall x | x in t.fates ensures x in t.issued {
      DepartureKeys(s.state, act, s.now, t.state, x);
    }
    forall x | x in t.issued
      ensures x < t.state.nextTicket && (x in Tickets(t.state.queue) <==> x !in t.fates)
    {
      DepartureKeys(s.state, act, s.now, t.state, x);
      if x in s.issued {
        assert x in Tickets(s.state.queue) <==> x !in s.fates;
      }
    }
  }

  lemma {:induction false} DepartureKeys(before: State, act: Step, now: Time, after: State, ticket: int)
    ensures ticket in Departures(before, act, now, after) <==>
              ticket in Tickets(before.queue) && ticket !in Tickets(after.queue)
  {
  }

  /** A step that grants nothing and whose queue holds old entries, or one with the next ticket. */
  lemma {:induction false} UngrantedKeeps(s: System, act: Step, t: System)
    requires Inv(s) && Next(s, Some(act), t) && t.grants == s.grants
    requires forall e :: e in t.state.queue ==>
      e in s.state.queue || (act.Enqueue? && e.requestId == s.nextRequest && e.ticket == s.state.nextTicket)
    requires t.state.nextTicket == s.state.nextTicket + (if act.Enqueue? then 1 else 0)
    requires t.state.nextFenceEpoch == s.state.nextFenceEpoch
    requires t.state.active.Some? ==>
      && s.state.active.Some? && t.state.active.value.requestId == s.state.active.value.requestId
      && t.state.active.value.fenceEpoch == s.state.active.value.fenceEpoch
    ensures Inv(t)
  {
    hide Update, Departures, Tickets, ValidState;
    MutateValid(s.state, act, s.now, s.leaseMs);
    FatesKeep(s, act, t);
  }

  lemma {:induction false} MutateValid(state: State, step: Step, now: Time, leaseMs: nat)
    requires Mutate(state, step, now, leaseMs).Ok?
    ensures ValidState(Mutate(state, step, now, leaseMs).value)
  {
  }

  lemma {:induction false} NextKeeps(s: System, step: Option<Step>, t: System)
    requires Inv(s) && Next(s, step, t)
    ensures Inv(t)
  {
    if step.Some? {
      var act := step.value;
      PruneFacts(s.state, s.now);
      if Grants(s.state, act, s.now) {
        GrantKeeps(s, act, t);
      } else {
        if act.Withdraw? {
          OtherFacts(s.state.queue, act.requestId);
        }
        UngrantedKeeps(s, act, t);
      }
    }
  }

  lemma {:induction false} GrantKeeps(s: System, act: Step, t: System)
    requires Inv(s) && Next(s, Some(act), t) && Grants(s.state, act, s.now)
    ensures Inv(t)
  {
    hide Departures, FirstInLine, Unexpired, Other;
    GrantQueue(s.state, act, s.now);
    MutateValid(s.state, act, s.now, s.leaseMs);
    FatesKeep(s, act, t);
  }

  /** A grant takes the smallest queued ticket and leaves only larger ones. */
  lemma {:induction false} GrantQueue(state: State, act: Step, now: Time)
    requires ValidState(state) && Grants(state, act, now) && Queued(Prune(state, now).queue, act.requestId, act.ticket)
    ensures var rest := Filter(Prune(state, now).queue, Other(act.requestId));
            && (forall e :: e in rest ==> e in state.queue && act.ticket < e.ticket)
            && exists e :: e in state.queue && e.ticket == act.ticket && e.requestId == act.requestId
  {
    PruneFacts(state, now);
    var pruned := Prune(state, now);
    OtherFacts(pruned.queue, act.requestId);
    FirstIsSmallest(pruned.queue, act.requestId, act.ticket);
    hide Filter, Prune, ValidState, FirstInLine, DistinctQueue;
    var i :| 0 <= i < |pruned.queue| && pruned.queue[i].requestId == act.requestId
      && pruned.queue[i].ticket == act.ticket;
    assert pruned.queue[i] in state.queue;
  }

  // ---------------------------------------------------------------- over whole runs

  ghost predicate Steps(s: System, t: System) {
    exists step :: Next(s, step, t)
  }

  ghost predicate Run(run: seq<System>)
    decreases |run|
  {
    var last := |run| - 1;
    run != [] && if last == 0 then Init(run[0]) else Run(run[..last]) && Steps(run[last - 1], run[last])
  }

  lemma {:induction false} RunInv(run: seq<System>)
    requires Run(run)
    ensures run != [] && Inv(run[|run| - 1])
    decreases |run|
  {
    hide Inv, Init, Next;
    var last := |run| - 1;
    if last == 0 {
      InitInv(run[0]);
    } else {
      RunInv(run[..last]);
      var step :| Next(run[last - 1], step, run[last]);
      NextKeeps(run[last - 1], step, run[last]);
    }
  }

  /** In every reachable state granted fence epochs strictly increase, and so do the tickets they served. */
  lemma {:induction false} GrantsRise(run: seq<System>)
    requires Run(run)
    ensures run != []
    ensures var grants := run[|run| - 1].grants;
            forall i, j :: 0 <= i < j < |grants| ==>
              grants[i].fenceEpoch < grants[j].fenceEpoch && grants[i].ticket < grants[j].ticket
  {
    RunInv(run);
  }

  /** Once a later lease has been granted, an earlier one is fenced for good: it passes no check and none of
      its session commits, advances or heartbeats goes through, whatever expired or was released meanwhile. */
  lemma {:induction false} EarlierLeaseIsFenced(run: seq<System>, i: nat, binding: Option<string>,
      expected: Option<Session>, now: Time)
    requires Run(run) && run != [] && i < |run[|run| - 1].grants| - 1
    ensures var s := run[|run| - 1];
            var stale := s.grants[i];
            && !Current(s.state, stale.requestId, stale.fenceEpoch, now)
            && Mutate(s.state, CommitSession(stale.fenceEpoch, binding), now, s.leaseMs) == Err(Fenced)
            && Mutate(s.state, AdvanceSession(stale.fenceEpoch), now, s.leaseMs) == Err(Fenced)
            && Mutate(s.state, Heartbeat(stale.requestId, stale.fenceEpoch, expected), now, s.leaseMs) == Err(Fenced)
  {
    RunInv(run);
  }

  /** The history only grows, so what was fenced stays fenced. */
  lemma {:induction false} GrantsPersist(s: System, step: Option<Step>, t: System)
    requires Next(s, step, t)
    ensures s.grants <= t.grants
  {
  }

  /** At most one of the leases ever granted is current. */
  lemma {:induction false} OneCurrentLease(run: seq<System>, i: nat, j: nat, now: Time)
    requires Run(run) && run != [] && i < |run[|run| - 1].grants| && j < |run[|run| - 1].grants|
    requires var s := run[|run| - 1];
             && Current(s.state, s.grants[i].requestId, s.grants[i].fenceEpoch, now)
             && Current(s.state, s.grants[j].requestId, s.grants[j].fenceEpoch, now)
    ensures i == j == |run[|run| - 1].grants| - 1
  {
    RunInv(run);
  }

  /** A request is granted only when every smaller ticket ever issued has been granted, expired or withdrawn. */
  lemma {:induction false} GrantsFollowTickets(run: seq<System>, act: Step, t: System)
    requires Run(run) && run != [] && Next(run[|run| - 1], Some(act), t)
    requires Grants(run[|run| - 1].state, act, run[|run| - 1].now)
    ensures forall ticket :: ticket in t.issued && ticket <= act.ticket ==> ticket in t.fates
    ensures act.ticket in t.issued && t.fates[act.ticket] == WasGranted
  {
    hide Departures, Run;
    RunInv(run);
    var s := run[|run| - 1];
    NextKeeps(s, Some(act), t);
    PruneFacts(s.state, s.now);
    GrantQueue(s.state, act, s.now);
    GrantDeparts(s.state, act, s.now, t.state);
  }

  lemma {:induction false} GrantDeparts(state: State, act: Step, now: Time, after: State)
    requires ValidState(state) && Grants(state, act, now) && Queued(Prune(state, now).queue, act.requestId, act.ticket)
    requires after.queue == Filter(Prune(state, now).queue, Other(act.requestId))
    ensures act.ticket in Departures(state, act, now, after)
    ensures Departures(state, act, now, after)[act.ticket] == WasGranted
  {
    GrantLeaves(state, act, now);
    hide Tickets, Prune, Filter, Queued, ValidState, Granting;
  }

  /** The granted ticket was queued and unexpired, and is not queued any more. */
  lemma {:induction false} GrantLeaves(state: State, act: Step, now: Time)
    requires ValidState(state) && Grants(state, act, now) && Queued(Prune(state, now).queue, act.requestId, act.ticket)
    ensures act.ticket in Tickets(state.queue) && act.ticket in Tickets(Prune(state, now).queue)
    ensures act.ticket !in Tickets(Filter(Prune(state, now).queue, Other(act.requestId)))
  {
    GrantQueue(state, act, now);
    hide Filter, Prune, ValidState, Granting;
    var pruned := Prune(state, now);
    var i :| 0 <= i < |pruned.queue| && pruned.queue[i].requestId == act.requestId
      && pruned.queue[i].ticket == act.ticket;
    assert pruned.queue[i] in pruned.queue;
  }

  // ---------------------------------------------------------------- a granted ticket is a lease

  predicate HasLease(s: System, ticket: int) {
    exists i :: 0 <= i < |s.grants| && s.grants[i].ticket == ticket
  }

  predicate Fated(s: System, ticket: int, fate: Fate) {
    ticket in s.fates && s.fates[ticket] == fate
  }

  /** Of the tickets ever queued exactly those marked as granted got a lease. */
  predicate FatesTell(s: System) {
    forall ticket :: ticket in s.issued ==> (Fated(s, ticket, WasGranted) <==> HasLease(s, ticket))
  }

  /** Only the ticket that is granted leaves the queue as granted. */
  lemma {:induction false} GrantedDeparture(state: State, act: Step, now: Time, leaseMs: nat, ticket: int)
    requires ValidState(state) && Mutate(state, act, now, leaseMs).Ok?
    requires var departed := Departures(state, act, now, Mutate(state, act, now, leaseMs).value);
             ticket in departed && departed[ticket] == WasGranted
    ensures Grants(state, act, now) && ticket == act.ticket
  {
    var pruned := Prune(state, now);
    PruneFacts(state, now);
    assert act.TryGrant? && ticket in Tickets(pruned.queue);
    OtherFacts(pruned.queue, act.requestId);
    if Grants(state, act, now) {
      FirstIsSmallest(pruned.queue, act.requestId, act.ticket);
    }
    hide FirstInLine, Queued, DistinctQueue, ValidState, Filter, Prune;
  }

  lemma {:induction false} GrantedTicketFated(s: System, act: Step, t: System)
    requires Inv(s) && Next(s, Some(act), t) && Grants(s.state, act, s.now)
    ensures Fated(t, act.ticket, WasGranted)
    ensures forall ticket :: HasLease(t, ticket) <==> HasLease(s, ticket) || ticket == act.ticket
  {
    assert t.grants[|t.grants| - 1].ticket == act.ticket && t.grants[..|t.grants| - 1] == s.grants;
    LeaseAppended(s, t);
    GrantDeparts(s.state, act, s.now, t.state);
    hide Departures, Prune, Filter, ValidState, FirstInLine, Queued, HasLease;
  }

  lemma {:induction false} LeaseAppended(s: System, t: System)
    requires t.grants != [] && t.grants[..|t.grants| - 1] == s.grants
    ensures forall ticket ::
        HasLease(t, ticket) <==> HasLease(s, ticket) || ticket == t.grants[|t.grants| - 1].ticket
  {
    forall ticket | HasLease(s, ticket) ensures HasLease(t, ticket) {
      var i :| 0 <= i < |s.grants| && s.grants[i].ticket == ticket;
      assert t.grants[i].ticket == ticket;
    }
  }

  lemma {:induction false} StepTells(s: System, act: Step, t: System, ticket: int)
    requires Inv(s) && FatesTell(s) && Next(s, Some(act), t) && Inv(t) && ticket in t.issued
    ensures Fated(t, ticket, WasGranted) <==> HasLease(t, ticket)
  {
    var departed := Departures(s.state, act, s.now, t.state);
    DepartureKeys(s.state, act, s.now, t.state, ticket);
    if Grants(s.state, act, s.now) {
      GrantedTicketFated(s, act, t);
    }
    if ticket in departed && departed[ticket] == WasGranted {
      GrantedDeparture(s.state, act, s.now, s.leaseMs, ticket);
    }
    if ticket !in s.issued {
      NewTicketUngranted(s, act, t, ticket);
    }
    hide Mutate, Departures, ValidState, QueueInv, GrantInv, ActiveInv, HasLease, Grants;
  }

  /** A ticket queued for the first time has neither a lease nor a fate. */
  lemma {:induction false} NewTicketUngranted(s: System, act: Step, t: System, ticket: int)
    requires Inv(s) && Next(s, Some(act), t) && Inv(t) && ticket in t.issued && ticket !in s.issued
    ensures ticket !in t.fates && !HasLease(s, ticket) && !HasLease(t, ticket)
  {
    hide Departures, ValidState;
    PruneFacts(s.state, s.now);
    var e :| e in t.state.queue && e.ticket == ticket;
    assert ticket in Tickets(t.state.queue);
  }

  lemma {:induction false} FatesAreLeases(run: seq<System>)
    requires Run(run)
    ensures run != [] && FatesTell(run[|run| - 1])
    decreases |run|
  {
    hide Inv, Init, Next, FatesTell;
    var last := |run| - 1;
    RunInv(run);
    if last == 0 {
      NoFateYet(run[0]);
    } else {
      FatesAreLeases(run[..last]);
      RunInv(run[..last]);
      var step :| Next(run[last - 1], step, run[last]);
      NextTells(run[last - 1], step, run[last]);
    }
  }

  lemma {:induction false} NoFateYet(s: System)
    requires Init(s)
    ensures FatesTell(s)
  {
    forall ticket | ticket in s.issued ensures !HasLease(s, ticket) {
      var e :| e in s.state.queue && e.ticket == ticket;
      var i :| 0 <= i < |s.state.queue| && s.state.queue[i] == e;
    }
  }

  lemma {:induction false} NextTells(s: System, step: Option<Step>, t: System)
    requires Inv(s) && Inv(t) && Next(s, step, t) && FatesTell(s)
    ensures FatesTell(t)
  {
    if step.Some? {
      hide Next, Inv, Fated, HasLease;
      forall ticket | ticket in t.issued ensures Fated(t, ticket, WasGranted) <==> HasLease(t, ticket) {
        StepTells(s, step.value, t, ticket);
      }
    }
  }

  /** So a lease is granted only after each smaller ticket ever queued has had its own lease, expired, or been
      withdrawn. */
  lemma {:induction false} GrantsFollowLeases(run: seq<System>, act: Step, t: System)
    requires Run(run) && run != [] && Next(run[|run| - 1], Some(act), t)
    requires Grants(run[|run| - 1].state, act, run[|run| - 1].now)
    ensures HasLease(t, act.ticket)
    ensures forall ticket :: ticket in t.issued && ticket < act.ticket ==>
        HasLease(t, ticket) || Fated(t, ticket, HasExpired) || Fated(t, ticket, WasWithdrawn)
  {
    var s := run[|run| - 1];
    RunInv(run);
    FatesAreLeases(run);
    GrantsFollowTickets(run, act, t);
    NextKeeps(s, Some(act), t);
    NextTells(s, Some(act), t);
    hide Run, Next, Inv, Grants, HasLease;
  }

  // ---------------------------------------------------------------- what recovery relies on

  /** assertArbiterProgression does not throw. */
  predicate Progresses(previous: State, current: State) {
    && previous.nextTicket <= current.nextTicket
    && previous.nextFenceEpoch <= current.nextFenceEpoch
    && previous.sessionEpoch <= current.sessionEpoch
    && (previous.sessionEpoch == current.sessionEpoch ==> previous.accountBinding == current.accountBinding)
  }

  /** The revision and session test never rejects a state and its successor. */
  lemma {:induction false} MutateProgresses(state: State, step: Step, now: Time, leaseMs: nat)
    requires Mutate(state, step, now, leaseMs).Ok?
    ensures var next := Mutate(state, step, now, leaseMs).value;
            next.revision == state.revision + 1 && Progresses(state, next)
  {
  }
}
