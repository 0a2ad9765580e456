/** The lock-protected sections of canvas-agent/src/dreamina-cli-runtime.ts as decisions on the freshly
    reloaded journal. A section reloads (recovering what expired), decides, and persists at most once. */
module RuntimeSections {
  import opened Wrappers
  import TC = TaskContract
  import opened Journal

  datatype Refusal =
    | StateRefused | IdempotencyConflict | SubmissionUnknown | CliFenced | AccountChanged | TaskNotFound | CapacityFull

  /** What the account check before a CLI call returned; the binding is absent for sessionless runtimes. */
  datatype Session = Session(epoch: int, accountBinding: Option<string>)

  const INTERRUPTED: string := "dreamina_interrupted_before_submission"

  // ---------------------------------------------------------------- record predicates

  predicate LiveQueueLease(record: RuntimeRecord, now: Time) {
    && record.state == TC.Queued && record.queue.ownerId.Some?
    && record.queue.expiresAt.Some? && now < record.queue.expiresAt.value
  }

  predicate LiveReservation(record: RuntimeRecord, now: Time) {
    var held := record.reservation;
    && record.state == TC.JournalState.Pending && held.id.Some? && held.ownerId.Some? && held.phase.Some?
    && held.expiresAt.Some? && now < held.expiresAt.value
  }

  predicate MatchesReservation(record: RuntimeRecord, requestHash: string, id: Uuid, ownerId: Uuid) {
    && record.identity.requestHash == requestHash && record.state == TC.JournalState.Pending
    && record.reservation.id == Some(id) && record.reservation.ownerId == Some(ownerId)
  }

  /** reservesOfficialSlot. */
  predicate ReservesSlot(record: RuntimeRecord) {
    record.state in {TC.JournalState.Pending, TC.Unknown, TC.JournalState.Accepted}
  }

  function Reserving(records: Records): set<Key> {
    set k | k in records && ReservesSlot(records[k])
  }

  // ---------------------------------------------------------------- the durable queue order

  /** compareDurableQueueOrder. */
  function CompareQueue(records: Records, left: Key, right: Key): int
    requires left in records && right in records
  {
    var l, r := records[left], records[right];
    if l.queue.ticket.Some? && r.queue.ticket.Some? then l.queue.ticket.value - r.queue.ticket.value
    else if l.queue.ticket.None? && r.queue.ticket.Some? then -1
    else if l.queue.ticket.Some? && r.queue.ticket.None? then 1
    else
      var created := l.identity.createdAt.GetOr(l.updatedAt) - r.identity.createdAt.GetOr(r.updatedAt);
      if created != 0 then created else left as int - right as int
  }

  /** The order the stable sort yields on records listed in key order. */
  predicate Before(records: Records, left: Key, right: Key)
    requires left in records && right in records
  {
    var order := CompareQueue(records, left, right);
    order < 0 || (order == 0 && left < right)
  }

  function LiveQueue(records: Records, now: Time): set<Key> {
    set k | k in records && LiveQueueLease(records[k], now)
  }

  function Ahead(records: Records, key: Key, now: Time): set<Key>
    requires key in records
  {
    set k | k in LiveQueue(records, now) && Before(records, k, key)
  }

  /** hasQueuedGenerationPriority: live, with fewer live records ahead than free slots. */
  predicate HasPriority(records: Records, key: Key, now: Time, maxActive: nat)
    requires key in records
  {
    key in LiveQueue(records, now) && |Ahead(records, key, now)| < maxActive - |Reserving(records)|
  }

  // ---------------------------------------------------------------- reload

  predicate ReservationExpired(record: RuntimeRecord, now: Time) {
    record.state == TC.JournalState.Pending && !LiveReservation(record, now)
  }

  predicate QueueExpired(record: RuntimeRecord, now: Time) {
    record.identity.durable && record.state == TC.Queued && !LiveQueueLease(record, now)
  }

  function RecoverRecord(record: RuntimeRecord, now: Time): RuntimeRecord {
    var held := record.reservation;
    if ReservationExpired(record, now) then
      if held.phase == Some(Reserved) && held.id.Some? && held.ownerId.Some? then
        record.(state := TC.JournalState.Failed, errorCode := Some(INTERRUPTED), updatedAt := now,
          reservation := NO_RESERVATION)
      else
        record.(state := TC.Unknown, updatedAt := now, reservation := NO_RESERVATION,
                errorCode := if record.identity.durable then Some("dreamina_submission_unknown") else record.errorCode)
    else if QueueExpired(record, now) then Interrupted(record, now)
    else record
  }

  function RecoverAll(records: Records, now: Time): Records {
    map k | k in records :: RecoverRecord(records[k], now)
  }

  predicate AnyExpired(records: Records, now: Time) {
    exists k :: k in records && (ReservationExpired(records[k], now) || QueueExpired(records[k], now))
  }

  /** A remembered record the file no longer has, has under another request, or has in an earlier state. */
  predicate Behind(memory: Records, loaded: Records, k: Key)
    requires k in memory
  {
    || k !in loaded
    || loaded[k].identity.requestHash != memory[k].identity.requestHash
    || StateRank(loaded[k].state) < StateRank(memory[k].state)
  }

  /** reloadFromDisk throws when the file has gone behind what this runtime has already seen. */
  predicate Stale(memory: Records, loaded: Records) {
    exists k :: k in memory && Behind(memory, loaded, k)
  }

  function TicketAfter(record: RuntimeRecord): int {
    record.queue.ticket.GetOr(0) + 1
  }

  /** Math.max over the stored counter and every ticket plus one. */
  predicate IsTicketCeiling(ticket: int, disk: Disk) {
    && disk.nextQueueTicket <= ticket
    && (forall k :: k in disk.records ==> TicketAfter(disk.records[k]) <= ticket)
    && (ticket == disk.nextQueueTicket || exists k :: k in disk.records && TicketAfter(disk.records[k]) == ticket)
  }

  /** The reloaded journal; the runtime's own map is then a copy of `disk.records`. */
  datatype Loaded = Loaded(disk: Disk, nextTicket: int)

  ghost predicate Reloads(memory: Records, disk: Disk, now: Time, result: Result<Loaded, StateError>) {
    var loaded := RecoverAll(disk.records, now);
    if Stale(memory, loaded) then result == Err(StateInvalid)
    else if !AnyExpired(disk.records, now) then
      result.Ok? && result.value.disk == disk && IsTicketCeiling(result.value.nextTicket, disk)
    else
      exists ticket :: IsTicketCeiling(ticket, disk) &&
        var persisted := Persist(disk, Disk(loaded, ticket));
        if persisted.Ok? then result == Ok(Loaded(persisted.value, ticket)) else result == Err(StateInvalid)
  }

  // ---------------------------------------------------------------- decisions

  /** Refuse throws; Keep returns without writing; Write persists these records and this counter. */
  datatype Decision = Refuse(reason: Refusal) | Keep | Write(records: Records, nextTicket: int)

  function Queue(identity: Identity, owner: Uuid, ticket: int, now: Time, leaseMs: nat): RuntimeRecord {
    RuntimeRecord(identity, TC.Queued, None, now, NO_FENCE, NO_RESERVATION,
                  QueueLease(Some(owner), Some(now + leaseMs), Some(ticket)), None, None, None, NO_POLLING, None, false)
  }

  function Enqueue(records: Records, ticket: int, key: Key, identity: Identity, owner: Uuid, now: Time,
      leaseMs: nat): Decision {
    if key in records then
      Refuse(if records[key].identity.requestHash != identity.requestHash then IdempotencyConflict
        else SubmissionUnknown)
    else if !(1 <= ticket < MAX_SAFE_INTEGER) then Refuse(StateRefused)
    else Write(records[key := Queue(identity, owner, ticket, now, leaseMs)], ticket + 1)
  }

  function Reserve(records: Records, ticket: int, key: Key, requestHash: string, id: Uuid, owner: Uuid,
                   now: Time, leaseMs: nat, maxActive: nat): Decision
  {
    if key !in records || records[key].identity.requestHash != requestHash then Refuse(StateRefused)
    else if records[key].state != TC.Queued then Refuse(SubmissionUnknown)
    else if !HasPriority(records, key, now, maxActive) then Keep
    else
      Write(records[key := records[key].(
        state := TC.JournalState.Pending, updatedAt := now, queue := NO_QUEUE,
        reservation := Reservation(Some(id), Some(owner), Some(now + leaseMs), Some(Reserved)))], ticket)
  }

  function RenewQueueLease(records: Records, ticket: int, key: Key, requestHash: string, owner: Uuid, now: Time,
      leaseMs: nat)
    : Decision
  {
    if key !in records || records[key].identity.requestHash != requestHash || records[key].state != TC.Queued
       || records[key].queue.ownerId != Some(owner) || !LiveQueueLease(records[key], now) then Refuse(CliFenced)
    else
      var lease := records[key].queue;
      Write(records[key := records[key].(queue := lease.(expiresAt := Some(now + leaseMs)))], ticket)
  }

  function RenewReservation(records: Records, ticket: int, key: Key, requestHash: string, id: Uuid, owner: Uuid,
                            now: Time, leaseMs: nat): Decision
  {
    if key !in records || !MatchesReservation(records[key], requestHash, id, owner)
      || !LiveReservation(records[key], now)
    then Refuse(CliFenced)
    else
      var held := records[key].reservation;
      Write(records[key := records[key].(reservation := held.(expiresAt := Some(now + leaseMs)))], ticket)
  }

  /** commitInvocationFence: the last durable word before the CLI may be spawned. */
  function CommitFence(records: Records, ticket: int, key: Key, requestHash: string, id: Uuid, owner: Uuid,
                       epoch: int, session: Option<Session>, now: Time, leaseMs: nat): Decision
  {
    if key !in records || !MatchesReservation(records[key], requestHash, id, owner)
      || !LiveReservation(records[key], now)
    then Refuse(CliFenced)
    else
      var record := records[key];
      if record.fence.epoch.Some? && record.fence.epoch.value > epoch then Refuse(CliFenced)
      else
        var bound := session.Some? && Truthy(session.value.accountBinding);
        if bound && Truthy(record.fence.accountBinding) && record.fence.accountBinding != session.value.accountBinding
        then Refuse(AccountChanged)
        else
          var fence := if bound then Fence(Some(epoch), session.value.accountBinding, Some(session.value.epoch))
                       else record.fence.(epoch := Some(epoch));
          var held := record.reservation;
          Write(records[key := record.(
            fence := fence, reservation := held.(phase := Some(SpawnPermitted), expiresAt := Some(now + leaseMs)))],
              ticket)
  }

  /** commitAcceptedReceipt. */
  function CommitReceipt(records: Records, ticket: int, key: Key, requestHash: string, id: Uuid, owner: Uuid,
                         epoch: int, submitId: string, session: Option<Session>, now: Time): Decision
  {
    if key !in records || !MatchesReservation(records[key], requestHash, id, owner)
       || records[key].reservation.phase != Some(SpawnPermitted) || records[key].fence.epoch != Some(epoch)
    then Refuse(CliFenced)
    else if session.Some? && Truthy(session.value.accountBinding)
            && (records[key].fence.accountBinding != session.value.accountBinding
                || records[key].fence.sessionEpoch != Some(session.value.epoch)) then Refuse(AccountChanged)
    else
      Write(records[key := records[key].(
        state := TC.JournalState.Accepted, submitId := Some(submitId), updatedAt := now,
          reservation := NO_RESERVATION)], ticket)
  }

  /** commitSubmissionFailure: an attempt that never spawned leaves no trace, a spawned one stays uncertain. */
  function CommitFailure(records: Records, ticket: int, key: Key, requestHash: string, id: Uuid, owner: Uuid,
                         epoch: Option<int>, spawned: bool, code: string, now: Time): Decision
  {
    if key !in records || !MatchesReservation(records[key], requestHash, id, owner)
       || (epoch.Some? && records[key].fence.epoch != epoch) then Refuse(CliFenced)
    else if !spawned then Write(records - {key}, ticket)
    else
      Write(records[key := records[key].(
        state := TC.Unknown, errorCode := Some(code), updatedAt := now, reservation := NO_RESERVATION)], ticket)
  }

  function Cancel(records: Records, ticket: int, key: Key, now: Time): Decision {
    if key !in records || !records[key].identity.durable then Refuse(TaskNotFound)
    else if IsTerminal(records[key].state) || records[key].state == TC.JournalState.Pending
            || (records[key].state == TC.JournalState.Accepted && Truthy(records[key].submitId)) then Keep
    else
      Write(records[key := records[key].(
        state := TC.JournalState.Cancelled, errorCode := Some("dreamina_cancelled"), updatedAt := now,
          queue := NO_QUEUE)], ticket)
  }

  function Removed(record: RuntimeRecord, now: Time): RuntimeRecord {
    record.(state := TC.Deleted, updatedAt := now, queue := NO_QUEUE)
  }

  function Delete(records: Records, ticket: int, key: Key, now: Time): Decision {
    if key !in records then Refuse(TaskNotFound)
    else
      var record := records[key];
      if record.state == TC.Deleted || record.hidden then Keep
      else if !record.identity.durable then Refuse(TaskNotFound)
      else if record.state == TC.Queued
              || (record.state == TC.JournalState.Pending && record.reservation.phase == Some(Reserved)) then
        Write(records[key := Removed(record, now)], ticket)
      else Write(records[key := record.(hidden := true, updatedAt := now)], ticket)
  }

  function FailedWith(record: RuntimeRecord, code: string, now: Time): RuntimeRecord {
    record.(state := TC.JournalState.Failed, errorCode := Some(code), updatedAt := now, queue := NO_QUEUE)
  }

  /** failTask through transitionTask. */
  function FailTask(records: Records, ticket: int, key: Key, code: string, now: Time): Decision {
    if key !in records || !records[key].identity.durable then Refuse(StateRefused)
    else if IsTerminal(records[key].state) then Keep
    else
      Write(records[key := FailedWith(records[key], code, now)], ticket)
  }

  predicate OwnedQueued(record: RuntimeRecord, owner: Uuid) {
    record.state == TC.Queued && record.queue.ownerId == Some(owner)
  }

  function Interrupted(record: RuntimeRecord, now: Time): RuntimeRecord {
    record.(state := TC.JournalState.Failed, errorCode := Some(INTERRUPTED), updatedAt := now, queue := NO_QUEUE)
  }

  function AfterDispose(record: RuntimeRecord, owner: Uuid, now: Time): RuntimeRecord {
    if OwnedQueued(record, owner) then Interrupted(record, now) else record
  }

  function AllInterrupted(records: Records, owner: Uuid, now: Time): Records {
    map k | k in records :: AfterDispose(records[k], owner, now)
  }

  /** failOwnedQueuedTasksOnDispose. */
  function Dispose(records: Records, ticket: int, owner: Uuid, now: Time): Decision {
    if forall k :: k in records ==> !OwnedQueued(records[k], owner) then Keep
    else
      Write(AllInterrupted(records, owner, now), ticket)
  }

  function CleanupWarning(records: Records, ticket: int, key: Key, epoch: int, now: Time): Decision {
    if key !in records || records[key].state != TC.JournalState.Accepted || records[key].fence.epoch != Some(epoch)
    then Refuse(CliFenced)
    else
      Write(records[key := records[key].(errorCode := Some("dreamina_reference_cleanup_failed"), updatedAt := now)],
        ticket)
  }

  /** submitWithLock: the synchronous path writes a pending record and then keeps holding the lock. */
  function SubmitSynchronously(records: Records, ticket: int, key: Key, requestHash: string, now: Time,
      maxActive: nat): Decision {
    if key in records then
      if records[key].identity.requestHash != requestHash then Refuse(IdempotencyConflict)
      else if records[key].state == TC.JournalState.Accepted && Truthy(records[key].submitId) then Keep
      else Refuse(SubmissionUnknown)
    else if |Reserving(records)| >= maxActive then Refuse(CapacityFull)
    else
      Write(records[key := RuntimeRecord(
        Identity(requestHash, false, None, None, None, None, None, None), TC.JournalState.Pending, None, now, NO_FENCE,
        NO_RESERVATION, NO_QUEUE, None, None, None, NO_POLLING, None, false)], ticket)
  }

  // ---------------------------------------------------------------- a whole section

  /** Carrying out a decision on the file: `wrote` tells whether it was persisted. */
  predicate Ends(disk: Disk, decision: Decision, after: Disk, wrote: bool) {
    if decision.Write? && Persist(disk, Disk(decision.records, decision.nextTicket)).Ok?
    then wrote && after == Persist(disk, Disk(decision.records, decision.nextTicket)).value
    else !wrote && after == disk
  }

  /** Lock, reload into a runtime that remembers `memory`, decide, persist. */
  ghost predicate Section(memory: Records, disk: Disk, now: Time, decide: (Records, int) -> Decision, after: Disk,
      wrote: bool) {
    exists result: Result<Loaded, StateError> :: Reloads(memory, disk, now, result) &&
      if result.Err? then after == disk && !wrote
      else Ends(result.value.disk, decide(result.value.disk.records, result.value.nextTicket), after, wrote)
  }

  // ---------------------------------------------------------------- what a section may do to the journal

  /** Observation times never fall, and a poll lease is kept, dropped, or the newly issued one. */
  predicate PollingKept(before: Polling, after: Polling, issued: Option<Uuid>) {
    && (before.lastObservedAt.Some? ==>
          after.lastObservedAt.Some? && before.lastObservedAt.value <= after.lastObservedAt.value)
    && (after.lease.Some? ==>
          || (before.lease.Some? && before.lease.value.leaseId == after.lease.value.leaseId)
          || issued == Some(after.lease.value.leaseId))
  }

  /** How a record may change while no attempt is created, granted, removed or accepted. */
  predicate QuietRecord(before: RuntimeRecord, after: RuntimeRecord, issued: Option<Uuid>) {
    && (after.state == TC.Queued ==> before.state == TC.Queued)
    && (after.state == TC.JournalState.Pending ==>
          before.state == TC.JournalState.Pending && after.reservation.id == before.reservation.id)
    && after.submitId == before.submitId
    && (ReservesSlot(after) ==> ReservesSlot(before))
    && after.queue.ticket in {before.queue.ticket, None}
    && PollingKept(before.polling, after.polling, issued)
  }

  predicate Quiet(before: Records, after: Records, issued: Option<Uuid>) {
    before.Keys == after.Keys && forall k :: k in before ==> QuietRecord(before[k], after[k], issued)
  }

  lemma {:induction false} RecoverQuiet(records: Records, now: Time)
    ensures Quiet(records, RecoverAll(records, now), None)
  {
  }

  lemma {:induction false} VersionsQuiet(previous: Records, payload: Records)
    ensures Quiet(payload, AssignVersions(previous, payload), None)
  {
  }

  lemma {:induction false} QuietTransitive(a: Records, b: Records, c: Records, issued: Option<Uuid>)
    requires Quiet(a, b, None) && Quiet(b, c, issued)
    ensures Quiet(a, c, issued)
  {
    hide ReservesSlot;
    forall k | k in a ensures QuietRecord(a[k], c[k], issued) {
      assert QuietRecord(a[k], b[k], None) && QuietRecord(b[k], c[k], issued);
    }
  }

  /** How a section ends for its caller. */
  datatype Outcome = Wrote | Kept | Refused(reason: Refusal)

  predicate Concludes(disk: Disk, decision: Decision, after: Disk, outcome: Outcome) {
    match decision
    case Refuse(reason) => outcome == Refused(reason) && after == disk
    case Keep => outcome == Kept && after == disk
    case Write(records, ticket) =>
      var stored := Persist(disk, Disk(records, ticket));
      if stored.Ok? then outcome == Wrote && after == stored.value
        else outcome == Refused(StateRefused) && after == disk
  }

  /** A section with its outcome: what the runtime's methods promise. */
  ghost predicate Performs(memory: Records, disk: Disk, now: Time, decide: (Records, int) -> Decision, after: Disk,
      outcome: Outcome) {
    exists result: Result<Loaded, StateError> :: Reloads(memory, disk, now, result) &&
      if result.Err? then after == disk && outcome == Refused(StateRefused)
      else Concludes(result.value.disk, decide(result.value.disk.records, result.value.nextTicket), after, outcome)
  }

  /** A performed section is a section of the interleaving model. */
  lemma {:induction false} PerformsIsSection(memory: Records, disk: Disk, now: Time, decide: (Records, int) -> Decision,
      after: Disk,
      outcome: Outcome)
    requires Performs(memory, disk, now, decide, after, outcome)
    ensures Section(memory, disk, now, decide, after, outcome == Wrote)
  {
    hide Persist, Reloads;
  }

  predicate TicketsBelow(records: Records, ticket: int) {
    forall k :: k in records && records[k].queue.ticket.Some? ==> records[k].queue.ticket.value < ticket
  }

  /** What any section does: a quiet reload, then at most one persisted decision on the reloaded records. */
  lemma {:induction false} SectionEffect(memory: Records, disk: Disk, now: Time, decide: (Records, int) -> Decision,
      after: Disk,
      wrote: bool)
    returns (mid: Disk, ticket: int)
    requires Section(memory, disk, now, decide, after, wrote)
    ensures Quiet(disk.records, mid.records, None) && (wrote ==> TicketsBelow(mid.records, ticket))
    ensures ValidDisk(disk) ==> ValidDisk(mid)
    ensures Ends(mid, decide(mid.records, ticket), after, wrote) || (!wrote && after == mid)
  {
    hide Progresses, ValidRecord, QuietRecord, SameRecord, RecoverRecord, HasPriority;
    var result :| Reloads(memory, disk, now, result) &&
      if result.Err? then after == disk && !wrote
      else Ends(result.value.disk, decide(result.value.disk.records, result.value.nextTicket), after, wrote);
    if result.Err? {
      mid, ticket := disk, 0;
      QuietReflexive(disk.records);
    } else {
      mid, ticket := result.value.disk, result.value.nextTicket;
      ReloadQuiet(memory, disk, now, result.value);
    }
  }

  lemma {:induction false} QuietReflexive(records: Records)
    ensures Quiet(records, records, None)
  {
  }

  lemma {:induction false} ReloadQuiet(memory: Records, disk: Disk, now: Time, loaded: Loaded)
    requires Reloads(memory, disk, now, Ok(loaded))
    ensures Quiet(disk.records, loaded.disk.records, None) && TicketsBelow(loaded.disk.records, loaded.nextTicket)
    ensures ValidDisk(disk) ==> ValidDisk(loaded.disk)
  {
    hide ValidDisk, MayFollow, AssignVersions, RecoverAll, AnyExpired, IsTicketCeiling, Quiet, TicketsBelow;
    if AnyExpired(disk.records, now) {
      var recovered := RecoverAll(disk.records, now);
      RecoverQuiet(disk.records, now);
      VersionsQuiet(disk.records, recovered);
      QuietTransitive(disk.records, recovered, loaded.disk.records, None);
    } else {
      QuietReflexive(disk.records);
    }
    CeilingAbove(disk, loaded.disk.records, loaded.nextTicket);
  }

  lemma {:induction false} CeilingAbove(disk: Disk, after: Records, ticket: int)
    requires IsTicketCeiling(ticket, disk) && Quiet(disk.records, after, None)
    ensures TicketsBelow(after, ticket)
  {
    hide ReservesSlot, PollingKept;
    forall k | k in after && after[k].queue.ticket.Some? ensures after[k].queue.ticket.value < ticket {
      assert QuietRecord(disk.records[k], after[k], None);
      assert TicketAfter(disk.records[k]) <= ticket;
    }
  }
}
