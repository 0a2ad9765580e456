/** What the lock-protected sections of canvas-agent/src/dreamina-cli-runtime.ts are for: which decision goes through
    when, what it leaves on the record of its key, and what the next one in a submission may rely on. */
module RuntimeOutcomes {
  import opened Wrappers
  import TC = TaskContract
  import opened Journal
  import opened RuntimeSections

  // ---------------------------------------------------------------- what a decision leaves

  /** Nothing but the record of `key` differs, and it is there. */
  predicate OnlyAt(before: Records, key: Key, after: Records) {
    key in after && after.Keys == before.Keys + {key} && forall k :: k in before && k != key ==> after[k] == before[k]
  }

  /** The record is in the hands of this owner under this reservation until `expiry` and no longer. */
  predicate HeldUntil(record: RuntimeRecord, id: Uuid, owner: Uuid, expiry: Time) {
    && record.state == TC.JournalState.Pending && record.reservation.id == Some(id)
    && record.reservation.ownerId == Some(owner) && record.reservation.expiresAt == Some(expiry)
  }

  predicate QueuedUntil(record: RuntimeRecord, owner: Uuid, expiry: Time) {
    record.state == TC.Queued && record.queue.ownerId == Some(owner) && record.queue.expiresAt == Some(expiry)
  }

  /** The same submission: identity, receipt, outputs and whether it is hidden. */
  predicate SameSubmission(before: RuntimeRecord, after: RuntimeRecord) {
    && after.identity == before.identity && after.submitId == before.submitId && after.hidden == before.hidden
    && after.providerOutputs == before.providerOutputs && after.officialStatus == before.officialStatus
    && after.polling == before.polling
  }

  // ---------------------------------------------------------------- queueing

  /** A key is queued exactly if it is new and the ticket counter has room: as this request, under this ticket, until
      now + leaseMs. A key that is there is refused as a conflict exactly if it holds another request. */
  lemma {:induction false} EnqueueExactly(records: Records, ticket: int, key: Key, identity: Identity, owner: Uuid,
      now: Time, leaseMs: nat)
    ensures var decision := Enqueue(records, ticket, key, identity, owner, now, leaseMs);
      && (decision.Write? <==> key !in records && 1 <= ticket < MAX_SAFE_INTEGER)
      && (decision == Refuse(IdempotencyConflict) <==>
            key in records && records[key].identity.requestHash != identity.requestHash)
      && (decision == Refuse(SubmissionUnknown) <==>
            key in records && records[key].identity.requestHash == identity.requestHash)
      && (decision == Refuse(StateRefused) <==> key !in records && !(1 <= ticket < MAX_SAFE_INTEGER))
      && (decision.Write? ==>
            && OnlyAt(records, key, decision.records) && decision.nextTicket == ticket + 1
            && var record := decision.records[key];
               && record.identity == identity && record.queue.ticket == Some(ticket)
               && QueuedUntil(record, owner, now + leaseMs) && record.updatedAt == now
               && record.fence == NO_FENCE && record.reservation == NO_RESERVATION && record.polling == NO_POLLING
               && record.submitId.None? && record.errorCode.None? && record.officialStatus.None?
               && record.providerOutputs.None? && !record.hidden)
  {
  }

  /** A queue lease is renewed until now + leaseMs exactly for the live owner of this request. */
  lemma {:induction false} QueueRenewalExactly(records: Records, ticket: int, key: Key, requestHash: string,
      owner: Uuid, now: Time, leaseMs: nat)
    ensures var decision := RenewQueueLease(records, ticket, key, requestHash, owner, now, leaseMs);
      && (decision.Write? <==>
            && key in records && records[key].identity.requestHash == requestHash
            && var expiry := records[key].queue.expiresAt;
               expiry.Some? && now < expiry.value && QueuedUntil(records[key], owner, expiry.value))
      && (!decision.Write? ==> decision == Refuse(CliFenced))
      && (decision.Write? ==>
            && OnlyAt(records, key, decision.records) && decision.nextTicket == ticket
            && QueuedUntil(decision.records[key], owner, now + leaseMs)
            && decision.records[key] == records[key].(queue := decision.records[key].queue)
            && decision.records[key].queue.ticket == records[key].queue.ticket)
  {
  }

  /** The live queue of `records`, spelled out. */
  predicate Lines(records: Records, key: Key, now: Time) {
    && key in records && records[key].state == TC.Queued && records[key].queue.ownerId.Some?
    && records[key].queue.expiresAt.Some? && now < records[key].queue.expiresAt.value
  }

  lemma {:induction false} LinesExactly(records: Records, key: Key, now: Time)
    ensures Lines(records, key, now) <==> key in LiveQueue(records, now)
  {
  }

  /** Whatever may be at the provider takes a slot: what is being submitted, is uncertain, or was accepted and has not
      ended. */
  lemma {:induction false} SlotsExactly(records: Records, key: Key)
    ensures key in Reserving(records) <==>
      && key in records
      && records[key].state !in {TC.Queued, TC.JournalState.Succeeded, TC.JournalState.Failed,
                                 TC.JournalState.Cancelled, TC.Deleted}
  {
    if key in records {
      match records[key].state
      case Pending =>
      case Unknown =>
      case Accepted =>
      case Queued =>
      case Succeeded =>
      case Failed =>
      case Cancelled =>
      case Deleted =>
    }
  }

  /** A slot is taken exactly by a queued record of this request whose lease lives and which has fewer live records
      ahead than slots are free. It then leaves the queue and is held, not yet permitted to spawn, until
      now + leaseMs. Until its turn nothing happens. */
  lemma {:induction false} ReservationExactly(records: Records, ticket: int, key: Key, requestHash: string, id: Uuid,
      owner: Uuid, now: Time, leaseMs: nat, maxActive: nat)
    ensures var decision := Reserve(records, ticket, key, requestHash, id, owner, now, leaseMs, maxActive);
            var known := key in records && records[key].identity.requestHash == requestHash;
            var turn := known && Lines(records, key, now)
                        && |Ahead(records, key, now)| < maxActive - |Reserving(records)|;
      && (decision == Refuse(StateRefused) <==> !known)
      && (decision == Refuse(SubmissionUnknown) <==> known && records[key].state != TC.Queued)
      && (decision.Write? <==> turn)
      && (decision == Keep <==> known && records[key].state == TC.Queued && !turn)
      && (decision.Write? ==>
            && OnlyAt(records, key, decision.records) && decision.nextTicket == ticket
            && var record := decision.records[key];
               && HeldUntil(record, id, owner, now + leaseMs) && record.reservation.phase == Some(Reserved)
               && record.queue == NO_QUEUE && record.updatedAt == now && record.fence == records[key].fence
               && record.errorCode == records[key].errorCode && record.journalVersion == records[key].journalVersion
               && SameSubmission(records[key], record))
  {
    LinesExactly(records, key, now);
    hide Ahead;
  }

  // ---------------------------------------------------------------- holding

  /** The holder of this request's slot, whose hold lives and is of the kind that says how far it has come. */
  predicate LiveHolder(records: Records, key: Key, requestHash: string, id: Uuid, owner: Uuid, now: Time) {
    && key in records && records[key].identity.requestHash == requestHash
    && records[key].reservation.phase.Some?
    && var expiry := records[key].reservation.expiresAt;
       expiry.Some? && now < expiry.value && HeldUntil(records[key], id, owner, expiry.value)
  }

  lemma {:induction false} HolderExactly(records: Records, key: Key, requestHash: string, id: Uuid, owner: Uuid,
      now: Time)
    requires key in records
    ensures LiveHolder(records, key, requestHash, id, owner, now)
       <==> MatchesReservation(records[key], requestHash, id, owner) && LiveReservation(records[key], now)
  {
  }

  /** A hold is renewed until now + leaseMs exactly for its live holder. */
  lemma {:induction false} HoldRenewalExactly(records: Records, ticket: int, key: Key, requestHash: string, id: Uuid,
      owner: Uuid, now: Time, leaseMs: nat)
    ensures var decision := RenewReservation(records, ticket, key, requestHash, id, owner, now, leaseMs);
      && (decision.Write? <==> LiveHolder(records, key, requestHash, id, owner, now))
      && (!decision.Write? ==> decision == Refuse(CliFenced))
      && (decision.Write? ==>
            && OnlyAt(records, key, decision.records) && decision.nextTicket == ticket
            && HeldUntil(decision.records[key], id, owner, now + leaseMs)
            && decision.records[key] == records[key].(reservation := decision.records[key].reservation)
            && decision.records[key].reservation.phase == records[key].reservation.phase)
  {
    if key in records {
      HolderExactly(records, key, requestHash, id, owner, now);
    }
    hide LiveHolder;
  }

  /** The account the session names, if it names one. */
  function NamedAccount(session: Option<Session>): Option<string> {
    if session.Some? && Truthy(session.value.accountBinding) then session.value.accountBinding else None
  }

  /** A fence is committed exactly by the live holder, under an epoch no older than the record's, and for no other
      account than the record's. The holder may then spawn until now + leaseMs, under this epoch, and the record is
      bound to the account and session epoch if the session names an account. */
  lemma {:induction false} FenceExactly(records: Records, ticket: int, key: Key, requestHash: string, id: Uuid,
      owner: Uuid, epoch: int, session: Option<Session>, now: Time, leaseMs: nat)
    ensures var decision := CommitFence(records, ticket, key, requestHash, id, owner, epoch, session, now, leaseMs);
            var holds := LiveHolder(records, key, requestHash, id, owner, now);
            var older := holds && records[key].fence.epoch.Some? && epoch < records[key].fence.epoch.value;
            var moved := holds && NamedAccount(session).Some? && Truthy(records[key].fence.accountBinding)
                         && records[key].fence.accountBinding != NamedAccount(session);
      && (decision.Write? <==> holds && !older && !moved)
      && (decision == Refuse(CliFenced) <==> !holds || older)
      && (decision == Refuse(AccountChanged) <==> holds && !older && moved)
      && (decision.Write? ==>
            && OnlyAt(records, key, decision.records) && decision.nextTicket == ticket
            && var record := decision.records[key];
               && HeldUntil(record, id, owner, now + leaseMs) && record.reservation.phase == Some(SpawnPermitted)
               && record.fence.epoch == Some(epoch)
               && record.fence.accountBinding == (if NamedAccount(session).Some? then NamedAccount(session)
                                                  else records[key].fence.accountBinding)
               && record.fence.sessionEpoch == (if NamedAccount(session).Some? then Some(session.value.epoch)
                                                else records[key].fence.sessionEpoch)
               && record == records[key].(fence := record.fence, reservation := record.reservation))
  {
    if key in records {
      HolderExactly(records, key, requestHash, id, owner, now);
    }
    hide LiveHolder;
  }

  /** The attempt's reservation, whether it has run out or not. */
  predicate Owns(records: Records, key: Key, requestHash: string, id: Uuid, owner: Uuid) {
    && key in records && records[key].identity.requestHash == requestHash
    && records[key].state == TC.JournalState.Pending && records[key].reservation.id == Some(id)
    && records[key].reservation.ownerId == Some(owner)
  }

  /** A receipt is recorded exactly for the attempt that was permitted to spawn under this epoch and, if the session
      names an account, bound to it in the same session. The record is then accepted and free of its hold. */
  lemma {:induction false} ReceiptExactly(records: Records, ticket: int, key: Key, requestHash: string, id: Uuid,
      owner: Uuid, epoch: int, submitId: string, session: Option<Session>, now: Time)
    ensures var decision := CommitReceipt(records, ticket, key, requestHash, id, owner, epoch, submitId, session, now);
            var permitted := Owns(records, key, requestHash, id, owner)
                             && records[key].reservation.phase == Some(SpawnPermitted)
                             && records[key].fence.epoch == Some(epoch);
            var bound := permitted && (NamedAccount(session).Some? ==>
                           records[key].fence.accountBinding == NamedAccount(session)
                             && records[key].fence.sessionEpoch == Some(session.value.epoch));
      && (decision.Write? <==> bound)
      && (decision == Refuse(CliFenced) <==> !permitted)
      && (decision == Refuse(AccountChanged) <==> permitted && !bound)
      && (decision.Write? ==>
            && OnlyAt(records, key, decision.records) && decision.nextTicket == ticket
            && decision.records[key] == records[key].(state := TC.JournalState.Accepted, submitId := Some(submitId),
                                                      updatedAt := now, reservation := NO_RESERVATION))
  {
  }

  /** A failed attempt is reported exactly by its owner, under its epoch if it had one. If it never spawned its record
      goes; if it did, what became of it is not known. */
  lemma {:induction false} FailureExactly(records: Records, ticket: int, key: Key, requestHash: string, id: Uuid,
      owner: Uuid, epoch: Option<int>, spawned: bool, code: string, now: Time)
    ensures var decision := CommitFailure(records, ticket, key, requestHash, id, owner, epoch, spawned, code, now);
      && (decision.Write? <==>
            Owns(records, key, requestHash, id, owner) && (epoch.Some? ==> records[key].fence.epoch == epoch))
      && (!decision.Write? ==> decision == Refuse(CliFenced))
      && (decision.Write? && !spawned ==>
            && decision.nextTicket == ticket && decision.records.Keys == records.Keys - {key}
            && forall k :: k in decision.records ==> decision.records[k] == records[k])
      && (decision.Write? && spawned ==>
            && OnlyAt(records, key, decision.records) && decision.nextTicket == ticket
            && decision.records[key] == records[key].(state := TC.Unknown, errorCode := Some(code), updatedAt := now,
                                                      reservation := NO_RESERVATION))
  {
  }

  /** What one section of a submission leaves is what the next one asks for: whoever took the slot may commit a fence
      and renew until the hold runs out, whoever committed the fence may record a receipt or report a failure. */
  lemma {:induction false} SubmissionProceeds(records: Records, ticket: int, key: Key, requestHash: string, id: Uuid,
      owner: Uuid, start: Time, leaseMs: nat, maxActive: nat, epoch: int, session: Option<Session>, now: Time,
      submitId: string, code: string, later: Time)
    requires var reserved := Reserve(records, ticket, key, requestHash, id, owner, start, leaseMs, maxActive);
      && reserved.Write? && records[key].fence == NO_FENCE && now < start + leaseMs
    ensures var held := Reserve(records, ticket, key, requestHash, id, owner, start, leaseMs, maxActive).records;
      && RenewReservation(held, ticket, key, requestHash, id, owner, now, leaseMs).Write?
      && CommitFailure(held, ticket, key, requestHash, id, owner, None, false, code, now).Write?
      && var fenced := CommitFence(held, ticket, key, requestHash, id, owner, epoch, session, now, leaseMs);
      && fenced.Write?
      && CommitReceipt(fenced.records, ticket, key, requestHash, id, owner, epoch, submitId, session, later).Write?
      && CommitFailure(fenced.records, ticket, key, requestHash, id, owner, Some(epoch), true, code, later).Write?
  {
    hide HasPriority;
  }

  // ---------------------------------------------------------------- other decisions

  /** Cancelling ends exactly what has not been submitted: a queued or unreceipted record becomes cancelled; what has
      ended, is being submitted or was accepted under a receipt is left alone; what is not there is not found. */
  lemma {:induction false} CancelExactly(records: Records, ticket: int, key: Key, now: Time)
    ensures var decision := Cancel(records, ticket, key, now);
            var known := key in records && records[key].identity.durable;
            var open :=
              && known
              && (records[key].state == TC.Queued
                  || (records[key].state == TC.JournalState.Accepted && !Truthy(records[key].submitId)));
      && (decision == Refuse(TaskNotFound) <==> !known) && (decision == Keep <==> known && !open)
      && (decision.Write? <==> open)
      && (decision.Write? ==>
            && OnlyAt(records, key, decision.records) && decision.nextTicket == ticket
            && decision.records[key] == records[key].(state := TC.JournalState.Cancelled, updatedAt := now,
                                                      errorCode := Some("dreamina_cancelled"), queue := NO_QUEUE))
  {
  }

  /** Deleting removes what has not been permitted to spawn and hides everything else; what is removed or hidden
      already stays, and what is not there, or is neither durable nor hidden, is not found. */
  lemma {:induction false} DeleteExactly(records: Records, ticket: int, key: Key, now: Time)
    ensures var decision := Delete(records, ticket, key, now);
            var there := key in records;
            var gone := there && (records[key].state == TC.Deleted || records[key].hidden);
            var early := there && (records[key].state == TC.Queued
                                   || (records[key].state == TC.JournalState.Pending
                                       && records[key].reservation.phase == Some(Reserved)));
      && (decision == Refuse(TaskNotFound) <==> !there || (!gone && !records[key].identity.durable))
      && (decision == Keep <==> gone)
      && (decision.Write? <==> there && !gone && records[key].identity.durable)
      && (decision.Write? ==>
            && OnlyAt(records, key, decision.records) && decision.nextTicket == ticket
            && decision.records[key] ==
                 if early then records[key].(state := TC.Deleted, updatedAt := now, queue := NO_QUEUE)
                 else records[key].(hidden := true, updatedAt := now))
  {
  }

  lemma {:induction false} EndedExactly(state: JournalState)
    ensures IsTerminal(state) <==> state !in {TC.Queued, TC.JournalState.Pending, TC.JournalState.Accepted}
  {
    match state
    case _ =>
  }

  /** A task fails here exactly if it is durable and has not ended; nothing is said about what holds it. */
  lemma {:induction false} FailExactly(records: Records, ticket: int, key: Key, code: string, now: Time)
    ensures var decision := FailTask(records, ticket, key, code, now);
            var known := key in records && records[key].identity.durable;
            var open := known && records[key].state in {TC.Queued, TC.JournalState.Pending, TC.JournalState.Accepted};
      && (decision == Refuse(StateRefused) <==> !known) && (decision == Keep <==> known && !open)
      && (decision.Write? <==> open)
      && (decision.Write? ==>
            && OnlyAt(records, key, decision.records) && decision.nextTicket == ticket
            && decision.records[key] == records[key].(state := TC.JournalState.Failed, errorCode := Some(code),
                                                      updatedAt := now, queue := NO_QUEUE))
  {
    if key in records {
      EndedExactly(records[key].state);
    }
  }

  function InterruptedAt(record: RuntimeRecord, now: Time): RuntimeRecord {
    record.(state := TC.JournalState.Failed, updatedAt := now, queue := NO_QUEUE,
            errorCode := Some("dreamina_interrupted_before_submission"))
  }

  /** A runtime that goes away fails exactly what it had queued, as interrupted. */
  lemma {:induction false} DisposeExactly(records: Records, ticket: int, owner: Uuid, now: Time)
    ensures var decision := Dispose(records, ticket, owner, now);
      && (decision.Write? <==>
            exists k :: k in records && records[k].state == TC.Queued && records[k].queue.ownerId == Some(owner))
      && (!decision.Write? ==> decision == Keep)
      && (decision.Write? ==>
            && decision.nextTicket == ticket && decision.records.Keys == records.Keys
            && forall k :: k in records ==>
                 decision.records[k] == (if records[k].state == TC.Queued && records[k].queue.ownerId == Some(owner)
                                         then InterruptedAt(records[k], now) else records[k]))
  {
    assert forall k :: k in records ==>
      (OwnedQueued(records[k], owner) <==> records[k].state == TC.Queued && records[k].queue.ownerId == Some(owner));
  }

  /** A cleanup that failed is noted exactly on the accepted record of its epoch. */
  lemma {:induction false} WarningExactly(records: Records, ticket: int, key: Key, epoch: int, now: Time)
    ensures var decision := CleanupWarning(records, ticket, key, epoch, now);
      && (decision.Write? <==>
            key in records && records[key].state == TC.JournalState.Accepted && records[key].fence.epoch == Some(epoch))
      && (!decision.Write? ==> decision == Refuse(CliFenced))
      && (decision.Write? ==>
            && OnlyAt(records, key, decision.records) && decision.nextTicket == ticket
            && decision.records[key] ==
                 records[key].(errorCode := Some("dreamina_reference_cleanup_failed"), updatedAt := now))
  {
  }

  /** A synchronous submission is started exactly for a new key while a slot is free; a key that holds the same request
      is answered if it was accepted under a receipt, and otherwise not known. */
  lemma {:induction false} SubmitExactly(records: Records, ticket: int, key: Key, requestHash: string, now: Time,
      maxActive: nat)
    ensures var decision := SubmitSynchronously(records, ticket, key, requestHash, now, maxActive);
            var same := key in records && records[key].identity.requestHash == requestHash;
            var answered := same && records[key].state == TC.JournalState.Accepted && Truthy(records[key].submitId);
      && (decision.Write? <==> key !in records && |Reserving(records)| < maxActive)
      && (decision == Refuse(CapacityFull) <==> key !in records && |Reserving(records)| >= maxActive)
      && (decision == Refuse(IdempotencyConflict) <==> key in records && !same)
      && (decision == Keep <==> answered)
      && (decision == Refuse(SubmissionUnknown) <==> same && !answered)
      && (decision.Write? ==>
            && OnlyAt(records, key, decision.records) && decision.nextTicket == ticket
            && var record := decision.records[key];
               && record.identity == Identity(requestHash, false, None, None, None, None, None, None)
               && record.state == TC.JournalState.Pending && record.updatedAt == now && record.fence == NO_FENCE
               && record.reservation == NO_RESERVATION && record.queue == NO_QUEUE && record.polling == NO_POLLING
               && record.submitId.None? && record.errorCode.None? && record.officialStatus.None?
               && record.providerOutputs.None? && !record.hidden)
  {
  }
}
