/** The class of canvas-agent/src/dreamina-cli-runtime.ts: a runtime's own record map beside the shared
    journal file. Every method is one lock-protected section, proved to perform its decision. */
module Runtime {
  import opened Wrappers
  import TC = TaskContract
  import opened Journal
  import opened RuntimeSections
  import QueueOrder
  import RuntimeLimits

  /** A reload that adopts the file as it is. */
  predicate AdoptsAsIs(memory: Records, disk: Disk, now: Time) {
    ValidDisk(disk) && !AnyExpired(disk.records, now) && !Stale(memory, RecoverAll(disk.records, now))
  }

  predicate ReservedTask(disk: Disk, key: Key) {
    && key in disk.records && disk.records[key].identity.durable && !disk.records[key].hidden
    && RuntimeLimits.HoldsReserved(disk.records[key])
  }

  class JournalFile {
    var disk: Disk

    constructor ()
      ensures disk == EMPTY
    {
      disk := EMPTY;
    }
  }

  class DreaminaCliRuntime {
    const file: JournalFile
    const owner: Uuid
    const leaseMs: nat
    const maxActive: nat
    var records: Records
    var nextQueueTicket: int

    constructor (file: JournalFile, owner: Uuid, leaseMs: nat, maxActive: nat)
      ensures this.file == file && this.owner == owner && this.leaseMs == leaseMs && this.maxActive == maxActive
      ensures records == map[] && nextQueueTicket == 1
    {
      this.file := file;
      this.owner := owner;
      this.leaseMs := leaseMs;
      this.maxActive := maxActive;
      records := map[];
      nextQueueTicket := 1;
    }

    /** persistUnlocked: the whole map goes to the file, or nothing does. */
    method PersistUnlocked() returns (stored: bool)
      modifies this`records, file
      ensures var r := Persist(old(file.disk), Disk(old(records), nextQueueTicket));
              && stored == r.Ok?
              && (stored ==> file.disk == r.value && records == file.disk.records)
              && (!stored ==> file.disk == old(file.disk) && records == old(records))
    {
      hide Progresses, ValidRecord, SameRecord;
      var versioned := AssignJournalVersions(file.disk.records, records);
      if versioned.Err? {
        return false;
      }
      var next := Disk(versioned.value, nextQueueTicket);
      if !ValidDisk(next) {
        return false;
      }
      file.disk := next;
      records := next.records;
      return true;
    }

    /** The recovery loop of reloadFromDisk. */
    static method RecoverRecords(disk: Disk, now: Time) returns (next: Records, recovered: bool)
      ensures next == RecoverAll(disk.records, now)
      ensures recovered == AnyExpired(disk.records, now)
    {
      hide RecoverRecord, ReservationExpired, QueueExpired;
      next, recovered := map[], false;
      var rest := disk.records.Keys;
      while rest != {}
        invariant rest <= disk.records.Keys
        invariant next.Keys == disk.records.Keys - rest
        invariant forall k :: k in next ==> next[k] == RecoverRecord(disk.records[k], now)
        invariant recovered <==> exists k ::
            k in next && (ReservationExpired(disk.records[k], now) || QueueExpired(disk.records[k], now))
        decreases rest
      {
        var key :| key in rest;
        var record := disk.records[key];
        if ReservationExpired(record, now) || QueueExpired(record, now) {
          recovered := true;
        }
        next := next[key := RecoverRecord(record, now)];
        rest := rest - {key};
      }
      assert next == RecoverAll(disk.records, now);
    }

    static method MaxTicket(disk: Disk) returns (ticket: int)
      ensures IsTicketCeiling(ticket, disk)
    {
      ticket := disk.nextQueueTicket;
      var rest := disk.records.Keys;
      while rest != {}
        invariant rest <= disk.records.Keys && disk.nextQueueTicket <= ticket
        invariant forall k :: k in disk.records && k !in rest ==> TicketAfter(disk.records[k]) <= ticket
        invariant ticket == disk.nextQueueTicket || exists k ::
            k in disk.records && TicketAfter(disk.records[k]) == ticket
        decreases rest
      {
        var key :| key in rest;
        if TicketAfter(disk.records[key]) > ticket {
          ticket := TicketAfter(disk.records[key]);
        }
        rest := rest - {key};
      }
    }

    /** reloadFromDisk: recover what expired, refuse a file that went backwards, adopt the rest. */
    method ReloadFromDisk(now: Time) returns (loaded: bool)
      modifies this, file
      ensures Reloads(old(records), old(file.disk), now, if loaded then Ok(Loaded(file.disk, nextQueueTicket))
          else Err(StateInvalid))
      ensures if loaded then records == file.disk.records else file.disk == old(file.disk)
      ensures AdoptsAsIs(old(records), old(file.disk), now) ==> loaded && file.disk == old(file.disk)
    {
      hide Persist, RecoverAll, AnyExpired, IsTicketCeiling;
      var next, recovered := RecoverRecords(file.disk, now);
      if Stale(records, next) {
        return false;
      }
      var ticket := MaxTicket(file.disk);
      nextQueueTicket := ticket;
      if !recovered {
        AdoptedUnchanged(file.disk, now);
        records := file.disk.records;
        return true;
      }
      records := next;
      loaded := PersistUnlocked();
    }

    static lemma {:induction false} AdoptedUnchanged(disk: Disk, now: Time)
      requires !AnyExpired(disk.records, now)
      ensures RecoverAll(disk.records, now) == disk.records
    {
      hide ReservationExpired, QueueExpired;
    }

    /** The end of every writing section: persist the prepared map. */
    method Commit(ghost disk: Disk, ghost decision: Decision) returns (outcome: Outcome)
      requires decision == Write(records, nextQueueTicket) && disk == file.disk
      modifies this`records, file
      ensures Concludes(disk, decision, file.disk, outcome)
      ensures records == if outcome == Wrote then file.disk.records else old(records)
    {
      hide Persist;
      var stored := PersistUnlocked();
      outcome := if stored then Wrote else Refused(StateRefused);
    }

    // -------------------------------------------------------------- sections

    method EnqueueNew(key: Key, identity: Identity, now: Time) returns (outcome: Outcome)
      modifies this, file
      ensures Performs(old(records), old(file.disk), now, (rs, t) => Enqueue(rs, t, key, identity, owner, now, leaseMs),
          file.disk, outcome)
    {
      hide Persist, Reloads;
      var loaded := ReloadFromDisk(now);
      if !loaded {
        return Refused(StateRefused);
      }
      if key in records {
        var concurrent := records[key];
        return Refused(if concurrent.identity.requestHash != identity.requestHash then IdempotencyConflict
          else SubmissionUnknown);
      }
      var queueTicket := nextQueueTicket;
      if queueTicket < 1 || queueTicket >= MAX_SAFE_INTEGER {
        return Refused(StateRefused);
      }
      ghost var decision := Enqueue(records, nextQueueTicket, key, identity, owner, now, leaseMs);
      nextQueueTicket := queueTicket + 1;
      records := records[key := Queue(identity, owner, queueTicket, now, leaseMs)];
      outcome := Commit(file.disk, decision);
    }

    method ReserveSubmissionSlot(key: Key, requestHash: string, id: Uuid, now: Time) returns (outcome: Outcome)
      modifies this, file
      ensures Performs(old(records), old(file.disk), now,
                       (rs, t) => Reserve(rs, t, key, requestHash, id, owner, now, leaseMs, maxActive), file.disk,
                         outcome)
    {
      hide Persist, Reloads, HasPriority;
      var loaded := ReloadFromDisk(now);
      if !loaded {
        return Refused(StateRefused);
      }
      if key !in records || records[key].identity.requestHash != requestHash {
        return Refused(StateRefused);
      }
      var record := records[key];
      if record.state != TC.Queued {
        return Refused(SubmissionUnknown);
      }
      var granted := QueueOrder.HasQueuedGenerationPriority(records, key, now, maxActive);
      if !granted {
        return Kept;
      }
      ghost var decision := Reserve(records, nextQueueTicket, key, requestHash, id, owner, now, leaseMs, maxActive);
      record := record.(queue := NO_QUEUE);
      record := record.(state := TC.JournalState.Pending, updatedAt := now,
                        reservation := Reservation(Some(id), Some(owner), Some(now + leaseMs), Some(Reserved)));
      records := records[key := record];
      outcome := Commit(file.disk, decision);
    }

    method RenewQueue(key: Key, requestHash: string, now: Time) returns (outcome: Outcome)
      modifies this, file
      ensures Performs(old(records), old(file.disk), now,
                       (rs, t) => RenewQueueLease(rs, t, key, requestHash, owner, now, leaseMs), file.disk, outcome)
    {
      hide Persist, Reloads;
      var loaded := ReloadFromDisk(now);
      if !loaded {
        return Refused(StateRefused);
      }
      if key !in records || records[key].identity.requestHash != requestHash || records[key].state != TC.Queued
         || records[key].queue.ownerId != Some(owner) || !LiveQueueLease(records[key], now) {
        return Refused(CliFenced);
      }
      ghost var decision := RenewQueueLease(records, nextQueueTicket, key, requestHash, owner, now, leaseMs);
      var lease := records[key].queue;
      records := records[key := records[key].(queue := lease.(expiresAt := Some(now + leaseMs)))];
      outcome := Commit(file.disk, decision);
    }

    method RenewHold(key: Key, requestHash: string, id: Uuid, now: Time) returns (outcome: Outcome)
      modifies this, file
      ensures Performs(old(records), old(file.disk), now,
                       (rs, t) => RenewReservation(rs, t, key, requestHash, id, owner, now, leaseMs), file.disk,
                         outcome)
    {
      hide Persist, Reloads;
      var loaded := ReloadFromDisk(now);
      if !loaded {
        return Refused(StateRefused);
      }
      if key !in records || !MatchesReservation(records[key], requestHash, id, owner)
        || !LiveReservation(records[key], now) {
        return Refused(CliFenced);
      }
      ghost var decision := RenewReservation(records, nextQueueTicket, key, requestHash, id, owner, now, leaseMs);
      var held := records[key].reservation;
      records := records[key := records[key].(reservation := held.(expiresAt := Some(now + leaseMs)))];
      outcome := Commit(file.disk, decision);
    }

    method CommitInvocationFence(key: Key, requestHash: string, id: Uuid, epoch: int, session: Option<Session>,
        now: Time)
      returns (outcome: Outcome)
      modifies this, file
      ensures Performs(old(records), old(file.disk), now,
                       (rs, t) => CommitFence(rs, t, key, requestHash, id, owner, epoch, session, now, leaseMs),
                         file.disk, outcome)
    {
      hide Persist, Reloads;
      var loaded := ReloadFromDisk(now);
      if !loaded {
        return Refused(StateRefused);
      }
      if key !in records || !MatchesReservation(records[key], requestHash, id, owner)
        || !LiveReservation(records[key], now) {
        return Refused(CliFenced);
      }
      var record := records[key];
      if record.fence.epoch.Some? && record.fence.epoch.value > epoch {
        return Refused(CliFenced);
      }
      var fence := record.fence;
      fence := fence.(epoch := Some(epoch));
      if session.Some? && Truthy(session.value.accountBinding) {
        if Truthy(fence.accountBinding) && fence.accountBinding != session.value.accountBinding {
          return Refused(AccountChanged);
        }
        fence := fence.(accountBinding := session.value.accountBinding, sessionEpoch := Some(session.value.epoch));
      }
      ghost var decision :=
          CommitFence(records, nextQueueTicket, key, requestHash, id, owner, epoch, session, now, leaseMs);
      var held := record.reservation;
      held := held.(phase := Some(SpawnPermitted), expiresAt := Some(now + leaseMs));
      records := records[key := record.(fence := fence, reservation := held)];
      outcome := Commit(file.disk, decision);
    }

    method CommitAcceptedReceipt(key: Key, requestHash: string, id: Uuid, epoch: int, submitId: string,
                                 session: Option<Session>, now: Time) returns (outcome: Outcome)
      modifies this, file
      ensures Performs(old(records), old(file.disk), now,
                       (rs, t) => CommitReceipt(rs, t, key, requestHash, id, owner, epoch, submitId, session, now),
                         file.disk, outcome)
    {
      hide Persist, Reloads;
      var loaded := ReloadFromDisk(now);
      if !loaded {
        return Refused(StateRefused);
      }
      if key !in records || !MatchesReservation(records[key], requestHash, id, owner)
         || records[key].reservation.phase != Some(SpawnPermitted) || records[key].fence.epoch != Some(epoch) {
        return Refused(CliFenced);
      }
      var record := records[key];
      if session.Some? && Truthy(session.value.accountBinding)
         && (record.fence.accountBinding != session.value.accountBinding
           || record.fence.sessionEpoch != Some(session.value.epoch)) {
        return Refused(AccountChanged);
      }
      ghost var decision :=
          CommitReceipt(records, nextQueueTicket, key, requestHash, id, owner, epoch, submitId, session, now);
      record := record.(state := TC.JournalState.Accepted, submitId := Some(submitId), updatedAt := now);
      record := record.(reservation := NO_RESERVATION);
      records := records[key := record];
      outcome := Commit(file.disk, decision);
    }

    method CommitSubmissionFailure(key: Key, requestHash: string, id: Uuid, epoch: Option<int>, spawned: bool,
        code: string,
                                   now: Time) returns (outcome: Outcome)
      modifies this, file
      ensures Performs(old(records), old(file.disk), now,
                       (rs, t) => CommitFailure(rs, t, key, requestHash, id, owner, epoch, spawned, code, now),
                         file.disk, outcome)
    {
      hide Persist, Reloads;
      var loaded := ReloadFromDisk(now);
      if !loaded {
        return Refused(StateRefused);
      }
      if key !in records || !MatchesReservation(records[key], requestHash, id, owner) {
        return Refused(CliFenced);
      }
      if epoch.Some? && records[key].fence.epoch != epoch {
        return Refused(CliFenced);
      }
      ghost var decision :=
          CommitFailure(records, nextQueueTicket, key, requestHash, id, owner, epoch, spawned, code, now);
      if !spawned {
        records := records - {key};
      } else {
        var record := records[key];
        record := record.(state := TC.Unknown, errorCode := Some(code), updatedAt := now);
        records := records[key := record.(reservation := NO_RESERVATION)];
      }
      outcome := Commit(file.disk, decision);
    }

    method CancelTask(key: Key, now: Time) returns (outcome: Outcome)
      modifies this, file
      ensures Performs(old(records), old(file.disk), now, (rs, t) => Cancel(rs, t, key, now), file.disk, outcome)
    {
      hide Persist, Reloads;
      var loaded := ReloadFromDisk(now);
      if !loaded {
        return Refused(StateRefused);
      }
      if key !in records || !records[key].identity.durable {
        return Refused(TaskNotFound);
      }
      var record := records[key];
      if IsTerminal(record.state) || record.state == TC.JournalState.Pending {
        return Kept;
      }
      if record.state == TC.JournalState.Accepted && Truthy(record.submitId) {
        return Kept;
      }
      ghost var decision := Cancel(records, nextQueueTicket, key, now);
      record := record.(state := TC.JournalState.Cancelled, errorCode := Some("dreamina_cancelled"), updatedAt := now);
      records := records[key := record.(queue := NO_QUEUE)];
      outcome := Commit(file.disk, decision);
    }

    method DeleteTask(key: Key, now: Time) returns (outcome: Outcome)
      modifies this, file
      ensures Performs(old(records), old(file.disk), now, (rs, t) => Delete(rs, t, key, now), file.disk, outcome)
      ensures AdoptsAsIs(old(records), old(file.disk), now) && ReservedTask(old(file.disk), key) ==>
                && outcome == Refused(StateRefused) && file.disk == old(file.disk)
                && records == old(file.disk.records)[key := Removed(old(file.disk).records[key], now)]
    {
      hide Persist, Reloads;
      var loaded := ReloadFromDisk(now);
      if !loaded {
        return Refused(StateRefused);
      }
      if key !in records {
        return Refused(TaskNotFound);
      }
      var record := records[key];
      if record.state == TC.Deleted || record.hidden {
        return Kept;
      }
      if !record.identity.durable {
        return Refused(TaskNotFound);
      }
      ghost var decision := Delete(records, nextQueueTicket, key, now);
      ghost var reserved := AdoptsAsIs(old(records), old(file.disk), now) && ReservedTask(old(file.disk), key);
      if reserved {
        RuntimeLimits.DeletingStoredExactly(file.disk, nextQueueTicket, key, now);
      }
      var removeLocally := record.state == TC.Queued
        || (record.state == TC.JournalState.Pending && record.reservation.phase == Some(Reserved));
      record := record.(updatedAt := now);
      if removeLocally {
        record := record.(state := TC.Deleted, queue := NO_QUEUE);
      } else {
        record := record.(hidden := true);
      }
      records := records[key := record];
      outcome := Commit(file.disk, decision);
    }

    method FailPending(key: Key, code: string, now: Time) returns (outcome: Outcome)
      modifies this, file
      ensures Performs(old(records), old(file.disk), now, (rs, t) => FailTask(rs, t, key, code, now), file.disk,
          outcome)
    {
      hide Persist, Reloads;
      var loaded := ReloadFromDisk(now);
      if !loaded {
        return Refused(StateRefused);
      }
      if key !in records || !records[key].identity.durable {
        return Refused(StateRefused);
      }
      var record := records[key];
      if IsTerminal(record.state) {
        return Kept;
      }
      ghost var decision := FailTask(records, nextQueueTicket, key, code, now);
      record := record.(state := TC.JournalState.Failed, errorCode := Some(code), updatedAt := now);
      records := records[key := record.(queue := NO_QUEUE)];
      outcome := Commit(file.disk, decision);
    }

    /** The loop of failOwnedQueuedTasksOnDispose. */
    method InterruptOwned(now: Time) returns (changed: bool)
      modifies this`records
      ensures changed <==> exists k :: k in old(records) && OwnedQueued(old(records)[k], owner)
      ensures records == AllInterrupted(old(records), owner, now)
    {
      hide OwnedQueued, Interrupted;
      ghost var before := records;
      changed := false;
      var rest := records.Keys;
      while rest != {}
        invariant rest <= before.Keys == records.Keys
        invariant forall k :: k in rest ==> records[k] == before[k]
        invariant forall k :: k in before && k !in rest ==> records[k] == AfterDispose(before[k], owner, now)
        invariant changed <==> exists k :: k in before && k !in rest && OwnedQueued(before[k], owner)
        decreases rest
      {
        var key :| key in rest;
        if OwnedQueued(records[key], owner) {
          records := records[key := Interrupted(records[key], now)];
          changed := true;
        }
        rest := rest - {key};
      }
    }

    /** failOwnedQueuedTasksOnDispose. */
    method FailOwnedQueuedTasks(now: Time) returns (outcome: Outcome)
      modifies this, file
      ensures Performs(old(records), old(file.disk), now, (rs, t) => Dispose(rs, t, owner, now), file.disk, outcome)
    {
      hide Persist, Reloads;
      var loaded := ReloadFromDisk(now);
      if !loaded {
        return Refused(StateRefused);
      }
      ghost var decision := Dispose(records, nextQueueTicket, owner, now);
      var changed := InterruptOwned(now);
      if !changed {
        return Kept;
      }
      outcome := Commit(file.disk, decision);
    }

    /** The first section of the synchronous path; the caller keeps the lock afterwards. */
    method SubmitWithLock(key: Key, requestHash: string, now: Time) returns (outcome: Outcome)
      modifies this, file
      ensures Performs(old(records), old(file.disk), now,
                       (rs, t) => SubmitSynchronously(rs, t, key, requestHash, now, maxActive), file.disk, outcome)
    {
      hide Persist, Reloads;
      var loaded := ReloadFromDisk(now);
      if !loaded {
        return Refused(StateRefused);
      }
      if key in records {
        var existing := records[key];
        if existing.identity.requestHash != requestHash {
          return Refused(IdempotencyConflict);
        }
        if existing.state == TC.JournalState.Accepted && Truthy(existing.submitId) {
          return Kept;
        }
        return Refused(SubmissionUnknown);
      }
      if |Reserving(records)| >= maxActive {
        return Refused(CapacityFull);
      }
      ghost var decision := SubmitSynchronously(records, nextQueueTicket, key, requestHash, now, maxActive);
      var identity := Identity(requestHash, false, None, None, None, None, None, None);
      records := records[key := RuntimeRecord(identity, TC.JournalState.Pending, None, now, NO_FENCE, NO_RESERVATION,
                                              NO_QUEUE, None, None, None, NO_POLLING, None, false)];
      outcome := Commit(file.disk, decision);
    }

    method PersistCleanupWarning(key: Key, epoch: int, now: Time) returns (outcome: Outcome)
      modifies this, file
      ensures Performs(old(records), old(file.disk), now, (rs, t) => CleanupWarning(rs, t, key, epoch, now), file.disk,
          outcome)
    {
      hide Persist, Reloads;
      var loaded := ReloadFromDisk(now);
      if !loaded {
        return Refused(StateRefused);
      }
      if key !in records || records[key].state != TC.JournalState.Accepted || records[key].fence.epoch != Some(epoch) {
        return Refused(CliFenced);
      }
      ghost var decision := CleanupWarning(records, nextQueueTicket, key, epoch, now);
      records := records[key :=
        records[key].(errorCode := Some("dreamina_reference_cleanup_failed"), updatedAt := now)];
      outcome := Commit(file.disk, decision);
    }
  }
}
