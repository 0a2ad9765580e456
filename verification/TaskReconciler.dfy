/** The class of canvas-agent/src/dreamina-task-reconciler.ts: its sections change record fields in place and
    persist the journal they share with the runtimes. */
module TaskReconciler {
  import opened Wrappers
  import TC = TaskContract
  import opened Journal
  import opened RuntimeSections
  import opened Reconciler
  import opened Runtime

  lemma {:induction false} PolledBeforeIsStrictTotal(records: Records, a: Key, b: Key, c: Key)
    requires a in records && b in records && c in records
    ensures !PolledBefore(records, a, a)
    ensures a != b ==> PolledBefore(records, a, b) != PolledBefore(records, b, a)
    ensures PolledBefore(records, a, b) && PolledBefore(records, b, c) ==> PolledBefore(records, a, c)
  {
  }

  /** applyObservation, assigning and deleting fields one at a time. */
  method ApplyObservation(record: RuntimeRecord, observed: Observed) returns (applied: RuntimeRecord)
    ensures applied == Apply(record, observed)
  {
    applied := record;
    if applied.state == TC.JournalState.Succeeded && observed.status != TC.Completed {
      return applied.(errorCode := Some("dreamina_observation_conflict"));
    }
    applied := applied.(officialStatus := Some(observed.status));
    if observed.status == TC.ProviderStatus.Pending || observed.status == TC.Processing {
      applied := applied.(state := TC.JournalState.Accepted);
      return applied.(errorCode := ClearSyncError(applied.errorCode));
    }
    if observed.status == TC.Completed {
      applied := applied.(state := TC.JournalState.Succeeded);
      if observed.providerOutputs.Some? {
        applied := applied.(providerOutputs := observed.providerOutputs);
      }
      return applied.(errorCode := if Truthy(observed.retryCode) then RetryCode(observed)
        else ClearSyncError(applied.errorCode));
    }
    if observed.status == TC.ProviderStatus.Cancelled {
      return applied.(state := TC.JournalState.Cancelled, errorCode := Some("dreamina_official_cancelled"));
    }
    return applied.(state := TC.JournalState.Failed, errorCode := Some("dreamina_official_failed"));
  }

  class DreaminaTaskReconciler {
    const file: JournalFile
    const instanceId: Uuid
    const pollLeaseMs: nat

    constructor (file: JournalFile, instanceId: Uuid, pollLeaseMs: nat)
      ensures this.file == file && this.instanceId == instanceId && this.pollLeaseMs == pollLeaseMs
    {
      this.file := file;
      this.instanceId := instanceId;
      this.pollLeaseMs := pollLeaseMs;
    }

    /** persistRuntimeDiskState with the records of the disk just read. */
    method Store(records: Records, ghost decision: Decision) returns (outcome: Outcome)
      requires decision == Write(records, file.disk.nextQueueTicket)
      modifies file
      ensures Concludes(old(file.disk), decision, file.disk, outcome)
    {
      hide Progresses, ValidRecord, SameRecord;
      var versioned := AssignJournalVersions(file.disk.records, records);
      if versioned.Err? {
        return Refused(StateRefused);
      }
      var next := Disk(versioned.value, file.disk.nextQueueTicket);
      if !ValidDisk(next) {
        return Refused(StateRefused);
      }
      file.disk := next;
      outcome := Wrote;
    }

    /** The filter and the sort of claimDue: the due record polled before every other. */
    static method FirstDue(records: Records, now: Time) returns (first: Option<Key>)
      ensures match first
              case Some(key) => MayClaim(records, key, now)
              case None => forall k :: k in records ==> !Due(records[k], now)
    {
      hide Due;
      first := None;
      var rest := records.Keys;
      while rest != {}
        invariant rest <= records.Keys
        invariant first.None? ==> forall k :: k in records && k !in rest ==> !Due(records[k], now)
        invariant first.Some? ==> first.value in records && first.value !in rest && Due(records[first.value], now)
        invariant first.Some? ==> forall k :: k in records && k !in rest && k != first.value && Due(records[k], now) ==>
                    PolledBefore(records, first.value, k)
        decreases rest
      {
        var key :| key in rest;
        if Due(records[key], now) {
          if first.None? || PolledBefore(records, key, first.value) {
            forall k | first.Some? && k in records && k !in rest && k != first.value && Due(records[k], now)
              ensures PolledBefore(records, key, k)
            {
              PolledBeforeIsStrictTotal(records, key, first.value, k);
            }
            first := Some(key);
          } else {
            PolledBeforeIsStrictTotal(records, key, first.value, key);
          }
        }
        rest := rest - {key};
      }
    }

    /** claimDue: the lease goes to the first due record, or to none. */
    method ClaimDue(leaseId: Uuid, now: Time) returns (claimed: Option<Key>, lease: PollLease)
      modifies file
      ensures lease == PollLease(leaseId, instanceId, now + pollLeaseMs)
      ensures claimed.Some? ==>
                && MayClaim(old(file.disk.records), claimed.value, now)
                && Concludes(old(file.disk),
                  Claim(old(file.disk.records), old(file.disk.nextQueueTicket), claimed.value, lease, now),
                             file.disk, Wrote)
      ensures claimed.None? ==>
                || (forall k :: k in old(file.disk.records) ==> !Due(old(file.disk.records)[k], now))
                || (exists key :: MayClaim(old(file.disk.records), key, now) &&
                     Concludes(old(file.disk),
                       Claim(old(file.disk.records), old(file.disk.nextQueueTicket), key, lease, now),
                               file.disk, Refused(StateRefused)))
    {
      hide Persist, PolledBefore;
      lease := PollLease(leaseId, instanceId, now + pollLeaseMs);
      claimed := FirstDue(file.disk.records, now);
      if claimed.Some? {
        var key := claimed.value;
        var records := file.disk.records;
        ghost var decision := Claim(records, file.disk.nextQueueTicket, key, lease, now);
        var outcome := Store(records[key := Leased(records[key], Some(lease))], decision);
        if outcome != Wrote {
          claimed := None;
        }
      }
    }

    method Renew(key: Key, lease: PollLease, now: Time) returns (outcome: Outcome)
      modifies file
      ensures Concludes(old(file.disk),
          RenewLease(old(file.disk.records), old(file.disk.nextQueueTicket), key, lease, now + pollLeaseMs),
                        file.disk, outcome)
    {
      hide Persist;
      var records := file.disk.records;
      if key !in records || !SameLease(records[key].polling.lease, lease) {
        return Refused(CliFenced);
      }
      ghost var decision := RenewLease(records, file.disk.nextQueueTicket, key, lease, now + pollLeaseMs);
      var record := Leased(records[key], Some(lease.(expiresAt := now + pollLeaseMs)));
      outcome := Store(records[key := record], decision);
    }

    method Commit(key: Key, lease: PollLease, observed: Observed, now: Time,
        schedule: Schedule) returns (outcome: Outcome)
      modifies file
      ensures Concludes(old(file.disk),
                        CommitObservation(old(file.disk.records), old(file.disk.nextQueueTicket), key, lease, observed,
                          now, schedule),
                        file.disk, outcome)
    {
      hide Persist, Apply;
      var records := file.disk.records;
      if key !in records || !SameLease(records[key].polling.lease, lease) {
        return Kept;
      }
      ghost var decision := CommitObservation(records, file.disk.nextQueueTicket, key, lease, observed, now, schedule);
      var record := records[key];
      var polling := record.polling;
      if polling.lastObservedAt.Some? && observed.observedAt < polling.lastObservedAt.value {
        polling := polling.(lease := None);
        if Eligible(record) {
          polling := polling.(nextPollAt := Some(schedule.pollAt));
        }
        outcome := Store(records[key := record.(polling := polling)], decision);
        return;
      }
      record := ApplyObservation(record, observed);
      polling := polling.(lastObservedAt := Some(observed.observedAt));
      record := record.(updatedAt := now);
      polling := polling.(lease := None);
      if observed.status == TC.ProviderStatus.Pending || observed.status == TC.Processing {
        polling := polling.(retryCount := Some(0));
        polling := polling.(nextPollAt := Some(schedule.pollAt));
      } else if observed.status == TC.Completed && Truthy(observed.retryCode) {
        var count := Bumped(polling.retryCount);
        polling := polling.(retryCount := Some(count));
        record := record.(errorCode := RetryCode(observed));
        polling := polling.(nextPollAt := Some(schedule.retryAt(count)));
      } else {
        polling := polling.(retryCount := Some(0));
        polling := polling.(nextPollAt := None);
      }
      outcome := Store(records[key := record.(polling := polling)], decision);
    }

    method CommitFailure(key: Key, lease: PollLease, code: string, now: Time,
        schedule: Schedule) returns (outcome: Outcome)
      modifies file
      ensures Concludes(old(file.disk),
                        CommitSyncError(old(file.disk.records), old(file.disk.nextQueueTicket), key, lease, code, now,
                          schedule),
                        file.disk, outcome)
    {
      hide Persist;
      var records := file.disk.records;
      if key !in records || !SameLease(records[key].polling.lease, lease) {
        return Kept;
      }
      ghost var decision := CommitSyncError(records, file.disk.nextQueueTicket, key, lease, code, now, schedule);
      var record := records[key];
      var polling := record.polling;
      polling := polling.(lease := None);
      record := record.(errorCode := Some(code));
      polling := polling.(retryCount := Some(Bumped(polling.retryCount)));
      polling := polling.(nextPollAt := Some(schedule.retryAt(polling.retryCount.value)));
      record := record.(updatedAt := now, polling := polling);
      outcome := Store(records[key := record], decision);
    }

    method Release(key: Key, lease: PollLease) returns (outcome: Outcome)
      modifies file
      ensures Concludes(old(file.disk),
          ReleaseLease(old(file.disk.records), old(file.disk.nextQueueTicket), key, lease), file.disk, outcome)
    {
      hide Persist;
      var records := file.disk.records;
      if key !in records || !SameLease(records[key].polling.lease, lease) {
        return Kept;
      }
      ghost var decision := ReleaseLease(records, file.disk.nextQueueTicket, key, lease);
      outcome := Store(records[key := Leased(records[key], None)], decision);
    }

    /** The loop of releaseOwnedLeases. */
    method ReleaseOwnedLeases() returns (outcome: Outcome)
      modifies file
      ensures Concludes(old(file.disk),
          ReleaseOwned(old(file.disk.records), old(file.disk.nextQueueTicket), instanceId), file.disk, outcome)
    {
      hide Persist;
      var before := file.disk.records;
      ghost var decision := ReleaseOwned(before, file.disk.nextQueueTicket, instanceId);
      var records, changed, rest := before, false, before.Keys;
      while rest != {}
        invariant rest <= before.Keys == records.Keys
        invariant forall k :: k in rest ==> records[k] == before[k]
        invariant forall k :: k in before && k !in rest ==>
          records[k] == if OwnedLease(before[k], instanceId) then Leased(before[k], None) else before[k]
        invariant changed <==> exists k :: k in before && k !in rest && OwnedLease(before[k], instanceId)
        decreases rest
      {
        var key :| key in rest;
        if OwnedLease(records[key], instanceId) {
          records := records[key := Leased(records[key], None)];
          changed := true;
        }
        rest := rest - {key};
      }
      if !changed {
        return Kept;
      }
      assert decision.Write? && decision.records == records;
      outcome := Store(records, decision);
    }

    /** The loop of initialize: every eligible record without a due time gets one. */
    static method DateUndated(before: Records, now: Time, delay: Key -> nat) returns (records: Records, changed: bool)
      ensures records == AllDated(before, now, delay)
      ensures changed <==> exists k :: k in before && Undated(before[k])
    {
      hide Undated, Scheduled;
      records, changed := before, false;
      var rest := before.Keys;
      while rest != {}
        invariant rest <= before.Keys == records.Keys
        invariant forall k :: k in rest ==> records[k] == before[k]
        invariant forall k :: k in before && k !in rest ==> records[k] == Dated(before[k], now + delay(k))
        invariant changed <==> exists k :: k in before && k !in rest && Undated(before[k])
        decreases rest
      {
        var key :| key in rest;
        if Undated(records[key]) {
          records := records[key := Scheduled(records[key], now + delay(key))];
          changed := true;
        }
        rest := rest - {key};
      }
    }

    method InitializeDueTimes(now: Time, delay: Key -> nat) returns (outcome: Outcome)
      modifies file
      ensures Concludes(old(file.disk), Initialize(old(file.disk.records), old(file.disk.nextQueueTicket), now, delay),
          file.disk, outcome)
    {
      hide Persist, Undated, Scheduled;
      var before := file.disk.records;
      ghost var decision := Initialize(before, file.disk.nextQueueTicket, now, delay);
      var records, changed := DateUndated(before, now, delay);
      if !changed {
        return Kept;
      }
      outcome := Store(records, decision);
    }
  }
}
