/** What polling does in canvas-agent/src/dreamina-task-reconciler.ts: what an observation or a failed poll leaves on
    the record of the lease's holder, and who may claim, renew and release a lease. */
module Observations {
  import opened Wrappers
  import TC = TaskContract
  import opened Journal
  import opened RuntimeSections
  import opened Reconciler

  /** Nothing but the record of `key` differs, and it is `record`. */
  predicate OnlyAt(before: Records, key: Key, record: RuntimeRecord, after: Records) {
    after.Keys == before.Keys + {key} && after[key] == record && forall k :: k in before && k != key ==>
      after[k] == before[k]
  }

  predicate HoldsLease(records: Records, key: Key, lease: PollLease) {
    && key in records && records[key].polling.lease.Some?
    && records[key].polling.lease.value.leaseId == lease.leaseId
    && records[key].polling.lease.value.ownerId == lease.ownerId
  }

  // ---------------------------------------------------------------- observations

  /** The state each status of the provider stands for. */
  predicate StandsFor(status: TC.ProviderStatus, state: JournalState) {
    && (state == TC.JournalState.Accepted <==> status in {TC.ProviderStatus.Pending, TC.Processing})
    && (state == TC.JournalState.Succeeded <==> status == TC.Completed)
    && (state == TC.JournalState.Cancelled <==> status == TC.ProviderStatus.Cancelled)
    && (state == TC.JournalState.Failed <==> status == TC.ProviderStatus.Failed)
  }

  /** A code the observation leaves in place: that references could not be cleaned up. */
  predicate StandingCode(code: Option<string>) {
    code in {None, Some(""), Some("dreamina_reference_cleanup_failed")}
  }

  predicate Retries(observed: Observed) {
    observed.status == TC.Completed && Truthy(observed.retryCode)
  }

  /** The record counts as succeeded and the provider says otherwise. */
  predicate Conflicts(record: RuntimeRecord, observed: Observed) {
    record.state == TC.JournalState.Succeeded && observed.status != TC.Completed
  }

  predicate Stale(record: RuntimeRecord, observed: Observed) {
    record.polling.lastObservedAt.Some? && observed.observedAt < record.polling.lastObservedAt.value
  }

  /** The code an observation leaves, for each of its cases. */
  function CodeAfter(record: RuntimeRecord, observed: Observed): Option<string> {
    if Retries(observed) then
      (if SafeCode(observed.retryCode.value) then observed.retryCode else Some("dreamina_query_failed"))
    else if Conflicts(record, observed) then Some("dreamina_observation_conflict")
    else if observed.status == TC.ProviderStatus.Cancelled then Some("dreamina_official_cancelled")
    else if observed.status == TC.ProviderStatus.Failed then Some("dreamina_official_failed")
    else if StandingCode(record.errorCode) then record.errorCode
    else None
  }

  /** An observation no older than the last one takes the record to the state its status stands for, takes over the
      outputs that come with a completion, and clears trouble, but never takes success back. It gives up the lease, and
      is polled again while the provider has not finished or the results are not there. */
  predicate ObservedAs(record: RuntimeRecord, observed: Observed, now: Time, schedule: Schedule, next: RuntimeRecord) {
    var attempts := if record.polling.retryCount.GetOr(0) + 1 > 1000000 then 1000000
                    else record.polling.retryCount.GetOr(0) + 1;
    && (if Conflicts(record, observed) then next.state == record.state && next.officialStatus == record.officialStatus
        else StandsFor(observed.status, next.state) && next.officialStatus == Some(observed.status))
    && next.providerOutputs == (if observed.status == TC.Completed && observed.providerOutputs.Some?
                                then observed.providerOutputs else record.providerOutputs)
    && next.errorCode == CodeAfter(record, observed)
    && next.updatedAt == now && next.polling.lease.None? && next.polling.lastObservedAt == Some(observed.observedAt)
    && next.polling.nextPollAt == (if observed.status in {TC.ProviderStatus.Pending, TC.Processing}
                                   then Some(schedule.pollAt)
                                   else if Retries(observed) then Some(schedule.retryAt(attempts)) else None)
    && next.polling.retryCount == Some(if Retries(observed) then attempts else 0)
    && next == record.(state := next.state, officialStatus := next.officialStatus, errorCode := next.errorCode,
                       providerOutputs := next.providerOutputs, updatedAt := now, polling := next.polling)
  }

  lemma {:induction false} ObservationTells(record: RuntimeRecord, observed: Observed, now: Time, schedule: Schedule)
    requires !Stale(record, observed)
    ensures ObservedAs(record, observed, now, schedule, Observe(record, observed, now, schedule))
  {
    hide SafeCode;
    SafeEmpty();
  }

  lemma {:induction false} SafeEmpty()
    ensures !SafeCode("")
  {
  }

  /** An observation counts exactly for the holder of the lease; what anybody else reports changes nothing. An older one
      than the last gives up the lease and asks again if the record is still polled. */
  lemma {:induction false} ObservationExactly(records: Records, ticket: int, key: Key, lease: PollLease,
      observed: Observed, now: Time, schedule: Schedule)
    ensures var decision := CommitObservation(records, ticket, key, lease, observed, now, schedule);
      && (decision.Write? <==> HoldsLease(records, key, lease)) && (!decision.Write? ==> decision == Keep)
      && (decision.Write? ==>
            && decision.nextTicket == ticket && key in decision.records
            && var (before, after) := (records[key], decision.records[key]);
               && OnlyAt(records, key, after, decision.records)
               && (!Stale(before, observed) ==> ObservedAs(before, observed, now, schedule, after))
               && (Stale(before, observed) ==>
                     && after == before.(polling := after.polling) && after.polling.lease.None?
                     && after.polling.lastObservedAt == before.polling.lastObservedAt
                     && after.polling.retryCount == before.polling.retryCount
                     && after.polling.nextPollAt == (if Polled(before) then Some(schedule.pollAt)
                                                     else before.polling.nextPollAt)))
  {
    if HoldsLease(records, key, lease) && !Stale(records[key], observed) {
      ObservationTells(records[key], observed, now, schedule);
    }
    hide Apply, CodeAfter, SafeCode;
  }

  /** Records that are polled: submitted under a receipt and not finished, or finished with the results to come. */
  predicate Polled(record: RuntimeRecord) {
    && record.identity.durable && record.submitId.Some? && record.submitId.value != ""
    && (record.state == TC.JournalState.Accepted || record.state == TC.Unknown
        || (record.state == TC.JournalState.Succeeded && record.providerOutputs.None?))
  }

  /** A failed poll counts exactly for the holder: it leaves its code and backs off, and nothing else. */
  lemma {:induction false} SyncErrorExactly(records: Records, ticket: int, key: Key, lease: PollLease, code: string,
      now: Time, schedule: Schedule)
    ensures var decision := CommitSyncError(records, ticket, key, lease, code, now, schedule);
      && (decision.Write? <==> HoldsLease(records, key, lease)) && (!decision.Write? ==> decision == Keep)
      && (decision.Write? ==>
            && decision.nextTicket == ticket
            && var count := records[key].polling.retryCount.GetOr(0) + 1;
               var attempts := if count > 1000000 then 1000000 else count;
               var polling := Polling(Some(schedule.retryAt(attempts)), None, Some(attempts),
                                      records[key].polling.lastObservedAt);
               OnlyAt(records, key, records[key].(errorCode := Some(code), updatedAt := now, polling := polling),
                 decision.records))
  {
  }

  // ---------------------------------------------------------------- leases

  /** A record is due if it is polled, its time has come, and no lease on it lives. */
  predicate IsDue(record: RuntimeRecord, now: Time) {
    && Polled(record) && record.polling.nextPollAt.Some? && record.polling.nextPollAt.value <= now
    && (record.polling.lease.Some? ==> record.polling.lease.value.expiresAt <= now)
  }

  /** Due longer; else never observed, or longer ago; else the smaller key. */
  predicate Sooner(records: Records, left: Key, right: Key)
    requires left in records && right in records
  {
    var (l, r) := (records[left].polling, records[right].polling);
    if l.nextPollAt.GetOr(0) != r.nextPollAt.GetOr(0) then l.nextPollAt.GetOr(0) < r.nextPollAt.GetOr(0)
    else
      match (l.lastObservedAt, r.lastObservedAt)
      case (None, Some(_)) => true
      case (Some(_), None) => false
      case (None, None) => left < right
      case (Some(a), Some(b)) => if a != b then a < b else left < right
  }

  /** A claim is granted exactly on the due record that comes before all other due ones, which is then leased as
      asked. */
  lemma {:induction false} ClaimExactly(records: Records, ticket: int, key: Key, lease: PollLease, now: Time)
    ensures var decision := Claim(records, ticket, key, lease, now);
      && (decision.Write? <==>
            && key in records && IsDue(records[key], now)
            && forall k :: k in records && k != key && IsDue(records[k], now) ==> Sooner(records, key, k))
      && (!decision.Write? ==> decision == Keep)
      && (decision.Write? ==>
            && decision.nextTicket == ticket && key in decision.records
            && var after := decision.records[key];
               && OnlyAt(records, key, after, decision.records) && after.polling.lease == Some(lease)
               && after.polling.(lease := records[key].polling.lease) == records[key].polling
               && after == records[key].(polling := after.polling))
  {
    forall k | k in records ensures IsDue(records[k], now) <==> Due(records[k], now) {
      DueExactly(records[k], now);
    }
    forall k | k in records && key in records ensures Sooner(records, key, k) <==> PolledBefore(records, key, k) {
    }
    hide IsDue, Due, Sooner, PolledBefore;
  }

  lemma {:induction false} DueExactly(record: RuntimeRecord, now: Time)
    ensures IsDue(record, now) <==> Due(record, now)
    ensures Polled(record) <==> Eligible(record)
  {
  }

  /** A lease is renewed until the asked time exactly for its holder, and given up exactly by its holder; the renewed
      one is his still. */
  lemma {:induction false} HoldingExactly(records: Records, ticket: int, key: Key, lease: PollLease, expiresAt: Time)
    ensures var (renewed, released) :=
        (RenewLease(records, ticket, key, lease, expiresAt), ReleaseLease(records, ticket, key, lease));
      && (renewed.Write? <==> HoldsLease(records, key, lease)) && (!renewed.Write? ==> renewed == Refuse(CliFenced))
      && (released.Write? <==> HoldsLease(records, key, lease)) && (!released.Write? ==> released == Keep)
      && (renewed.Write? ==>
            && renewed.nextTicket == ticket && key in renewed.records
            && var after := renewed.records[key];
               && OnlyAt(records, key, after, renewed.records)
               && HoldsLease(renewed.records, key, lease) && after.polling.lease.value.expiresAt == expiresAt
               && after.polling.(lease := None) == records[key].polling.(lease := None)
               && after == records[key].(polling := after.polling))
      && (released.Write? ==>
            && released.nextTicket == ticket && key in released.records
            && var after := released.records[key];
               && OnlyAt(records, key, after, released.records) && after.polling.lease.None?
               && after.polling.(lease := records[key].polling.lease) == records[key].polling
               && after == records[key].(polling := after.polling))
  {
  }

  /** An owner who goes away gives up exactly his leases. */
  lemma {:induction false} ReleaseOwnedExactly(records: Records, ticket: int, owner: Uuid)
    ensures var decision := ReleaseOwned(records, ticket, owner);
      && (decision.Write? <==>
            exists k :: k in records && records[k].polling.lease.Some?
                        && records[k].polling.lease.value.ownerId == owner)
      && (!decision.Write? ==> decision == Keep)
      && (decision.Write? ==>
            && decision.nextTicket == ticket && decision.records.Keys == records.Keys
            && forall k :: k in records ==>
                 var (before, after) := (records[k], decision.records[k]);
                 if before.polling.lease.Some? && before.polling.lease.value.ownerId == owner
                 then after == before.(polling := after.polling) && after.polling.lease.None?
                      && after.polling.(lease := before.polling.lease) == before.polling
                 else after == before)
  {
    assert forall k :: k in records ==>
      (OwnedLease(records[k], owner) <==>
         records[k].polling.lease.Some? && records[k].polling.lease.value.ownerId == owner);
  }

  // ---------------------------------------------------------------- when to poll

  /** The record is polled at `at` next; nothing else about it changes, but that its attempts are counted. */
  predicate DatedAt(record: RuntimeRecord, at: Time, after: RuntimeRecord) {
    && after == record.(polling := after.polling) && after.polling.nextPollAt == Some(at)
    && after.polling.retryCount == Some(record.polling.retryCount.GetOr(0))
    && after.polling.lease == record.polling.lease && after.polling.lastObservedAt == record.polling.lastObservedAt
  }

  /** A poll in the background never puts one off, and one asked for now is due at once; both only where the record is
      polled at all. */
  lemma {:induction false} SchedulingExactly(records: Records, ticket: int, key: Key, at: Time, now: Time)
    ensures var (later, soon) := (ScheduleBackground(records, ticket, key, at), RequestNow(records, ticket, key, now));
      && (later.Write? <==>
            && key in records && Polled(records[key])
            && (records[key].polling.nextPollAt.None? || at < records[key].polling.nextPollAt.value))
      && (!later.Write? ==> later == Keep)
      && (soon.Write? <==>
            key in records && Polled(records[key]) && records[key].polling.nextPollAt != Some(now - 1))
      && (!soon.Write? ==> soon == Keep)
      && (later.Write? ==>
            && later.nextTicket == ticket && key in later.records
            && OnlyAt(records, key, later.records[key], later.records)
            && DatedAt(records[key], at, later.records[key]))
      && (soon.Write? ==>
            && soon.nextTicket == ticket && key in soon.records
            && OnlyAt(records, key, soon.records[key], soon.records)
            && DatedAt(records[key], now - 1, soon.records[key]))
  {
    if key in records {
      DueExactly(records[key], now);
    }
  }

  /** Starting up dates exactly the polled records that have no time yet. */
  lemma {:induction false} InitializingExactly(records: Records, ticket: int, now: Time, delay: Key -> nat)
    ensures var decision := Initialize(records, ticket, now, delay);
      && (decision.Write? <==> exists k :: k in records && Polled(records[k]) && records[k].polling.nextPollAt.None?)
      && (!decision.Write? ==> decision == Keep)
      && (decision.Write? ==>
            && decision.nextTicket == ticket && decision.records.Keys == records.Keys
            && forall k :: k in records ==>
                 if Polled(records[k]) && records[k].polling.nextPollAt.None?
                 then DatedAt(records[k], now + delay(k), decision.records[k])
                 else decision.records[k] == records[k])
  {
    forall k | k in records
      ensures Undated(records[k]) <==> Polled(records[k]) && records[k].polling.nextPollAt.None?
    {
      DueExactly(records[k], now);
    }
    hide Polled, Undated;
  }

  // ---------------------------------------------------------------- what an observation must look like

  /** An observation is well formed exactly if its code is safe and outputs come with a completion that need not be
      retried, one to four of them, numbered apart from 0 to 3, all pictures or videos. */
  lemma {:induction false} WellFormedExactly(observed: Observed)
    ensures ObservationValid(observed) <==>
      && (observed.retryCode.Some? ==> SafeCode(observed.retryCode.value))
      && (observed.providerOutputs.Some? ==>
            var outputs := observed.providerOutputs.value;
            && observed.status == TC.Completed && observed.retryCode.None?
            && |outputs| in {1, 2, 3, 4}
            && (forall o :: o in outputs ==> o.outputIndex in {0, 1, 2, 3} && o.mediaType != TC.Audio)
            && (forall i, j :: 0 <= i < |outputs| && 0 <= j < |outputs| && i != j ==>
                  outputs[i].outputIndex != outputs[j].outputIndex))
  {
    hide SafeCode;
    if observed.providerOutputs.Some? {
      var outputs := observed.providerOutputs.value;
      assert forall i :: 0 <= i < |outputs| ==> outputs[i] in outputs;
    }
  }
}
