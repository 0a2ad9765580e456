/** An observation that comes back to a record which was finished while it was polled: a local failure, a deletion or
    another outcome has been stored meanwhile, though the poll lease is still held. */
module ReconcilerLimits {
  import opened Wrappers
  import TC = TaskContract
  import opened Journal
  import opened RuntimeSections
  import opened RuntimeLimits
  import opened Reconciler

  predicate Finished(record: RuntimeRecord) {
    record.state in {TC.JournalState.Succeeded, TC.JournalState.Failed, TC.JournalState.Cancelled, TC.Deleted}
  }

  /** What was observed contradicts nothing that is final in the record. */
  predicate SameOutcome(record: RuntimeRecord, observed: Observed) {
    match record.state
    case Succeeded =>
      || observed.status != TC.Completed || record.providerOutputs.None?
      || observed.providerOutputs in {None, record.providerOutputs}
    case Failed => observed.status == TC.ProviderStatus.Failed
    case Cancelled => observed.status == TC.ProviderStatus.Cancelled
    case _ => false
  }

  lemma {:induction false} LateProgressesExactly(record: RuntimeRecord, observed: Observed, now: Time,
      schedule: Schedule)
    requires ValidRecord(record) && Finished(record)
    ensures Progresses(record, Observe(record, observed, now, schedule))
       <==> OutOfOrder(record, observed) || SameOutcome(record, observed)
  {
    ObserveFrames(record, observed, now, schedule);
    LateStates(record, observed, now, schedule);
    hide Observe, PollingKept, ValidRecord, OutOfOrder, SameOutcome;
  }

  predicate KeepsOutputs(record: RuntimeRecord, next: RuntimeRecord) {
    record.providerOutputs.Some? ==> next.providerOutputs == record.providerOutputs
  }

  /** The state and outputs such an observation leads to. */
  lemma {:induction false} LateStates(record: RuntimeRecord, observed: Observed, now: Time, schedule: Schedule)
    requires ValidRecord(record) && Finished(record)
    ensures var next := Observe(record, observed, now, schedule);
      && (next.state == TC.Deleted ==> record.state == TC.Deleted)
      && (next.state == record.state && KeepsOutputs(record, next)
          <==> OutOfOrder(record, observed) || SameOutcome(record, observed))
  {
    hide SafeCode, SafeId, ValidOutputs, ReservationShape, QueueShape, Eligible, HasReceipt;
  }

  /** A finished record keeps its shape: only what the provider said and when to ask again may change. */
  predicate Refreshed(record: RuntimeRecord, next: RuntimeRecord) {
    && ObserveFrame(record, next) && next.state == record.state && next.providerOutputs == record.providerOutputs
    && (record.providerOutputs.Some? ==> next.officialStatus == Some(TC.Completed))
    && (next.errorCode.Some? ==> SafeCode(next.errorCode.value))
    && (next.polling.retryCount.Some? ==> 0 <= next.polling.retryCount.value <= 1000000)
  }

  lemma {:induction false} RefreshedValid(record: RuntimeRecord, next: RuntimeRecord)
    requires ValidRecord(record) && Finished(record) && record.identity.durable && Refreshed(record, next)
    ensures ValidRecord(next)
  {
    hide SafeCode, SafeId, ValidOutputs, HasReservation, LegacyReservation, PollingKept;
  }

  lemma {:induction false} LateRefreshes(record: RuntimeRecord, observed: Observed, now: Time, schedule: Schedule)
    requires ValidRecord(record) && Finished(record) && record.identity.durable
    requires OutOfOrder(record, observed)
          || (SameOutcome(record, observed) && (record.providerOutputs.None? ==> observed.providerOutputs.None?))
    ensures Refreshed(record, Observe(record, observed, now, schedule))
  {
    SafeCodes();
    ObserveFrames(record, observed, now, schedule);
    hide SafeCode, SafeId, ValidOutputs, ReservationShape, QueueShape, HasReceipt, Eligible, ObserveFrame;
  }

  lemma {:induction false} LateValid(record: RuntimeRecord, observed: Observed, now: Time, schedule: Schedule)
    requires ValidRecord(record) && Finished(record) && record.identity.durable
    requires OutOfOrder(record, observed)
          || (SameOutcome(record, observed) && (record.providerOutputs.None? ==> observed.providerOutputs.None?))
    ensures ValidRecord(Observe(record, observed, now, schedule))
  {
    LateRefreshes(record, observed, now, schedule);
    hide Observe, ValidRecord, Refreshed;
    RefreshedValid(record, Observe(record, observed, now, schedule));
  }

  /** The commit of an observation on a record that stopped being eligible is refused exactly when the observation
      is not older than the last one and contradicts the outcome that was stored meanwhile, or the journal has no
      room for another version. */
  lemma {:induction false} LateCommitStoredExactly(disk: Disk, ticket: int, key: Key, lease: PollLease,
      observed: Observed, now: Time,
      schedule: Schedule)
    requires ValidDisk(disk) && key in disk.records && SameLease(disk.records[key].polling.lease, lease)
    requires disk.records[key].identity.durable && Finished(disk.records[key]) && !Eligible(disk.records[key])
    requires Truthy(disk.records[key].submitId) && ObservationValid(observed)
    ensures var decision := CommitObservation(disk.records, ticket, key, lease, observed, now, schedule);
      && decision.Write? && decision.nextTicket == ticket
      && (Persist(disk, Disk(decision.records, ticket)).Ok?
          <==> RoomFor(disk.records[key], ticket)
               && (OutOfOrder(disk.records[key], observed) || SameOutcome(disk.records[key], observed)))
  {
    var record := disk.records[key];
    var next := Observe(record, observed, now, schedule);
    LateProgressesExactly(record, observed, now, schedule);
    LeaseGoes(record, observed, now, schedule);
    if OutOfOrder(record, observed) || SameOutcome(record, observed) {
      if SameOutcome(record, observed) {
        OutputsOnlyWhereKept(record, observed);
      }
      LateValid(record, observed, now, schedule);
      ObserveFrames(record, observed, now, schedule);
      hide Observe, Progresses;
      ReplacingExactly(disk, ticket, key, next);
    }
    hide Progresses, ValidDisk;
  }

  lemma {:induction false} LeaseGoes(record: RuntimeRecord, observed: Observed, now: Time, schedule: Schedule)
    requires record.polling.lease.Some?
    ensures !SameRecord(record, Observe(record, observed, now, schedule))
  {
    hide SafeCode, Eligible;
    assert Observe(record, observed, now, schedule).polling.lease.None?;
  }

  lemma {:induction false} OutputsOnlyWhereKept(record: RuntimeRecord, observed: Observed)
    requires Finished(record) && !Eligible(record) && record.identity.durable && Truthy(record.submitId)
    requires SameOutcome(record, observed) && ObservationValid(observed)
    ensures record.providerOutputs.None? ==> observed.providerOutputs.None?
  {
    hide SafeCode;
  }
}
