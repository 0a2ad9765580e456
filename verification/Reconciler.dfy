/** The polling sections of canvas-agent/src/dreamina-task-reconciler.ts on the shared journal. */
module Reconciler {
  import opened Wrappers
  import TC = TaskContract
  import opened Journal
  import opened RuntimeSections

  datatype Observed = Observed(
    status: TC.ProviderStatus, observedAt: Time, retryCode: Option<string>,
      providerOutputs: Option<seq<ProviderOutput>>)

  /** validateObservation. */
  predicate ObservationValid(observed: Observed) {
    && (observed.retryCode.Some? ==> SafeCode(observed.retryCode.value))
    && (observed.providerOutputs.Some? ==>
          && observed.status == TC.Completed && observed.retryCode.None?
          && var outputs := observed.providerOutputs.value;
             && 1 <= |outputs| <= 4
             && (forall i :: 0 <= i < |outputs| ==>
               0 <= outputs[i].outputIndex <= 3 && outputs[i].mediaType in {TC.Image, TC.Video})
             && (forall i, j :: 0 <= i < j < |outputs| ==> outputs[i].outputIndex != outputs[j].outputIndex))
  }

  predicate Eligible(record: RuntimeRecord) {
    && record.identity.durable && Truthy(record.submitId)
    && (record.state in {TC.JournalState.Accepted, TC.Unknown}
        || (record.state == TC.JournalState.Succeeded && record.providerOutputs.None?))
  }

  predicate Unleased(record: RuntimeRecord, now: Time) {
    record.polling.lease.None? || record.polling.lease.value.expiresAt <= now
  }

  predicate Due(record: RuntimeRecord, now: Time) {
    && Eligible(record) && record.polling.nextPollAt.Some? && record.polling.nextPollAt.value <= now
    && Unleased(record, now)
  }

  /** compareDue orders `left` before `right`; a record never observed counts as observed at minus infinity. */
  predicate PolledBefore(records: Records, left: Key, right: Key)
    requires left in records && right in records
  {
    var l, r := records[left].polling, records[right].polling;
    var leftDue, rightDue := l.nextPollAt.GetOr(0), r.nextPollAt.GetOr(0);
    || leftDue < rightDue
    || (leftDue == rightDue && l.lastObservedAt.None? && r.lastObservedAt.Some?)
    || (leftDue == rightDue && l.lastObservedAt.Some? && r.lastObservedAt.Some?
        && l.lastObservedAt.value < r.lastObservedAt.value)
    || (leftDue == rightDue && l.lastObservedAt == r.lastObservedAt && left < right)
  }

  predicate SameLease(current: Option<PollLease>, expected: PollLease) {
    current.Some? && current.value.leaseId == expected.leaseId && current.value.ownerId == expected.ownerId
  }

  // ---------------------------------------------------------------- record updates

  const CLEANUP_FAILED: string := "dreamina_reference_cleanup_failed"

  function ClearSyncError(code: Option<string>): Option<string> {
    if !Truthy(code) || code == Some(CLEANUP_FAILED) then code else None
  }

  /** applyObservation. */
  function Apply(record: RuntimeRecord, observed: Observed): RuntimeRecord {
    if record.state == TC.JournalState.Succeeded && observed.status != TC.Completed then
      record.(errorCode := Some("dreamina_observation_conflict"))
    else
      var seen := record.(officialStatus := Some(observed.status));
      match observed.status
      case Pending => seen.(state := TC.JournalState.Accepted, errorCode := ClearSyncError(record.errorCode))
      case Processing => seen.(state := TC.JournalState.Accepted, errorCode := ClearSyncError(record.errorCode))
      case Completed =>
        seen.(state := TC.JournalState.Succeeded,
              providerOutputs :=
                if observed.providerOutputs.Some? then observed.providerOutputs else record.providerOutputs,
              errorCode := if Truthy(observed.retryCode) then RetryCode(observed) else ClearSyncError(record.errorCode))
      case Cancelled => seen.(state := TC.JournalState.Cancelled, errorCode := Some("dreamina_official_cancelled"))
      case Failed => seen.(state := TC.JournalState.Failed, errorCode := Some("dreamina_official_failed"))
  }

  function RetryCode(observed: Observed): Option<string> {
    if SafeCode(observed.retryCode.GetOr("")) then observed.retryCode else Some("dreamina_query_failed")
  }

  function Bumped(retryCount: Option<int>): int {
    if retryCount.GetOr(0) + 1 < 1000000 then retryCount.GetOr(0) + 1 else 1000000
  }

  /** When to poll next: the source adds a deterministic jitter or an exponential backoff to the clock. */
  datatype Schedule = Schedule(pollAt: Time, retryAt: int -> Time)

  /** The record commitObservation writes for the holder of the current lease. */
  function Observe(record: RuntimeRecord, observed: Observed, now: Time, schedule: Schedule): RuntimeRecord {
    var polling := record.polling;
    if polling.lastObservedAt.Some? && observed.observedAt < polling.lastObservedAt.value then
      record.(polling := polling.(lease := None,
                                  nextPollAt := if Eligible(record) then Some(schedule.pollAt) else polling.nextPollAt))
    else
      var applied := Apply(record, observed);
      var seen := polling.(lastObservedAt := Some(observed.observedAt), lease := None);
      if observed.status in {TC.ProviderStatus.Pending, TC.Processing} then
        applied.(updatedAt := now, polling := seen.(retryCount := Some(0), nextPollAt := Some(schedule.pollAt)))
      else if observed.status == TC.Completed && Truthy(observed.retryCode) then
        var count := Bumped(polling.retryCount);
        applied.(updatedAt := now, errorCode := RetryCode(observed),
                 polling := seen.(retryCount := Some(count), nextPollAt := Some(schedule.retryAt(count))))
      else
        applied.(updatedAt := now, polling := seen.(retryCount := Some(0), nextPollAt := None))
  }

  function SyncFailed(record: RuntimeRecord, code: string, now: Time, schedule: Schedule): RuntimeRecord {
    var count := Bumped(record.polling.retryCount);
    var polling := record.polling;
    record.(errorCode := Some(code), updatedAt := now,
            polling := polling.(lease := None, retryCount := Some(count), nextPollAt := Some(schedule.retryAt(count))))
  }

  function Scheduled(record: RuntimeRecord, at: Time): RuntimeRecord {
    var polling := record.polling;
    record.(polling := polling.(nextPollAt := Some(at), retryCount := Some(polling.retryCount.GetOr(0))))
  }

  function Leased(record: RuntimeRecord, lease: Option<PollLease>): RuntimeRecord {
    var polling := record.polling;
    record.(polling := polling.(lease := lease))
  }

  // ---------------------------------------------------------------- sections

  function Rewrite(records: Records, key: Key, record: RuntimeRecord, ticket: int): Decision {
    Write(records[key := record], ticket)
  }

  predicate Undated(record: RuntimeRecord) {
    Eligible(record) && record.polling.nextPollAt.None?
  }

  function Dated(record: RuntimeRecord, at: Time): RuntimeRecord {
    if Undated(record) then Scheduled(record, at) else record
  }

  function AllDated(records: Records, now: Time, delay: Key -> nat): Records {
    map k | k in records :: Dated(records[k], now + delay(k))
  }

  function Initialize(records: Records, ticket: int, now: Time, delay: Key -> nat): Decision {
    if forall k :: k in records ==> !Undated(records[k]) then Keep
    else Write(AllDated(records, now, delay), ticket)
  }

  function ScheduleBackground(records: Records, ticket: int, key: Key, at: Time): Decision {
    if key !in records || !Eligible(records[key]) then Keep
    else if records[key].polling.nextPollAt.Some? && records[key].polling.nextPollAt.value <= at then Keep
    else Rewrite(records, key, Scheduled(records[key], at), ticket)
  }

  function RequestNow(records: Records, ticket: int, key: Key, now: Time): Decision {
    if key !in records || !Eligible(records[key]) || records[key].polling.nextPollAt == Some(now - 1) then Keep
    else Rewrite(records, key, Scheduled(records[key], now - 1), ticket)
  }

  /** claimDue grants `lease` on `key`, the first due record. */
  predicate MayClaim(records: Records, key: Key, now: Time) {
    && key in records && Due(records[key], now)
    && forall k :: k in records && k != key && Due(records[k], now) ==> PolledBefore(records, key, k)
  }

  function Claim(records: Records, ticket: int, key: Key, lease: PollLease, now: Time): Decision {
    if MayClaim(records, key, now) then Rewrite(records, key, Leased(records[key], Some(lease)), ticket) else Keep
  }

  function RenewLease(records: Records, ticket: int, key: Key, lease: PollLease, expiresAt: Time): Decision {
    if key !in records || !SameLease(records[key].polling.lease, lease) then Refuse(CliFenced)
    else Rewrite(records, key, Leased(records[key], Some(lease.(expiresAt := expiresAt))), ticket)
  }

  function CommitObservation(records: Records, ticket: int, key: Key, lease: PollLease, observed: Observed,
                             now: Time, schedule: Schedule): Decision
  {
    if key !in records || !SameLease(records[key].polling.lease, lease) then Keep
    else Rewrite(records, key, Observe(records[key], observed, now, schedule), ticket)
  }

  function CommitSyncError(records: Records, ticket: int, key: Key, lease: PollLease, code: string,
                           now: Time, schedule: Schedule): Decision
  {
    if key !in records || !SameLease(records[key].polling.lease, lease) then Keep
    else Rewrite(records, key, SyncFailed(records[key], code, now, schedule), ticket)
  }

  function ReleaseLease(records: Records, ticket: int, key: Key, lease: PollLease): Decision {
    if key !in records || !SameLease(records[key].polling.lease, lease) then Keep
    else Rewrite(records, key, Leased(records[key], None), ticket)
  }

  predicate OwnedLease(record: RuntimeRecord, owner: Uuid) {
    record.polling.lease.Some? && record.polling.lease.value.ownerId == owner
  }

  function ReleaseOwned(records: Records, ticket: int, owner: Uuid): Decision {
    if forall k :: k in records ==> !OwnedLease(records[k], owner) then Keep
    else
      Write(map k | k in records ::
        if OwnedLease(records[k], owner) then Leased(records[k], None) else records[k], ticket)
  }

  // ---------------------------------------------------------------- every commit is a legal persist

  /** The outputs of an observation fit the record's mode; validRecord asks this of what is stored. */
  predicate OutputsFit(record: RuntimeRecord, observed: Observed) {
    observed.providerOutputs.Some? ==> ValidOutputs(observed.providerOutputs.value, record.identity.mode)
  }

  predicate OutOfOrder(record: RuntimeRecord, observed: Observed) {
    record.polling.lastObservedAt.Some? && observed.observedAt < record.polling.lastObservedAt.value
  }

  /** The observation moves the record to accepted or succeeded. */
  predicate ClaimsAcceptance(record: RuntimeRecord, observed: Observed) {
    !OutOfOrder(record, observed) && observed.status in {TC.ProviderStatus.Pending, TC.Processing, TC.Completed}
  }

  /** What an observation leaves alone, and the states it may lead to. */
  predicate ObserveFrame(record: RuntimeRecord, next: RuntimeRecord) {
    && next.identity == record.identity && next.fence == record.fence && next.reservation == record.reservation
    && next.queue == record.queue && next.submitId == record.submitId && next.hidden == record.hidden
    && next.journalVersion == record.journalVersion
    && next.state in {record.state, TC.JournalState.Accepted, TC.JournalState.Succeeded, TC.JournalState.Failed,
                      TC.JournalState.Cancelled}
    && PollingKept(record.polling, next.polling, None)
  }

  lemma {:induction false} ObserveFrames(record: RuntimeRecord, observed: Observed, now: Time, schedule: Schedule)
    ensures ObserveFrame(record, Observe(record, observed, now, schedule))
  {
    hide SafeCode, Eligible;
  }

  /** Where an observation leads: a finished record stays, and an uncertain one is settled by what was observed. */
  lemma {:induction false} ObserveStates(record: RuntimeRecord, observed: Observed, now: Time, schedule: Schedule)
    requires Eligible(record)
    ensures var next := Observe(record, observed, now, schedule);
      && (record.state == TC.JournalState.Succeeded ==> next.state == TC.JournalState.Succeeded)
      && (record.state == TC.Unknown && next.state != TC.Unknown ==> ReliableReconciliation(next))
  {
    hide SafeCode;
  }

  lemma {:induction false} ObserveOutputs(record: RuntimeRecord, observed: Observed, now: Time, schedule: Schedule)
    requires Eligible(record) && (record.providerOutputs.Some? ==> record.state == TC.JournalState.Succeeded)
    ensures record.providerOutputs.None?
  {
  }

  /** Whatever the provider reports about an eligible record, including an uncertain one, the commit is a
      legal progression. Of validity it needs only that outputs are stored on succeeded records alone. */
  lemma {:induction false} ObservationProgresses(record: RuntimeRecord, observed: Observed, now: Time,
      schedule: Schedule)
    requires Eligible(record)
    requires record.providerOutputs.Some? ==> record.state == TC.JournalState.Succeeded
    ensures Progresses(record, Observe(record, observed, now, schedule))
  {
    ObserveFrames(record, observed, now, schedule);
    ObserveStates(record, observed, now, schedule);
    ObserveOutputs(record, observed, now, schedule);
    hide Observe, PollingKept, ReliableReconciliation;
  }

  lemma {:induction false} OtherObservationsValid(record: RuntimeRecord, observed: Observed, now: Time,
      schedule: Schedule)
    requires ValidRecord(record) && Eligible(record) && ObservationValid(observed)
    requires !ClaimsAcceptance(record, observed)
    ensures ValidRecord(Observe(record, observed, now, schedule))
  {
    SafeCodes();
    hide SafeCode, SafeId, ValidOutputs;
  }

  lemma {:induction false} LiveObservationValid(record: RuntimeRecord, observed: Observed, now: Time,
      schedule: Schedule)
    requires ValidRecord(record) && Eligible(record) && ObservationValid(observed)
    requires !OutOfOrder(record, observed) && observed.status in {TC.ProviderStatus.Pending, TC.Processing}
    ensures ValidRecord(Observe(record, observed, now, schedule))
        <==> HasReceipt(record) && OutputsFit(record, observed)
  {
    SafeCodes();
    hide SafeCode, SafeId, ValidOutputs;
  }

  lemma {:induction false} CompletionValid(record: RuntimeRecord, observed: Observed, now: Time, schedule: Schedule)
    requires ValidRecord(record) && Eligible(record) && ObservationValid(observed)
    requires !OutOfOrder(record, observed) && observed.status == TC.Completed
    ensures ValidRecord(Observe(record, observed, now, schedule))
        <==> HasReceipt(record) && OutputsFit(record, observed)
  {
    SafeCodes();
    hide SafeCode, SafeId, ValidOutputs, HasReservation, LegacyReservation;
  }

  /** The commit is also valid exactly when the outputs it stores fit the mode and the receipt it vouches
      for is well formed; accepted and succeeded records have a well-formed receipt already. */
  lemma {:induction false} ObservationValidExactly(record: RuntimeRecord, observed: Observed, now: Time,
      schedule: Schedule)
    requires ValidRecord(record) && Eligible(record) && ObservationValid(observed)
    ensures ValidRecord(Observe(record, observed, now, schedule)) <==>
              || !ClaimsAcceptance(record, observed)
              || (HasReceipt(record) && OutputsFit(record, observed))
    ensures record.state != TC.Unknown ==> HasReceipt(record)
  {
    if ClaimsAcceptance(record, observed) {
      if observed.status == TC.Completed {
        CompletionValid(record, observed, now, schedule);
      } else {
        LiveObservationValid(record, observed, now, schedule);
      }
    } else {
      OtherObservationsValid(record, observed, now, schedule);
    }
    hide SafeCode, SafeId, ValidOutputs, Observe;
  }

  /** A failed poll is always a legal, valid commit on an eligible record. */
  lemma {:induction false} SyncErrorCommits(record: RuntimeRecord, code: string, now: Time, schedule: Schedule)
    requires ValidRecord(record) && Eligible(record) && SafeCode(code)
    ensures Progresses(record, SyncFailed(record, code, now, schedule))
    ensures ValidRecord(SyncFailed(record, code, now, schedule))
  {
  }

  lemma {:induction false} SafeCodes()
    ensures SafeCode("dreamina_observation_conflict") && SafeCode("dreamina_query_failed")
    ensures SafeCode("dreamina_official_cancelled") && SafeCode("dreamina_official_failed")
    ensures SafeCode(CLEANUP_FAILED)
  {
    SafeQueryCodes();
    SafeOfficialCodes();
    hide SafeCode;
  }

  lemma {:induction false} SafeQueryCodes()
    ensures SafeCode("dreamina_observation_conflict") && SafeCode("dreamina_query_failed")
  {
  }

  lemma {:induction false} SafeOfficialCodes()
    ensures SafeCode("dreamina_official_cancelled") && SafeCode("dreamina_official_failed")
    ensures SafeCode(CLEANUP_FAILED)
  {
  }
}
