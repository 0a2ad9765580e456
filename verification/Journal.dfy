/** The durable journal of canvas-agent/src/dreamina-cli-state.ts: record validity, the progression a
    persist must respect, journal versions, and the stricter test recovery applies. */
module Journal {
  import opened Wrappers
  import TC = TaskContract

  /** Milliseconds; the source stores ISO strings and compares them through Date.parse. */
  type Time = int
  /** A freshly generated UUID, numbered in the order of generation. */
  type Uuid = nat
  /** An idempotency key, represented by its rank in collation order. */
  type Key = nat

  type JournalState = TC.JournalState
  datatype Phase = Reserved | SpawnPermitted
  datatype Operation =
    | Text2Image | Image2Image | ImageUpscale | Text2Video | Image2Video | Frames2Video | Multiframe2Video
    | Multimodal2Video

  datatype PollLease = PollLease(leaseId: Uuid, ownerId: Uuid, expiresAt: Time)
  datatype ProviderOutput = ProviderOutput(outputIndex: int, mediaType: TC.MediaType, artifactRef: string)

  /** The fields no persist may ever change. `durable` is the source's `taskVersion === 1`; records without
      it come from the synchronous path. */
  datatype Identity = Identity(
    requestHash: string,
    durable: bool,
    clientOperationId: Option<string>,
    context: Option<TC.Context>,
    operation: Option<Operation>,
    mode: Option<TC.MediaType>,
    model: Option<string>,
    createdAt: Option<Time>)

  datatype Fence = Fence(epoch: Option<int>, accountBinding: Option<string>, sessionEpoch: Option<int>)
  datatype Reservation = Reservation(id: Option<Uuid>, ownerId: Option<Uuid>, expiresAt: Option<Time>,
      phase: Option<Phase>)
  datatype QueueLease = QueueLease(ownerId: Option<Uuid>, expiresAt: Option<Time>, ticket: Option<int>)
  datatype Polling = Polling(
    nextPollAt: Option<Time>, lease: Option<PollLease>, retryCount: Option<int>, lastObservedAt: Option<Time>)

  /** One journal record; the source's flat optional fields are gathered into the groups they are written in. */
  datatype RuntimeRecord = RuntimeRecord(
    identity: Identity,
    state: JournalState,
    journalVersion: Option<int>,
    updatedAt: Time,
    fence: Fence,
    reservation: Reservation,
    queue: QueueLease,
    submitId: Option<string>,
    errorCode: Option<string>,
    officialStatus: Option<TC.ProviderStatus>,
    polling: Polling,
    providerOutputs: Option<seq<ProviderOutput>>,
    hidden: bool)

  const NO_FENCE: Fence := Fence(None, None, None)
  const NO_RESERVATION: Reservation := Reservation(None, None, None, None)
  const NO_QUEUE: QueueLease := QueueLease(None, None, None)
  const NO_POLLING: Polling := Polling(None, None, None, None)

  type Records = map<Key, RuntimeRecord>

  /** One owner's journal file; an absent file reads as Empty. */
  datatype Disk = Disk(records: Records, nextQueueTicket: int)

  const EMPTY: Disk := Disk(map[], 1)
  const MAX_RECORDS: nat := 10000

  datatype StateError = StateInvalid

  // ---------------------------------------------------------------- validity

  predicate HasReceipt(record: RuntimeRecord) {
    record.submitId.Some? && SafeId(record.submitId.value, 8, 160)
  }

  predicate HasReservation(record: RuntimeRecord) {
    var held := record.reservation;
    && held.id.Some? && held.ownerId.Some? && held.expiresAt.Some? && held.phase.Some?
    && (held.phase == Some(SpawnPermitted) ==> record.fence.epoch.GetOr(0) >= 1)
  }

  predicate LegacyReservation(record: RuntimeRecord) {
    var held := record.reservation;
    held.id.Some? && held.ownerId.None? && held.expiresAt.Some? && held.phase.None?
  }

  predicate ReservationShape(record: RuntimeRecord) {
    || record.reservation == NO_RESERVATION
    || (record.state == TC.JournalState.Pending && (LegacyReservation(record) || HasReservation(record)))
  }

  predicate QueueShape(record: RuntimeRecord) {
    || (record.queue.ownerId.None? && record.queue.expiresAt.None?)
    || (record.state == TC.Queued && record.queue.ownerId.Some? && record.queue.expiresAt.Some?)
  }

  predicate SafeAtLeast(value: Option<int>, low: int) {
    value.Some? ==> low <= value.value <= MAX_SAFE_INTEGER
  }

  predicate ValidOutputs(outputs: seq<ProviderOutput>, mode: Option<TC.MediaType>) {
    && 1 <= |outputs| <= 4
    && mode in {Some(TC.Image), Some(TC.Video)}
    && (forall i :: 0 <= i < |outputs| ==> 0 <= outputs[i].outputIndex <= 3 && Some(outputs[i].mediaType) == mode)
    && (forall i, j :: 0 <= i < j < |outputs| ==> outputs[i].outputIndex != outputs[j].outputIndex)
    && (mode == Some(TC.Image) || |outputs| == 1)
  }

  predicate ValidRecord(record: RuntimeRecord) {
    && SafeAtLeast(record.journalVersion, 1)
    && SafeAtLeast(record.fence.epoch, 1)
    && SafeAtLeast(record.fence.sessionEpoch, 0)
    && (record.fence.accountBinding.None? <==> record.fence.sessionEpoch.None?)
    && ReservationShape(record)
    && QueueShape(record)
    && SafeAtLeast(record.queue.ticket, 1)
    && (record.polling.retryCount.Some? ==> 0 <= record.polling.retryCount.value <= 1000000)
    && (record.providerOutputs.Some? ==> ValidOutputs(record.providerOutputs.value, record.identity.mode))
    && (record.state in {TC.Queued, TC.JournalState.Pending} ==> record.submitId.None?)
    && (record.state == TC.JournalState.Accepted ==> HasReceipt(record))
    && if record.identity.durable then ValidDurable(record) else ValidSynchronous(record)
  }

  predicate ValidSynchronous(record: RuntimeRecord) {
    && record.state in {TC.JournalState.Pending, TC.JournalState.Accepted, TC.Unknown}
    && record.identity == Identity(record.identity.requestHash, false, None, None, None, None, None, None)
    && record.polling == NO_POLLING
    && record.providerOutputs.None?
    && (record.errorCode.None?
        || (record.state == TC.JournalState.Accepted && record.errorCode == Some("dreamina_reference_cleanup_failed")))
  }

  predicate ValidDurable(record: RuntimeRecord) {
    && record.identity.operation.Some? && record.identity.mode in {Some(TC.Image), Some(TC.Video)}
    && record.identity.model.Some? && record.identity.createdAt.Some?
    && (record.state == TC.JournalState.Succeeded ==> HasReceipt(record))
    && (record.providerOutputs.Some? ==>
          record.state == TC.JournalState.Succeeded && record.officialStatus == Some(TC.Completed))
    && (record.errorCode.Some? ==> SafeCode(record.errorCode.value))
  }

  predicate ValidDisk(disk: Disk) {
    && |disk.records| <= MAX_RECORDS
    && 1 <= disk.nextQueueTicket <= MAX_SAFE_INTEGER
    && forall k :: k in disk.records ==> ValidRecord(disk.records[k])
  }

  // ---------------------------------------------------------------- progression

  function StateRank(state: JournalState): nat {
    match state
    case Queued => 0
    case Pending => 1
    case Accepted => 2
    case _ => 3
  }

  predicate IsTerminal(state: JournalState) {
    state in {TC.JournalState.Succeeded, TC.JournalState.Failed, TC.JournalState.Cancelled, TC.Unknown, TC.Deleted}
  }

  predicate ReliableReconciliation(record: RuntimeRecord) {
    && record.polling.lastObservedAt.Some?
    && match record.state
       case Accepted => record.officialStatus in {Some(TC.ProviderStatus.Pending), Some(TC.Processing)}
       case Succeeded => record.officialStatus == Some(TC.Completed)
       case Failed => record.officialStatus == Some(TC.ProviderStatus.Failed)
       case Cancelled => record.officialStatus == Some(TC.ProviderStatus.Cancelled)
       case _ => false
  }

  predicate ReconcilesUncertain(previous: RuntimeRecord, incoming: RuntimeRecord) {
    && previous.state == TC.Unknown && Truthy(previous.submitId)
    && incoming.submitId == previous.submitId && ReliableReconciliation(incoming)
  }

  /** Date.parse of an absent value is NaN, and NaN compares false. */
  predicate MovedBack(previous: Option<Time>, incoming: Option<Time>) {
    previous.Some? && incoming.Some? && incoming.value < previous.value
  }

  predicate QueueLeaseProgresses(previous: RuntimeRecord, incoming: RuntimeRecord) {
    previous.state == TC.Queued && incoming.state == TC.Queued && previous.queue.ownerId.Some? ==>
      && incoming.queue.ownerId == previous.queue.ownerId
      && incoming.queue.ticket == previous.queue.ticket
      && !MovedBack(previous.queue.expiresAt, incoming.queue.expiresAt)
  }

  predicate ReservationProgresses(previous: RuntimeRecord, incoming: RuntimeRecord) {
    previous.state == TC.JournalState.Pending && incoming.state == TC.JournalState.Pending
      && previous.reservation.id.Some? ==>
      && incoming.reservation.id == previous.reservation.id
      && incoming.reservation.ownerId == previous.reservation.ownerId
      && (previous.reservation.phase == Some(SpawnPermitted) ==> incoming.reservation.phase == Some(SpawnPermitted))
      && !MovedBack(previous.reservation.expiresAt, incoming.reservation.expiresAt)
  }

  predicate FenceProgresses(previous: Fence, incoming: Fence) {
    && (previous.epoch.Some? ==> previous.epoch.value <= incoming.epoch.GetOr(0))
    && (previous.accountBinding.Some? ==> incoming.accountBinding == previous.accountBinding)
    && (previous.sessionEpoch.Some? ==> previous.sessionEpoch.value <= incoming.sessionEpoch.GetOr(-1))
  }

  /** assertRecordProgression does not throw. */
  predicate Progresses(previous: RuntimeRecord, incoming: RuntimeRecord) {
    var reconciled := ReconcilesUncertain(previous, incoming);
    && incoming.identity == previous.identity
    && (reconciled || StateRank(previous.state) <= StateRank(incoming.state))
    && (reconciled || !IsTerminal(previous.state) || incoming.state == previous.state || incoming.state == TC.Deleted)
    && (Truthy(previous.submitId) ==> incoming.submitId == previous.submitId)
    && (previous.hidden ==> incoming.hidden)
    && (previous.providerOutputs.Some? ==> incoming.providerOutputs == previous.providerOutputs)
    && FenceProgresses(previous.fence, incoming.fence)
    && QueueLeaseProgresses(previous, incoming)
    && ReservationProgresses(previous, incoming)
  }

  /** sameJournalRecord: every field but the version itself. */
  predicate SameRecord(left: RuntimeRecord, right: RuntimeRecord) {
    left.(journalVersion := None) == right.(journalVersion := None)
  }

  function Version(record: RuntimeRecord): int {
    record.journalVersion.GetOr(1)
  }

  /** removablePreSpawnIntent. */
  predicate Removable(record: RuntimeRecord) {
    record.state == TC.JournalState.Pending && record.submitId.None?
  }

  // ---------------------------------------------------------------- persisting

  function Versioned(previous: Records, key: Key, incoming: RuntimeRecord): RuntimeRecord {
    if key !in previous then incoming.(journalVersion := Some(1))
    else
      var version := Version(previous[key]);
      incoming.(journalVersion := Some(if SameRecord(previous[key], incoming) then version else version + 1))
  }

  predicate MayFollow(previous: Records, payload: Records) {
    && (forall k :: k in payload && k in previous ==> Progresses(previous[k], payload[k]))
    && (forall k :: k in previous && k !in payload ==> Removable(previous[k]))
  }

  function AssignVersions(previous: Records, payload: Records): Records {
    map k | k in payload :: Versioned(previous, k, payload[k])
  }

  /** persistRuntimeDiskState as one step: the file afterwards, or the error that leaves it alone. */
  function Persist(disk: Disk, payload: Disk): Result<Disk, StateError> {
    if !MayFollow(disk.records, payload.records) then Err(StateInvalid)
    else
      var next := Disk(AssignVersions(disk.records, payload.records), payload.nextQueueTicket);
      if ValidDisk(next) then Ok(next) else Err(StateInvalid)
  }

  /** The first loop of assignJournalVersions: versions are written record by record. */
  method VersionRecords(previous: Records, payload: Records) returns (r: Result<Records, StateError>)
    ensures r.Ok? <==> forall k :: k in payload && k in previous ==> Progresses(previous[k], payload[k])
    ensures r.Ok? ==> r.value == AssignVersions(previous, payload)
  {
    hide Progresses, SameRecord;
    var versioned: Records := map[];
    var pending := payload.Keys;
    while pending != {}
      invariant pending <= payload.Keys
      invariant versioned.Keys == payload.Keys - pending
      invariant forall k :: k in versioned ==> versioned[k] == Versioned(previous, k, payload[k])
      invariant forall k :: k in versioned && k in previous ==> Progresses(previous[k], payload[k])
      decreases pending
    {
      var key :| key in pending;
      var record := payload[key];
      var version := 1;
      if key in previous {
        var prior := previous[key];
        if !Progresses(prior, record) {
          return Err(StateInvalid);
        }
        version := if SameRecord(prior, record) then Version(prior) else Version(prior) + 1;
      }
      versioned := versioned[key := record.(journalVersion := Some(version))];
      pending := pending - {key};
    }
    assert versioned == AssignVersions(previous, payload);
    r := Ok(versioned);
  }

  /** assignJournalVersions: both loops; any failure throws and leaves the file alone. */
  method AssignJournalVersions(previous: Records, payload: Records) returns (r: Result<Records, StateError>)
    ensures r.Ok? <==> MayFollow(previous, payload)
    ensures r.Ok? ==> r.value == AssignVersions(previous, payload)
  {
    hide Progresses;
    r := VersionRecords(previous, payload);
    if r.Err? {
      return;
    }
    var unseen := previous.Keys;
    while unseen != {}
      invariant unseen <= previous.Keys
      invariant forall k :: k in previous && k !in unseen && k !in payload ==> Removable(previous[k])
      decreases unseen
    {
      var key :| key in unseen;
      if key !in payload && !Removable(previous[key]) {
        return Err(StateInvalid);
      }
      unseen := unseen - {key};
    }
  }

  // ---------------------------------------------------------------- recovery's stricter test

  predicate RecordRecovers(previous: RuntimeRecord, current: RuntimeRecord) {
    && Progresses(previous, current)
    && Version(previous) <= Version(current)
    && (Version(previous) == Version(current) ==> SameRecord(previous, current))
  }

  /** assertProgression does not throw when recovery finds both the backup and the primary. */
  predicate RecoveryAccepts(backup: Disk, primary: Disk) {
    && backup.nextQueueTicket <= primary.nextQueueTicket
    && forall k :: k in backup.records ==> k in primary.records && RecordRecovers(backup.records[k], primary.records[k])
  }

  /** Recovery accepts what persist produced exactly when the persist dropped no record and did not
      lower the ticket counter. */
  lemma {:induction false} RecoveryAcceptsExactly(disk: Disk, payload: Disk)
    requires Persist(disk, payload).Ok?
    ensures RecoveryAccepts(disk, Persist(disk, payload).value)
       <==> disk.records.Keys <= payload.records.Keys && disk.nextQueueTicket <= payload.nextQueueTicket
  {
    hide Progresses, SameRecord, ValidRecord;
    var next := Persist(disk, payload).value;
    forall k | k in disk.records && k in payload.records
      ensures RecordRecovers(disk.records[k], next.records[k])
    {
      VersionedRecovers(disk.records, k, payload.records[k]);
    }
  }

  lemma {:induction false} VersionedRecovers(previous: Records, key: Key, incoming: RuntimeRecord)
    requires key in previous && Progresses(previous[key], incoming)
    ensures RecordRecovers(previous[key], Versioned(previous, key, incoming))
  {
  }

  // ---------------------------------------------------------------- what runs of persists keep

  /** What never changes in a record, however many persists lie between `before` and `after`. */
  predicate Evolves(before: RuntimeRecord, after: RuntimeRecord) {
    && after.identity == before.identity
    && (Truthy(before.submitId) ==> after.submitId == before.submitId)
    && (before.providerOutputs.Some? ==> after.providerOutputs == before.providerOutputs)
    && (before.hidden ==> after.hidden)
    && (before.fence.accountBinding.Some? ==> after.fence.accountBinding == before.fence.accountBinding)
    && (before.fence.epoch.Some? ==> after.fence.epoch.Some? && before.fence.epoch.value <= after.fence.epoch.value)
    && (before.fence.sessionEpoch.Some? ==>
          after.fence.sessionEpoch.Some? && before.fence.sessionEpoch.value <= after.fence.sessionEpoch.value)
    && (before.state in {TC.JournalState.Succeeded, TC.JournalState.Failed, TC.JournalState.Cancelled, TC.Deleted} ==>
          after.state in {before.state, TC.Deleted})
    && Version(before) <= Version(after)
    && (Version(before) == Version(after) ==> SameRecord(before, after))
  }

  /** One accepted persist: the version rises by one exactly when the record changes. */
  lemma {:induction false} PersistEvolves(disk: Disk, payload: Disk, key: Key)
    requires ValidDisk(disk) && Persist(disk, payload).Ok?
    requires key in disk.records && key in payload.records
    ensures var after := Persist(disk, payload).value.records[key];
            && Evolves(disk.records[key], after)
            && Version(after) == Version(disk.records[key]) + (if SameRecord(disk.records[key], after) then 0 else 1)
  {
    assert ValidRecord(disk.records[key]);
    assert Progresses(disk.records[key], payload.records[key]);
    VersionedEvolves(disk.records, key, payload.records[key]);
  }

  lemma {:induction false} VersionedEvolves(previous: Records, key: Key, incoming: RuntimeRecord)
    requires key in previous && ValidRecord(previous[key]) && Progresses(previous[key], incoming)
    ensures var after := Versioned(previous, key, incoming);
            && Evolves(previous[key], after)
            && Version(after) == Version(previous[key]) + (if SameRecord(previous[key], after) then 0 else 1)
  {
  }

  lemma {:induction false} EvolvesReflexive(record: RuntimeRecord)
    ensures Evolves(record, record)
  {
  }

  lemma {:induction false} EvolvesTransitive(a: RuntimeRecord, b: RuntimeRecord, c: RuntimeRecord)
    requires Evolves(a, b) && Evolves(b, c)
    ensures Evolves(a, c)
  {
  }

  ghost predicate PersistStep(before: Disk, after: Disk) {
    exists payload: Disk :: Persist(before, payload) == Ok(after)
  }

  /** Each file content is what an accepted persist made of the one before. */
  ghost predicate PersistRun(run: seq<Disk>)
    decreases |run|
  {
    var last := |run| - 1;
    run != [] && if last == 0 then ValidDisk(run[0])
      else PersistRun(run[..last]) && PersistStep(run[last - 1], run[last])
  }

  lemma {:induction false} StepEvolves(before: Disk, after: Disk, key: Key)
    requires ValidDisk(before) && PersistStep(before, after)
    requires key in before.records && key in after.records
    ensures ValidDisk(after) && Evolves(before.records[key], after.records[key])
  {
    hide Evolves, ValidRecord, Progresses, SameRecord;
    var payload: Disk :| Persist(before, payload) == Ok(after);
    PersistEvolves(before, payload, key);
  }

  /** Over any run of accepted persists, a record that stays present evolves. */
  lemma {:induction false} RunEvolves(run: seq<Disk>, key: Key)
    requires PersistRun(run)
    requires forall i :: 0 <= i < |run| ==> key in run[i].records
    ensures ValidDisk(run[|run| - 1])
    ensures Evolves(run[0].records[key], run[|run| - 1].records[key])
    decreases |run|
  {
    hide Evolves, ValidDisk, PersistStep;
    var last := |run| - 1;
    if last == 0 {
      EvolvesReflexive(run[0].records[key]);
    } else {
      RunEvolves(run[..last], key);
      StepEvolves(run[last - 1], run[last], key);
      EvolvesTransitive(run[0].records[key], run[last - 1].records[key], run[last].records[key]);
    }
  }

  /** A well-formed durable record to build concrete journals from. */
  function Sample(state: JournalState, submitId: Option<string>, status: Option<TC.ProviderStatus>,
      observed: Option<Time>)
    : RuntimeRecord
  {
    RuntimeRecord(Identity("h", true, None, None, Some(Text2Image), Some(TC.Image), Some("5.0"), Some(0)),
                  state, Some(1), 0, NO_FENCE, NO_RESERVATION, NO_QUEUE, submitId, None, status,
                  Polling(None, None, None, observed), None, false)
  }

  /** The per-persist test is not transitive: an uncertain submission may be found accepted and later
      fail locally, though no single persist may take it from uncertain to that failure. */
  lemma {:induction false} ProgressionNotTransitive()
    ensures exists a, b, c ::
      && ValidRecord(a) && ValidRecord(b) && ValidRecord(c)
      && Progresses(a, b) && Progresses(b, c) && !Progresses(a, c)
  {
    var a := Sample(TC.Unknown, Some("receipt-1"), None, None);
    var b := Sample(TC.JournalState.Accepted, Some("receipt-1"), Some(TC.Processing), Some(5));
    var c := Sample(TC.JournalState.Failed, Some("receipt-1"), Some(TC.Processing), Some(5));
    assert ValidRecord(a) && ValidRecord(b) && ValidRecord(c);
    assert Progresses(a, b) && Progresses(b, c) && !Progresses(a, c);
  }

  /** Dropping a record that never spawned is a legal persist that recovery would then refuse. */
  lemma {:induction false} DroppedIntentIsRefusedByRecovery()
    ensures exists disk: Disk, payload: Disk ::
      && ValidDisk(disk) && Persist(disk, payload).Ok? && !RecoveryAccepts(disk, Persist(disk, payload).value)
  {
    var disk := Disk(map[7 := Sample(TC.JournalState.Pending, None, None, None)], 1);
    assert ValidDisk(disk);
    assert Persist(disk, EMPTY).Ok? by {
      assert AssignVersions(disk.records, map[]) == map[];
    }
    RecoveryAcceptsExactly(disk, EMPTY);
    assert 7 in disk.records.Keys && 7 !in EMPTY.records.Keys;
  }
}
