/** Every interleaving of runtimes, reconcilers, crashes and expiries over one journal: submissions as
    attempts that reserve, pass the CLI arbiter, commit their fence, spawn, and record a receipt. */
module World {
  import opened Wrappers
  import TC = TaskContract
  import opened Journal
  import opened RuntimeSections
  import QueueOrder
  import R = Reconciler

  // ---------------------------------------------------------------- state

  /** Where a submission attempt stands. Holding the CLI means the arbiter granted `epoch`; Permitted means
      the fence is durable, so the process may be spawned next; Failing is the error path. */
  datatype Stage = Prepared | HoldsCli | Permitted | Running | Failing | Over

  /** `reserved` attempts own a reservation carrying the attempt's own number; the others are synchronous
      submissions, which keep the journal lock instead. */
  datatype Attempt = Attempt(
    key: Key, requestHash: string, owner: Uuid, reserved: bool, epoch: Option<int>,
    stage: Stage, spawned: bool, receipt: Option<string>)

  datatype Spawn = Spawn(key: Key, attempt: Uuid)

  datatype Config = Config(maxActive: nat, leaseMs: nat)

  /** `spawns` is the history of CLI processes; `inherited` are the receipts found in the first journal. */
  datatype World = World(
    disk: Disk, now: Time, nextUuid: Uuid, attempts: map<Uuid, Attempt>, lock: Option<Uuid>,
    spawns: seq<Spawn>, config: Config, inherited: map<Key, string>)

  /** Runtime sections that neither start nor advance an attempt. */
  datatype Upkeep =
    | Load
    | RenewQueue(key: Key, requestHash: string, owner: Uuid)
    | RenewHold(key: Key, requestHash: string, id: Uuid, owner: Uuid)
    | CancelTask(key: Key)
    | DeleteTask(key: Key)
    | Fail(key: Key, code: string)
    | DisposeRuntime(owner: Uuid)
    | WarnCleanup(key: Key, epoch: int)

  function UpkeepDecision(task: Upkeep, records: Records, ticket: int, now: Time, leaseMs: nat): Decision {
    match task
    case Load => Keep
    case RenewQueue(key, requestHash, owner) => RenewQueueLease(records, ticket, key, requestHash, owner, now, leaseMs)
    case RenewHold(key, requestHash, id, owner) =>
        RenewReservation(records, ticket, key, requestHash, id, owner, now, leaseMs)
    case CancelTask(key) => Cancel(records, ticket, key, now)
    case DeleteTask(key) => Delete(records, ticket, key, now)
    case Fail(key, code) => FailTask(records, ticket, key, code, now)
    case DisposeRuntime(owner) => Dispose(records, ticket, owner, now)
    case WarnCleanup(key, epoch) => CleanupWarning(records, ticket, key, epoch, now)
  }

  /** Reconciler sections; a claim issues the next lease number. */
  datatype Poll =
    | InitializePolls(delay: Key -> nat)
    | ScheduleOne(key: Key, at: Time)
    | PollNow(key: Key)
    | ClaimOne(key: Key, owner: Uuid, expiresAt: Time)
    | RenewPoll(key: Key, lease: PollLease, expiresAt: Time)
    | Observe(key: Key, lease: PollLease, observed: R.Observed, schedule: R.Schedule)
    | SyncError(key: Key, lease: PollLease, code: string, schedule: R.Schedule)
    | ReleasePoll(key: Key, lease: PollLease)
    | ReleaseAll(owner: Uuid)

  function PollDecision(poll: Poll, records: Records, ticket: int, now: Time, issue: Uuid): Decision {
    match poll
    case InitializePolls(delay) => R.Initialize(records, ticket, now, delay)
    case ScheduleOne(key, at) => R.ScheduleBackground(records, ticket, key, at)
    case PollNow(key) => R.RequestNow(records, ticket, key, now)
    case ClaimOne(key, owner, expiresAt) => R.Claim(records, ticket, key, PollLease(issue, owner, expiresAt), now)
    case RenewPoll(key, lease, expiresAt) => R.RenewLease(records, ticket, key, lease, expiresAt)
    case Observe(key, lease, observed, schedule) =>
        R.CommitObservation(records, ticket, key, lease, observed, now, schedule)
    case SyncError(key, lease, code, schedule) => R.CommitSyncError(records, ticket, key, lease, code, now, schedule)
    case ReleasePoll(key, lease) => R.ReleaseLease(records, ticket, key, lease)
    case ReleaseAll(owner) => R.ReleaseOwned(records, ticket, owner)
  }

  /** Steps of the system. `memory` is whatever the acting runtime happens to remember. */
  datatype Step =
    | Tick(later: Time)
    | Keeping(memory: Records, task: Upkeep)
    | Polling(poll: Poll)
    | Enqueuing(memory: Records, key: Key, identity: Identity, owner: Uuid)
    | Reserving(memory: Records, key: Key, requestHash: string, owner: Uuid)
    | Granting(attempt: Uuid, epoch: int)
    | Fencing(memory: Records, attempt: Uuid, session: Option<Session>)
    | Spawning(attempt: Uuid)
    | Receiving(attempt: Uuid, submitId: string)
    | Accepting(memory: Records, attempt: Uuid, session: Option<Session>)
    | Breaking(attempt: Uuid)
    | Reporting(memory: Records, attempt: Uuid, code: string)
    | Dying(attempt: Uuid)
    | SyncStarting(memory: Records, key: Key, requestHash: string)
    | SyncFencing(attempt: Uuid, session: Option<Session>)
    | SyncAccepting(attempt: Uuid)
    | SyncReporting(attempt: Uuid, code: string, knownCause: bool)

  // ---------------------------------------------------------------- transitions

  type Decide = (Records, int) -> Decision

  function Upkeeping(w: World, task: Upkeep): Decide {
    (rs, t) => UpkeepDecision(task, rs, t, w.now, w.config.leaseMs)
  }

  function Enqueues(w: World, key: Key, identity: Identity, owner: Uuid): Decide {
    (rs, t) => Enqueue(rs, t, key, identity, owner, w.now, w.config.leaseMs)
  }

  function Reserves(w: World, key: Key, requestHash: string, owner: Uuid): Decide {
    (rs, t) => Reserve(rs, t, key, requestHash, w.nextUuid, owner, w.now, w.config.leaseMs, w.config.maxActive)
  }

  function Fences(w: World, a: Uuid, it: Attempt, session: Option<Session>): Decide {
    (rs, t) => CommitFence(rs, t, it.key, it.requestHash, a, it.owner, it.epoch.GetOr(0), session, w.now,
      w.config.leaseMs)
  }

  function Accepts(w: World, a: Uuid, it: Attempt, session: Option<Session>): Decide {
    (rs, t) => CommitReceipt(rs, t, it.key, it.requestHash, a, it.owner, it.epoch.GetOr(0), it.receipt.GetOr(""),
      session, w.now)
  }

  function Reports(w: World, a: Uuid, it: Attempt, code: string): Decide {
    (rs, t) => CommitFailure(rs, t, it.key, it.requestHash, a, it.owner, it.epoch, it.spawned, code, w.now)
  }

  function Submits(w: World, key: Key, requestHash: string): Decide {
    (rs, t) => SubmitSynchronously(rs, t, key, requestHash, w.now, w.config.maxActive)
  }


  ghost predicate InSection(w: World, memory: Records, decide: Decide, after: Disk, wrote: bool) {
    w.lock.None? && Section(memory, w.disk, w.now, decide, after, wrote)
  }

  predicate At(w: World, attempt: Uuid, stage: Stage) {
    attempt in w.attempts && w.attempts[attempt].stage == stage
  }

  function Move(w: World, disk: Disk, attempt: Uuid, state: Attempt): World {
    w.(disk := disk, attempts := w.attempts[attempt := state])
  }

  function Fenced(record: RuntimeRecord, epoch: int, session: Option<Session>): RuntimeRecord {
    var fence := record.fence;
    record.(fence := if session.Some? && Truthy(session.value.accountBinding)
                     then Fence(Some(epoch), session.value.accountBinding, Some(session.value.epoch))
                     else fence.(epoch := Some(epoch)))
  }

  ghost predicate UpkeepStep(w: World, memory: Records, task: Upkeep, wrote: bool, v: World) {
    InSection(w, memory, Upkeeping(w, task), v.disk, wrote) && v == w.(disk := v.disk)
  }

  predicate PollStep(w: World, poll: Poll, wrote: bool, v: World) {
    && w.lock.None?
    && Ends(w.disk, PollDecision(poll, w.disk.records, w.disk.nextQueueTicket, w.now, w.nextUuid), v.disk, wrote)
    && v == w.(disk := v.disk, nextUuid := w.nextUuid + 1)
  }

  ghost predicate EnqueueStep(w: World, memory: Records, key: Key, identity: Identity, owner: Uuid, wrote: bool,
      v: World) {
    identity.durable && InSection(w, memory, Enqueues(w, key, identity, owner), v.disk, wrote)
      && v == w.(disk := v.disk)
  }

  /** A granted reservation starts an attempt, named after its reservation. */
  ghost predicate ReserveStep(w: World, memory: Records, key: Key, requestHash: string, owner: Uuid, wrote: bool,
      v: World) {
    && InSection(w, memory, Reserves(w, key, requestHash, owner), v.disk, wrote)
    && v == (if wrote
             then Move(w, v.disk, w.nextUuid, Attempt(key, requestHash, owner, true, None, Prepared, false, None))
             else w.(disk := v.disk)).(nextUuid := w.nextUuid + 1)
  }

  predicate AttemptOnly(step: Step) {
    step.Tick? || step.Granting? || step.Spawning? || step.Receiving? || step.Breaking? || step.Dying?
  }

  /** Steps that do not touch the journal. */
  predicate AttemptStep(w: World, step: Step, v: World)
    requires AttemptOnly(step)
  {
    match step
    case Tick(later) => w.now <= later && v == w.(now := later)
    case Granting(a, epoch) =>
      && At(w, a, Prepared) && 1 <= epoch
      && v == Move(w, w.disk, a, w.attempts[a].(stage := HoldsCli, epoch := Some(epoch)))
    case Spawning(a) =>
      && At(w, a, Permitted)
      && v == Move(w, w.disk, a, w.attempts[a].(stage := Running, spawned := true))
              .(spawns := w.spawns + [Spawn(w.attempts[a].key, a)])
    case Receiving(a, submitId) =>
      && At(w, a, Running) && w.attempts[a].receipt.None?
      && v == Move(w, w.disk, a, w.attempts[a].(receipt := Some(submitId)))
    case Breaking(a) =>
      && a in w.attempts && w.attempts[a].stage in {Prepared, HoldsCli, Permitted, Running}
      && v == Move(w, w.disk, a, w.attempts[a].(stage := Failing))
    case Dying(a) =>
      && a in w.attempts
      && v == Move(w, w.disk, a, w.attempts[a].(stage := Over)).(lock := if w.lock == Some(a) then None else w.lock)
  }

  /** The fence commit is the last section before the spawn. */
  ghost predicate FenceStep(w: World, memory: Records, a: Uuid, session: Option<Session>, wrote: bool, v: World) {
    At(w, a, HoldsCli) && w.attempts[a].reserved && w.attempts[a].epoch.Some? &&
    var it := w.attempts[a];
    && InSection(w, memory, Fences(w, a, it, session), v.disk, wrote)
    && v == Move(w, v.disk, a, it.(stage := if wrote then Permitted else Failing))
  }

  ghost predicate AcceptStep(w: World, memory: Records, a: Uuid, session: Option<Session>, wrote: bool, v: World) {
    At(w, a, Running) && w.attempts[a].reserved && w.attempts[a].epoch.Some? && w.attempts[a].receipt.Some? &&
    var it := w.attempts[a];
    && InSection(w, memory, Accepts(w, a, it, session), v.disk, wrote)
    && v == Move(w, v.disk, a, it.(stage := if wrote then Over else Failing))
  }

  ghost predicate ReportStep(w: World, memory: Records, a: Uuid, code: string, wrote: bool, v: World) {
    At(w, a, Failing) && w.attempts[a].reserved &&
    var it := w.attempts[a];
    InSection(w, memory, Reports(w, a, it, code), v.disk, wrote) && v == Move(w, v.disk, a, it.(stage := Over))
  }

  ghost predicate SyncStartStep(w: World, memory: Records, key: Key, requestHash: string, wrote: bool, v: World) {
    && InSection(w, memory, Submits(w, key, requestHash), v.disk, wrote)
    && v == (if wrote
             then Move(w, v.disk, w.nextUuid, Attempt(key, requestHash, 0, false, None, Prepared, false, None))
                  .(lock := Some(w.nextUuid))
             else w.(disk := v.disk)).(nextUuid := w.nextUuid + 1)
  }

  /** A synchronous submission rewrites its own record without reloading: it has held the lock since its first write. */
  predicate Holding(w: World, a: Uuid, stage: Stage, after: Disk, record: RuntimeRecord, wrote: bool)
    requires a in w.attempts
  {
    && w.attempts[a].stage == stage && w.lock == Some(a)
    && Ends(w.disk, Write(w.disk.records[w.attempts[a].key := record], w.disk.nextQueueTicket), after, wrote)
  }

  predicate SyncFenceStep(w: World, a: Uuid, session: Option<Session>, wrote: bool, v: World) {
    a in w.attempts && w.attempts[a].epoch.Some? && w.attempts[a].key in w.disk.records &&
    var it := w.attempts[a];
    && Holding(w, a, HoldsCli, v.disk, Fenced(w.disk.records[it.key], it.epoch.value, session), wrote)
    && v == Move(w, v.disk, a, it.(stage := if wrote then Permitted else Failing))
  }

  predicate SyncAcceptStep(w: World, a: Uuid, wrote: bool, v: World) {
    a in w.attempts && w.attempts[a].receipt.Some? && w.attempts[a].key in w.disk.records &&
    var it := w.attempts[a];
    && Holding(w, a, Running, v.disk,
               w.disk.records[it.key].(state := TC.JournalState.Accepted, submitId := it.receipt, updatedAt := w.now),
                 wrote)
    && v == Move(w, v.disk, a, it.(stage := if wrote then Over else Failing)).(lock := if wrote then None else w.lock)
  }

  function Uncertain(record: RuntimeRecord, code: string, now: Time): RuntimeRecord {
    record.(state := TC.Unknown, errorCode := Some(code), updatedAt := now, submitId := None)
  }

  /** An unspawned failure with a known cause withdraws the record; any other leaves it uncertain. */
  predicate SyncReportStep(w: World, a: Uuid, code: string, knownCause: bool, wrote: bool, v: World) {
    At(w, a, Failing) && w.lock == Some(a) && w.attempts[a].key in w.disk.records &&
    var it := w.attempts[a];
    var records := if knownCause && !it.spawned then w.disk.records - {it.key}
                   else w.disk.records[it.key := Uncertain(w.disk.records[it.key], code, w.now)];
    && Ends(w.disk, Write(records, w.disk.nextQueueTicket), v.disk, wrote)
    && v == Move(w, v.disk, a, it.(stage := Over)).(lock := None)
  }

  /** One step; `wrote` tells whether its section persisted. */
  ghost predicate Next(w: World, step: Step, wrote: bool, v: World) {
    match step
    case Keeping(memory, task) => UpkeepStep(w, memory, task, wrote, v)
    case Polling(poll) => PollStep(w, poll, wrote, v)
    case Enqueuing(memory, key, identity, owner) => EnqueueStep(w, memory, key, identity, owner, wrote, v)
    case Reserving(memory, key, requestHash, owner) => ReserveStep(w, memory, key, requestHash, owner, wrote, v)
    case Fencing(memory, a, session) => FenceStep(w, memory, a, session, wrote, v)
    case Accepting(memory, a, session) => AcceptStep(w, memory, a, session, wrote, v)
    case Reporting(memory, a, code) => ReportStep(w, memory, a, code, wrote, v)
    case SyncStarting(memory, key, requestHash) => SyncStartStep(w, memory, key, requestHash, wrote, v)
    case SyncFencing(a, session) => SyncFenceStep(w, a, session, wrote, v)
    case SyncAccepting(a) => SyncAcceptStep(w, a, wrote, v)
    case SyncReporting(a, code, knownCause) => SyncReportStep(w, a, code, knownCause, wrote, v)
    case _ => AttemptStep(w, step, v)
  }

  // ---------------------------------------------------------------- the invariant

  /** An attempt that has spawned, may spawn next, or holds the lock to do so. */
  predicate Committed(w: World, a: Uuid) {
    a in w.attempts && (w.attempts[a].stage in {Permitted, Running} || w.attempts[a].spawned || w.lock == Some(a))
  }

  function Hold(it: Attempt, a: Uuid): Option<Uuid> {
    if it.reserved then Some(a) else None
  }

  /** The record can no longer be queued, and while pending it is in the hands of attempt `a`. */
  predicate Bound(record: RuntimeRecord, it: Attempt, a: Uuid) {
    && record.state != TC.Queued
    && (record.state == TC.JournalState.Pending ==> record.reservation.id == Hold(it, a))
  }

  ghost predicate Anchored(w: World, records: Records) {
    forall a :: Committed(w, a) ==> w.attempts[a].key in records && Bound(records[w.attempts[a].key], w.attempts[a], a)
  }

  ghost predicate Exclusive(w: World) {
    forall a, b :: Committed(w, a) && Committed(w, b) && a != b ==> w.attempts[a].key != w.attempts[b].key
  }

  predicate Stages(w: World) {
    && (forall a :: a in w.attempts ==>
          && a < w.nextUuid
          && (w.attempts[a].stage == Running ==> w.attempts[a].spawned)
          && (w.attempts[a].stage in {Prepared, HoldsCli, Permitted} ==> !w.attempts[a].spawned)
          && (w.attempts[a].receipt.Some? ==> w.attempts[a].spawned))
    && (w.lock.Some? ==> w.lock.value in w.attempts && !w.attempts[w.lock.value].reserved)
  }

  predicate Numbered(records: Records, next: Uuid) {
    forall k :: k in records && records[k].state == TC.JournalState.Pending && records[k].reservation.id.Some? ==>
      records[k].reservation.id.value < next
  }

  predicate LoggedSpawns(w: World) {
    && (forall i :: 0 <= i < |w.spawns| ==>
          && w.spawns[i].attempt in w.attempts
          && w.attempts[w.spawns[i].attempt].spawned
          && w.attempts[w.spawns[i].attempt].key == w.spawns[i].key)
    && (forall i, j :: 0 <= i < j < |w.spawns| ==> w.spawns[i].attempt != w.spawns[j].attempt)
    && (forall a :: a in w.attempts && w.attempts[a].spawned ==> Spawn(w.attempts[a].key, a) in w.spawns)
  }

  /** A receipt is the one the first journal held, or the answer to a spawn of this key in the history. */
  predicate Genuine(w: World, key: Key, submitId: string) {
    || (key in w.inherited && w.inherited[key] == submitId)
    || exists a :: a in w.attempts && Spawn(key, a) in w.spawns && w.attempts[a].receipt == Some(submitId)
  }

  predicate Receipts(w: World, records: Records) {
    forall k :: k in records && records[k].submitId.Some? ==> Genuine(w, k, records[k].submitId.value)
  }

  predicate TicketsDistinct(records: Records) {
    forall j, k :: j in records && k in records && j != k && records[j].queue.ticket.Some? ==>
      records[j].queue.ticket != records[k].queue.ticket
  }

  /** What a journal must satisfy against the attempts of `w`. */
  ghost predicate DiskInv(w: World, disk: Disk) {
    && ValidDisk(disk)
    && Anchored(w, disk.records)
    && Numbered(disk.records, w.nextUuid)
    && Receipts(w, disk.records)
    && |RuntimeSections.Reserving(disk.records)| <= w.config.maxActive
    && TicketsDistinct(disk.records)
  }

  ghost predicate AttemptInv(w: World) {
    Exclusive(w) && Stages(w) && LoggedSpawns(w)
  }

  ghost predicate Inv(w: World) {
    AttemptInv(w) && DiskInv(w, w.disk)
  }

  /** Any valid journal within capacity, whose tickets are distinct, and no attempt yet. */
  predicate Init(w: World) {
    && w.attempts == map[] && w.lock.None? && w.spawns == []
    && ValidDisk(w.disk)
    && |RuntimeSections.Reserving(w.disk.records)| <= w.config.maxActive
    && TicketsDistinct(w.disk.records)
    && Numbered(w.disk.records, w.nextUuid)
    && (forall k :: k in w.disk.records && w.disk.records[k].submitId.Some? ==>
          k in w.inherited && w.inherited[k] == w.disk.records[k].submitId.value)
  }

  lemma {:induction false} InitInv(w: World)
    requires Init(w)
    ensures Inv(w)
  {
  }

  // ---------------------------------------------------------------- quiet changes

  lemma {:induction false} SubsetSize<T>(small: set<T>, large: set<T>)
    requires small <= large
    ensures |small| <= |large|
  {
    if small != large {
      assert |large - small| + |small| == |large| by { assert (large - small) + small == large; }
    }
  }

  lemma {:induction false} QuietKeeps(w: World, before: Disk, after: Disk, issued: Option<Uuid>)
    requires DiskInv(w, before) && ValidDisk(after) && Quiet(before.records, after.records, issued)
    ensures DiskInv(w, after)
  {
    hide ValidDisk, Committed, Genuine, PollingKept;
    assert forall k :: k in after.records ==> QuietRecord(before.records[k], after.records[k], issued);
    SubsetSize(RuntimeSections.Reserving(after.records), RuntimeSections.Reserving(before.records));
    forall k | k in after.records && after.records[k].submitId.Some?
      ensures Genuine(w, k, after.records[k].submitId.value)
    {
      assert QuietRecord(before.records[k], after.records[k], issued);
    }
  }

  /** A persisted quiet rewrite of `mid`. */
  lemma {:induction false} WrittenQuiet(w: World, mid: Disk, records: Records, ticket: int, after: Disk,
      issued: Option<Uuid>)
    requires DiskInv(w, mid) && Quiet(mid.records, records, issued)
    requires Ends(mid, Write(records, ticket), after, true)
    ensures DiskInv(w, after) && Quiet(mid.records, after.records, issued)
  {
    hide DiskInv, Progresses, ValidRecord, QuietRecord, SameRecord;
    VersionsQuiet(mid.records, records);
    QuietAfter(mid.records, records, after.records, issued);
    QuietKeeps(w, mid, after, issued);
  }

  lemma {:induction false} QuietAfter(a: Records, b: Records, c: Records, issued: Option<Uuid>)
    requires Quiet(a, b, issued) && Quiet(b, c, None)
    ensures Quiet(a, c, issued)
  {
    hide ReservesSlot;
    forall k | k in a ensures QuietRecord(a[k], c[k], issued) {
      assert QuietRecord(a[k], b[k], issued) && QuietRecord(b[k], c[k], None);
    }
  }

  lemma {:induction false} UpkeepQuiet(task: Upkeep, records: Records, ticket: int, now: Time, leaseMs: nat)
    requires UpkeepDecision(task, records, ticket, now, leaseMs).Write?
    ensures Quiet(records, UpkeepDecision(task, records, ticket, now, leaseMs).records, None)
  {
  }

  lemma {:induction false} KeepingKeeps(w: World, memory: Records, task: Upkeep, wrote: bool, v: World)
    requires Inv(w) && UpkeepStep(w, memory, task, wrote, v)
    ensures Inv(v)
  {
    hide DiskInv, Section, UpkeepDecision, Ends, Exclusive, Stages, LoggedSpawns;
    var mid, ticket := SectionEffect(memory, w.disk, w.now, Upkeeping(w, task), v.disk, wrote);
    KeepMid(w, mid);
    var decision := UpkeepDecision(task, mid.records, ticket, w.now, w.config.leaseMs);
    if wrote {
      WroteSomething(mid, decision, v.disk);
      UpkeepQuiet(task, mid.records, ticket, w.now, w.config.leaseMs);
      WrittenQuiet(w, mid, decision.records, decision.nextTicket, v.disk, None);
    } else {
      NothingWrote(mid, decision, v.disk);
    }
    SameAttempts(w, v, v.disk);
    SameAttemptInv(w, v);
  }

  lemma {:induction false} KeepMid(w: World, mid: Disk)
    requires Inv(w) && (ValidDisk(w.disk) ==> ValidDisk(mid)) && Quiet(w.disk.records, mid.records, None)
    ensures DiskInv(w, mid)
  {
    hide ValidDisk, Quiet, Anchored, Receipts;
    QuietKeeps(w, w.disk, mid, None);
  }

  /** The journal's obligations depend on the attempts only. */
  lemma {:induction false} SameAttempts(w: World, v: World, disk: Disk)
    requires DiskInv(w, disk) && w.attempts == v.attempts && w.lock == v.lock && w.nextUuid <= v.nextUuid
    requires w.config == v.config && w.inherited == v.inherited && w.spawns == v.spawns
    ensures DiskInv(v, disk)
  {
    hide ValidDisk, TicketsDistinct, Numbered, Bound;
    assert forall a :: Committed(v, a) == Committed(w, a);
    GenuineKept(w, v);
    NumberedLater(disk.records, w.nextUuid, v.nextUuid);
    hide Genuine, Committed;
  }

  lemma {:induction false} NumberedLater(records: Records, next: Uuid, later: Uuid)
    requires Numbered(records, next) && next <= later
    ensures Numbered(records, later)
  {
  }

  // ---------------------------------------------------------------- polls are quiet once persisted

  function Issued(poll: Poll, w: World): Option<Uuid> {
    if poll.ClaimOne? then Some(w.nextUuid) else None
  }

  /** An observation may revive a record in ways only the persist check rules out. */
  lemma {:induction false} ObservedQuiet(record: RuntimeRecord, observed: R.Observed, now: Time, schedule: R.Schedule,
      stored: RuntimeRecord)
    requires ValidRecord(record) && Progresses(record, R.Observe(record, observed, now, schedule))
    requires stored == R.Observe(record, observed, now, schedule).(journalVersion := stored.journalVersion)
    requires ValidRecord(stored)
    ensures QuietRecord(record, stored, None)
  {
    R.ObserveFrames(record, observed, now, schedule);
    hide R.Observe, PollingKept, ReservationShape, QueueShape, ValidOutputs, ValidSynchronous, ValidDurable,
         FenceProgresses, QueueLeaseProgresses, ReservationProgresses;
  }

  lemma {:induction false} OtherPollQuiet(w: World, poll: Poll, records: Records, ticket: int)
    requires !poll.Observe? && PollDecision(poll, records, ticket, w.now, w.nextUuid).Write?
    ensures Quiet(records, PollDecision(poll, records, ticket, w.now, w.nextUuid).records, Issued(poll, w))
  {
    hide R.Eligible;
  }

  lemma {:induction false} ObservePollQuiet(w: World, poll: Poll, after: Disk)
    requires poll.Observe? && ValidDisk(w.disk)
    requires Ends(w.disk, PollDecision(poll, w.disk.records, w.disk.nextQueueTicket, w.now, w.nextUuid), after, true)
    ensures ValidDisk(after) && Quiet(w.disk.records, after.records, None)
  {
    hide Progresses, ValidRecord, SameRecord, R.Observe, QuietRecord;
    var records, key := w.disk.records, poll.key;
    var decision := R.CommitObservation(records, w.disk.nextQueueTicket, key, poll.lease, poll.observed, w.now,
      poll.schedule);
    VersionsQuiet(records, decision.records);
    QuietReflexive(records);
    ObservedQuiet(records[key], poll.observed, w.now, poll.schedule, after.records[key]);
    forall k | k in records ensures QuietRecord(records[k], after.records[k], None) {
      if k != key {
        assert QuietRecord(decision.records[k], after.records[k], None);
      }
    }
  }

  lemma {:induction false} PollQuiet(w: World, poll: Poll, after: Disk)
    requires ValidDisk(w.disk)
    requires Ends(w.disk, PollDecision(poll, w.disk.records, w.disk.nextQueueTicket, w.now, w.nextUuid), after, true)
    ensures ValidDisk(after) && Quiet(w.disk.records, after.records, Issued(poll, w))
  {
    hide Progresses, ValidRecord, SameRecord, QuietRecord, PollDecision;
    if poll.Observe? {
      ObservePollQuiet(w, poll, after);
    } else {
      var decision := PollDecision(poll, w.disk.records, w.disk.nextQueueTicket, w.now, w.nextUuid);
      VersionsQuiet(w.disk.records, decision.records);
      OtherPollQuiet(w, poll, w.disk.records, w.disk.nextQueueTicket);
      QuietAfter(w.disk.records, decision.records, after.records, Issued(poll, w));
    }
  }

  lemma {:induction false} PollingKeeps(w: World, poll: Poll, wrote: bool, v: World)
    requires Inv(w) && PollStep(w, poll, wrote, v)
    ensures Inv(v)
  {
    hide DiskInv, PollDecision, ValidDisk, Ends, Quiet, Exclusive, Stages, LoggedSpawns;
    if wrote {
      DiskInvValid(w);
      PollQuiet(w, poll, v.disk);
      QuietKeeps(w, w.disk, v.disk, Issued(poll, w));
    } else {
      NothingWrote(w.disk, PollDecision(poll, w.disk.records, w.disk.nextQueueTicket, w.now, w.nextUuid), v.disk);
    }
    SameAttempts(w, v, v.disk);
    SameAttemptInv(w, v);
  }

  lemma {:induction false} DiskInvValid(w: World)
    requires DiskInv(w, w.disk)
    ensures ValidDisk(w.disk)
  {
  }

  // ---------------------------------------------------------------- writes to one record

  /** Putting `record` at `key` breaks none of the journal's obligations. */
  ghost predicate Admissible(w: World, disk: Disk, key: Key, record: RuntimeRecord) {
    && (forall a :: Committed(w, a) && w.attempts[a].key == key ==> Bound(record, w.attempts[a], a))
    && (record.state == TC.JournalState.Pending && record.reservation.id.Some? ==>
      record.reservation.id.value < w.nextUuid)
    && (record.submitId.Some? ==> Genuine(w, key, record.submitId.value))
    && (ReservesSlot(record) ==>
          || (key in disk.records && ReservesSlot(disk.records[key]))
          || |RuntimeSections.Reserving(disk.records)| < w.config.maxActive)
    && TicketFits(disk.records, key, record)
  }

  /** The ticket is absent, the one already there, or above every other. */
  predicate TicketFits(records: Records, key: Key, record: RuntimeRecord) {
    || record.queue.ticket.None?
    || (key in records && records[key].queue.ticket == record.queue.ticket)
    || TicketsBelow(records, record.queue.ticket.value)
  }

  /** `after` is `before` with `record` at `key`, all else quiet. */
  predicate Placed(before: Records, key: Key, record: RuntimeRecord, after: Records) {
    && after.Keys == before.Keys + {key} && after[key] == record
    && forall k :: k in before && k != key ==> QuietRecord(before[k], after[k], None)
  }

  lemma {:induction false} PlacedSlots(before: Records, key: Key, record: RuntimeRecord, after: Records, limit: nat)
    requires Placed(before, key, record, after) && |RuntimeSections.Reserving(before)| <= limit
    requires ReservesSlot(record) ==>
        (key in before && ReservesSlot(before[key])) || |RuntimeSections.Reserving(before)| < limit
    ensures |RuntimeSections.Reserving(after)| <= limit
  {
    var slots, placed := RuntimeSections.Reserving(before), RuntimeSections.Reserving(after);
    if key in slots || key !in placed {
      SubsetSize(placed, slots);
    } else {
      SubsetSize(placed, slots + {key});
    }
  }

  lemma {:induction false} PlacedTickets(before: Records, key: Key, record: RuntimeRecord, after: Records)
    requires Placed(before, key, record, after) && TicketsDistinct(before) && TicketFits(before, key, record)
    ensures TicketsDistinct(after)
  {
    hide ReservesSlot, PollingKept;
    assert forall k :: k in after && k != key ==> QuietRecord(before[k], after[k], None);
  }

  lemma {:induction false} PlacedKeeps(w: World, disk: Disk, key: Key, record: RuntimeRecord, after: Disk)
    requires DiskInv(w, disk) && Admissible(w, disk, key, record)
    requires ValidDisk(after) && Placed(disk.records, key, record, after.records)
    ensures DiskInv(w, after)
  {
    hide ValidDisk, Committed, Genuine, PollingKept, ReservesSlot, TicketsDistinct;
    PlacedSlots(disk.records, key, record, after.records, w.config.maxActive);
    PlacedTickets(disk.records, key, record, after.records);
    assert forall k :: k in after.records && k != key ==> QuietRecord(disk.records[k], after.records[k], None);
  }

  lemma {:induction false} WrittenAt(w: World, mid: Disk, key: Key, record: RuntimeRecord, ticket: int, after: Disk)
    requires DiskInv(w, mid) && Admissible(w, mid, key, record)
    requires Ends(mid, Write(mid.records[key := record], ticket), after, true)
    ensures DiskInv(w, after)
  {
    hide DiskInv, Admissible, Progresses, ValidRecord, SameRecord;
    var versioned := AssignVersions(mid.records, mid.records[key := record])[key];
    AdmissibleVersion(w, mid, key, record, versioned);
    VersionsQuiet(mid.records, mid.records[key := record]);
    PlacedKeeps(w, mid, key, versioned, after);
  }

  lemma {:induction false} TicketIgnoresVersion(records: Records, key: Key, record: RuntimeRecord,
      versioned: RuntimeRecord)
    requires TicketFits(records, key, record) && versioned.queue == record.queue
    ensures TicketFits(records, key, versioned)
  {
  }

  lemma {:induction false} AdmissibleVersion(w: World, disk: Disk, key: Key, record: RuntimeRecord,
      versioned: RuntimeRecord)
    requires Admissible(w, disk, key, record) && versioned == record.(journalVersion := versioned.journalVersion)
    ensures Admissible(w, disk, key, versioned)
  {
    hide Committed, Genuine, TicketFits;
    assert TicketFits(disk.records, key, versioned) by { TicketIgnoresVersion(disk.records, key, record, versioned); }
  }

  // ---------------------------------------------------------------- every step keeps the invariant

  lemma {:induction false} EnqueuingKeeps(w: World, memory: Records, key: Key, identity: Identity, owner: Uuid,
      wrote: bool, v: World)
    requires Inv(w) && EnqueueStep(w, memory, key, identity, owner, wrote, v)
    ensures Inv(v)
  {
    hide DiskInv, Section, Enqueues, Ends, Exclusive, Stages, LoggedSpawns, Committed;
    var mid, ticket := SectionEffect(memory, w.disk, w.now, Enqueues(w, key, identity, owner), v.disk, wrote);
    KeepMid(w, mid);
    if wrote {
      EnqueuedKeeps(w, mid, ticket, key, identity, owner, v.disk);
    } else {
      NothingWrote(mid, Enqueues(w, key, identity, owner)(mid.records, ticket), v.disk);
    }
    SameAttempts(w, v, v.disk);
    SameAttemptInv(w, v);
  }

  lemma {:induction false} WroteSomething(mid: Disk, decision: Decision, after: Disk)
    requires Ends(mid, decision, after, true)
    ensures decision == Write(decision.records, decision.nextTicket)
  {
    hide Persist;
  }

  lemma {:induction false} NothingWrote(mid: Disk, decision: Decision, after: Disk)
    requires Ends(mid, decision, after, false) || after == mid
    ensures after == mid
  {
  }

  lemma {:induction false} EnqueuedKeeps(w: World, mid: Disk, ticket: int, key: Key, identity: Identity, owner: Uuid,
      after: Disk)
    requires DiskInv(w, mid) && TicketsBelow(mid.records, ticket)
    requires Ends(mid, Enqueues(w, key, identity, owner)(mid.records, ticket), after, true)
    ensures DiskInv(w, after)
  {
    hide DiskInv, Committed, Persist, TicketsBelow;
    var decision := Enqueues(w, key, identity, owner)(mid.records, ticket);
    assert decision.Write?;
    var record := Queue(identity, owner, ticket, w.now, w.config.leaseMs);
    assert decision == Write(mid.records[key := record], ticket + 1) && key !in mid.records;
    UncommittedKey(w, mid, key);
    hide Ends;
    WrittenAt(w, mid, key, record, ticket + 1, after);
  }

  /** No attempt is committed to a key that is absent or queued. */
  lemma {:induction false} UncommittedKey(w: World, disk: Disk, key: Key)
    requires DiskInv(w, disk) && (key !in disk.records || disk.records[key].state == TC.Queued)
    ensures forall a :: Committed(w, a) ==> w.attempts[a].key != key
    ensures key in disk.records && disk.records[key].submitId.Some? ==>
        Genuine(w, key, disk.records[key].submitId.value)
  {
    hide ValidDisk, Committed, Genuine;
  }

  lemma {:induction false} ReserveDecision(w: World, key: Key, requestHash: string, owner: Uuid, records: Records,
      ticket: int)
    returns (record: RuntimeRecord)
    ensures Reserves(w, key, requestHash, owner)(records, ticket).Write? ==>
              && key in records && records[key].state == TC.Queued
              && |RuntimeSections.Reserving(records)| < w.config.maxActive
              && Reserves(w, key, requestHash, owner)(records, ticket) == Write(records[key := record], ticket)
              && record.state == TC.JournalState.Pending && record.reservation.id == Some(w.nextUuid)
              && record.queue == NO_QUEUE && record.submitId == records[key].submitId
  {
    var decision := Reserves(w, key, requestHash, owner)(records, ticket);
    if decision.Write? {
      record := decision.records[key];
    } else {
      record := Queue(Identity("", true, None, None, None, None, None, None), 0, 0, 0, 0);
    }
  }

  /** A reservation written over a queued record, with the attempt that holds it. */
  lemma {:induction false} ReservedKeeps(w: World, mid: Disk, ticket: int, key: Key, requestHash: string, owner: Uuid,
      v: World)
    requires Stages(w) && DiskInv(w, mid)
    requires Reserves(w, key, requestHash, owner)(mid.records, ticket).Write?
    requires Ends(mid, Reserves(w, key, requestHash, owner)(mid.records, ticket), v.disk, true)
    requires w.nextUuid in v.attempts && v.attempts == w.attempts[w.nextUuid := v.attempts[w.nextUuid]]
    requires v.attempts[w.nextUuid].stage == Prepared && !v.attempts[w.nextUuid].spawned
    requires v.lock == w.lock && v.lock != Some(w.nextUuid)
    requires v.config == w.config && v.inherited == w.inherited && v.spawns == w.spawns && v.nextUuid == w.nextUuid + 1
    ensures DiskInv(v, v.disk)
  {
    hide DiskInv, Section, Reserves, Exclusive, Stages, LoggedSpawns, Ends;
    var later := w.(nextUuid := w.nextUuid + 1);
    SameAttempts(w, later, mid);
    var record := ReserveDecision(w, key, requestHash, owner, mid.records, ticket);
    UncommittedKey(later, mid, key);
    WrittenAt(later, mid, key, record, ticket, v.disk);
    Unused(w);
    NewAttempt(later, w.nextUuid, v, v.disk);
  }

  lemma {:induction false} ReservingKeeps(w: World, memory: Records, key: Key, requestHash: string, owner: Uuid,
      wrote: bool, v: World)
    requires Inv(w) && ReserveStep(w, memory, key, requestHash, owner, wrote, v)
    ensures Inv(v)
  {
    hide DiskInv, Section, Reserves, Exclusive, LoggedSpawns;
    var mid, ticket := SectionEffect(memory, w.disk, w.now, Reserves(w, key, requestHash, owner), v.disk, wrote);
    KeepMid(w, mid);
    RegisterKeeps(w, v, wrote);
    if wrote {
      ReservedKeeps(w, mid, ticket, key, requestHash, owner, v);
    } else {
      SameAttempts(w, v, v.disk);
    }
  }

  lemma {:induction false} Unused(w: World)
    requires Stages(w)
    ensures w.nextUuid !in w.attempts
  {
  }

  /** Numbering the next attempt, if there is one, leaves the attempts consistent. */
  lemma {:induction false} RegisterKeeps(w: World, v: World, registered: bool)
    requires AttemptInv(w) && v.nextUuid == w.nextUuid + 1 && v.spawns == w.spawns && v.lock == w.lock
    requires if registered then
               && w.nextUuid in v.attempts && v.attempts == w.attempts[w.nextUuid := v.attempts[w.nextUuid]]
               && v.attempts[w.nextUuid].stage == Prepared && !v.attempts[w.nextUuid].spawned
               && v.attempts[w.nextUuid].receipt.None?
             else v.attempts == w.attempts
    ensures AttemptInv(v)
  {
    assert forall a :: Committed(v, a) ==> Committed(w, a);
  }

  /** Registering an attempt that is not committed yet. */
  lemma {:induction false} NewAttempt(w: World, a: Uuid, v: World, disk: Disk)
    requires DiskInv(w, disk) && a !in w.attempts
    requires a in v.attempts && v.attempts == w.attempts[a := v.attempts[a]] && v.attempts[a].stage == Prepared
    requires !v.attempts[a].spawned && v.lock == w.lock && v.lock != Some(a)
    requires v.config == w.config && v.inherited == w.inherited && v.spawns == w.spawns && v.nextUuid == w.nextUuid
    ensures DiskInv(v, disk)
  {
    hide ValidDisk;
    assert forall b :: Committed(v, b) == Committed(w, b);
    GenuineKept(w, v);
  }

  lemma {:induction false} GenuineKept(w: World, v: World)
    requires w.inherited == v.inherited && forall spawn :: spawn in w.spawns ==> spawn in v.spawns
    requires forall a :: a in w.attempts ==>
      a in v.attempts && (w.attempts[a].receipt.Some? ==> v.attempts[a].receipt == w.attempts[a].receipt)
    ensures forall k, s :: Genuine(w, k, s) ==> Genuine(v, k, s)
  {
    forall k, s | Genuine(w, k, s) ensures Genuine(v, k, s) {
      if !(k in w.inherited && w.inherited[k] == s) {
        var a :| a in w.attempts && Spawn(k, a) in w.spawns && w.attempts[a].receipt == Some(s);
        assert v.attempts[a].receipt == Some(s);
      }
    }
  }

  /** Changing the state of one attempt without committing it afresh. */
  predicate Advances(w: World, a: Uuid, v: World) {
    && a in w.attempts && a in v.attempts && v.attempts == w.attempts[a := v.attempts[a]]
    && v.config == w.config && v.inherited == w.inherited && v.nextUuid == w.nextUuid
    && (forall spawn :: spawn in w.spawns ==> spawn in v.spawns)
    && (v.lock == w.lock || (w.lock == Some(a) && v.lock.None?))
    && v.attempts[a].key == w.attempts[a].key && v.attempts[a].reserved == w.attempts[a].reserved
    && (w.attempts[a].spawned ==> v.attempts[a].spawned)
    && (w.attempts[a].receipt.Some? ==> v.attempts[a].receipt == w.attempts[a].receipt)
    && (Committed(v, a) ==> Committed(w, a))
  }

  lemma {:induction false} AdvanceKeeps(w: World, a: Uuid, v: World, disk: Disk)
    requires DiskInv(w, disk) && Exclusive(w) && Advances(w, a, v)
    ensures DiskInv(v, disk) && Exclusive(v)
  {
    AdvanceAnchors(w, a, v, disk.records);
    GenuineKept(w, v);
    hide ValidDisk, Bound, TicketsDistinct, Numbered, Genuine, Committed, Anchored, Exclusive;
  }

  lemma {:induction false} AdvanceAnchors(w: World, a: Uuid, v: World, records: Records)
    requires Anchored(w, records) && Exclusive(w) && Advances(w, a, v)
    ensures Anchored(v, records) && Exclusive(v)
  {
    hide Bound;
    assert forall b :: Committed(v, b) ==> Committed(w, b);
    forall b | Committed(v, b)
      ensures v.attempts[b].key in records && Bound(records[v.attempts[b].key], v.attempts[b], b)
    {
      BoundSurvives(records[w.attempts[b].key], w.attempts[b], v.attempts[b], b);
    }
  }

  /** The attempt's new stage fits its flags, and the spawn history grows by its spawn if it has one. */
  predicate StageFits(w: World, a: Uuid, v: World) {
    && a in w.attempts && a in v.attempts
    && (v.attempts[a].stage == Running ==> v.attempts[a].spawned)
    && (v.attempts[a].stage in {Prepared, HoldsCli, Permitted} ==> !v.attempts[a].spawned)
    && (v.attempts[a].receipt.Some? ==> v.attempts[a].spawned)
    && v.spawns == (if v.attempts[a].spawned && !w.attempts[a].spawned then w.spawns + [Spawn(w.attempts[a].key, a)]
      else w.spawns)
  }

  lemma {:induction false} StageKeeps(w: World, a: Uuid, v: World)
    requires Stages(w) && LoggedSpawns(w) && Advances(w, a, v) && StageFits(w, a, v)
    ensures Stages(v) && LoggedSpawns(v)
  {
    hide Committed;
  }

  /** Only the attempt's stage is written down. */
  predicate Restaged(w: World, a: Uuid, stage: Stage, v: World) {
    && a in w.attempts && v.attempts == w.attempts[a := w.attempts[a].(stage := stage)]
    && v.spawns == w.spawns && v.lock == w.lock && v.nextUuid == w.nextUuid
    && v.config == w.config && v.inherited == w.inherited
  }

  /** Writing down a stage that fits what has happened so far. */
  lemma {:induction false} RestagedKeeps(w: World, a: Uuid, stage: Stage, v: World)
    requires Stages(w) && LoggedSpawns(w) && Restaged(w, a, stage, v)
    requires stage == Running ==> w.attempts[a].spawned
    requires stage in {Prepared, HoldsCli, Permitted} ==> w.attempts[a].stage in {Prepared, HoldsCli, Permitted}
    ensures Stages(v) && LoggedSpawns(v)
  {
  }

  lemma {:induction false} RestagedAdvances(w: World, a: Uuid, stage: Stage, v: World)
    requires Restaged(w, a, stage, v) && stage in {Failing, Over}
    ensures Advances(w, a, v)
  {
  }

  lemma {:induction false} AttemptOnlyKeeps(w: World, step: Step, v: World)
    requires Inv(w) && AttemptOnly(step) && AttemptStep(w, step, v)
    ensures Inv(v)
  {
    hide DiskInv, Exclusive, LoggedSpawns;
    if step.Tick? {
      SameAttempts(w, v, v.disk);
      SameAttemptInv(w, v);
    } else {
      AttemptAdvances(w, step, v);
      AdvanceKeeps(w, step.attempt, v, v.disk);
      StageKeeps(w, step.attempt, v);
    }
  }

  lemma {:induction false} AttemptAdvances(w: World, step: Step, v: World)
    requires Stages(w) && AttemptOnly(step) && !step.Tick? && AttemptStep(w, step, v)
    ensures Advances(w, step.attempt, v) && StageFits(w, step.attempt, v)
  {
    assert w.attempts[step.attempt] == w.attempts[step.attempt];
  }

  lemma {:induction false} SameAttemptInv(w: World, v: World)
    requires AttemptInv(w) && v.attempts == w.attempts && v.lock == w.lock && v.spawns == w.spawns
    requires w.nextUuid <= v.nextUuid
    ensures AttemptInv(v)
  {
    assert forall a :: Committed(v, a) == Committed(w, a);
  }

  lemma {:induction false} FenceDecision(w: World, a: Uuid, it: Attempt, session: Option<Session>, records: Records,
      ticket: int)
    returns (decision: Decision)
    ensures decision == Fences(w, a, it, session)(records, ticket)
    ensures decision.Write? ==>
              && decision.nextTicket == ticket && Quiet(records, decision.records, None)
                && decision.records.Keys == records.Keys
              && it.key in records && records[it.key].state == TC.JournalState.Pending
              && records[it.key].reservation.id == Some(a)
  {
    decision := Fences(w, a, it, session)(records, ticket);
  }

  lemma {:induction false} FenceRestages(w: World, memory: Records, a: Uuid, session: Option<Session>, wrote: bool,
      v: World)
    requires Inv(w) && FenceStep(w, memory, a, session, wrote, v)
    ensures Restaged(w, a, if wrote then Permitted else Failing, v)
    ensures Stages(v) && LoggedSpawns(v)
  {
    hide DiskInv, InSection, Exclusive, Stages, LoggedSpawns;
    RestagedKeeps(w, a, if wrote then Permitted else Failing, v);
  }

  lemma {:induction false} FencingKeeps(w: World, memory: Records, a: Uuid, session: Option<Session>, wrote: bool,
      v: World)
    requires Inv(w) && FenceStep(w, memory, a, session, wrote, v)
    ensures Inv(v)
  {
    FenceRestages(w, memory, a, session, wrote, v);
    hide DiskInv, Section, Fences, Exclusive, Stages, LoggedSpawns, Ends, Bound, Restaged, Committed, Move;
    var it := w.attempts[a];
    var mid, ticket := SectionEffect(memory, w.disk, w.now, Fences(w, a, it, session), v.disk, wrote);
    KeepMid(w, mid);
    if wrote {
      FencedKeeps(w, mid, ticket, a, session, v.disk);
      PermitKeeps(w, a, v, v.disk);
    } else {
      NothingWrote(mid, Fences(w, a, it, session)(mid.records, ticket), v.disk);
      RestagedAdvances(w, a, Failing, v);
      AdvanceKeeps(w, a, v, v.disk);
    }
  }

  lemma {:induction false} FencedKeeps(w: World, mid: Disk, ticket: int, a: Uuid, session: Option<Session>, after: Disk)
    requires DiskInv(w, mid) && a in w.attempts && w.attempts[a].reserved
    requires Ends(mid, Fences(w, a, w.attempts[a], session)(mid.records, ticket), after, true)
    ensures DiskInv(w, after) && w.attempts[a].key in after.records
    ensures Bound(after.records[w.attempts[a].key], w.attempts[a], a)
    ensures forall b :: Committed(w, b) && w.attempts[b].key == w.attempts[a].key ==> b == a
  {
    hide DiskInv, Fences, Persist, Committed, Bound;
    var it := w.attempts[a];
    var decision := FenceDecision(w, a, it, session, mid.records, ticket);
    WrittenQuiet(w, mid, decision.records, ticket, after, None);
    HeldAlone(w, mid, it.key, a);
    HeldStaysBound(mid.records, after.records, it, a);
  }

  lemma {:induction false} HeldStaysBound(before: Records, after: Records, it: Attempt, a: Uuid)
    requires Quiet(before, after, None) && it.key in before && it.reserved
    requires before[it.key].state == TC.JournalState.Pending && before[it.key].reservation.id == Some(a)
    ensures it.key in after && Bound(after[it.key], it, a)
  {
    assert QuietRecord(before[it.key], after[it.key], None);
  }

  /** Whoever is committed to a key whose record is pending under reservation `a` is attempt `a`. */
  lemma {:induction false} HeldAlone(w: World, disk: Disk, key: Key, a: Uuid)
    requires DiskInv(w, disk) && key in disk.records
    requires disk.records[key].state == TC.JournalState.Pending && disk.records[key].reservation.id == Some(a)
    ensures forall b :: Committed(w, b) && w.attempts[b].key == key ==> b == a
  {
    hide ValidDisk, Receipts, Numbered, TicketsDistinct, Committed;
  }

  /** Once its fence is durable an attempt is committed, and alone on its key. */
  lemma {:induction false} PermitKeeps(w: World, a: Uuid, v: World, disk: Disk)
    requires DiskInv(w, disk) && Exclusive(w) && Restaged(w, a, Permitted, v)
    requires w.attempts[a].key in disk.records && Bound(disk.records[w.attempts[a].key], w.attempts[a], a)
    requires forall b :: Committed(w, b) && w.attempts[b].key == w.attempts[a].key ==> b == a
    ensures DiskInv(v, disk) && Exclusive(v)
  {
    PermitAnchors(w, a, v, disk.records);
    GenuineKept(w, v);
    hide ValidDisk, Bound, TicketsDistinct, Numbered, Genuine, Committed, Anchored, Exclusive;
  }

  lemma {:induction false} PermitAnchors(w: World, a: Uuid, v: World, records: Records)
    requires Anchored(w, records) && Exclusive(w) && Restaged(w, a, Permitted, v)
    requires w.attempts[a].key in records && Bound(records[w.attempts[a].key], w.attempts[a], a)
    requires forall b :: Committed(w, b) && w.attempts[b].key == w.attempts[a].key ==> b == a
    ensures Anchored(v, records) && Exclusive(v)
  {
    hide Bound;
    assert forall b :: b != a ==> Committed(v, b) == Committed(w, b);
    BoundSurvives(records[w.attempts[a].key], w.attempts[a], v.attempts[a], a);
    hide Committed;
  }

  lemma {:induction false} BoundSurvives(record: RuntimeRecord, it: Attempt, later: Attempt, a: Uuid)
    requires Bound(record, it, a) && later.reserved == it.reserved
    ensures Bound(record, later, a)
  {
  }

  lemma {:induction false} AcceptDecision(w: World, a: Uuid, it: Attempt, session: Option<Session>, records: Records,
      ticket: int)
    returns (record: RuntimeRecord)
    ensures Accepts(w, a, it, session)(records, ticket).Write? ==>
              && it.key in records && records[it.key].state == TC.JournalState.Pending
              && records[it.key].reservation.id == Some(a)
              && Accepts(w, a, it, session)(records, ticket) == Write(records[it.key := record], ticket)
              && record.state == TC.JournalState.Accepted && record.submitId == Some(it.receipt.GetOr(""))
              && record.queue == records[it.key].queue && record.reservation == NO_RESERVATION
  {
    var decision := Accepts(w, a, it, session)(records, ticket);
    if decision.Write? {
      record := decision.records[it.key];
    } else {
      record := Queue(Identity("", true, None, None, None, None, None, None), 0, 0, 0, 0);
    }
  }

  lemma {:induction false} AcceptedKeeps(w: World, mid: Disk, ticket: int, a: Uuid, session: Option<Session>,
      after: Disk)
    requires DiskInv(w, mid) && a in w.attempts && Spawn(w.attempts[a].key, a) in w.spawns
    requires w.attempts[a].receipt.Some?
    requires Accepts(w, a, w.attempts[a], session)(mid.records, ticket).Write?
    requires Ends(mid, Accepts(w, a, w.attempts[a], session)(mid.records, ticket), after, true)
    ensures DiskInv(w, after)
  {
    hide DiskInv, Accepts, Ends, Admissible;
    var it := w.attempts[a];
    var record := AcceptDecision(w, a, it, session, mid.records, ticket);
    ReceiptAdmissible(w, mid, a, record);
    WrittenAt(w, mid, it.key, record, ticket, after);
  }

  lemma {:induction false} AcceptingKeeps(w: World, memory: Records, a: Uuid, session: Option<Session>, wrote: bool,
      v: World)
    requires Inv(w) && AcceptStep(w, memory, a, session, wrote, v)
    ensures Inv(v)
  {
    hide DiskInv, Section, Accepts, Exclusive, LoggedSpawns;
    var it := w.attempts[a];
    var mid, ticket := SectionEffect(memory, w.disk, w.now, Accepts(w, a, it, session), v.disk, wrote);
    KeepMid(w, mid);
    if wrote {
      SpawnLogged(w, a);
      AcceptedKeeps(w, mid, ticket, a, session, v.disk);
    }
    AdvanceKeeps(w, a, v, v.disk);
    StageKeeps(w, a, v);
  }

  lemma {:induction false} SpawnLogged(w: World, a: Uuid)
    requires Stages(w) && LoggedSpawns(w) && a in w.attempts && w.attempts[a].receipt.Some?
    ensures Spawn(w.attempts[a].key, a) in w.spawns
  {
  }

  /** The receipt a running attempt brings back belongs to its key. */
  lemma {:induction false} ReceiptAdmissible(w: World, disk: Disk, a: Uuid, record: RuntimeRecord)
    requires a in w.attempts && Spawn(w.attempts[a].key, a) in w.spawns && w.attempts[a].receipt.Some?
    requires w.attempts[a].key in disk.records && ReservesSlot(disk.records[w.attempts[a].key])
    requires record.state == TC.JournalState.Accepted && record.submitId == w.attempts[a].receipt
    requires record.queue == disk.records[w.attempts[a].key].queue
    ensures Admissible(w, disk, w.attempts[a].key, record)
  {
    hide Committed;
    assert Genuine(w, w.attempts[a].key, record.submitId.value);
  }

  /** Taking out a record nobody is committed to. */
  lemma {:induction false} RemovalKeeps(w: World, disk: Disk, key: Key, ticket: int, after: Disk)
    requires DiskInv(w, disk) && forall a :: Committed(w, a) ==> w.attempts[a].key != key
    requires Ends(disk, Write(disk.records - {key}, ticket), after, true)
    ensures DiskInv(w, after)
  {
    hide ValidDisk, Committed, Genuine, PollingKept, Progresses, SameRecord, MayFollow;
    VersionsQuiet(disk.records, disk.records - {key});
    assert forall k :: k in after.records ==>
      k in disk.records && k != key && QuietRecord(disk.records[k], after.records[k], None);
    SubsetSize(RuntimeSections.Reserving(after.records), RuntimeSections.Reserving(disk.records));
  }

  lemma {:induction false} ReportDecision(w: World, a: Uuid, it: Attempt, code: string, records: Records, ticket: int)
    returns (decision: Decision)
    ensures decision == Reports(w, a, it, code)(records, ticket)
    ensures decision.Write? ==>
              && decision.nextTicket == ticket && it.key in records
              && records[it.key].state == TC.JournalState.Pending && records[it.key].reservation.id == Some(a)
              && if it.spawned then Quiet(records, decision.records, None) else decision.records == records - {it.key}
  {
    decision := Reports(w, a, it, code)(records, ticket);
  }

  lemma {:induction false} ReportRestages(w: World, memory: Records, a: Uuid, code: string, wrote: bool, v: World)
    requires Inv(w) && ReportStep(w, memory, a, code, wrote, v)
    ensures Restaged(w, a, Over, v)
    ensures Stages(v) && LoggedSpawns(v)
  {
    hide DiskInv, InSection, Exclusive, Stages, LoggedSpawns;
    RestagedKeeps(w, a, Over, v);
  }

  lemma {:induction false} ReportingKeeps(w: World, memory: Records, a: Uuid, code: string, wrote: bool, v: World)
    requires Inv(w) && ReportStep(w, memory, a, code, wrote, v)
    ensures Inv(v)
  {
    ReportRestages(w, memory, a, code, wrote, v);
    hide DiskInv, Section, Reports, Exclusive, Stages, LoggedSpawns, Ends, Restaged, Committed, Move;
    var it := w.attempts[a];
    var mid, ticket := SectionEffect(memory, w.disk, w.now, Reports(w, a, it, code), v.disk, wrote);
    KeepMid(w, mid);
    if wrote {
      FailingIdle(w, a);
      ReportedKeeps(w, mid, ticket, a, code, v.disk);
    } else {
      NothingWrote(mid, Reports(w, a, it, code)(mid.records, ticket), v.disk);
    }
    RestagedAdvances(w, a, Over, v);
    AdvanceKeeps(w, a, v, v.disk);
  }

  /** A failing attempt with a reservation is committed only through its spawn. */
  lemma {:induction false} FailingIdle(w: World, a: Uuid)
    requires Stages(w) && At(w, a, Failing) && w.attempts[a].reserved
    ensures Committed(w, a) ==> w.attempts[a].spawned
  {
  }

  lemma {:induction false} ReportedKeeps(w: World, mid: Disk, ticket: int, a: Uuid, code: string, after: Disk)
    requires DiskInv(w, mid) && a in w.attempts && (Committed(w, a) ==> w.attempts[a].spawned)
    requires Ends(mid, Reports(w, a, w.attempts[a], code)(mid.records, ticket), after, true)
    ensures DiskInv(w, after)
  {
    hide DiskInv, Reports, Persist, Committed;
    var it := w.attempts[a];
    var decision := ReportDecision(w, a, it, code, mid.records, ticket);
    if it.spawned {
      WrittenQuiet(w, mid, decision.records, ticket, after, None);
    } else {
      HeldAlone(w, mid, it.key, a);
      RemovalKeeps(w, mid, it.key, ticket, after);
    }
  }

  lemma {:induction false} SubmitDecision(w: World, key: Key, requestHash: string, records: Records, ticket: int)
    returns (record: RuntimeRecord)
    ensures Submits(w, key, requestHash)(records, ticket).Write? ==>
              && key !in records && |RuntimeSections.Reserving(records)| < w.config.maxActive
              && Submits(w, key, requestHash)(records, ticket) == Write(records[key := record], ticket)
              && record.state == TC.JournalState.Pending && record.reservation == NO_RESERVATION
              && record.queue == NO_QUEUE && record.submitId.None?
  {
    var decision := Submits(w, key, requestHash)(records, ticket);
    if decision.Write? {
      record := decision.records[key];
    } else {
      record := Queue(Identity("", true, None, None, None, None, None, None), 0, 0, 0, 0);
    }
  }

  lemma {:induction false} SyncStartingKeeps(w: World, memory: Records, key: Key, requestHash: string, wrote: bool,
      v: World)
    requires Inv(w) && SyncStartStep(w, memory, key, requestHash, wrote, v)
    ensures Inv(v)
  {
    hide DiskInv, Section, Submits, Exclusive, Stages, LoggedSpawns, Ends, Committed, Bound;
    var mid, ticket := SectionEffect(memory, w.disk, w.now, Submits(w, key, requestHash), v.disk, wrote);
    KeepMid(w, mid);
    var later := w.(nextUuid := w.nextUuid + 1);
    SameAttempts(w, later, mid);
    SameAttemptInv(w, later);
    if wrote {
      StartedKeeps(w, later, mid, ticket, key, requestHash, v.disk);
      Unused(w);
      LockingKeeps(later, w.nextUuid, v, v.disk);
    } else {
      NothingWrote(mid, Submits(w, key, requestHash)(mid.records, ticket), v.disk);
      SameAttempts(w, v, v.disk);
      SameAttemptInv(w, v);
    }
  }

  lemma {:induction false} StartedKeeps(w: World, later: World, mid: Disk, ticket: int, key: Key, requestHash: string,
      after: Disk)
    requires DiskInv(later, mid) && later.config == w.config
    requires Ends(mid, Submits(w, key, requestHash)(mid.records, ticket), after, true)
    ensures DiskInv(later, after) && key in after.records
    ensures forall it: Attempt, a :: it.key == key && !it.reserved ==> Bound(after.records[key], it, a)
    ensures forall b :: Committed(later, b) ==> later.attempts[b].key != key
  {
    hide DiskInv, Submits, Committed, MayFollow, ValidDisk, SameRecord;
    var record := SubmitDecision(w, key, requestHash, mid.records, ticket);
    UncommittedKey(later, mid, key);
    WrittenAt(later, mid, key, record, ticket, after);
    assert after.records[key] == record.(journalVersion := after.records[key].journalVersion);
  }

  /** A synchronous submission is committed from the moment it takes the lock. */
  lemma {:induction false} LockingKeeps(w: World, a: Uuid, v: World, disk: Disk)
    requires DiskInv(w, disk) && AttemptInv(w) && a !in w.attempts && a < w.nextUuid && w.lock.None?
    requires a in v.attempts && v.attempts == w.attempts[a := v.attempts[a]] && v.lock == Some(a)
    requires v.spawns == w.spawns && v.attempts[a].receipt.None?
    requires v.config == w.config && v.inherited == w.inherited && v.nextUuid == w.nextUuid
    requires !v.attempts[a].reserved && !v.attempts[a].spawned && v.attempts[a].stage == Prepared
    requires v.attempts[a].key in disk.records && Bound(disk.records[v.attempts[a].key], v.attempts[a], a)
    requires forall b :: Committed(w, b) ==> w.attempts[b].key != v.attempts[a].key
    ensures DiskInv(v, disk) && AttemptInv(v)
  {
    hide ValidDisk, Bound, TicketsDistinct, Numbered, Genuine;
    assert forall b :: b != a ==> Committed(v, b) == Committed(w, b);
    GenuineKept(w, v);
    LockingStages(w, a, v);
    hide Stages, LoggedSpawns, Committed;
  }

  lemma {:induction false} LockingStages(w: World, a: Uuid, v: World)
    requires Stages(w) && LoggedSpawns(w) && a !in w.attempts && a < w.nextUuid && w.lock.None?
    requires a in v.attempts && v.attempts == w.attempts[a := v.attempts[a]] && v.lock == Some(a)
    requires v.spawns == w.spawns && v.attempts[a].receipt.None? && v.nextUuid == w.nextUuid
    requires !v.attempts[a].reserved && !v.attempts[a].spawned && v.attempts[a].stage == Prepared
    ensures Stages(v) && LoggedSpawns(v)
  {
  }

  /** What the lock holder writes about its own record. */
  lemma {:induction false} LockedWriteKeeps(w: World, a: Uuid, record: RuntimeRecord, after: Disk)
    requires Inv(w) && w.lock == Some(a) && a in w.attempts && w.attempts[a].key in w.disk.records
    requires Ends(w.disk, Write(w.disk.records[w.attempts[a].key := record], w.disk.nextQueueTicket), after, true)
    requires Bound(record, w.attempts[a], a) && record.queue == w.disk.records[w.attempts[a].key].queue
    requires record.reservation == w.disk.records[w.attempts[a].key].reservation
    requires record.state == TC.JournalState.Pending ==>
        w.disk.records[w.attempts[a].key].state == TC.JournalState.Pending
    requires ReservesSlot(record) ==> ReservesSlot(w.disk.records[w.attempts[a].key])
    requires record.submitId.Some? ==> Genuine(w, w.attempts[a].key, record.submitId.value)
    ensures DiskInv(w, after)
  {
    hide ValidDisk, Genuine, Ends, Bound;
    WrittenAt(w, w.disk, w.attempts[a].key, record, w.disk.nextQueueTicket, after);
  }

  lemma {:induction false} SyncFencingKeeps(w: World, a: Uuid, session: Option<Session>, wrote: bool, v: World)
    requires Inv(w) && SyncFenceStep(w, a, session, wrote, v)
    ensures Inv(v)
  {
    hide DiskInv, Exclusive, LoggedSpawns, Ends;
    var it := w.attempts[a];
    HolderBound(w, a);
    if wrote {
      LockedWriteKeeps(w, a, Fenced(w.disk.records[it.key], it.epoch.value, session), v.disk);
    } else {
      NothingWritten(w.disk, v.disk, w.disk.records[it.key := Fenced(w.disk.records[it.key], it.epoch.value, session)]);
    }
    AdvanceKeeps(w, a, v, v.disk);
    StageKeeps(w, a, v);
  }

  lemma {:induction false} NothingWritten(disk: Disk, after: Disk, records: Records)
    requires Ends(disk, Write(records, disk.nextQueueTicket), after, false)
    ensures after == disk
  {
  }

  /** The lock holder is committed, and its record is still in its hands. */
  lemma {:induction false} HolderBound(w: World, a: Uuid)
    requires Inv(w) && w.lock == Some(a) && a in w.attempts
    ensures Committed(w, a) && !w.attempts[a].reserved && w.attempts[a].key in w.disk.records
    ensures Bound(w.disk.records[w.attempts[a].key], w.attempts[a], a)
    ensures w.disk.records[w.attempts[a].key].submitId.Some? ==>
              Genuine(w, w.attempts[a].key, w.disk.records[w.attempts[a].key].submitId.value)
    ensures forall b :: Committed(w, b) && b != a ==> w.attempts[b].key != w.attempts[a].key
  {
    hide ValidDisk;
  }

  /** A persisted move to accepted or unknown came from a state that already held a slot. */
  lemma {:induction false} SlotHeldBefore(disk: Disk, key: Key, record: RuntimeRecord, after: Disk)
    requires key in disk.records && Ends(disk, Write(disk.records[key := record], disk.nextQueueTicket), after, true)
    requires record.state in {TC.JournalState.Accepted, TC.Unknown} && disk.records[key].state != TC.Queued
    ensures ReservesSlot(disk.records[key])
  {
    hide ValidDisk, AssignVersions;
    assert Progresses(disk.records[key], record);
  }

  lemma {:induction false} SyncAcceptingKeeps(w: World, a: Uuid, wrote: bool, v: World)
    requires Inv(w) && SyncAcceptStep(w, a, wrote, v)
    ensures Inv(v)
  {
    hide DiskInv, Exclusive, LoggedSpawns, Ends;
    var it := w.attempts[a];
    HolderBound(w, a);
    var record := w.disk.records[it.key].(state := TC.JournalState.Accepted, submitId := it.receipt,
      updatedAt := w.now);
    if wrote {
      SlotHeldBefore(w.disk, it.key, record, v.disk);
      SpawnLogged(w, a);
      ReceiptAdmissible(w, w.disk, a, record);
      LockedWriteKeeps(w, a, record, v.disk);
    } else {
      NothingWritten(w.disk, v.disk, w.disk.records[it.key := record]);
    }
    AdvanceKeeps(w, a, v, v.disk);
    StageKeeps(w, a, v);
  }

  lemma {:induction false} SyncReportingKeeps(w: World, a: Uuid, code: string, knownCause: bool, wrote: bool, v: World)
    requires Inv(w) && SyncReportStep(w, a, code, knownCause, wrote, v)
    ensures Inv(v)
  {
    hide DiskInv, Exclusive, LoggedSpawns, Ends;
    var it := w.attempts[a];
    HolderBound(w, a);
    var record := Uncertain(w.disk.records[it.key], code, w.now);
    var withdrawn := knownCause && !it.spawned;
    if wrote && !withdrawn {
      SlotHeldBefore(w.disk, it.key, record, v.disk);
      LockedWriteKeeps(w, a, record, v.disk);
      AdvanceKeeps(w, a, v, v.disk);
    } else if wrote {
      AdvanceKeeps(w, a, v, w.disk);
      assert forall b :: Committed(v, b) ==> v.attempts[b].key != it.key;
      RemovalKeeps(v, w.disk, it.key, w.disk.nextQueueTicket, v.disk);
    } else {
      NothingWritten(w.disk, v.disk, if withdrawn then w.disk.records - {it.key} else w.disk.records[it.key := record]);
      AdvanceKeeps(w, a, v, v.disk);
    }
    StageKeeps(w, a, v);
  }

  lemma {:induction false} NextKeeps(w: World, step: Step, wrote: bool, v: World)
    requires Inv(w) && Next(w, step, wrote, v)
    ensures Inv(v)
  {
    hide Inv, UpkeepStep, PollStep, EnqueueStep, ReserveStep, AttemptStep, FenceStep, AcceptStep, ReportStep,
         SyncStartStep, SyncFenceStep, SyncAcceptStep, SyncReportStep;
    match step
    case Keeping(memory, task) => KeepingKeeps(w, memory, task, wrote, v);
    case Polling(poll) => PollingKeeps(w, poll, wrote, v);
    case Enqueuing(memory, key, identity, owner) => EnqueuingKeeps(w, memory, key, identity, owner, wrote, v);
    case Reserving(memory, key, requestHash, owner) => ReservingKeeps(w, memory, key, requestHash, owner, wrote, v);
    case Fencing(memory, a, session) => FencingKeeps(w, memory, a, session, wrote, v);
    case Accepting(memory, a, session) => AcceptingKeeps(w, memory, a, session, wrote, v);
    case Reporting(memory, a, code) => ReportingKeeps(w, memory, a, code, wrote, v);
    case SyncStarting(memory, key, requestHash) => SyncStartingKeeps(w, memory, key, requestHash, wrote, v);
    case SyncFencing(a, session) => SyncFencingKeeps(w, a, session, wrote, v);
    case SyncAccepting(a) => SyncAcceptingKeeps(w, a, wrote, v);
    case SyncReporting(a, code, knownCause) => SyncReportingKeeps(w, a, code, knownCause, wrote, v);
    case _ => AttemptOnlyKeeps(w, step, v);
  }

  // ---------------------------------------------------------------- safety over whole runs

  ghost predicate Steps(w: World, v: World) {
    exists step, wrote :: Next(w, step, wrote, v)
  }

  /** A run of the whole system from an initial world. */
  ghost predicate Run(run: seq<World>)
    decreases |run|
  {
    var last := |run| - 1;
    run != [] && if last == 0 then Init(run[0]) else Run(run[..last]) && Steps(run[last - 1], run[last])
  }

  lemma {:induction false} RunInv(run: seq<World>)
    requires Run(run)
    ensures run != [] && Inv(run[|run| - 1])
    decreases |run|
  {
    hide Inv, Init, Next;
    var last := |run| - 1;
    if last == 0 {
      InitInv(run[0]);
    } else {
      RunInv(run[..last]);
      var step, wrote :| Next(run[last - 1], step, wrote, run[last]);
      NextKeeps(run[last - 1], step, wrote, run[last]);
    }
  }

  /** Whatever the interleaving, each idempotency key has at most one CLI spawn. */
  lemma {:induction false} AtMostOneSpawn(run: seq<World>)
    requires Run(run)
    ensures var spawns := run[|run| - 1].spawns;
            forall i, j :: 0 <= i < j < |spawns| ==> spawns[i].key != spawns[j].key
  {
    hide Run, Inv;
    RunInv(run);
    OneSpawnPerKey(run[|run| - 1]);
  }

  lemma {:induction false} OneSpawnPerKey(w: World)
    requires Inv(w)
    ensures forall i, j :: 0 <= i < j < |w.spawns| ==> w.spawns[i].key != w.spawns[j].key
  {
    hide DiskInv;
    forall i, j | 0 <= i < j < |w.spawns| ensures w.spawns[i].key != w.spawns[j].key {
      assert Committed(w, w.spawns[i].attempt) && Committed(w, w.spawns[j].attempt);
    }
  }

  /** A receipt recorded for a key is the answer its one spawn brought back, or was there at the start. */
  lemma {:induction false} ReceiptsAreGenuine(run: seq<World>, key: Key)
    requires Run(run)
    requires key in run[|run| - 1].disk.records && run[|run| - 1].disk.records[key].submitId.Some?
    ensures Genuine(run[|run| - 1], key, run[|run| - 1].disk.records[key].submitId.value)
  {
    hide Run;
    RunInv(run);
  }

  /** In a reachable journal the comparator itself, without the stable sort's help, is a strict total order: no
      two records tie. */
  lemma {:induction false} ComparatorIsTotal(run: seq<World>, j: Key, k: Key)
    requires Run(run)
    requires j in run[|run| - 1].disk.records && k in run[|run| - 1].disk.records && j != k
    ensures var records := run[|run| - 1].disk.records;
            && CompareQueue(records, j, k) != 0
            && (Before(records, j, k) <==> CompareQueue(records, j, k) < 0)
            && (CompareQueue(records, j, k) < 0 <==> CompareQueue(records, k, j) > 0)
  {
    hide Run;
    RunInv(run);
    hide ValidDisk, Anchored, Numbered, Receipts, AttemptInv;
    QueueOrder.ComparesEqualExactly(run[|run| - 1].disk.records, j, k);
  }

  /** No reachable journal occupies more provider slots than there are. */
  lemma {:induction false} CapacityIsKept(run: seq<World>)
    requires Run(run)
    ensures |RuntimeSections.Reserving(run[|run| - 1].disk.records)| <= run[|run| - 1].config.maxActive
  {
    hide Run;
    RunInv(run);
  }
}
