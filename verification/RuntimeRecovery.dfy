/** Where the recovery of expired reservations and queue leases in canvas-agent/src/dreamina-cli-runtime.ts leads: what
    a reload makes of each record, and over runs of the whole system that an attempt which may have spawned is never
    taken for one that was not made. */
module RuntimeRecovery {
  import opened Wrappers
  import TC = TaskContract
  import opened Journal
  import opened RuntimeSections
  import opened World
  import R = Reconciler

  // ---------------------------------------------------------------- one reload

  /** The pending record is in the hands of an owner whose hold has not run out. */
  predicate Held(record: RuntimeRecord, now: Time) {
    var held := record.reservation;
    held.id.Some? && held.ownerId.Some? && held.phase.Some? && held.expiresAt.Some? && now < held.expiresAt.value
  }

  predicate Waiting(record: RuntimeRecord, now: Time) {
    record.queue.ownerId.Some? && record.queue.expiresAt.Some? && now < record.queue.expiresAt.value
  }

  /** The owner had taken a slot and not yet been permitted to spawn. */
  predicate NotYetPermitted(record: RuntimeRecord) {
    record.reservation.phase == Some(Reserved) && record.reservation.id.Some? && record.reservation.ownerId.Some?
  }

  /** Untouched but for the version, which is written out. */
  predicate Untouched(before: RuntimeRecord, after: RuntimeRecord) {
    after == before.(journalVersion := after.journalVersion) && Version(after) == Version(before)
  }

  /** What a reload makes of one record. */
  predicate Reloaded(before: RuntimeRecord, now: Time, after: RuntimeRecord) {
    if before.state == TC.JournalState.Pending && !Held(before, now) then
      && after == before.(state := after.state, errorCode := after.errorCode, updatedAt := now,
                          reservation := NO_RESERVATION, journalVersion := Some(Version(before) + 1))
      && (after.state == TC.JournalState.Failed <==> NotYetPermitted(before))
      && (after.state == TC.Unknown <==> !NotYetPermitted(before))
      && after.errorCode == (if NotYetPermitted(before) then Some("dreamina_interrupted_before_submission")
                             else if before.identity.durable then Some("dreamina_submission_unknown")
                             else before.errorCode)
    else if before.identity.durable && before.state == TC.Queued && !Waiting(before, now) then
      after == before.(state := TC.JournalState.Failed, updatedAt := now, queue := NO_QUEUE,
                       errorCode := Some("dreamina_interrupted_before_submission"),
                       journalVersion := Some(Version(before) + 1))
    else Untouched(before, after)
  }

  lemma {:induction false} RecoveredVersioned(records: Records, key: Key, now: Time)
    requires key in records
    ensures Reloaded(records[key], now, Versioned(records, key, RecoverRecord(records[key], now)))
  {
  }

  /** Main result on one reload: a pending record without a live hold becomes failed exactly when its owner had not been
      permitted to spawn, and uncertain otherwise; a queued one whose owner is gone becomes failed; nothing else
      changes. */
  lemma {:induction false} ReloadedExactly(memory: Records, disk: Disk, now: Time, loaded: Loaded, key: Key)
    requires Reloads(memory, disk, now, Ok(loaded))
    ensures loaded.disk.records.Keys == disk.records.Keys
    ensures key in disk.records ==> Reloaded(disk.records[key], now, loaded.disk.records[key])
  {
    hide RecoverRecord, Versioned, Stale, ValidDisk, MayFollow, IsTicketCeiling;
    if key in disk.records {
      RecoveredVersioned(disk.records, key, now);
      if !AnyExpired(disk.records, now) {
        NothingExpired(disk.records[key], now);
      }
    }
  }

  lemma {:induction false} NothingExpired(record: RuntimeRecord, now: Time)
    requires !ReservationExpired(record, now) && !QueueExpired(record, now)
    ensures Reloaded(record, now, record)
  {
  }

  /** A reload fails exactly where the file is behind the runtime's memory or the recovered journal cannot be stored. */
  lemma {:induction false} ReloadFailsExactly(memory: Records, disk: Disk, now: Time,
      result: Result<Loaded, StateError>)
    requires Reloads(memory, disk, now, result)
    ensures result.Err? ==>
      || Stale(memory, RecoverAll(disk.records, now))
      || exists ticket ::
        IsTicketCeiling(ticket, disk) && Persist(disk, Disk(RecoverAll(disk.records, now), ticket)).Err?
    ensures Stale(memory, RecoverAll(disk.records, now)) ==> result.Err?
  {
    hide Stale, RecoverAll, Persist, IsTicketCeiling, AnyExpired;
  }

  // ---------------------------------------------------------------- attempts that may have spawned

  /** The hands a pending record is in have been permitted to spawn, or are those of a synchronous submission. */
  predicate MaySpawn(record: RuntimeRecord) {
    || (record.reservation.id.Some? && record.reservation.phase == Some(SpawnPermitted))
    || (!record.identity.durable && record.reservation == NO_RESERVATION)
  }

  /** The record of an attempt that may have spawned and of whose end nothing is known. */
  predicate Spent(record: RuntimeRecord) {
    || record.state in {TC.Unknown, TC.JournalState.Accepted}
    || (record.state == TC.JournalState.Pending && MaySpawn(record))
  }

  /** And no receipt has been recorded either. */
  predicate Unanswered(record: RuntimeRecord) {
    record.submitId.None?
      && (record.state == TC.Unknown || (record.state == TC.JournalState.Pending && MaySpawn(record)))
  }

  predicate Kept(before: RuntimeRecord, after: RuntimeRecord) {
    (Spent(before) ==> Spent(after)) && (Unanswered(before) ==> Unanswered(after))
  }

  predicate AllKept(before: Records, after: Records) {
    forall k :: k in before && k in after ==> Kept(before[k], after[k])
  }

  /** After a reload every pending record is in live hands. */
  predicate PendingHeld(records: Records, now: Time) {
    forall k :: k in records && records[k].state == TC.JournalState.Pending ==> Held(records[k], now)
  }

  lemma {:induction false} ReloadKeeps(before: RuntimeRecord, now: Time, after: RuntimeRecord)
    requires Reloaded(before, now, after)
    ensures Kept(before, after) && (after.state == TC.JournalState.Pending ==> Held(after, now))
  {
  }

  lemma {:induction false} VersionKeeps(previous: Records, payload: Records)
    ensures AllKept(payload, AssignVersions(previous, payload))
  {
  }

  lemma {:induction false} KeptTransitive(a: Records, b: Records, c: Records)
    requires AllKept(a, b) && AllKept(b, c) && forall k :: k in a && k in c ==> k in b
    ensures AllKept(a, c)
  {
    hide Spent, Unanswered;
    forall k | k in a && k in c ensures Kept(a[k], c[k]) {
      assert Kept(a[k], b[k]) && Kept(b[k], c[k]);
    }
  }

  /** A section: a reload that keeps, then its decision on held records, or nothing. */
  lemma {:induction false} SectionSplits(memory: Records, disk: Disk, now: Time, decide: Decide, after: Disk,
      wrote: bool) returns (mid: Disk, ticket: int)
    requires Section(memory, disk, now, decide, after, wrote)
    ensures mid.records.Keys == disk.records.Keys && AllKept(disk.records, mid.records)
    ensures ValidDisk(disk) ==> ValidDisk(mid)
    ensures wrote ==> PendingHeld(mid.records, now)
    ensures Ends(mid, decide(mid.records, ticket), after, wrote) || (!wrote && after == mid)
  {
    hide ValidRecord, RecoverRecord, Reloads, Kept, Held, Persist;
    var result :| Reloads(memory, disk, now, result) &&
      if result.Err? then after == disk && !wrote
      else Ends(result.value.disk, decide(result.value.disk.records, result.value.nextTicket), after, wrote);
    if result.Err? {
      mid, ticket := disk, 0;
      SameKept(disk.records);
    } else {
      mid, ticket := result.value.disk, result.value.nextTicket;
      ReloadQuiet(memory, disk, now, result.value);
      forall k | k in disk.records
        ensures Kept(disk.records[k], mid.records[k])
        ensures mid.records[k].state == TC.JournalState.Pending ==> Held(mid.records[k], now)
      {
        ReloadedExactly(memory, disk, now, result.value, k);
        ReloadKeeps(disk.records[k], now, mid.records[k]);
      }
      KeysReloaded(memory, disk, now, result.value);
    }
  }

  lemma {:induction false} KeysReloaded(memory: Records, disk: Disk, now: Time, loaded: Loaded)
    requires Reloads(memory, disk, now, Ok(loaded))
    ensures loaded.disk.records.Keys == disk.records.Keys
  {
    ReloadedExactly(memory, disk, now, loaded, 0);
  }

  lemma {:induction false} SameKept(records: Records)
    ensures AllKept(records, records)
  {
  }

  // ---------------------------------------------------------------- what decisions keep

  /** The only steps that may settle a record: an observation of it, and a local failure. */
  predicate Settles(step: Step, key: Key) {
    || (step.Polling? && step.poll.Observe? && step.poll.key == key)
    || (step.Keeping? && step.task.Fail? && step.task.key == key)
  }

  /** The step records the receipt of this key. */
  predicate Answers(w: World, step: Step, key: Key) {
    (step.Accepting? || step.SyncAccepting?) && step.attempt in w.attempts && w.attempts[step.attempt].key == key
  }

  /** The record of one key after a step, unless the step settles or answers it. */
  predicate KeptBy(w: World, step: Step, key: Key, before: RuntimeRecord, after: RuntimeRecord) {
    && (Spent(before) && !Settles(step, key) ==> Spent(after))
    && (Unanswered(before) && !Answers(w, step, key) ==> Unanswered(after))
  }

  lemma {:induction false} UpkeepKeeps(task: Upkeep, records: Records, ticket: int, now: Time, leaseMs: nat, key: Key)
    requires PendingHeld(records, now) && key in records && ValidRecord(records[key])
    requires UpkeepDecision(task, records, ticket, now, leaseMs).Write?
    requires !(task.Fail? && task.key == key)
    ensures var after := UpkeepDecision(task, records, ticket, now, leaseMs).records;
      key in after && Kept(records[key], after[key])
  {
    hide ValidOutputs, ValidDurable, ValidSynchronous, ReservationShape, QueueShape, SafeCode;
    ReceiptTruthy(records[key]);
    hide ValidRecord;
  }

  lemma {:induction false} ReceiptTruthy(record: RuntimeRecord)
    requires ValidRecord(record)
    ensures record.state == TC.JournalState.Accepted ==> Truthy(record.submitId)
  {
    hide ValidOutputs, ValidDurable, ValidSynchronous, ReservationShape, QueueShape, SafeCode;
  }

  /** A failure written over a pending record cannot be stored, as its reservation would stay. */
  lemma {:induction false} FailureStored(mid: Disk, key: Key, code: string, ticket: int, now: Time, after: Disk)
    requires PendingHeld(mid.records, now) && key in mid.records
    requires Ends(mid, FailTask(mid.records, ticket, key, code, now), after, true)
    ensures key in after.records && (Unanswered(mid.records[key]) ==> Unanswered(after.records[key]))
  {
    hide MayFollow, SafeCode, SafeId;
    var failed := FailedWith(mid.records[key], code, now);
    assert FailTask(mid.records, ticket, key, code, now).Write?;
    assert ValidRecord(after.records[key]);
  }

  lemma {:induction false} UpkeepKeptBy(w: World, memory: Records, task: Upkeep, wrote: bool, v: World, key: Key)
    requires Inv(w) && UpkeepStep(w, memory, task, wrote, v) && key in w.disk.records && key in v.disk.records
    ensures KeptBy(w, Keeping(memory, task), key, w.disk.records[key], v.disk.records[key])
  {
    DiskInvValid(w);
    hide Inv, Section, UpkeepDecision, Spent, Unanswered, Ends, Held, ValidRecord;
    var mid, ticket := SectionSplits(memory, w.disk, w.now, Upkeeping(w, task), v.disk, wrote);
    assert Kept(w.disk.records[key], mid.records[key]);
    if wrote {
      UpkeepWrittenKept(mid, task, ticket, w.now, w.config.leaseMs, v.disk, key);
    } else {
      NothingWrote(mid, UpkeepDecision(task, mid.records, ticket, w.now, w.config.leaseMs), v.disk);
    }
  }

  lemma {:induction false} UpkeepWrittenKept(mid: Disk, task: Upkeep, ticket: int, now: Time, leaseMs: nat, after: Disk,
      key: Key)
    requires ValidDisk(mid) && PendingHeld(mid.records, now) && key in mid.records && key in after.records
    requires Ends(mid, UpkeepDecision(task, mid.records, ticket, now, leaseMs), after, true)
    ensures (Spent(mid.records[key]) && !(task.Fail? && task.key == key) ==> Spent(after.records[key]))
    ensures Unanswered(mid.records[key]) ==> Unanswered(after.records[key])
  {
    assert ValidRecord(mid.records[key]);
    hide UpkeepDecision, Spent, Unanswered, Ends, Held, ValidRecord;
    var decision := UpkeepDecision(task, mid.records, ticket, now, leaseMs);
    if task.Fail? && task.key == key {
      FailIsUpkeep(task, mid.records, ticket, now, leaseMs);
      FailureStored(mid, key, task.code, ticket, now, after);
    } else {
      WroteSomething(mid, decision, after);
      UpkeepKeeps(task, mid.records, ticket, now, leaseMs, key);
      WrittenKept(mid, decision, after, key);
    }
  }

  lemma {:induction false} FailIsUpkeep(task: Upkeep, records: Records, ticket: int, now: Time, leaseMs: nat)
    requires task.Fail?
    ensures UpkeepDecision(task, records, ticket, now, leaseMs) == FailTask(records, ticket, task.key, task.code, now)
  {
  }

  lemma {:induction false} WrittenKept(mid: Disk, decision: Decision, after: Disk, key: Key)
    requires decision.Write? && Ends(mid, decision, after, true) && key in decision.records
    ensures key in after.records && Kept(decision.records[key], after.records[key])
  {
    hide MayFollow, ValidDisk, Kept, Versioned;
    VersionKeeps(mid.records, decision.records);
  }

  // ---------------------------------------------------------------- polls

  lemma {:induction false} OtherPollKeeps(w: World, poll: Poll, records: Records, ticket: int, key: Key)
    requires !poll.Observe? && PollDecision(poll, records, ticket, w.now, w.nextUuid).Write? && key in records
    ensures var after := PollDecision(poll, records, ticket, w.now, w.nextUuid).records;
      key in after && Kept(records[key], after[key])
  {
    hide R.Eligible;
  }

  /** An observation that can be stored leaves a record without receipt as it was. */
  lemma {:induction false} ObservedUnanswered(record: RuntimeRecord, next: RuntimeRecord, stored: RuntimeRecord)
    requires Unanswered(record) && Progresses(record, next) && R.ObserveFrame(record, next)
    requires stored == next.(journalVersion := stored.journalVersion) && ValidRecord(stored)
    ensures Unanswered(stored)
  {
    hide SafeId, SafeCode, PollingKept;
  }

  lemma {:induction false} ObserveKeeps(w: World, poll: Poll, after: Disk, key: Key)
    requires poll.Observe? && ValidDisk(w.disk) && key in w.disk.records && key in after.records
    requires Ends(w.disk, PollDecision(poll, w.disk.records, w.disk.nextQueueTicket, w.now, w.nextUuid), after, true)
    ensures key != poll.key ==> Kept(w.disk.records[key], after.records[key])
    ensures Unanswered(w.disk.records[key]) ==> Unanswered(after.records[key])
  {
    hide ValidRecord, R.Observe, Spent, Unanswered, Progresses, R.ObserveFrame;
    var records := w.disk.records;
    var record := R.Observe(records[poll.key], poll.observed, w.now, poll.schedule);
    assert PollDecision(poll, records, w.disk.nextQueueTicket, w.now, w.nextUuid)
      == Write(records[poll.key := record], w.disk.nextQueueTicket);
    if key == poll.key {
      R.ObserveFrames(records[key], poll.observed, w.now, poll.schedule);
      var stored := after.records[key];
      assert stored == record.(journalVersion := stored.journalVersion);
      assert Progresses(records[key], record) && ValidRecord(stored);
      if Unanswered(records[key]) {
        ObservedUnanswered(records[key], record, stored);
      }
    } else {
      VersionKeeps(records, records[poll.key := record]);
      assert Kept(records[poll.key := record][key], after.records[key]);
    }
  }

  lemma {:induction false} PollKeptBy(w: World, poll: Poll, wrote: bool, v: World, key: Key)
    requires Inv(w) && PollStep(w, poll, wrote, v) && key in w.disk.records && key in v.disk.records
    ensures KeptBy(w, Step.Polling(poll), key, w.disk.records[key], v.disk.records[key])
  {
    DiskInvValid(w);
    hide Inv, PollDecision, Spent, Unanswered, Ends, ValidDisk;
    var decision := PollDecision(poll, w.disk.records, w.disk.nextQueueTicket, w.now, w.nextUuid);
    if !wrote {
      NothingWrote(w.disk, decision, v.disk);
    } else if poll.Observe? {
      ObserveKeeps(w, poll, v.disk, key);
    } else {
      WroteSomething(w.disk, decision, v.disk);
      OtherPollKeeps(w, poll, w.disk.records, w.disk.nextQueueTicket, key);
      WrittenKept(w.disk, decision, v.disk, key);
    }
  }

  // ---------------------------------------------------------------- the submission's own sections

  /** A decision that keeps what it does not remove, but for the receipt it records. */
  ghost predicate Retains(decide: Decide, now: Time, key: Key, answers: bool) {
    forall records: Records, ticket: int :: PendingHeld(records, now) && key in records ==>
      var decision := decide(records, ticket);
      decision.Write? && key in decision.records ==>
        && (Spent(records[key]) ==> Spent(decision.records[key]))
        && (Unanswered(records[key]) && !answers ==> Unanswered(decision.records[key]))
  }

  lemma {:induction false} SectionKeptBy(w: World, memory: Records, decide: Decide, wrote: bool, after: Disk, key: Key,
      answers: bool)
    requires Section(memory, w.disk, w.now, decide, after, wrote) && key in w.disk.records && key in after.records
    requires Retains(decide, w.now, key, answers)
    ensures Spent(w.disk.records[key]) ==> Spent(after.records[key])
    ensures Unanswered(w.disk.records[key]) && !answers ==> Unanswered(after.records[key])
  {
    hide Section, Spent, Unanswered, Ends, Held, ValidDisk;
    var mid, ticket := SectionSplits(memory, w.disk, w.now, decide, after, wrote);
    assert Kept(w.disk.records[key], mid.records[key]);
    var decision := decide(mid.records, ticket);
    if !wrote {
      NothingWrote(mid, decision, after);
    } else {
      WroteSomething(mid, decision, after);
      WrittenKeys(mid, decision, after);
      WrittenKept(mid, decision, after, key);
    }
  }

  lemma {:induction false} WrittenKeys(mid: Disk, decision: Decision, after: Disk)
    requires decision.Write? && Ends(mid, decision, after, true)
    ensures after.records.Keys == decision.records.Keys
  {
    hide MayFollow, ValidDisk, Versioned;
  }

  lemma {:induction false} EnqueuesKeep(w: World, k: Key, identity: Identity, owner: Uuid, key: Key)
    ensures Retains(Enqueues(w, k, identity, owner), w.now, key, false)
  {
  }

  lemma {:induction false} ReservesKeep(w: World, k: Key, requestHash: string, owner: Uuid, key: Key)
    ensures Retains(Reserves(w, k, requestHash, owner), w.now, key, false)
  {
    hide HasPriority;
  }

  lemma {:induction false} FencesKeep(w: World, a: Uuid, it: Attempt, session: Option<Session>, key: Key)
    ensures Retains(Fences(w, a, it, session), w.now, key, false)
  {
  }

  lemma {:induction false} AcceptsKeep(w: World, a: Uuid, it: Attempt, session: Option<Session>, key: Key)
    ensures Retains(Accepts(w, a, it, session), w.now, key, it.key == key)
  {
  }

  lemma {:induction false} ReportsKeep(w: World, a: Uuid, it: Attempt, code: string, key: Key)
    ensures Retains(Reports(w, a, it, code), w.now, key, false)
  {
  }

  lemma {:induction false} SubmitsKeep(w: World, k: Key, requestHash: string, key: Key)
    ensures Retains(Submits(w, k, requestHash), w.now, key, false)
  {
  }

  // ---------------------------------------------------------------- the synchronous path

  lemma {:induction false} LockedKept(w: World, k: Key, record: RuntimeRecord, wrote: bool, after: Disk, key: Key)
    requires k in w.disk.records && key in w.disk.records
    requires Ends(w.disk, Write(w.disk.records[k := record], w.disk.nextQueueTicket), after, wrote)
    requires Kept(w.disk.records[k], record)
    ensures key in after.records && Kept(w.disk.records[key], after.records[key])
  {
    hide Spent, Unanswered, Ends;
    var decision := Write(w.disk.records[k := record], w.disk.nextQueueTicket);
    if wrote {
      WrittenKept(w.disk, decision, after, key);
    } else {
      NothingWrote(w.disk, decision, after);
    }
  }

  lemma {:induction false} SyncFenceKeeps(record: RuntimeRecord, epoch: int, session: Option<Session>)
    ensures Kept(record, Fenced(record, epoch, session))
  {
  }

  lemma {:induction false} UncertainKeeps(record: RuntimeRecord, code: string, now: Time)
    ensures Kept(record, Uncertain(record, code, now))
  {
  }

  // ---------------------------------------------------------------- every step

  predicate IsSubmission(step: Step) {
    || step.Enqueuing? || step.Reserving? || step.Fencing? || step.Accepting? || step.Reporting? || step.SyncStarting?
  }

  lemma {:induction false} SubmissionKeeps(w: World, step: Step, wrote: bool, v: World, key: Key)
    requires IsSubmission(step) && Next(w, step, wrote, v) && key in w.disk.records && key in v.disk.records
    ensures KeptBy(w, step, key, w.disk.records[key], v.disk.records[key])
  {
    hide Spent, Unanswered, Section, Retains, Move;
    match step {
      case Enqueuing(memory, k, identity, owner) =>
        EnqueuesKeep(w, k, identity, owner, key);
        SectionKeptBy(w, memory, Enqueues(w, k, identity, owner), wrote, v.disk, key, false);
      case Reserving(memory, k, requestHash, owner) =>
        ReservesKeep(w, k, requestHash, owner, key);
        SectionKeptBy(w, memory, Reserves(w, k, requestHash, owner), wrote, v.disk, key, false);
      case Fencing(memory, a, session) =>
        FencesKeep(w, a, w.attempts[a], session, key);
        SectionKeptBy(w, memory, Fences(w, a, w.attempts[a], session), wrote, v.disk, key, false);
      case Accepting(memory, a, session) =>
        AcceptsKeep(w, a, w.attempts[a], session, key);
        SectionKeptBy(w, memory, Accepts(w, a, w.attempts[a], session), wrote, v.disk, key, w.attempts[a].key == key);
      case Reporting(memory, a, code) =>
        ReportsKeep(w, a, w.attempts[a], code, key);
        SectionKeptBy(w, memory, Reports(w, a, w.attempts[a], code), wrote, v.disk, key, false);
      case SyncStarting(memory, k, requestHash) =>
        SubmitsKeep(w, k, requestHash, key);
        SectionKeptBy(w, memory, Submits(w, k, requestHash), wrote, v.disk, key, false);
    }
  }

  /** What one step of the system leaves of the record of a key that is there before and after. */
  lemma {:induction false} StepKeeps(w: World, step: Step, wrote: bool, v: World, key: Key)
    requires Inv(w) && Next(w, step, wrote, v) && key in w.disk.records && key in v.disk.records
    ensures KeptBy(w, step, key, w.disk.records[key], v.disk.records[key])
  {
    hide Inv, Spent, Unanswered, UpkeepStep, PollStep, SyncFenceStep, SyncAcceptStep, SyncReportStep, AttemptStep,
      EnqueueStep, ReserveStep, FenceStep, AcceptStep, ReportStep, SyncStartStep, KeptBy;
    if IsSubmission(step) {
      SubmissionKeeps(w, step, wrote, v, key);
    } else if AttemptOnly(step) {
      AttemptKeeps(w, step, v, key);
    } else {
      match step {
        case Keeping(memory, task) => UpkeepKeptBy(w, memory, task, wrote, v, key);
        case Polling(poll) => PollKeptBy(w, poll, wrote, v, key);
        case SyncFencing(a, session) => SyncFenceKeptBy(w, a, session, wrote, v, key);
        case SyncAccepting(a) => SyncAcceptKeptBy(w, a, wrote, v, key);
        case SyncReporting(a, code, knownCause) => SyncReportKeptBy(w, a, code, knownCause, wrote, v, key);
      }
    }
  }

  lemma {:induction false} AttemptKeeps(w: World, step: Step, v: World, key: Key)
    requires AttemptOnly(step) && AttemptStep(w, step, v) && key in w.disk.records
    ensures v.disk == w.disk && KeptBy(w, step, key, w.disk.records[key], v.disk.records[key])
  {
    hide Spent, Unanswered;
  }

  lemma {:induction false} SyncFenceKeptBy(w: World, a: Uuid, session: Option<Session>, wrote: bool, v: World, key: Key)
    requires SyncFenceStep(w, a, session, wrote, v) && key in w.disk.records && key in v.disk.records
    ensures KeptBy(w, SyncFencing(a, session), key, w.disk.records[key], v.disk.records[key])
  {
    hide Spent, Unanswered, Ends;
    var it := w.attempts[a];
    SyncFenceKeeps(w.disk.records[it.key], it.epoch.value, session);
    LockedKept(w, it.key, Fenced(w.disk.records[it.key], it.epoch.value, session), wrote, v.disk, key);
  }

  lemma {:induction false} SyncAcceptKeptBy(w: World, a: Uuid, wrote: bool, v: World, key: Key)
    requires SyncAcceptStep(w, a, wrote, v) && key in w.disk.records && key in v.disk.records
    ensures KeptBy(w, SyncAccepting(a), key, w.disk.records[key], v.disk.records[key])
  {
    hide Ends, ValidDisk, MayFollow, SameRecord;
    var it := w.attempts[a];
    var record := w.disk.records[it.key].(state := TC.JournalState.Accepted, submitId := it.receipt,
      updatedAt := w.now);
    var decision := Write(w.disk.records[it.key := record], w.disk.nextQueueTicket);
    if wrote {
      WrittenKept(w.disk, decision, v.disk, key);
    } else {
      NothingWrote(w.disk, decision, v.disk);
    }
  }

  lemma {:induction false} SyncReportKeptBy(w: World, a: Uuid, code: string, knownCause: bool, wrote: bool, v: World,
      key: Key)
    requires SyncReportStep(w, a, code, knownCause, wrote, v) && key in w.disk.records && key in v.disk.records
    ensures KeptBy(w, SyncReporting(a, code, knownCause), key, w.disk.records[key], v.disk.records[key])
  {
    hide Spent, Unanswered, Ends;
    var it := w.attempts[a];
    var record := Uncertain(w.disk.records[it.key], code, w.now);
    if knownCause && !it.spawned {
      var decision := Write(w.disk.records - {it.key}, w.disk.nextQueueTicket);
      if wrote {
        WrittenKeys(w.disk, decision, v.disk);
        WrittenKept(w.disk, decision, v.disk, key);
      } else {
        NothingWrote(w.disk, decision, v.disk);
      }
    } else {
      UncertainKeeps(w.disk.records[it.key], code, w.now);
      LockedKept(w, it.key, record, wrote, v.disk, key);
    }
  }

  // ---------------------------------------------------------------- over whole runs

  /** Some step leads from one to the other, and it settles nothing about the key. */
  ghost predicate Unsettling(w: World, v: World, key: Key) {
    exists step, wrote :: Next(w, step, wrote, v) && !Settles(step, key)
  }

  /** A stretch of a run in which the key stays in the journal and nothing settles its record. */
  ghost predicate Stretch(run: seq<World>, key: Key) {
    && run != [] && Inv(run[0]) && (forall i :: 0 <= i < |run| ==> key in run[i].disk.records)
    && forall i :: 0 <= i < |run| - 1 ==> Unsettling(run[i], run[i + 1], key)
  }

  lemma {:induction false} StretchInv(run: seq<World>, key: Key, i: nat)
    requires Stretch(run, key) && i < |run|
    ensures Inv(run[i])
    decreases i
  {
    hide Inv, Next;
    if i > 0 {
      StretchInv(run, key, i - 1);
      var step, wrote :| Next(run[i - 1], step, wrote, run[i]) && !Settles(step, key);
      NextKeeps(run[i - 1], step, wrote, run[i]);
    }
  }

  lemma {:induction false} UnsettlingKeeps(w: World, v: World, key: Key)
    requires Inv(w) && Unsettling(w, v, key) && key in w.disk.records && key in v.disk.records
    ensures Spent(w.disk.records[key]) ==> Spent(v.disk.records[key])
  {
    hide Inv, Next, Spent, Unanswered, Settles;
    var step, wrote :| Next(w, step, wrote, v) && !Settles(step, key);
    StepKeeps(w, step, wrote, v, key);
  }

  /** Main result: once an attempt may have spawned, its record holds its provider slot and is never taken for failed,
      interrupted, cancelled or queued, whatever reloads, expiries, crashes and other processes do, as long as it is
      there and neither an observation nor a local failure settles it. */
  lemma {:induction false} SpentStays(run: seq<World>, key: Key, i: nat)
    requires Stretch(run, key) && i < |run| && Spent(run[0].disk.records[key])
    ensures Spent(run[i].disk.records[key]) && ReservesSlot(run[i].disk.records[key])
    decreases i
  {
    hide Inv, Spent, Unsettling;
    if i > 0 {
      SpentStays(run, key, i - 1);
      StretchInv(run, key, i - 1);
      UnsettlingKeeps(run[i - 1], run[i], key);
    }
    SpentReserves(run[i].disk.records[key]);
  }

  lemma {:induction false} SpentReserves(record: RuntimeRecord)
    ensures Spent(record) ==> ReservesSlot(record)
  {
  }

  /** The attempt may have spawned, or holds the lock to, and has not come to its end. */
  predicate Active(w: World, a: Uuid) {
    Committed(w, a) && w.attempts[a].stage != Over
  }

  /** The record of every such attempt is there, uncertain or in its hands, and without a receipt. */
  ghost predicate AllAwaited(w: World) {
    forall a :: Active(w, a) ==>
      w.attempts[a].key in w.disk.records && Unanswered(w.disk.records[w.attempts[a].key])
  }

  /** The attempt is newly permitted to spawn, or has newly taken the lock. */
  predicate Starts(w: World, step: Step, wrote: bool, a: Uuid) {
    (step.Fencing? && wrote && step.attempt == a) || (step.SyncStarting? && wrote && a == w.nextUuid)
  }

  /** A step that goes through the journal, rather than an attempt's own. */
  predicate Journaled(step: Step) {
    || step.Keeping? || step.Polling? || step.Enqueuing? || step.Reserving? || step.Fencing? || step.Accepting?
    || step.Reporting? || step.SyncStarting? || step.SyncFencing? || step.SyncAccepting? || step.SyncReporting?
  }

  lemma {:induction false} ActiveBefore(w: World, step: Step, wrote: bool, v: World, a: Uuid)
    requires Inv(w) && Next(w, step, wrote, v) && Active(v, a) && !Starts(w, step, wrote, a)
    ensures a in w.attempts && a in v.attempts && Active(w, a) && v.attempts[a].key == w.attempts[a].key
    ensures (step.Accepting? || step.SyncAccepting?) && step.attempt == a ==> !wrote
  {
    if Journaled(step) {
      ActiveBeforeJournaled(w, step, wrote, v, a);
    } else {
      ActiveBeforeAlone(w, step, wrote, v, a);
    }
    hide Inv, Next, Active;
  }

  lemma {:induction false} ActiveBeforeJournaled(w: World, step: Step, wrote: bool, v: World, a: Uuid)
    requires Inv(w) && Next(w, step, wrote, v) && Active(v, a) && !Starts(w, step, wrote, a) && Journaled(step)
    ensures a in w.attempts && a in v.attempts && Active(w, a) && v.attempts[a].key == w.attempts[a].key
    ensures (step.Accepting? || step.SyncAccepting?) && step.attempt == a ==> !wrote
  {
    hide DiskInv, InSection, Ends, Exclusive, LoggedSpawns, Anchored, Numbered, AttemptStep;
  }

  lemma {:induction false} ActiveBeforeAlone(w: World, step: Step, wrote: bool, v: World, a: Uuid)
    requires Inv(w) && Next(w, step, wrote, v) && Active(v, a) && !Journaled(step)
    ensures a in w.attempts && a in v.attempts && Active(w, a) && v.attempts[a].key == w.attempts[a].key
  {
    hide DiskInv, Exclusive, LoggedSpawns, Anchored, Numbered;
  }

  lemma {:induction false} PermittedUnanswered(w: World, memory: Records, a: Uuid, session: Option<Session>, v: World)
    requires Inv(w) && FenceStep(w, memory, a, session, true, v)
    ensures w.attempts[a].key in v.disk.records && Unanswered(v.disk.records[w.attempts[a].key])
  {
    DiskInvValid(w);
    hide Inv, Section, Ends, Fences, Kept, PendingHeld;
    var it := w.attempts[a];
    var mid, ticket := SectionSplits(memory, w.disk, w.now, Fences(w, a, it, session), v.disk, true);
    var decision := Fences(w, a, it, session)(mid.records, ticket);
    WroteSomething(mid, decision, v.disk);
    FenceUnanswered(w, a, it, session, mid.records, ticket) by {
      hide MayFollow;
    }
    WrittenKept(mid, decision, v.disk, it.key);
    KeptUnanswered(decision.records[it.key], v.disk.records[it.key]);
  }

  lemma {:induction false} KeptUnanswered(before: RuntimeRecord, after: RuntimeRecord)
    requires Kept(before, after) && Unanswered(before)
    ensures Unanswered(after)
  {
  }

  lemma {:induction false} FenceUnanswered(w: World, a: Uuid, it: Attempt, session: Option<Session>, records: Records,
      ticket: int)
    requires Fences(w, a, it, session)(records, ticket).Write? && forall k :: k in records ==> ValidRecord(records[k])
    ensures var after := Fences(w, a, it, session)(records, ticket).records;
      it.key in after && Unanswered(after[it.key])
  {
    hide ValidOutputs, ValidDurable, ValidSynchronous, ReservationShape, QueueShape, HasReceipt;
    assert ValidRecord(records[it.key]);
  }

  lemma {:induction false} StartedUnanswered(w: World, memory: Records, key: Key, requestHash: string, v: World)
    requires Inv(w) && SyncStartStep(w, memory, key, requestHash, true, v)
    ensures key in v.disk.records && Unanswered(v.disk.records[key])
  {
    hide Inv, Section, Ends, Submits, Kept, PendingHeld;
    var mid, ticket := SectionSplits(memory, w.disk, w.now, Submits(w, key, requestHash), v.disk, true);
    var decision := Submits(w, key, requestHash)(mid.records, ticket);
    WroteSomething(mid, decision, v.disk);
    SubmitUnanswered(w, key, requestHash, mid.records, ticket);
    WrittenKept(mid, decision, v.disk, key);
    KeptUnanswered(decision.records[key], v.disk.records[key]);
  }

  lemma {:induction false} SubmitUnanswered(w: World, key: Key, requestHash: string, records: Records, ticket: int)
    requires Submits(w, key, requestHash)(records, ticket).Write?
    ensures var after := Submits(w, key, requestHash)(records, ticket).records;
      key in after && Unanswered(after[key])
  {
  }

  lemma {:induction false} CommittedPresent(w: World, a: Uuid)
    requires Inv(w) && Committed(w, a)
    ensures w.attempts[a].key in w.disk.records
    ensures forall b :: Committed(w, b) && b != a ==> w.attempts[b].key != w.attempts[a].key
  {
    hide ValidDisk, Committed;
  }

  lemma {:induction false} NextAwaits(w: World, step: Step, wrote: bool, v: World)
    requires Inv(w) && AllAwaited(w) && Next(w, step, wrote, v)
    ensures AllAwaited(v)
  {
    NextKeeps(w, step, wrote, v);
    forall a | Active(v, a)
      ensures v.attempts[a].key in v.disk.records && Unanswered(v.disk.records[v.attempts[a].key])
    {
      AwaitedStays(w, step, wrote, v, a);
    }
  }

  lemma {:induction false} AwaitedStays(w: World, step: Step, wrote: bool, v: World, a: Uuid)
    requires Inv(w) && Inv(v) && AllAwaited(w) && Next(w, step, wrote, v) && Active(v, a)
    ensures v.attempts[a].key in v.disk.records && Unanswered(v.disk.records[v.attempts[a].key])
  {
    hide Inv, Unanswered, Committed, UpkeepStep, PollStep, EnqueueStep, ReserveStep, FenceStep, AcceptStep, ReportStep,
      SyncStartStep, SyncFenceStep, SyncAcceptStep, SyncReportStep, AttemptStep;
    if Starts(w, step, wrote, a) {
      if step.Fencing? {
        PermittedUnanswered(w, step.memory, a, step.session, v);
        KeyKept(w, step, wrote, v, a);
      } else {
        StartedUnanswered(w, step.memory, step.key, step.requestHash, v);
        KeyKept(w, step, wrote, v, a);
      }
    } else {
      ActiveBefore(w, step, wrote, v, a);
      CommittedPresent(v, a);
      var key := w.attempts[a].key;
      if Answers(w, step, key) {
        AnswererIsActive(w, step, wrote, v);
        CommittedPresent(w, a);
        UnwrittenKeeps(w, step, v, key);
      } else {
        StepKeeps(w, step, wrote, v, key);
      }
    }
  }

  lemma {:induction false} KeyKept(w: World, step: Step, wrote: bool, v: World, a: Uuid)
    requires Next(w, step, wrote, v) && Starts(w, step, wrote, a)
    ensures a in v.attempts
    ensures v.attempts[a].key == if step.Fencing? then w.attempts[step.attempt].key else step.key
  {
    hide InSection;
  }

  /** Whoever records a receipt is committed. */
  lemma {:induction false} AnswererIsActive(w: World, step: Step, wrote: bool, v: World)
    requires Next(w, step, wrote, v) && (step.Accepting? || step.SyncAccepting?)
    ensures Committed(w, step.attempt)
  {
    hide InSection, Ends;
  }

  /** A receipt that could not be recorded. */
  lemma {:induction false} UnwrittenKeeps(w: World, step: Step, v: World, key: Key)
    requires Next(w, step, false, v) && (step.Accepting? || step.SyncAccepting?)
    requires key in w.disk.records && key in v.disk.records
    ensures Unanswered(w.disk.records[key]) ==> Unanswered(v.disk.records[key])
  {
    hide Unanswered, Spent, Section, Ends;
    if step.Accepting? {
      var it := w.attempts[step.attempt];
      var mid, ticket :=
        SectionSplits(step.memory, w.disk, w.now, Accepts(w, step.attempt, it, step.session), v.disk, false);
      assert Kept(w.disk.records[key], mid.records[key]);
      NothingWrote(mid, Accepts(w, step.attempt, it, step.session)(mid.records, ticket), v.disk);
    } else {
      var it := w.attempts[step.attempt];
      NothingWritten(w.disk, v.disk, w.disk.records[it.key :=
        w.disk.records[it.key].(state := TC.JournalState.Accepted, submitId := it.receipt, updatedAt := w.now)]);
    }
  }

  /** In every reachable state: as long as an attempt that may have spawned has not come to its end, its record is in
      the journal, reserves its slot, and is either in its hands or uncertain. */
  lemma {:induction false} RunAwaits(run: seq<World>)
    requires Run(run)
    ensures run != [] && AllAwaited(run[|run| - 1])
    decreases |run|
  {
    hide Inv, Init, Next, AllAwaited;
    var last := |run| - 1;
    if last == 0 {
      NobodyActive(run[0]);
    } else {
      RunAwaits(run[..last]);
      RunInv(run[..last]);
      var step, wrote :| Next(run[last - 1], step, wrote, run[last]);
      NextAwaits(run[last - 1], step, wrote, run[last]);
    }
  }

  lemma {:induction false} NobodyActive(w: World)
    requires Init(w)
    ensures AllAwaited(w)
  {
  }

  /** So from the moment an attempt is permitted to spawn its record stays reserved, over any further run. */
  lemma {:induction false} PermittedStays(run: seq<World>, stretch: seq<World>, a: Uuid, i: nat)
    requires Run(run) && stretch != [] && stretch[0] == run[|run| - 1] && Active(stretch[0], a)
    requires Stretch(stretch, stretch[0].attempts[a].key) && i < |stretch|
    ensures var record := stretch[i].disk.records[stretch[0].attempts[a].key];
      ReservesSlot(record) && record.state != TC.JournalState.Failed && Spent(record)
  {
    RunAwaits(run);
    hide Run, Stretch;
    SpentStays(stretch, stretch[0].attempts[a].key, i);
  }
}
