/** When reloadFromDisk of canvas-agent/src/dreamina-cli-runtime.ts refuses the journal: what a runtime remembers
    against what any number of accepted persists have since made of the file. */
module RuntimeMemory {
  import opened Wrappers
  import TC = TaskContract
  import opened Journal
  import opened RuntimeSections
  import opened RuntimeLimits

  predicate Recovers(record: RuntimeRecord, now: Time) {
    ReservationExpired(record, now) || QueueExpired(record, now)
  }

  /** The record has not come to an end, and recovery does not end it. */
  predicate StillOpen(record: RuntimeRecord, now: Time) {
    StateRank(record.state) < 3 && !Recovers(record, now)
  }

  lemma {:induction false} RecoveryRaises(record: RuntimeRecord, now: Time)
    ensures var recovered := RecoverRecord(record, now);
            && recovered.identity == record.identity
            && StateRank(record.state) <= StateRank(recovered.state)
            && (StateRank(recovered.state) < 3 <==> StillOpen(record, now))
            && (record.state == TC.JournalState.Accepted ==> recovered == record)
  {
  }

  // ---------------------------------------------------------------- what persists do to the state of one record

  predicate Finished(state: JournalState) {
    state in {TC.JournalState.Succeeded, TC.JournalState.Failed, TC.JournalState.Cancelled, TC.Deleted}
  }

  /** The rank never falls, but for an uncertain submission found accepted. */
  predicate Lasts(before: RuntimeRecord, after: RuntimeRecord) {
    && after.identity == before.identity
    && (Finished(before.state) ==> Finished(after.state))
    && (StateRank(before.state) <= StateRank(after.state)
        || (before.state == TC.Unknown && after.state == TC.JournalState.Accepted))
  }

  lemma {:induction false} LastsTransitive(a: RuntimeRecord, b: RuntimeRecord, c: RuntimeRecord)
    requires Lasts(a, b) && Lasts(b, c)
    ensures Lasts(a, c)
  {
  }

  lemma {:induction false} ProgressLasts(previous: Records, key: Key, incoming: RuntimeRecord)
    requires key in previous && Progresses(previous[key], incoming)
    ensures Lasts(previous[key], Versioned(previous, key, incoming))
  {
  }

  lemma {:induction false} StepLasts(before: Disk, after: Disk, key: Key)
    requires PersistStep(before, after) && key in before.records && key in after.records
    ensures Lasts(before.records[key], after.records[key])
  {
    hide ValidDisk, Progresses, Lasts, Versioned;
    var payload: Disk :| Persist(before, payload) == Ok(after);
    ProgressLasts(before.records, key, payload.records[key]);
  }

  /** Every file of the run has the record: nobody withdrew it. */
  predicate Present(run: seq<Disk>, key: Key) {
    forall i :: 0 <= i < |run| ==> key in run[i].records
  }

  lemma {:induction false} RunLasts(run: seq<Disk>, key: Key)
    requires PersistRun(run) && Present(run, key)
    ensures Lasts(run[0].records[key], run[|run| - 1].records[key])
    decreases |run|
  {
    hide Lasts, ValidDisk, PersistStep;
    var last := |run| - 1;
    if last == 0 {
      LastsItself(run[0].records[key]);
    } else {
      RunLasts(run[..last], key);
      StepLasts(run[last - 1], run[last], key);
      LastsTransitive(run[0].records[key], run[last - 1].records[key], run[last].records[key]);
    }
  }

  lemma {:induction false} LastsItself(record: RuntimeRecord)
    ensures Lasts(record, record)
  {
  }

  // ---------------------------------------------------------------- an honest memory

  /** The remembered record was withdrawn, and is gone, was made anew for another request, or was remembered as
      pending and waits in the queue again. */
  predicate Lost(run: seq<Disk>, key: Key, now: Time)
    requires run != [] && key in run[0].records
  {
    var file := run[|run| - 1].records;
    && !Present(run, key)
    && (|| key !in file
        || file[key].identity.requestHash != run[0].records[key].identity.requestHash
        || (run[0].records[key].state == TC.JournalState.Pending && file[key].state == TC.Queued
            && LiveQueueLease(file[key], now)))
  }

  /** The submission was remembered as uncertain and has been found accepted, not yet finished. */
  predicate Reopened(run: seq<Disk>, key: Key)
    requires run != [] && key in run[0].records
  {
    var file := run[|run| - 1].records;
    && Present(run, key) && key in file
    && run[0].records[key].state == TC.Unknown && file[key].state == TC.JournalState.Accepted
  }

  lemma {:induction false} StepWithdraws(before: Disk, after: Disk, key: Key)
    requires PersistStep(before, after) && key in before.records && key !in after.records
    ensures Removable(before.records[key])
  {
    hide ValidDisk, Progresses, Versioned;
  }

  lemma {:induction false} EarlierWasEarly(before: RuntimeRecord, withdrawn: RuntimeRecord)
    requires Lasts(before, withdrawn) && Removable(withdrawn)
    ensures before.state in {TC.Queued, TC.JournalState.Pending}
  {
  }

  /** Only a record remembered from before its spawn can be withdrawn. */
  lemma {:induction false} WithdrawnWasEarly(run: seq<Disk>, key: Key)
    requires PersistRun(run) && run != [] && key in run[0].records && !Present(run, key)
    ensures run[0].records[key].state in {TC.Queued, TC.JournalState.Pending}
    decreases |run|
  {
    hide Lasts, ValidDisk, PersistStep, Removable;
    var last := |run| - 1;
    if Present(run[..last], key) {
      RunLasts(run[..last], key);
      StepWithdraws(run[last - 1], run[last], key);
      EarlierWasEarly(run[0].records[key], run[last - 1].records[key]);
    } else {
      WithdrawnWasEarly(run[..last], key);
    }
  }

  lemma {:induction false} RunEndsValid(run: seq<Disk>)
    requires PersistRun(run) && run != []
    ensures ValidDisk(run[|run| - 1])
  {
    hide ValidRecord, Progresses, Versioned;
  }

  lemma {:induction false} RecoveredQueue(record: RuntimeRecord, now: Time)
    requires ValidRecord(record)
    ensures var recovered := RecoverRecord(record, now);
      && recovered.identity == record.identity
      && (StateRank(recovered.state) == 0 <==> record.state == TC.Queued && LiveQueueLease(record, now))
  {
  }

  lemma {:induction false} RememberedExactly(run: seq<Disk>, key: Key, now: Time)
    requires PersistRun(run) && run != [] && key in run[0].records
    ensures Behind(run[0].records, RecoverAll(run[|run| - 1].records, now), key)
        <==> Lost(run, key, now) || Reopened(run, key)
  {
    hide RecoverRecord, StillOpen, PersistRun, ValidRecord, LiveQueueLease;
    var file := run[|run| - 1].records;
    if Present(run, key) {
      RunLasts(run, key);
      RecoveryRaises(file[key], now);
    } else {
      WithdrawnWasEarly(run, key);
      if key in file {
        RunEndsValid(run);
        RecoveredQueue(file[key], now);
      }
    }
  }

  /** Main result: a runtime that remembers the journal as it once was is refused by a later file exactly when a
      remembered record was withdrawn and is gone, made anew for another request, or queued again though remembered as
      pending, or an uncertain one was found accepted. */
  lemma {:induction false} StaleExactly(run: seq<Disk>, now: Time)
    requires PersistRun(run) && run != []
    ensures Stale(run[0].records, RecoverAll(run[|run| - 1].records, now))
       <==> exists k :: k in run[0].records && (Lost(run, k, now) || Reopened(run, k))
  {
    hide PersistRun, Behind, Lost, Reopened, RecoverAll;
    forall k | k in run[0].records
      ensures Behind(run[0].records, RecoverAll(run[|run| - 1].records, now), k)
          <==> Lost(run, k, now) || Reopened(run, k)
    {
      RememberedExactly(run, k, now);
    }
  }

  /** If no remembered record was withdrawn, only an uncertain submission found accepted stands in the way. */
  lemma {:induction false} HonestMemoryExactly(run: seq<Disk>, now: Time)
    requires PersistRun(run) && run != [] && forall k :: k in run[0].records ==> Present(run, k)
    ensures Stale(run[0].records, RecoverAll(run[|run| - 1].records, now))
       <==> exists k :: k in run[0].records && Reopened(run, k)
  {
    hide PersistRun, Behind, Present, RecoverAll;
    StaleExactly(run, now);
    assert forall k :: k in run[0].records ==> !Lost(run, k, now);
    hide Lost, Reopened;
  }

  /** While a remembered record is missing from the file, every reload is refused. */
  lemma {:induction false} MissingIsStale(memory: Records, loaded: Records, key: Key)
    requires key in memory && key !in loaded
    ensures Stale(memory, loaded)
  {
    assert Behind(memory, loaded, key);
  }

  // ---------------------------------------------------------------- after a refused delete or failure

  /** The runtime whose delete or failure was refused keeps the finished record in its memory. From then on a
      reload is refused exactly when the stored task is gone, was made anew for another request, or is still open
      after recovery, or another remembered record stands in the way. */
  lemma {:induction false} BlockedExactly(run: seq<Disk>, key: Key, finished: RuntimeRecord, now: Time)
    requires PersistRun(run) && run != [] && key in run[0].records
    requires finished.identity == run[0].records[key].identity && StateRank(finished.state) == 3
    ensures var file := run[|run| - 1].records;
      Stale(run[0].records[key := finished], RecoverAll(file, now)) <==>
        || key !in file || file[key].identity.requestHash != finished.identity.requestHash || StillOpen(file[key], now)
        || exists k :: k in run[0].records && k != key && (Lost(run, k, now) || Reopened(run, k))
  {
    hide PersistRun, RecoverRecord, StillOpen, Lost, Reopened;
    var memory, file := run[0].records[key := finished], run[|run| - 1].records;
    var loaded := RecoverAll(file, now);
    if key in file {
      RecoveryRaises(file[key], now);
    }
    var own := key !in file || file[key].identity.requestHash != finished.identity.requestHash
      || StillOpen(file[key], now);
    assert Behind(memory, loaded, key) <==> own;
    forall k | k in run[0].records && k != key
      ensures Behind(memory, loaded, k) <==> Lost(run, k, now) || Reopened(run, k)
    {
      RememberedExactly(run, k, now);
      assert Behind(memory, loaded, k) <==> Behind(run[0].records, loaded, k);
    }
    hide Behind, RecoverAll;
  }

  /** On an unchanged file with a reserved slot: every reload fails until the reservation runs out. */
  lemma {:induction false} BlockedUntilExpiry(disk: Disk, key: Key, finished: RuntimeRecord, now: Time,
      result: Result<Loaded, StateError>)
    requires key in disk.records && HoldsReserved(disk.records[key])
    requires finished.identity == disk.records[key].identity && StateRank(finished.state) == 3
    requires Reloads(disk.records[key := finished], disk, now, result)
    ensures LiveReservation(disk.records[key], now) ==> result == Err(StateInvalid)
    ensures !LiveReservation(disk.records[key], now) ==>
        !Stale(disk.records[key := finished], RecoverAll(disk.records, now))
  {
    hide Persist, RecoverRecord, StillOpen;
    var memory, loaded := disk.records[key := finished], RecoverAll(disk.records, now);
    forall k | k in disk.records ensures Behind(memory, loaded, k) <==> k == key && StillOpen(disk.records[k], now) {
      RecoveryRaises(disk.records[k], now);
    }
    OpenWhileLive(disk.records[key], now);
    assert Behind(memory, loaded, key) <==> LiveReservation(disk.records[key], now);
  }

  lemma {:induction false} OpenWhileLive(record: RuntimeRecord, now: Time)
    requires HoldsReserved(record)
    ensures StillOpen(record, now) <==> LiveReservation(record, now)
  {
  }

  // ---------------------------------------------------------------- both ways of being refused happen

  /** The holder of the reservation gives up before it spawns: a legal persist, after which every runtime that
      remembers the record, finished or not, is refused at any time. */
  lemma {:induction false} WithdrawalStrands(finished: RuntimeRecord, code: string, now: Time, later: Time)
    ensures var decision :=
        CommitFailure(HELD_DISK.records, 1, 7, HELD.identity.requestHash, 1, 2, None, false, code, now);
            decision.Write? && Persist(HELD_DISK, Disk(decision.records, 1)) == Ok(Disk(map[], 1))
    ensures Stale(HELD_DISK.records, RecoverAll(map[], later))
    ensures Stale(HELD_DISK.records[7 := finished], RecoverAll(map[], later))
  {
    var gone := HELD_DISK.records - {7};
    assert gone == map[];
    assert AssignVersions(HELD_DISK.records, map[]) == map[];
    MissingIsStale(HELD_DISK.records, RecoverAll(map[], later), 7);
    MissingIsStale(HELD_DISK.records[7 := finished], RecoverAll(map[], later), 7);
  }

  const UNCERTAIN: RuntimeRecord := Sample(TC.Unknown, Some("receipt-1"), None, None)
  const FOUND: RuntimeRecord :=
    Sample(TC.JournalState.Accepted, Some("receipt-1"), Some(TC.Processing), Some(5)).(journalVersion := Some(2))
  const FINDING: seq<Disk> := [Disk(map[7 := UNCERTAIN], 1), Disk(map[7 := FOUND], 1)]

  /** An uncertain submission is found accepted: every runtime that remembers the uncertainty is refused. */
  lemma {:induction false} FindingStrands(now: Time)
    ensures PersistRun(FINDING) && Reopened(FINDING, 7)
    ensures Stale(FINDING[0].records, RecoverAll(FINDING[1].records, now))
  {
    FindingIsRun();
    hide PersistRun, Lost;
    assert Reopened(FINDING, 7);
    StaleExactly(FINDING, now);
  }

  lemma {:induction false} FindingIsRun()
    ensures PersistRun(FINDING)
  {
    var payload := Disk(map[7 := FOUND.(journalVersion := None)], 1);
    FindingValid();
    hide ValidRecord, Progresses, SameRecord;
    assert !SameRecord(UNCERTAIN, payload.records[7]);
    assert AssignVersions(FINDING[0].records, payload.records) == FINDING[1].records;
    assert Persist(FINDING[0], payload) == Ok(FINDING[1]);
    assert FINDING[..1] == [FINDING[0]];
    hide Persist;
    assert PersistStep(FINDING[0], FINDING[1]);
  }

  lemma {:induction false} FindingValid()
    ensures ValidRecord(UNCERTAIN) && ValidRecord(FOUND)
    ensures Progresses(UNCERTAIN, FOUND.(journalVersion := None))
    ensures !SameRecord(UNCERTAIN, FOUND.(journalVersion := None))
  {
    assert SafeId("receipt-1", 8, 160);
    hide SafeId;
  }
}
