/** When deleteTask and failTask of canvas-agent/src/dreamina-cli-runtime.ts reach the journal: both keep the
    reservation fields of a pending record, which no record in another state may carry. */
module RuntimeLimits {
  import opened Wrappers
  import TC = TaskContract
  import opened Journal
  import opened RuntimeSections

  /** What every replacement of one record needs besides the record itself. */
  predicate RoomFor(record: RuntimeRecord, ticket: int) {
    1 <= ticket <= MAX_SAFE_INTEGER && Version(record) < MAX_SAFE_INTEGER
  }

  lemma {:induction false} ProgressesReflexive(record: RuntimeRecord)
    requires ValidRecord(record)
    ensures Progresses(record, record)
  {
  }

  /** One record replaced by a changed progression of itself is stored exactly when the new record is valid
      and neither the version nor the ticket counter has run out. */
  lemma {:induction false} ReplacingExactly(disk: Disk, ticket: int, key: Key, next: RuntimeRecord)
    requires ValidDisk(disk) && key in disk.records
    requires Progresses(disk.records[key], next) && !SameRecord(disk.records[key], next)
    requires SafeAtLeast(next.journalVersion, 1)
    ensures Persist(disk, Disk(disk.records[key := next], ticket)).Ok?
       <==> RoomFor(disk.records[key], ticket) && ValidRecord(next)
  {
    hide Progresses, SameRecord, ValidRecord;
    var payload := disk.records[key := next];
    forall k | k in disk.records ensures Progresses(disk.records[k], payload[k]) {
      ProgressesReflexive(disk.records[k]);
    }
    var versioned := AssignVersions(disk.records, payload);
    assert versioned.Keys == disk.records.Keys;
    assert |versioned| == |versioned.Keys| == |disk.records.Keys| == |disk.records|;
    ReplacedValidExactly(disk.records, key, next);
    forall k | k in disk.records && k != key ensures ValidRecord(versioned[k]) {
      KeptValid(disk.records, k);
    }
  }

  lemma {:induction false} ReplacedValidExactly(previous: Records, key: Key, next: RuntimeRecord)
    requires key in previous && ValidRecord(previous[key]) && !SameRecord(previous[key], next)
    requires SafeAtLeast(next.journalVersion, 1)
    ensures ValidRecord(Versioned(previous, key, next))
        <==> ValidRecord(next) && Version(previous[key]) < MAX_SAFE_INTEGER
  {
  }

  lemma {:induction false} KeptValid(previous: Records, key: Key)
    requires key in previous && ValidRecord(previous[key])
    ensures ValidRecord(Versioned(previous, key, previous[key]))
  {
  }

  // ---------------------------------------------------------------- deleting

  /** A slot is taken and the CLI has not been started: the one case deleteTask cannot carry out. */
  predicate HoldsReserved(record: RuntimeRecord) {
    record.state == TC.JournalState.Pending && record.reservation.phase == Some(Reserved)
  }

  /** Deleting a visible task is stored unless its slot is reserved but not yet used, and then never. */
  lemma {:induction false} DeletingStoredExactly(disk: Disk, ticket: int, key: Key, now: Time)
    requires ValidDisk(disk) && key in disk.records
    requires var record := disk.records[key];
             record.identity.durable && !record.hidden && record.state != TC.Deleted
    ensures var decision := Delete(disk.records, ticket, key, now);
            && decision.Write? && decision.nextTicket == ticket
            && (Persist(disk, Disk(decision.records, ticket)).Ok?
                <==> RoomFor(disk.records[key], ticket) && !HoldsReserved(disk.records[key]))
  {
    hide Persist;
    var record := disk.records[key];
    assert ValidRecord(record);
    var next := if record.state == TC.Queued || HoldsReserved(record) then Removed(record, now)
                else record.(hidden := true, updatedAt := now);
    if record.state == TC.Queued || HoldsReserved(record) {
      RemovedValidExactly(record, now);
    } else {
      HiddenValid(record, now);
    }
    ReplacingExactly(disk, ticket, key, next);
  }

  lemma {:induction false} RemovedValidExactly(record: RuntimeRecord, now: Time)
    requires ValidRecord(record) && record.identity.durable && (record.state == TC.Queued || HoldsReserved(record))
    ensures var next := Removed(record, now);
            Progresses(record, next) && !SameRecord(record, next) && (ValidRecord(next) <==> !HoldsReserved(record))
  {
    if HoldsReserved(record) {
      assert !ReservationShape(Removed(record, now));
    }
  }

  lemma {:induction false} HiddenValid(record: RuntimeRecord, now: Time)
    requires ValidRecord(record) && record.identity.durable && !record.hidden
    ensures var next := record.(hidden := true, updatedAt := now);
            Progresses(record, next) && !SameRecord(record, next) && ValidRecord(next)
  {
  }

  // ---------------------------------------------------------------- failing

  /** Failing an open task is stored unless it still holds a reservation, given a well-formed error code. */
  lemma {:induction false} FailingStoredExactly(disk: Disk, ticket: int, key: Key, code: string, now: Time)
    requires ValidDisk(disk) && key in disk.records
    requires disk.records[key].identity.durable && !IsTerminal(disk.records[key].state)
    ensures var decision := FailTask(disk.records, ticket, key, code, now);
            && decision.Write? && decision.nextTicket == ticket
            && (Persist(disk, Disk(decision.records, ticket)).Ok?
                <==> RoomFor(disk.records[key], ticket) && SafeCode(code)
                     && disk.records[key].reservation == NO_RESERVATION)
  {
    hide Persist;
    var record := disk.records[key];
    assert ValidRecord(record);
    FailedValidExactly(record, code, now);
    ReplacingExactly(disk, ticket, key, FailedWith(record, code, now));
  }

  lemma {:induction false} FailedValidExactly(record: RuntimeRecord, code: string, now: Time)
    requires ValidRecord(record) && record.identity.durable && !IsTerminal(record.state)
    ensures var next := FailedWith(record, code, now);
            && Progresses(record, next) && !SameRecord(record, next)
            && (ValidRecord(next) <==> SafeCode(code) && record.reservation == NO_RESERVATION)
  {
    hide SafeCode;
  }

  // ---------------------------------------------------------------- a journal where both are refused

  const HELD: RuntimeRecord :=
    Sample(TC.JournalState.Pending, None, None,
      None).(reservation := Reservation(Some(1), Some(2), Some(100), Some(Reserved)))
  const HELD_DISK: Disk := Disk(map[7 := HELD], 1)

  /** One live reservation is enough for both refusals. */
  lemma {:induction false} ReservedTaskStays(now: Time)
    ensures ValidDisk(HELD_DISK) && LiveReservation(HELD, 99)
    ensures var decision := Delete(HELD_DISK.records, 1, 7, now);
            decision.Write? && Persist(HELD_DISK, Disk(decision.records, 1)).Err?
    ensures var decision := FailTask(HELD_DISK.records, 1, 7, "dreamina_cancelled", now);
            decision.Write? && Persist(HELD_DISK, Disk(decision.records, 1)).Err?
  {
    hide Persist;
    assert ValidRecord(HELD);
    assert ValidDisk(HELD_DISK);
    DeletingStoredExactly(HELD_DISK, 1, 7, now);
    FailingStoredExactly(HELD_DISK, 1, 7, "dreamina_cancelled", now);
  }
}
