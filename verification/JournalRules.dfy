/** Which versions of a record may follow each other in the journal (canvas-agent/src/dreamina-cli-state.ts), and what a
    persist writes, state by state. */
module JournalRules {
  import opened Wrappers
  import TC = TaskContract
  import opened Journal

  // ---------------------------------------------------------------- from state to state

  const STATES: set<JournalState> :=
    {TC.Queued, TC.JournalState.Pending, TC.JournalState.Accepted, TC.JournalState.Succeeded, TC.JournalState.Failed,
     TC.JournalState.Cancelled, TC.Unknown, TC.Deleted}

  /** The states a record may be in next, when nothing is found out about it. */
  function Onward(state: JournalState): set<JournalState> {
    match state
    case Queued => STATES
    case Pending => STATES - {TC.Queued}
    case Accepted => STATES - {TC.Queued, TC.JournalState.Pending}
    case ended => {ended, TC.Deleted}
  }

  /** What an uncertain submission can be found to be, each with the status the provider gives. */
  const FINDINGS: set<(JournalState, TC.ProviderStatus)> :=
    {(TC.JournalState.Accepted, TC.ProviderStatus.Pending), (TC.JournalState.Accepted, TC.Processing),
     (TC.JournalState.Succeeded, TC.Completed), (TC.JournalState.Failed, TC.ProviderStatus.Failed),
     (TC.JournalState.Cancelled, TC.ProviderStatus.Cancelled)}

  /** A submission that was uncertain under a receipt is found, under the same receipt, at a time. */
  predicate Found(previous: RuntimeRecord, incoming: RuntimeRecord) {
    && previous.state == TC.Unknown && previous.submitId.Some? && previous.submitId.value != ""
    && incoming.submitId == previous.submitId && incoming.polling.lastObservedAt.Some?
    && incoming.officialStatus.Some? && (incoming.state, incoming.officialStatus.value) in FINDINGS
  }

  predicate NotEarlier(previous: Option<Time>, incoming: Option<Time>) {
    previous.Some? && incoming.Some? ==> previous.value <= incoming.value
  }

  /** Whoever has a place in the queue keeps it and his turn, and whoever has a slot keeps it; a permission to spawn is
      not taken back, and neither runs out sooner than was said. */
  predicate HoldsOn(previous: RuntimeRecord, incoming: RuntimeRecord) {
    && (incoming.state == previous.state == TC.Queued && previous.queue.ownerId != None ==>
          && (incoming.queue.ownerId, incoming.queue.ticket) == (previous.queue.ownerId, previous.queue.ticket)
          && NotEarlier(previous.queue.expiresAt, incoming.queue.expiresAt))
    && (incoming.state == previous.state == TC.JournalState.Pending && previous.reservation.id != None ==>
          var (was, held) := (previous.reservation, incoming.reservation);
          && (held.id, held.ownerId) == (was.id, was.ownerId) && NotEarlier(was.expiresAt, held.expiresAt)
          && (was.phase == Some(SpawnPermitted) ==> held.phase == was.phase))
  }

  /** What has been said once stays: the request, a receipt, that it is hidden, outputs, the account, and the epochs,
      which only rise. */
  predicate SaysOn(previous: RuntimeRecord, incoming: RuntimeRecord) {
    && incoming.identity == previous.identity
    && previous.submitId in {None, Some(""), incoming.submitId}
    && (previous.hidden ==> incoming.hidden)
    && previous.providerOutputs in {None, incoming.providerOutputs}
    && previous.fence.accountBinding in {None, incoming.fence.accountBinding}
    && (previous.fence.epoch.Some? ==>
          var was := previous.fence.epoch.value;
          if incoming.fence.epoch.Some? then was <= incoming.fence.epoch.value else was <= 0)
    && (previous.fence.sessionEpoch.Some? ==>
          var was := previous.fence.sessionEpoch.value;
          if incoming.fence.sessionEpoch.Some? then was <= incoming.fence.sessionEpoch.value else was < 0)
  }

  lemma {:induction false} OnwardExactly(previous: JournalState, incoming: JournalState)
    ensures incoming in Onward(previous) <==>
      && StateRank(previous) <= StateRank(incoming)
      && (!IsTerminal(previous) || incoming == previous || incoming == TC.Deleted)
  {
    match previous {
      case Queued => OneOfEight(incoming);
      case Pending => OneOfEight(incoming);
      case Accepted => OneOfEight(incoming);
      case _ => OneOfEight(incoming);
    }
  }

  lemma {:induction false} OneOfEight(state: JournalState)
    ensures state in STATES
  {
    match state
    case Queued =>
    case Pending =>
    case Accepted =>
    case Succeeded =>
    case Failed =>
    case Cancelled =>
    case Unknown =>
    case Deleted =>
  }

  lemma {:induction false} FoundExactly(previous: RuntimeRecord, incoming: RuntimeRecord)
    ensures Found(previous, incoming) <==> ReconcilesUncertain(previous, incoming)
  {
    match incoming.state
    case Queued =>
    case Pending =>
    case Accepted =>
    case Succeeded =>
    case Failed =>
    case Cancelled =>
    case Unknown =>
    case Deleted =>
  }

  lemma {:induction false} LaterExactly(previous: Option<Time>, incoming: Option<Time>)
    ensures NotEarlier(previous, incoming) <==> !MovedBack(previous, incoming)
  {
  }

  /** Main result on progression: a record may follow another exactly if it goes on or was found out about, holds on to
      what was leased, and goes on saying what was said. */
  lemma {:induction false} ProgressesExactly(previous: RuntimeRecord, incoming: RuntimeRecord)
    ensures Progresses(previous, incoming) <==>
      && (incoming.state in Onward(previous.state) || Found(previous, incoming))
      && HoldsOn(previous, incoming) && SaysOn(previous, incoming)
  {
    OnwardExactly(previous.state, incoming.state);
    FoundExactly(previous, incoming);
    LaterExactly(previous.queue.expiresAt, incoming.queue.expiresAt);
    LaterExactly(previous.reservation.expiresAt, incoming.reservation.expiresAt);
    hide Onward, Found, NotEarlier, MovedBack, ReconcilesUncertain, StateRank, IsTerminal;
  }

  // ---------------------------------------------------------------- what a persist writes

  /** The two agree but for the version they carry. */
  predicate SameButVersion(a: RuntimeRecord, b: RuntimeRecord) {
    && a.identity == b.identity && a.state == b.state && a.updatedAt == b.updatedAt && a.fence == b.fence
    && a.reservation == b.reservation && a.queue == b.queue && a.submitId == b.submitId && a.errorCode == b.errorCode
    && a.officialStatus == b.officialStatus && a.polling == b.polling && a.hidden == b.hidden
    && a.providerOutputs == b.providerOutputs
  }

  predicate Written(disk: Disk, key: Key, given: RuntimeRecord, written: RuntimeRecord) {
    && SameButVersion(given, written)
    && written.journalVersion ==
       if key !in disk.records then Some(1)
       else
         var version := disk.records[key].journalVersion.GetOr(1);
         Some(if SameButVersion(disk.records[key], given) then version else version + 1)
  }

  predicate WrittenAll(disk: Disk, payload: Disk, next: Disk) {
    && next.nextQueueTicket == payload.nextQueueTicket && next.records.Keys == payload.records.Keys
    && forall k :: k in payload.records ==> Written(disk, k, payload.records[k], next.records[k])
  }

  /** Main result on persists: one goes through exactly if every record goes on from the one in the file, nothing is
      left out but what is pending without a receipt, and what results is valid. It writes the given ticket counter and
      the given records, each under version 1 if it is new, under the old one if nothing else changed, and under one
      more otherwise. */
  lemma {:induction false} PersistedExactly(disk: Disk, payload: Disk, next: Disk)
    ensures Persist(disk, payload) == Ok(next) <==>
      && (forall k :: k in payload.records && k in disk.records ==> Progresses(disk.records[k], payload.records[k]))
      && (forall k :: k in disk.records && k !in payload.records ==>
            disk.records[k].state == TC.JournalState.Pending && disk.records[k].submitId == None)
      && WrittenAll(disk, payload, next) && ValidDisk(next)
    ensures Persist(disk, payload).Err? ==> Persist(disk, payload).error == StateInvalid
  {
    hide Progresses, ValidDisk, SameRecord, Written, Versioned;
    forall k, written | k in payload.records
      ensures Written(disk, k, payload.records[k], written) <==>
        written == Versioned(disk.records, k, payload.records[k])
    {
      WrittenExactly(disk, k, payload.records[k], written);
    }
    var made := Disk(AssignVersions(disk.records, payload.records), payload.nextQueueTicket);
    if WrittenAll(disk, payload, next) {
      assert next.records == made.records;
    }
  }

  lemma {:induction false} WrittenExactly(disk: Disk, key: Key, given: RuntimeRecord, written: RuntimeRecord)
    ensures Written(disk, key, given, written) <==> written == Versioned(disk.records, key, given)
  {
    if key in disk.records {
      SameExactly(disk.records[key], given);
    }
    hide SameRecord;
  }

  lemma {:induction false} SameExactly(a: RuntimeRecord, b: RuntimeRecord)
    ensures SameRecord(a, b) <==> SameButVersion(a, b)
  {
  }

  /** Recovery takes the newer of two files exactly if its ticket counter is no lower and it has every record of the
      older one, each gone on from there, under no lower version, and changed only under a higher one. */
  lemma {:induction false} RecoversExactly(backup: Disk, primary: Disk)
    ensures RecoveryAccepts(backup, primary) <==>
      && backup.nextQueueTicket <= primary.nextQueueTicket
      && forall k :: k in backup.records ==>
           && k in primary.records
           && var (was, now) := (backup.records[k], primary.records[k]);
              && Progresses(was, now)
              && (if SameButVersion(was, now) then Number(was) <= Number(now) else Number(was) < Number(now))
  {
    forall k | k in backup.records && k in primary.records
      ensures SameRecord(backup.records[k], primary.records[k])
          <==> SameButVersion(backup.records[k], primary.records[k])
    {
      SameExactly(backup.records[k], primary.records[k]);
    }
    hide SameRecord, SameButVersion, Progresses;
  }

  /** A record without a version counts as its first. */
  function Number(record: RuntimeRecord): int {
    match record.journalVersion
    case Some(version) => version
    case None => 1
  }
}
