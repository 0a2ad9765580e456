/** What polling guarantees over every run of the system: observation times never fall, and a poll lease
    that was replaced or released never speaks for its record again. */
module PollingRuns {
  import opened Wrappers
  import TC = TaskContract
  import opened Journal
  import opened RuntimeSections
  import opened World
  import R = Reconciler

  /** Records present on both sides keep their observation time and gain no lease but the issued one. */
  predicate Polled(before: Records, after: Records, issued: Option<Uuid>) {
    forall k :: k in before && k in after ==> PollingKept(before[k].polling, after[k].polling, issued)
  }

  function StepIssues(w: World, step: Step): Option<Uuid> {
    if step.Polling? then Issued(step.poll, w) else None
  }

  lemma {:induction false} QuietPolled(before: Records, after: Records, issued: Option<Uuid>)
    requires Quiet(before, after, issued)
    ensures Polled(before, after, issued)
  {
    hide PollingKept, ReservesSlot;
  }

  /** A section polls nothing if its decision does not. */
  lemma {:induction false} SectionPolled(w: World, memory: Records, decide: Decide, after: Disk, wrote: bool)
    requires Section(memory, w.disk, w.now, decide, after, wrote)
    requires forall rs: Records, t :: decide(rs, t).Write? ==> forall k: Key ::
        k in rs && k in decide(rs, t).records ==>
      decide(rs, t).records[k].polling == rs[k].polling
    ensures Polled(w.disk.records, after.records, None)
  {
    hide Section, Progresses, ValidRecord, ReservesSlot, SameRecord;
    var mid, ticket := SectionEffect(memory, w.disk, w.now, decide, after, wrote);
    forall k | k in w.disk.records && k in after.records
      ensures PollingKept(w.disk.records[k].polling, after.records[k].polling, None)
    {
      assert QuietRecord(w.disk.records[k], mid.records[k], None);
      if wrote && decide(mid.records, ticket).Write? {
        assert after.records[k] == Versioned(mid.records, k, decide(mid.records, ticket).records[k]);
      }
    }
  }

  lemma {:induction false} UpkeepPolls(w: World, task: Upkeep, rs: Records, t: int, k: Key)
    requires Upkeeping(w, task)(rs, t).Write? && k in rs && k in Upkeeping(w, task)(rs, t).records
    ensures Upkeeping(w, task)(rs, t).records[k].polling == rs[k].polling
  {
  }

  lemma {:induction false} UpkeepPolled(w: World, memory: Records, task: Upkeep, wrote: bool, v: World)
    requires UpkeepStep(w, memory, task, wrote, v)
    ensures Polled(w.disk.records, v.disk.records, None)
  {
    hide Section, UpkeepDecision, Polled;
    forall rs: Records, t | Upkeeping(w, task)(rs, t).Write?
      ensures forall k: Key :: k in rs && k in Upkeeping(w, task)(rs, t).records ==>
                Upkeeping(w, task)(rs, t).records[k].polling == rs[k].polling
    {
      forall k: Key | k in rs && k in Upkeeping(w, task)(rs, t).records
        ensures Upkeeping(w, task)(rs, t).records[k].polling == rs[k].polling
      {
        UpkeepPolls(w, task, rs, t, k);
      }
    }
    SectionPolled(w, memory, Upkeeping(w, task), v.disk, wrote);
  }

  lemma {:induction false} QueuePolled(w: World, step: Step, wrote: bool, v: World)
    requires Next(w, step, wrote, v) && (step.Enqueuing? || step.Reserving? || step.SyncStarting?)
    ensures Polled(w.disk.records, v.disk.records, None) && w.nextUuid <= v.nextUuid
  {
    hide Section, Polled, HasPriority, ReservesSlot;
    match step
    case Enqueuing(memory, key, identity, owner) =>
      SectionPolled(w, memory, Enqueues(w, key, identity, owner), v.disk, wrote);
    case Reserving(memory, key, requestHash, owner) =>
      SectionPolled(w, memory, Reserves(w, key, requestHash, owner), v.disk, wrote);
    case SyncStarting(memory, key, requestHash) =>
        SectionPolled(w, memory, Submits(w, key, requestHash), v.disk, wrote);
  }

  lemma {:induction false} AttemptPolled(w: World, step: Step, wrote: bool, v: World)
    requires Next(w, step, wrote, v) && (step.Fencing? || step.Accepting? || step.Reporting?)
    ensures Polled(w.disk.records, v.disk.records, None) && w.nextUuid == v.nextUuid
  {
    hide Section, Polled, LiveReservation;
    match step
    case Fencing(memory, a, session) => SectionPolled(w, memory, Fences(w, a, w.attempts[a], session), v.disk, wrote);
    case Accepting(memory, a, session) =>
        SectionPolled(w, memory, Accepts(w, a, w.attempts[a], session), v.disk, wrote);
    case Reporting(memory, a, code) => SectionPolled(w, memory, Reports(w, a, w.attempts[a], code), v.disk, wrote);
  }

  /** Every step leaves polls alone, but for the reconciler's own. */
  lemma {:induction false} StepPolled(w: World, step: Step, wrote: bool, v: World)
    requires Inv(w) && Next(w, step, wrote, v)
    ensures Polled(w.disk.records, v.disk.records, StepIssues(w, step))
    ensures w.nextUuid <= v.nextUuid
    ensures (StepIssues(w, step).Some? ==> StepIssues(w, step) == Some(w.nextUuid) && w.nextUuid < v.nextUuid)
  {
    hide Section, Polled, Ends, PollDecision, UpkeepDecision, Inv, FenceStep, AcceptStep, ReportStep;
    match step
    case Keeping(memory, task) => UpkeepPolled(w, memory, task, wrote, v);
    case Polling(poll) => PollPolled(w, poll, wrote, v);
    case Enqueuing(_, _, _, _) => QueuePolled(w, step, wrote, v);
    case Reserving(_, _, _, _) => QueuePolled(w, step, wrote, v);
    case Fencing(_, _, _) => AttemptPolled(w, step, wrote, v);
    case Accepting(_, _, _) => AttemptPolled(w, step, wrote, v);
    case Reporting(_, _, _) => AttemptPolled(w, step, wrote, v);
    case SyncStarting(_, _, _) => QueuePolled(w, step, wrote, v);
    case SyncFencing(_, _) => SyncPolled(w, step, wrote, v);
    case SyncAccepting(_) => SyncPolled(w, step, wrote, v);
    case SyncReporting(_, _, _) => SyncPolled(w, step, wrote, v);
    case _ => EndsPolled(w.disk, map[], w.disk, false);
  }

  lemma {:induction false} SyncPolled(w: World, step: Step, wrote: bool, v: World)
    requires Next(w, step, wrote, v) && (step.SyncFencing? || step.SyncAccepting? || step.SyncReporting?)
    ensures Polled(w.disk.records, v.disk.records, None) && w.nextUuid == v.nextUuid
  {
    hide Section, Polled, Ends;
    match step
    case SyncFencing(a, session) =>
      EndsPolled(w.disk,
        w.disk.records[w.attempts[a].key :=
          Fenced(w.disk.records[w.attempts[a].key], w.attempts[a].epoch.value, session)], v.disk, wrote);
    case SyncAccepting(a) =>
      var key := w.attempts[a].key;
      EndsPolled(w.disk, w.disk.records[key := w.disk.records[key].(
        state := TC.JournalState.Accepted, submitId := w.attempts[a].receipt, updatedAt := w.now)], v.disk, wrote);
    case SyncReporting(a, code, knownCause) =>
      var key := w.attempts[a].key;
      EndsPolled(w.disk, if knownCause && !w.attempts[a].spawned then w.disk.records - {key}
                         else w.disk.records[key := Uncertain(w.disk.records[key], code, w.now)], v.disk, wrote);
  }

  lemma {:induction false} EndsPolled(disk: Disk, records: Records, after: Disk, wrote: bool)
    requires Ends(disk, Write(records, disk.nextQueueTicket), after, wrote) || after == disk
    requires forall k :: k in disk.records && k in records ==> records[k].polling == disk.records[k].polling
    ensures Polled(disk.records, after.records, None)
  {
    hide MayFollow, ValidDisk;
  }

  lemma {:induction false} PollPolled(w: World, poll: Poll, wrote: bool, v: World)
    requires Inv(w) && PollStep(w, poll, wrote, v)
    ensures Polled(w.disk.records, v.disk.records, Issued(poll, w))
  {
    hide DiskInv, AttemptInv, PollDecision, ValidDisk;
    if wrote {
      DiskInvValid(w);
      PollQuiet(w, poll, v.disk);
      QuietPolled(w.disk.records, v.disk.records, Issued(poll, w));
    }
  }

  // ---------------------------------------------------------------- over runs

  /** A run from any world that satisfies the invariant of the reachable ones. */
  ghost predicate Stretch(run: seq<World>)
    decreases |run|
  {
    var last := |run| - 1;
    run != [] && if last == 0 then Inv(run[0]) else Stretch(run[..last]) && Steps(run[last - 1], run[last])
  }

  lemma {:induction false} StretchInv(run: seq<World>)
    requires Stretch(run)
    ensures Inv(run[|run| - 1])
    decreases |run|
  {
    hide Inv, Next;
    var last := |run| - 1;
    if last > 0 {
      StretchInv(run[..last]);
      var step, wrote :| Next(run[last - 1], step, wrote, run[last]);
      NextKeeps(run[last - 1], step, wrote, run[last]);
    }
  }

  /** While a record stays in the journal, its observation time never falls. */
  lemma {:induction false} ObservedNeverFalls(run: seq<World>, key: Key)
    requires Stretch(run)
    requires forall i :: 0 <= i < |run| ==> key in run[i].disk.records
    ensures var before, after := run[0].disk.records[key].polling, run[|run| - 1].disk.records[key].polling;
            before.lastObservedAt.Some? ==>
              after.lastObservedAt.Some? && before.lastObservedAt.value <= after.lastObservedAt.value
    decreases |run|
  {
    hide Inv, Next;
    var last := |run| - 1;
    if last > 0 {
      ObservedNeverFalls(run[..last], key);
      StretchInv(run[..last]);
      var step, wrote :| Next(run[last - 1], step, wrote, run[last]);
      StepPolled(run[last - 1], step, wrote, run[last]);
      assert PollingKept(run[last - 1].disk.records[key].polling, run[last].disk.records[key].polling,
        StepIssues(run[last - 1], step));
    }
  }

  /** `lease` does not hold the record. */
  predicate Gone(records: Records, key: Key, leaseId: Uuid) {
    key in records ==> records[key].polling.lease.None? || records[key].polling.lease.value.leaseId != leaseId
  }

  /** A lease that was issued, and since replaced or released, is gone for good while the record stays. */
  lemma {:induction false} ReplacedLeaseStaysGone(run: seq<World>, key: Key, lease: PollLease)
    requires Stretch(run)
    requires forall i :: 0 <= i < |run| ==> key in run[i].disk.records
    requires lease.leaseId < run[0].nextUuid && Gone(run[0].disk.records, key, lease.leaseId)
    ensures Gone(run[|run| - 1].disk.records, key, lease.leaseId) && lease.leaseId < run[|run| - 1].nextUuid
    decreases |run|
  {
    hide Inv, Next;
    var last := |run| - 1;
    if last > 0 {
      ReplacedLeaseStaysGone(run[..last], key, lease);
      StretchInv(run[..last]);
      var step, wrote :| Next(run[last - 1], step, wrote, run[last]);
      StepPolled(run[last - 1], step, wrote, run[last]);
      assert PollingKept(run[last - 1].disk.records[key].polling, run[last].disk.records[key].polling,
        StepIssues(run[last - 1], step));
    }
  }

  /** Whatever its stale holder then reports or renews, the journal does not change. */
  lemma {:induction false} GoneLeaseIsIgnored(w: World, poll: Poll, wrote: bool, v: World, lease: PollLease)
    requires PollStep(w, poll, wrote, v)
    requires (poll.Observe? || poll.SyncError? || poll.RenewPoll? || poll.ReleasePoll?) && poll.lease == lease
    requires Gone(w.disk.records, poll.key, lease.leaseId)
    ensures v.disk == w.disk && !wrote
  {
    hide Persist;
  }

  /** A claim is only ever granted on a due record without an unexpired lease. */
  lemma {:induction false} ClaimsExcludeLiveLeases(w: World, poll: Poll, wrote: bool, v: World)
    requires PollStep(w, poll, wrote, v) && poll.ClaimOne? && wrote
    ensures poll.key in w.disk.records && R.Eligible(w.disk.records[poll.key])
    ensures var lease := w.disk.records[poll.key].polling.lease; lease.Some? ==> lease.value.expiresAt <= w.now
    ensures poll.key in v.disk.records
    ensures v.disk.records[poll.key].polling.lease == Some(PollLease(w.nextUuid, poll.owner, poll.expiresAt))
  {
    hide ValidDisk, MayFollow;
  }
}
