/** Submissions in the system of World, step by step: one that is queued, reserved, granted the CLI, fenced, spawned,
    answered and recorded, and one that is given up before its spawn, withdrawn, and submitted again. What is proved
    of every run is therefore proved of runs in which something happens. */
module SubmissionRun {
  import opened Wrappers
  import TC = TaskContract
  import opened Journal
  import opened RuntimeSections
  import opened World
  import RuntimeLimits

  const TASK: Key := 7

  /** What is submitted, and the session the account check finds before the CLI is called. */
  datatype Plan = Plan(who: Identity, session: Option<Session>)

  predicate Submittable(p: Plan) {
    && p.who.durable && p.who.operation.Some? && p.who.mode in {Some(TC.Image), Some(TC.Video)}
    && p.who.model.Some? && p.who.createdAt.Some?
    && (p.session.Some? ==> 0 <= p.session.value.epoch <= MAX_SAFE_INTEGER)
  }

  function FenceOf(p: Plan): Fence {
    if p.session.Some? && Truthy(p.session.value.accountBinding)
    then Fence(Some(1), p.session.value.accountBinding, Some(p.session.value.epoch))
    else Fence(Some(1), None, None)
  }

  const SETUP: Config := Config(1, 1000)

  // ---------------------------------------------------------------- the stages of the record and of the system

  function Queued(p: Plan, ticket: int): RuntimeRecord {
    Queue(p.who, 0, ticket, 0, 1000).(journalVersion := Some(1))
  }

  function Held(p: Plan, id: Uuid): RuntimeRecord {
    Queued(p, 1).(state := TC.JournalState.Pending, queue := NO_QUEUE, journalVersion := Some(2),
               reservation := Reservation(Some(id), Some(0), Some(1000), Some(Reserved)))
  }

  function MaySpawn(p: Plan, id: Uuid): RuntimeRecord {
    Held(p, id).(fence := FenceOf(p), journalVersion := Some(3),
              reservation := Reservation(Some(id), Some(0), Some(1000), Some(SpawnPermitted)))
  }

  function Done(p: Plan): RuntimeRecord {
    MaySpawn(p, 0).(state := TC.JournalState.Accepted, submitId := Some("receipt-1"), reservation := NO_RESERVATION,
                 journalVersion := Some(4))
  }

  function Holding(record: RuntimeRecord, next: int): Disk {
    Disk(map[TASK := record], next)
  }

  function Try(p: Plan, stage: Stage, epoch: Option<int>, spawned: bool, receipt: Option<string>): Attempt {
    Attempt(TASK, p.who.requestHash, 0, true, epoch, stage, spawned, receipt)
  }

  /** The journal is empty, though tickets may have been drawn before. */
  predicate Ready(w: World) {
    && w.disk == Disk(map[], w.disk.nextQueueTicket) && 1 <= w.disk.nextQueueTicket < 100
    && w.now == 0 && w.lock.None? && w.config == SETUP && w.nextUuid !in w.attempts
  }

  function AfterQueueing(w: World, p: Plan): World {
    w.(disk := Holding(Queued(p, w.disk.nextQueueTicket), w.disk.nextQueueTicket + 1))
  }

  function WithAttempt(w: World, record: RuntimeRecord, it: Attempt): World {
    w.(disk := Holding(record, w.disk.nextQueueTicket + 1), nextUuid := w.nextUuid + 1,
       attempts := w.attempts[w.nextUuid := it])
  }

  function AfterReserving(w: World, p: Plan): World {
    WithAttempt(w, Held(p, w.nextUuid), Try(p, Prepared, None, false, None))
  }

  function AfterGranting(w: World, p: Plan): World {
    WithAttempt(w, Held(p, w.nextUuid), Try(p, HoldsCli, Some(1), false, None))
  }

  function AfterFencing(w: World, p: Plan): World {
    WithAttempt(w, MaySpawn(p, w.nextUuid), Try(p, Permitted, Some(1), false, None))
  }

  function AfterSpawning(w: World, p: Plan): World {
    WithAttempt(w, MaySpawn(p, w.nextUuid),
      Try(p, Running, Some(1), true, None)).(spawns := w.spawns + [Spawn(TASK, w.nextUuid)])
  }

  function AfterAnswer(w: World, p: Plan): World {
    WithAttempt(w, MaySpawn(p, w.nextUuid), Try(p, Running, Some(1), true, Some("receipt-1")))
    .(spawns := w.spawns + [Spawn(TASK, w.nextUuid)])
  }

  function AfterRecording(w: World, p: Plan): World {
    WithAttempt(w, Done(p),
      Try(p, Over, Some(1), true, Some("receipt-1"))).(spawns := w.spawns + [Spawn(TASK, w.nextUuid)])
  }

  /** The other way: the attempt breaks off before its spawn, early on or with its fence already durable, and its
      report withdraws the record. */
  function AfterBreaking(w: World, p: Plan, late: bool): World {
    if late then WithAttempt(w, MaySpawn(p, w.nextUuid), Try(p, Failing, Some(1), false, None))
    else WithAttempt(w, Held(p, w.nextUuid), Try(p, Failing, None, false, None))
  }

  function AfterWithdrawal(w: World, p: Plan, late: bool): World {
    w.(disk := Disk(map[], w.disk.nextQueueTicket + 1), nextUuid := w.nextUuid + 1,
       attempts := w.attempts[w.nextUuid := Try(p, Over, if late then Some(1) else None, false, None)])
  }

  // ---------------------------------------------------------------- the sections

  lemma {:induction false} RecordsValid(p: Plan, ticket: int, id: Uuid)
    requires Submittable(p) && 1 <= ticket <= 100
    ensures ValidRecord(Queued(p, ticket)) && ValidRecord(Held(p, id)) && ValidRecord(MaySpawn(p, id))
    ensures ValidRecord(Done(p))
  {
    assert HasReceipt(Done(p)) by {
      assert "receipt-1" == ['r', 'e', 'c', 'e', 'i', 'p', 't', '-', '1'];
    }
    hide SafeId;
  }

  lemma {:induction false} RecordsProgress(p: Plan, ticket: int, id: Uuid)
    ensures Progresses(Queued(p, ticket), Held(p, id)) && Progresses(Held(p, id), MaySpawn(p, id))
    ensures Progresses(MaySpawn(p, id), Done(p))
  {
  }

  lemma {:induction false} VersionAside(before: RuntimeRecord, record: RuntimeRecord, version: int)
    requires ValidRecord(record) && Progresses(before, record) && 1 <= version < 10
    ensures var written := record.(journalVersion := Some(version));
            ValidRecord(written) && Progresses(before, written)
  {
  }

  function NextVersion(record: RuntimeRecord, version: int): RuntimeRecord {
    record.(journalVersion := Some(version + 1))
  }

  lemma {:induction false} HoldingValid(record: RuntimeRecord, next: int)
    requires ValidRecord(record) && 1 <= next <= 100
    ensures ValidDisk(Holding(record, next))
  {
    hide ValidRecord;
  }

  lemma {:induction false} VersionIsSafe(written: RuntimeRecord)
    requires ValidRecord(written)
    ensures SafeAtLeast(written.journalVersion, 1)
  {
  }

  lemma {:induction false} WrittenPersists(before: RuntimeRecord, written: RuntimeRecord, next: int)
    requires ValidRecord(before) && Version(before) < 10 && 1 <= next <= 100
    requires ValidRecord(written) && Progresses(before, written) && !SameRecord(before, written)
    ensures Persist(Holding(before, next), Disk(map[TASK := before][TASK := written], next))
        == Ok(Holding(NextVersion(written, Version(before)), next))
  {
    hide Progresses, ValidRecord, SameRecord, MayFollow;
    var disk := Holding(before, next);
    HoldingValid(before, next);
    VersionIsSafe(written);
    RuntimeLimits.ReplacingExactly(disk, next, TASK, written);
    assert AssignVersions(disk.records, map[TASK := before][TASK := written])
      == map[TASK := NextVersion(written, Version(before))];
  }

  /** Nothing is due for recovery at the start, and the ticket counter is above the record's ticket. */
  predicate Settled(record: RuntimeRecord, next: int) {
    !ReservationExpired(record, 0) && !QueueExpired(record, 0) && TicketAfter(record) <= next
  }

  lemma {:induction false} StagesSettled(p: Plan, ticket: int, id: Uuid)
    requires 1 <= ticket < 100
    ensures Settled(Queued(p, ticket), ticket + 1) && Settled(Held(p, id), ticket + 1)
    ensures Settled(MaySpawn(p, id), ticket + 1)
  {
  }

  lemma {:induction false} ReloadsAsIs(record: RuntimeRecord, next: int)
    requires Settled(record, next)
    ensures Reloads(map[], Holding(record, next), 0, Ok(Loaded(Holding(record, next), next)))
  {
    hide Persist, RecoverRecord, ReservationExpired, QueueExpired, TicketAfter;
  }

  /** A section that rewrites the one record there is. */
  lemma {:induction false} OneRecordSection(before: RuntimeRecord, written: RuntimeRecord, next: int, decide: Decide)
    requires ValidRecord(before) && ValidRecord(written) && Version(before) < 10 && Settled(before, next)
    requires Progresses(before, written) && !SameRecord(before, written) && 1 <= next <= 100
    requires decide(map[TASK := before], next) == Write(map[TASK := before][TASK := written], next)
    ensures Section(map[], Holding(before, next), 0, decide, Holding(NextVersion(written, Version(before)), next), true)
  {
    var disk := Holding(before, next);
    WrittenPersists(before, written, next);
    ReloadsAsIs(before, next);
    hide Persist, Reloads, ValidRecord, Progresses, SameRecord, Settled;
    assert Ends(disk, decide(disk.records, next), Holding(NextVersion(written, Version(before)), next), true);
  }

  lemma {:induction false} EmptyReloads(next: int)
    ensures Reloads(map[], Disk(map[], next), 0, Ok(Loaded(Disk(map[], next), next)))
  {
  }

  lemma {:induction false} FirstPersists(p: Plan, ticket: int)
    requires Submittable(p) && 1 <= ticket < 100
    ensures Persist(Disk(map[], ticket), Disk(map[TASK := Queue(p.who, 0, ticket, 0, 1000)], ticket + 1))
         == Ok(Holding(Queued(p, ticket), ticket + 1))
  {
    var written := Queue(p.who, 0, ticket, 0, 1000);
    RecordsValid(p, ticket, 0);
    hide ValidRecord, Progresses;
    assert AssignVersions(map[], map[TASK := written]) == map[TASK := Queued(p, ticket)];
    HoldingValid(Queued(p, ticket), ticket + 1);
  }

  lemma {:induction false} QueueingSection(w: World, p: Plan)
    requires Ready(w) && Submittable(p)
    ensures Section(map[], w.disk, 0, Enqueues(w, TASK, p.who, 0), AfterQueueing(w, p).disk, true)
  {
    var ticket := w.disk.nextQueueTicket;
    var decide := Enqueues(w, TASK, p.who, 0);
    EmptyReloads(ticket);
    FirstPersists(p, ticket);
    assert decide(map[], ticket) == Write(map[TASK := Queue(p.who, 0, ticket, 0, 1000)], ticket + 1);
    hide Persist, Reloads, Queued;
    assert Ends(w.disk, decide(map[], ticket), AfterQueueing(w, p).disk, true);
  }

  lemma {:induction false} SlotIsFree(p: Plan, ticket: int)
    ensures HasPriority(map[TASK := Queued(p, ticket)], TASK, 0, 1)
  {
    var records := map[TASK := Queued(p, ticket)];
    assert RuntimeSections.Reserving(records) == {};
    assert LiveQueue(records, 0) == {TASK};
    assert Ahead(records, TASK, 0) == {};
  }

  lemma {:induction false} ReservingSection(w: World, p: Plan)
    requires Ready(w) && Submittable(p)
    ensures var v := AfterQueueing(w, p);
      Section(map[], v.disk, 0, Reserves(v, TASK, p.who.requestHash, 0), AfterReserving(w, p).disk, true)
  {
    var ticket, id := w.disk.nextQueueTicket, w.nextUuid;
    RecordsValid(p, ticket, id);
    RecordsProgress(p, ticket, id);
    StagesSettled(p, ticket, id);
    SlotIsFree(p, ticket);
    hide HasPriority, ValidRecord, Progresses, Settled;
    VersionAside(Queued(p, ticket), Held(p, id), 1);
    OneRecordSection(Queued(p, ticket), Held(p, id).(journalVersion := Some(1)), ticket + 1,
      Reserves(AfterQueueing(w, p), TASK, p.who.requestHash, 0));
  }

  lemma {:induction false} FencingSection(w: World, p: Plan)
    requires Ready(w) && Submittable(p)
    ensures var v, a := AfterGranting(w, p), w.nextUuid;
      Section(map[], v.disk, 0, Fences(v, a, v.attempts[a], p.session), AfterFencing(w, p).disk, true)
  {
    var ticket, id := w.disk.nextQueueTicket, w.nextUuid;
    RecordsValid(p, ticket, id);
    RecordsProgress(p, ticket, id);
    StagesSettled(p, ticket, id);
    hide ValidRecord, Progresses, Settled;
    VersionAside(Held(p, id), MaySpawn(p, id), 2);
    var v := AfterGranting(w, p);
    OneRecordSection(Held(p, id), MaySpawn(p, id).(journalVersion := Some(2)), ticket + 1,
      Fences(v, id, v.attempts[id], p.session));
  }

  lemma {:induction false} RecordingSection(w: World, p: Plan)
    requires Ready(w) && Submittable(p)
    ensures var v, a := AfterAnswer(w, p), w.nextUuid;
      Section(map[], v.disk, 0, Accepts(v, a, v.attempts[a], p.session), AfterRecording(w, p).disk, true)
  {
    var ticket, id := w.disk.nextQueueTicket, w.nextUuid;
    RecordsValid(p, ticket, id);
    RecordsProgress(p, ticket, id);
    StagesSettled(p, ticket, id);
    hide ValidRecord, Progresses, Settled;
    VersionAside(MaySpawn(p, id), Done(p), 3);
    var v := AfterAnswer(w, p);
    OneRecordSection(MaySpawn(p, id), Done(p).(journalVersion := Some(3)), ticket + 1,
      Accepts(v, id, v.attempts[id], p.session));
  }

  /** A section that withdraws the one record there is. */
  lemma {:induction false} WithdrawingSection(before: RuntimeRecord, next: int, decide: Decide)
    requires Settled(before, next) && Removable(before) && 1 <= next <= 100
    requires decide(map[TASK := before], next) == Write(map[], next)
    ensures Section(map[], Holding(before, next), 0, decide, Disk(map[], next), true)
  {
    var disk := Holding(before, next);
    ReloadsAsIs(before, next);
    assert AssignVersions(disk.records, map[]) == map[];
    assert Persist(disk, Disk(map[], next)) == Ok(Disk(map[], next));
    hide Persist, Reloads, Settled, Removable;
    assert Ends(disk, decide(disk.records, next), Disk(map[], next), true);
  }

  lemma {:induction false} ReportWithdraws(w: World, p: Plan, late: bool, code: string)
    requires Ready(w)
    ensures var v, a := AfterBreaking(w, p, late), w.nextUuid;
      && Removable(v.disk.records[TASK])
      && Reports(v, a, v.attempts[a], code)(v.disk.records, v.disk.nextQueueTicket)
         == Write(map[], v.disk.nextQueueTicket)
  {
    var v := AfterBreaking(w, p, late);
    assert v.disk.records - {TASK} == map[];
  }

  lemma {:induction false} WithdrawalSection(w: World, p: Plan, late: bool, code: string)
    requires Ready(w)
    ensures var v, a := AfterBreaking(w, p, late), w.nextUuid;
      Section(map[], v.disk, 0, Reports(v, a, v.attempts[a], code), AfterWithdrawal(w, p, late).disk, true)
  {
    var ticket, id := w.disk.nextQueueTicket, w.nextUuid;
    var v := AfterBreaking(w, p, late);
    StagesSettled(p, ticket, id);
    ReportWithdraws(w, p, late, code);
    hide Settled, Held, MaySpawn, Reports;
    WithdrawingSection(v.disk.records[TASK], ticket + 1, Reports(v, id, v.attempts[id], code));
  }

  // ---------------------------------------------------------------- the steps

  lemma {:induction false} Queueing(w: World, p: Plan)
    requires Ready(w) && Submittable(p)
    ensures Steps(w, AfterQueueing(w, p))
  {
    QueueingSection(w, p);
    hide Section;
    assert Next(w, Enqueuing(map[], TASK, p.who, 0), true, AfterQueueing(w, p));
  }

  function Registered(v: World, p: Plan, after: Disk): World {
    Move(v, after, v.nextUuid, Try(p, Prepared, None, false, None)).(nextUuid := v.nextUuid + 1)
  }

  lemma {:induction false} ReservingIsStep(v: World, p: Plan, after: Disk)
    requires v.lock.None? && v.now == 0
    requires Section(map[], v.disk, 0, Reserves(v, TASK, p.who.requestHash, 0), after, true)
    ensures Steps(v, Registered(v, p, after))
  {
    hide Section, Reserves;
    assert Next(v, Step.Reserving(map[], TASK, p.who.requestHash, 0), true, Registered(v, p, after));
  }

  lemma {:induction false} ReservingMoves(w: World, p: Plan)
    requires Ready(w) && Submittable(p)
    ensures var v := AfterQueueing(w, p);
      v.lock.None? && v.now == 0 && AfterReserving(w, p) == Registered(v, p, AfterReserving(w, p).disk)
  {
    hide Held, Queued;
  }

  lemma {:induction false} TakingSlot(w: World, p: Plan)
    requires Ready(w) && Submittable(p)
    ensures Steps(AfterQueueing(w, p), AfterReserving(w, p))
  {
    ReservingSection(w, p);
    ReservingMoves(w, p);
    hide Section, Reserves, Steps, AfterQueueing, AfterReserving, Registered, Ready;
    ReservingIsStep(AfterQueueing(w, p), p, AfterReserving(w, p).disk);
  }

  lemma {:induction false} BeingGranted(w: World, p: Plan)
    requires Ready(w) && Submittable(p)
    ensures Steps(AfterReserving(w, p), AfterGranting(w, p))
  {
    assert Next(AfterReserving(w, p), Granting(w.nextUuid, 1), false, AfterGranting(w, p));
  }

  lemma {:induction false} FenceIsStep(v: World, p: Plan, a: Uuid, after: Disk)
    requires At(v, a, HoldsCli) && v.attempts[a].reserved && v.attempts[a].epoch.Some? && v.lock.None?
    requires Section(map[], v.disk, v.now, Fences(v, a, v.attempts[a], p.session), after, true)
    ensures Steps(v, Move(v, after, a, v.attempts[a].(stage := Permitted)))
  {
    hide Section, Fences;
    assert Next(v, Fencing(map[], a, p.session), true, Move(v, after, a, v.attempts[a].(stage := Permitted)));
  }

  lemma {:induction false} FenceMoves(w: World, p: Plan)
    requires Ready(w) && Submittable(p)
    ensures var v, a := AfterGranting(w, p), w.nextUuid;
      && At(v, a, HoldsCli) && v.attempts[a].reserved && v.attempts[a].epoch.Some? && v.lock.None? && v.now == 0
      && AfterFencing(w, p) == Move(v, AfterFencing(w, p).disk, a, v.attempts[a].(stage := Permitted))
  {
    hide Held, MaySpawn;
    var v, a := AfterGranting(w, p), w.nextUuid;
    assert AfterFencing(w, p).attempts == v.attempts[a := v.attempts[a].(stage := Permitted)];
  }

  lemma {:induction false} CommittingFence(w: World, p: Plan)
    requires Ready(w) && Submittable(p)
    ensures Steps(AfterGranting(w, p), AfterFencing(w, p))
  {
    FencingSection(w, p);
    FenceMoves(w, p);
    hide Section, Fences, AfterGranting, AfterFencing, Move, Steps;
    FenceIsStep(AfterGranting(w, p), p, w.nextUuid, AfterFencing(w, p).disk);
  }

  lemma {:induction false} SpawningCli(w: World, p: Plan)
    requires Ready(w) && Submittable(p)
    ensures Steps(AfterFencing(w, p), AfterSpawning(w, p)) && Steps(AfterSpawning(w, p), AfterAnswer(w, p))
  {
    assert Next(AfterFencing(w, p), Spawning(w.nextUuid), false, AfterSpawning(w, p));
    assert Next(AfterSpawning(w, p), Receiving(w.nextUuid, "receipt-1"), false, AfterAnswer(w, p));
  }

  lemma {:induction false} RecordingIsStep(v: World, p: Plan, a: Uuid, after: Disk)
    requires At(v, a, Running) && v.attempts[a].reserved && v.attempts[a].epoch.Some? && v.lock.None?
    requires v.attempts[a].receipt.Some?
    requires Section(map[], v.disk, v.now, Accepts(v, a, v.attempts[a], p.session), after, true)
    ensures Steps(v, Move(v, after, a, v.attempts[a].(stage := Over)))
  {
    hide Section, Accepts;
    assert Next(v, Accepting(map[], a, p.session), true, Move(v, after, a, v.attempts[a].(stage := Over)));
  }

  lemma {:induction false} RecordingMoves(w: World, p: Plan)
    requires Ready(w) && Submittable(p)
    ensures var v, a := AfterAnswer(w, p), w.nextUuid;
      && At(v, a, Running) && v.attempts[a].reserved && v.attempts[a].epoch.Some? && v.lock.None? && v.now == 0
      && v.attempts[a].receipt.Some?
      && AfterRecording(w, p) == Move(v, AfterRecording(w, p).disk, a, v.attempts[a].(stage := Over))
  {
    hide MaySpawn;
    var v, a := AfterAnswer(w, p), w.nextUuid;
    assert AfterRecording(w, p).attempts == v.attempts[a := v.attempts[a].(stage := Over)];
  }

  lemma {:induction false} Recording(w: World, p: Plan)
    requires Ready(w) && Submittable(p)
    ensures Steps(AfterAnswer(w, p), AfterRecording(w, p))
  {
    RecordingSection(w, p);
    RecordingMoves(w, p);
    hide Section, Accepts, AfterAnswer, AfterRecording, Move, Steps;
    RecordingIsStep(AfterAnswer(w, p), p, w.nextUuid, AfterRecording(w, p).disk);
  }

  lemma {:induction false} BreakingOff(w: World, p: Plan, late: bool)
    requires Ready(w) && Submittable(p)
    ensures Steps(if late then AfterFencing(w, p) else AfterReserving(w, p), AfterBreaking(w, p, late))
  {
    hide Held, MaySpawn;
    assert Next(if late then AfterFencing(w, p) else AfterReserving(w, p), Breaking(w.nextUuid), false,
      AfterBreaking(w, p, late));
  }

  lemma {:induction false} ReportIsStep(v: World, a: Uuid, code: string, after: Disk)
    requires At(v, a, Failing) && v.attempts[a].reserved && v.lock.None?
    requires Section(map[], v.disk, v.now, Reports(v, a, v.attempts[a], code), after, true)
    ensures Steps(v, Move(v, after, a, v.attempts[a].(stage := Over)))
  {
    hide Section, Reports;
    assert Next(v, Reporting(map[], a, code), true, Move(v, after, a, v.attempts[a].(stage := Over)));
  }

  lemma {:induction false} WithdrawalMoves(w: World, p: Plan, late: bool)
    requires Ready(w) && Submittable(p)
    ensures var v, a := AfterBreaking(w, p, late), w.nextUuid;
      && At(v, a, Failing) && v.attempts[a].reserved && v.lock.None? && v.now == 0
      && AfterWithdrawal(w, p, late) == Move(v, AfterWithdrawal(w, p, late).disk, a, v.attempts[a].(stage := Over))
  {
    hide Held;
    var v, a := AfterBreaking(w, p, late), w.nextUuid;
    assert AfterWithdrawal(w, p, late).attempts == v.attempts[a := v.attempts[a].(stage := Over)];
  }

  lemma {:induction false} Withdrawing(w: World, p: Plan, late: bool)
    requires Ready(w) && Submittable(p)
    ensures Steps(AfterBreaking(w, p, late), AfterWithdrawal(w, p, late))
  {
    WithdrawalSection(w, p, late, "dreamina_cli_failed");
    WithdrawalMoves(w, p, late);
    hide Section, Reports, AfterBreaking, AfterWithdrawal, Move, Steps;
    ReportIsStep(AfterBreaking(w, p, late), w.nextUuid, "dreamina_cli_failed", AfterWithdrawal(w, p, late).disk);
  }

  // ---------------------------------------------------------------- whole runs

  ghost predicate Reachable(w: World) {
    exists run :: Run(run) && run[|run| - 1] == w
  }

  lemma {:induction false} ReachesNext(w: World, v: World)
    requires Reachable(w) && Steps(w, v)
    ensures Reachable(v)
  {
    hide Steps, Init;
    var run :| Run(run) && run[|run| - 1] == w;
    assert (run + [v])[..|run|] == run;
    assert Run(run + [v]);
  }

  lemma {:induction false} FenceReachable(w: World, p: Plan)
    requires Reachable(w) && Ready(w) && Submittable(p)
    ensures Reachable(AfterQueueing(w, p)) && Reachable(AfterReserving(w, p)) && Reachable(AfterFencing(w, p))
  {
    Queueing(w, p);
    TakingSlot(w, p);
    BeingGranted(w, p);
    CommittingFence(w, p);
    hide Steps, Reachable;
    ReachesNext(w, AfterQueueing(w, p));
    ReachesNext(AfterQueueing(w, p), AfterReserving(w, p));
    ReachesNext(AfterReserving(w, p), AfterGranting(w, p));
    ReachesNext(AfterGranting(w, p), AfterFencing(w, p));
  }

  /** From any reachable empty journal: the submission completes, with exactly one more spawn. */
  lemma {:induction false} SubmissionCompletes(w: World, p: Plan)
    requires Reachable(w) && Ready(w) && Submittable(p)
    ensures var v := AfterRecording(w, p);
      && Reachable(v) && v.spawns == w.spawns + [Spawn(TASK, w.nextUuid)]
      && v.disk.records[TASK].submitId == Some("receipt-1")
  {
    FenceReachable(w, p);
    SpawningCli(w, p);
    Recording(w, p);
    hide Steps, Reachable;
    ReachesNext(AfterFencing(w, p), AfterSpawning(w, p));
    ReachesNext(AfterSpawning(w, p), AfterAnswer(w, p));
    ReachesNext(AfterAnswer(w, p), AfterRecording(w, p));
  }

  /** From any reachable empty journal: an attempt given up before its spawn leaves no record and no spawn. */
  lemma {:induction false} AttemptWithdrawn(w: World, p: Plan, late: bool)
    requires Reachable(w) && Ready(w) && Submittable(p) && w.disk.nextQueueTicket < 99 && forall a ::
        a in w.attempts ==> a < w.nextUuid
    ensures var v := AfterWithdrawal(w, p, late);
      Reachable(v) && v.disk.records == map[] && v.spawns == w.spawns && v.nextUuid == w.nextUuid + 1 && Ready(v)
  {
    FenceReachable(w, p);
    BreakingOff(w, p, late);
    Withdrawing(w, p, late);
    hide Steps, Reachable;
    ReachesNext(if late then AfterFencing(w, p) else AfterReserving(w, p), AfterBreaking(w, p, late));
    ReachesNext(AfterBreaking(w, p, late), AfterWithdrawal(w, p, late));
  }

  const START: World := World(EMPTY, 0, 0, map[], None, [], SETUP, map[])

  lemma {:induction false} StartReachable()
    ensures Reachable(START) && Ready(START)
  {
    assert Init(START) by {
      assert RuntimeSections.Reserving(map[]) == {};
    }
    assert Run([START]);
  }

  /** A first attempt is given up and withdrawn, the same key is submitted again, as the same request or another, and
      completes: one spawn, by the second attempt, whose receipt is recorded. */
  lemma {:induction false} ResubmissionCompletes(first: Plan, late: bool, second: Plan)
    requires Submittable(first) && Submittable(second)
    ensures var v := AfterRecording(AfterWithdrawal(START, first, late), second);
      && Reachable(v) && v.spawns == [Spawn(TASK, 1)] && v.inherited == map[]
      && v.disk.records[TASK].submitId == Some("receipt-1")
  {
    StartReachable();
    AttemptWithdrawn(START, first, late);
    hide Reachable;
    SubmissionCompletes(AfterWithdrawal(START, first, late), second);
  }
}
