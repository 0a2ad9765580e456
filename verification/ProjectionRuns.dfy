/** One task through any interleaving of journal persists, projections of any version so far, and product mutations. */
module ProjectionRuns {
  import opened Wrappers
  import opened ProductTask
  import opened Projection
  import J = Journal
  import TC = TaskContract

  function NonEmpty(text: Option<string>): Option<string> {
    if Truthy(text) then text else None
  }

  function OperationName(operation: J.Operation): string {
    match operation
    case Text2Image => "text2image"
    case Image2Image => "image2image"
    case ImageUpscale => "image_upscale"
    case Text2Video => "text2video"
    case Image2Video => "image2video"
    case Frames2Video => "frames2video"
    case Multiframe2Video => "multiframe2video"
    case Multimodal2Video => "multimodal2video"
  }

  /** readSafeJournal, one record. */
  function SafeRecord(recordId: string, record: J.RuntimeRecord): ProjectableRecord {
    ProjectableRecord(
      recordId,
      J.Version(record),
      record.identity.requestHash,
      NonEmpty(record.identity.clientOperationId),
      record.identity.context,
      record.state,
      Truthy(record.submitId),
      if record.identity.operation.Some? then Some(OperationName(record.identity.operation.value)) else None,
      record.identity.mode,
      NonEmpty(record.identity.model),
      record.identity.createdAt,
      record.updatedAt,
      NonEmpty(record.errorCode),
      record.officialStatus,
      NonEmpty(record.fence.accountBinding),
      if record.fence.epoch == Some(0) then None else record.fence.epoch,
      record.providerOutputs,
      record.hidden)
  }

  /** What projectJournalVersion comes to when nobody else writes in between. */
  datatype Attempted = Skips | Refuses | Stores(task: StoredTask)

  function Attempt(record: ProjectableRecord, current: Option<StoredTask>): Attempted {
    if !RecordReadable(record) then Refuses
    else if current.Some? && (current.value.origin.requestHash != record.requestHash
                              || current.value.origin.journalRecordId != record.recordId) then Refuses
    else if current.Some? && current.value.projectedJournalVersion >= record.journalVersion then Skips
    else if Stored(record, current) then Stores(StoredAs(record, current))
    else Refuses
  }

  /** The journal versions of one record so far, and the task projected from them. */
  datatype Life = Life(recordId: string, journal: seq<J.RuntimeRecord>, task: Option<StoredTask>)

  datatype Act =
    | Persisted(record: J.RuntimeRecord)
    | Projected(version: nat)
    | Mutated(mutation: ProductMutation)

  function MutatedTask(task: StoredTask, mutation: ProductMutation): Option<StoredTask> {
    if !MutationParses(mutation) then None
    else
      match ApplyProductMutation(task, mutation)
      case Err(_) => None
      case Ok(next) =>
        var stored := next.(version := task.version + 1);
        if ValidTask(stored) then Some(stored) else None
  }

  function Acted(life: Life, act: Act): Life {
    match act
    case Persisted(record) => life.(journal := life.journal + [record])
    case Projected(m) =>
      if m >= |life.journal| then life
      else
        (match Attempt(SafeRecord(life.recordId, life.journal[m]), life.task)
         case Stores(task) => life.(task := Some(task))
         case _ => life)
    case Mutated(mutation) =>
      if life.task.None? then life
      else
        match MutatedTask(life.task.value, mutation)
        case Some(task) => life.(task := Some(task))
        case None => life
  }

  // ---------------------------------------------------------------- any acts at all

  /** The task before and after one act. */
  predicate Onward(before: Option<StoredTask>, after: Option<StoredTask>) {
    before.Some? ==> after.Some? && TaskFollows(before.value, after.value)
  }

  /** The task, once there is one, is well formed and this record's. */
  predicate Grounded(life: Life) {
    life.task.Some? ==> Wellformed(life.task.value) && life.task.value.taskId == TaskIdOf(life.recordId)
  }

  lemma {:induction false} FollowsItself(task: StoredTask)
    requires Wellformed(task)
    ensures TaskFollows(task, task)
  {
    hide ValidContext, ValidOutputs, SafeId;
  }

  lemma {:induction false} StoredAwaits(record: ProjectableRecord, task: StoredTask)
    requires task.taskId == TaskIdOf(record.recordId) && Attempt(record, Some(task)).Stores?
    ensures RecordReadable(record) && Awaits(record, task)
  {
    hide ProjectionAdmitted, TC.FromRuntimeJournal, MergeProviderState, RecordReadable;
  }

  lemma {:induction false} FirstTaskId(record: ProjectableRecord)
    requires Stored(record, None)
    ensures StoredAs(record, None).taskId == TaskIdOf(record.recordId)
  {
    hide ValidTask, TC.FromRuntimeJournal;
  }

  lemma {:induction false} ProjectionOnward(life: Life, m: nat)
    requires Grounded(life)
    ensures Grounded(Acted(life, Projected(m))) && Onward(life.task, Acted(life, Projected(m)).task)
  {
    hide RecordReadable, Stored, Wellformed, OperationName, TaskFollows, ValidTask;
    if life.task.Some? {
      FollowsItself(life.task.value);
    }
    if m < |life.journal| {
      var record := SafeRecord(life.recordId, life.journal[m]);
      if Attempt(record, life.task).Stores? {
        match life.task {
          case None =>
            FirstStoredExactly(record);
            FirstTaskId(record);
          case Some(task) =>
            StoredAwaits(record, task);
            ProjectionFollows(record, task);
            FollowsKeepsId(task, StoredAs(record, Some(task)));
        }
      }
    }
  }

  lemma {:induction false} FollowsKeepsId(before: StoredTask, after: StoredTask)
    requires TaskFollows(before, after)
    ensures after.taskId == before.taskId
  {
  }

  lemma {:induction false} MutationOnward(life: Life, mutation: ProductMutation)
    requires Grounded(life)
    ensures Grounded(Acted(life, Mutated(mutation))) && Onward(life.task, Acted(life, Mutated(mutation)).task)
  {
    hide ValidTask, TC.Reduce, TC.Follows;
    if life.task.Some? {
      FollowsItself(life.task.value);
      if MutatedTask(life.task.value, mutation).Some? {
        MutationFollows(life.task.value, mutation);
      }
    }
  }

  /** Whatever is persisted, projected or mutated, the task only moves forward. */
  lemma {:induction false} ActOnward(life: Life, act: Act)
    requires Grounded(life)
    ensures Grounded(Acted(life, act)) && Onward(life.task, Acted(life, act).task)
  {
    match act {
      case Persisted(record) =>
        if life.task.Some? {
          FollowsItself(life.task.value);
        }
      case Projected(m) => ProjectionOnward(life, m);
      case Mutated(mutation) => MutationOnward(life, mutation);
    }
  }

  /** Each life comes from the one before by some act, starting with no journal and no task. */
  predicate Lives(lives: seq<Life>, acts: seq<Act>) {
    && |lives| == |acts| + 1
    && lives[0].journal == [] && lives[0].task.None?
    && forall i :: 0 <= i < |acts| ==> lives[i + 1] == Acted(lives[i], acts[i])
  }

  lemma {:induction false} LivesGrounded(lives: seq<Life>, acts: seq<Act>, i: nat)
    requires Lives(lives, acts) && i < |lives|
    ensures Grounded(lives[i])
    decreases i
  {
    hide Grounded, Acted;
    if i == 0 {
      assert Grounded(lives[0]) by {
        NoTaskGrounded(lives[0]);
      }
    } else {
      LivesGrounded(lives, acts, i - 1);
      ActOnward(lives[i - 1], acts[i - 1]);
    }
  }

  lemma {:induction false} NoTaskGrounded(life: Life)
    requires life.task.None?
    ensures Grounded(life)
  {
  }

  /** Main result: over every interleaving of persists, projections of any version and product mutations the
      lifecycle never falls back, a terminal outcome never changes, hidden and deleted are never undone, and
      neither account nor context field is rebound. */
  lemma {:induction false} LivesOnward(lives: seq<Life>, acts: seq<Act>, i: nat, j: nat)
    requires Lives(lives, acts) && i <= j < |lives|
    ensures Onward(lives[i].task, lives[j].task)
    decreases j
  {
    hide Grounded, Acted, TaskFollows;
    if i == j {
      LivesGrounded(lives, acts, i);
      OnwardItself(lives[i]);
    } else {
      LivesOnward(lives, acts, i, j - 1);
      LivesGrounded(lives, acts, j - 1);
      ActOnward(lives[j - 1], acts[j - 1]);
      if lives[i].task.Some? {
        TaskFollowsTransitive(lives[i].task.value, lives[j - 1].task.value, lives[j].task.value);
      }
    }
  }

  lemma {:induction false} OnwardItself(life: Life)
    requires Grounded(life)
    ensures Onward(life.task, life.task)
  {
    if life.task.Some? {
      FollowsItself(life.task.value);
    }
  }

  /** Once a version has been projected, projecting it again, whatever happened since, changes nothing. */
  lemma {:induction false} ReplayChangesNothing(lives: seq<Life>, acts: seq<Act>, i: nat, j: nat, m: nat)
    requires Lives(lives, acts) && i <= j < |lives| && m < |lives[i].journal|
    requires lives[i].task.Some? && lives[i].task.value.projectedJournalVersion >= J.Version(lives[i].journal[m])
    ensures Acted(lives[j], Projected(m)) == lives[j]
  {
    hide Stored, RecordReadable;
    LivesOnward(lives, acts, i, j);
    JournalGrows(lives, acts, i, j);
  }

  lemma {:induction false} JournalGrows(lives: seq<Life>, acts: seq<Act>, i: nat, j: nat)
    requires Lives(lives, acts) && i <= j < |lives|
    ensures lives[i].journal <= lives[j].journal && lives[i].recordId == lives[j].recordId
    decreases j
  {
    hide Stored, Attempt, MutatedTask;
    if i < j {
      JournalGrows(lives, acts, i, j - 1);
      assert lives[j] == Acted(lives[j - 1], acts[j - 1]);
    }
  }

  // ---------------------------------------------------------------- when one projection is refused

  predicate OtherRequest(record: ProjectableRecord, task: StoredTask) {
    task.origin.requestHash != record.requestHash || task.origin.journalRecordId != record.recordId
  }

  /** What becomes of one version on the task of this key. It is refused exactly when it cannot be read, belongs to
      another request, or is newer and, no deletion, says otherwise than the task; it is passed over exactly when it
      can be read, belongs to the request, and its number has been reached, by whatever record. */
  lemma {:induction false} AttemptExactly(record: ProjectableRecord, task: StoredTask)
    requires Wellformed(task) && task.taskId == TaskIdOf(record.recordId) && task.version < MAX_SAFE_INTEGER
    ensures Attempt(record, Some(task)).Refuses? <==>
      || !RecordReadable(record) || OtherRequest(record, task)
      || (record.journalVersion > task.projectedJournalVersion && record.state != TC.Deleted && !Agrees(record, task))
    ensures Attempt(record, Some(task)).Skips? <==>
      && RecordReadable(record) && !OtherRequest(record, task)
      && record.journalVersion <= task.projectedJournalVersion
  {
    hide RecordReadable, Stored, Wellformed, Agrees;
    if RecordReadable(record) && Awaits(record, task) {
      StoredExactly(record, task);
    }
  }

  // ---------------------------------------------------------------- when no projection is refused

  /** Every record version passes the projector's test, and its context is one the store can hold. */
  predicate Projectable(recordId: string, record: J.RuntimeRecord) {
    && RecordReadable(SafeRecord(recordId, record))
    && (record.identity.context.Some? ==> ValidContext(record.identity.context.value))
  }

  /** Where `next` says something about operation, context or account, a task made from `first` does not say
      otherwise. */
  predicate Echoes(recordId: string, first: J.RuntimeRecord, next: J.RuntimeRecord) {
    var operation, account := NonEmpty(next.identity.clientOperationId), NonEmpty(next.fence.accountBinding);
    && (operation.Some? ==> operation.value == NonEmpty(first.identity.clientOperationId).GetOr(recordId))
    && (next.identity.context.Some? ==>
          next.identity.context.value == first.identity.context.GetOr(TC.LegacyUnscoped))
    && (account.Some? && NonEmpty(first.fence.accountBinding).Some? ==> account == NonEmpty(first.fence.accountBinding))
  }

  /** Both may stand under one key: the same request, and the one with the higher number, if no deletion, echoes the
      other. Nothing is asked of how the journal came from one to the other. */
  predicate Fits(recordId: string, first: J.RuntimeRecord, next: J.RuntimeRecord) {
    && first.identity.requestHash == next.identity.requestHash
    && (J.Version(first) < J.Version(next) && next.state != TC.Deleted ==> Echoes(recordId, first, next))
  }

  /** Everything the journal ever said under this key fits together. */
  predicate Compatible(recordId: string, journal: seq<J.RuntimeRecord>) {
    forall i, j :: 0 <= i < |journal| && 0 <= j < |journal| ==> Fits(recordId, journal[i], journal[j])
  }

  /** A record that is never withdrawn fits what it was before. */
  lemma {:induction false} EvolvingFits(recordId: string, before: J.RuntimeRecord, after: J.RuntimeRecord)
    requires J.Evolves(before, after)
    ensures Fits(recordId, before, after) && Fits(recordId, after, before)
  {
    hide J.SameRecord;
  }

  /** The journal only persists what can be projected and fits what this key has said before, and the product
      leaves the context as it is. */
  predicate Allowed(life: Life, act: Act) {
    match act
    case Persisted(record) =>
      && Projectable(life.recordId, record)
      && forall i :: 0 <= i < |life.journal| ==>
           Fits(life.recordId, life.journal[i], record) && Fits(life.recordId, record, life.journal[i])
    case Projected(_) => true
    case Mutated(mutation) => life.task.Some? ==> LeavesContext(life.task.value, mutation)
  }

  predicate LeavesContext(task: StoredTask, mutation: ProductMutation) {
    MutatedTask(task, mutation).Some? ==> MutatedTask(task, mutation).value.state.context == task.state.context
  }

  /** The task was first projected from this record. */
  predicate StartedBy(recordId: string, record: J.RuntimeRecord, task: StoredTask) {
    && task.origin == Origin(NonEmpty(record.identity.clientOperationId).GetOr(recordId), record.identity.requestHash,
      recordId)
    && task.state.context == record.identity.context.GetOr(TC.LegacyUnscoped)
    && J.Version(record) <= task.projectedJournalVersion
  }

  /** The task has its account from this record. */
  predicate BoundBy(record: J.RuntimeRecord, task: StoredTask) {
    && task.state.accountBinding == NonEmpty(record.fence.accountBinding)
    && J.Version(record) <= task.projectedJournalVersion
  }

  /** The task says what some version said, apart from what the product added. */
  predicate Derived(recordId: string, journal: seq<J.RuntimeRecord>, task: StoredTask) {
    && task.taskId == TaskIdOf(recordId)
    && (exists i :: 0 <= i < |journal| && StartedBy(recordId, journal[i], task))
    && (task.state.accountBinding.Some? ==> exists i :: 0 <= i < |journal| && BoundBy(journal[i], task))
  }

  predicate AllProjectable(recordId: string, journal: seq<J.RuntimeRecord>) {
    forall i :: 0 <= i < |journal| ==> Projectable(recordId, journal[i])
  }

  predicate Consistent(life: Life) {
    && Compatible(life.recordId, life.journal) && AllProjectable(life.recordId, life.journal)
    && (life.task.Some? ==> Wellformed(life.task.value) && Derived(life.recordId, life.journal, life.task.value))
  }

  lemma {:induction false} StartedAgrees(recordId: string, first: J.RuntimeRecord, record: J.RuntimeRecord,
      task: StoredTask)
    requires StartedBy(recordId, first, task) && Fits(recordId, first, record)
    ensures !OtherRequest(SafeRecord(recordId, record), task)
    ensures J.Version(record) > task.projectedJournalVersion && record.state != TC.Deleted ==>
      var safe := SafeRecord(recordId, record);
      && (safe.clientOperationId.Some? ==> task.origin.clientOperationId == safe.clientOperationId.value)
      && (safe.context.Some? ==> task.state.context == safe.context.value)
  {
    hide OperationName;
  }

  lemma {:induction false} BoundAgrees(recordId: string, first: J.RuntimeRecord, record: J.RuntimeRecord,
      task: StoredTask)
    requires BoundBy(first, task) && Fits(recordId, first, record)
    requires J.Version(record) > task.projectedJournalVersion && record.state != TC.Deleted
    ensures var account := SafeRecord(recordId, record).accountBinding;
      account.Some? && task.state.accountBinding.Some? ==> task.state.accountBinding == account
  {
    hide OperationName;
  }

  /** No version of a compatible journal contradicts a task derived from it. */
  lemma {:induction false} DerivedAgrees(recordId: string, journal: seq<J.RuntimeRecord>, task: StoredTask, m: nat)
    requires Compatible(recordId, journal) && Derived(recordId, journal, task) && m < |journal|
    ensures var record := SafeRecord(recordId, journal[m]);
      && !OtherRequest(record, task)
      && (record.journalVersion > task.projectedJournalVersion && record.state != TC.Deleted ==> Agrees(record, task))
  {
    hide Fits, StartedBy, BoundBy, OperationName;
    var i :| 0 <= i < |journal| && StartedBy(recordId, journal[i], task);
    StartedAgrees(recordId, journal[i], journal[m], task);
    if task.state.accountBinding.Some? && J.Version(journal[m]) > task.projectedJournalVersion
      && journal[m].state != TC.Deleted {
      var j :| 0 <= j < |journal| && BoundBy(journal[j], task);
      BoundAgrees(recordId, journal[j], journal[m], task);
    }
  }

  /** Main result: as long as everything the journal has said under this key fits together, withdrawn and submitted
      again or not, and the product has bound no further context, no projection of any version is refused. */
  lemma {:induction false} ProjectionNeverRefused(life: Life, m: nat)
    requires Consistent(life) && m < |life.journal|
    requires life.task.Some? ==> life.task.value.version < MAX_SAFE_INTEGER
    ensures !Attempt(SafeRecord(life.recordId, life.journal[m]), life.task).Refuses?
  {
    hide RecordReadable, Stored, Compatible, ValidContext, Wellformed, OperationName, Derived, OtherRequest, Agrees;
    var record := SafeRecord(life.recordId, life.journal[m]);
    assert Projectable(life.recordId, life.journal[m]);
    match life.task {
      case None => FirstStoredExactly(record);
      case Some(task) =>
        DerivedAgrees(life.recordId, life.journal, task, m);
        DerivedId(life.recordId, life.journal, task);
        AttemptExactly(record, task);
    }
  }

  lemma {:induction false} DerivedId(recordId: string, journal: seq<J.RuntimeRecord>, task: StoredTask)
    requires Derived(recordId, journal, task)
    ensures task.taskId == TaskIdOf(recordId)
  {
  }

  lemma {:induction false} FirstStarted(recordId: string, record: J.RuntimeRecord)
    requires Stored(SafeRecord(recordId, record), None)
    ensures var task := StoredAs(SafeRecord(recordId, record), None);
      && task.taskId == TaskIdOf(recordId)
      && StartedBy(recordId, record, task) && BoundBy(record, task)
  {
    hide ValidTask, TC.FromRuntimeJournal, OperationName;
  }

  lemma {:induction false} FirstDerived(recordId: string, journal: seq<J.RuntimeRecord>, m: nat)
    requires m < |journal| && Stored(SafeRecord(recordId, journal[m]), None)
    ensures Derived(recordId, journal, StoredAs(SafeRecord(recordId, journal[m]), None))
  {
    FirstStarted(recordId, journal[m]);
    hide Stored, StoredAs, StartedBy, BoundBy, OperationName;
  }

  lemma {:induction false} NextBound(recordId: string, record: J.RuntimeRecord, task: StoredTask)
    requires ValidTask(task) && Stored(SafeRecord(recordId, record), Some(task))
    requires J.Version(record) > task.projectedJournalVersion
    ensures var next := StoredAs(SafeRecord(recordId, record), Some(task));
      && next.origin == task.origin && next.state.context == task.state.context
      && next.projectedJournalVersion == J.Version(record)
      && (next.state.accountBinding == task.state.accountBinding || BoundBy(record, next))
  {
    BindingNotEmpty(task);
    hide ValidTask, TC.FromRuntimeJournal, MergeProviderState, OperationName, ProjectionOutputsAllowed,
      ProjectionResultAllowed;
  }

  lemma {:induction false} LaterStarted(recordId: string, record: J.RuntimeRecord, task: StoredTask, next: StoredTask)
    requires next.origin == task.origin && next.state.context == task.state.context
    requires task.projectedJournalVersion <= next.projectedJournalVersion
    ensures StartedBy(recordId, record, task) ==> StartedBy(recordId, record, next)
    ensures BoundBy(record, task) && next.state.accountBinding == task.state.accountBinding ==> BoundBy(record, next)
  {
  }

  /** A derived task stays derived where origin and context stay and the account is kept or comes from a version. */
  lemma {:induction false} DerivedOnward(recordId: string, journal: seq<J.RuntimeRecord>, task: StoredTask,
      next: StoredTask)
    requires Derived(recordId, journal, task)
    requires next.taskId == task.taskId && next.origin == task.origin && next.state.context == task.state.context
    requires task.projectedJournalVersion <= next.projectedJournalVersion
    requires next.state.accountBinding == task.state.accountBinding
          || exists i :: 0 <= i < |journal| && BoundBy(journal[i], next)
    ensures Derived(recordId, journal, next)
  {
    forall i | 0 <= i < |journal|
      ensures StartedBy(recordId, journal[i], task) ==> StartedBy(recordId, journal[i], next)
      ensures BoundBy(journal[i], task) && next.state.accountBinding == task.state.accountBinding ==>
          BoundBy(journal[i], next)
    {
      LaterStarted(recordId, journal[i], task, next);
    }
    hide StartedBy, BoundBy;
  }

  lemma {:induction false} FitsItself(recordId: string, record: J.RuntimeRecord)
    ensures Fits(recordId, record, record)
  {
  }

  lemma {:induction false} PersistKeeps(life: Life, record: J.RuntimeRecord)
    requires Consistent(life) && Allowed(life, Persisted(record))
    ensures Consistent(Acted(life, Persisted(record)))
  {
    FitsItself(life.recordId, record);
    hide Fits, Projectable, Wellformed, StartedBy, BoundBy;
    var journal := life.journal + [record];
    assert Compatible(life.recordId, journal);
    assert forall i :: 0 <= i < |life.journal| ==> journal[i] == life.journal[i];
  }

  lemma {:induction false} ProjectionKeeps(life: Life, m: nat)
    requires Consistent(life)
    ensures Consistent(Acted(life, Projected(m)))
  {
    hide RecordReadable, Stored, Compatible, ValidContext, Wellformed, OperationName, TaskFollows, ValidTask, Derived;
    if m < |life.journal| {
      var record := SafeRecord(life.recordId, life.journal[m]);
      assert Projectable(life.recordId, life.journal[m]);
      if Attempt(record, life.task).Stores? {
        match life.task {
          case None =>
            FirstStoredExactly(record);
            FirstDerived(life.recordId, life.journal, m);
          case Some(task) =>
            DerivedId(life.recordId, life.journal, task);
            StoredAwaits(record, task);
            ProjectionFollows(record, task);
            FollowsKeepsId(task, StoredAs(record, Some(task)));
            WellformedValid(task);
            NextBound(life.recordId, life.journal[m], task);
            DerivedOnward(life.recordId, life.journal, task, StoredAs(record, Some(task)));
        }
      }
    }
  }

  lemma {:induction false} WellformedValid(task: StoredTask)
    requires Wellformed(task)
    ensures ValidTask(task)
  {
  }

  lemma {:induction false} MutationKeeps(life: Life, mutation: ProductMutation)
    requires Consistent(life) && Allowed(life, Mutated(mutation))
    ensures Consistent(Acted(life, Mutated(mutation)))
  {
    hide Compatible, Projectable, ValidTask, TC.Reduce, TC.Follows, Derived;
    if life.task.Some? && MutatedTask(life.task.value, mutation).Some? {
      MutationFollows(life.task.value, mutation);
      DerivedOnward(life.recordId, life.journal, life.task.value, MutatedTask(life.task.value, mutation).value);
    }
  }

  lemma {:induction false} ActKeeps(life: Life, act: Act)
    requires Consistent(life) && Allowed(life, act)
    ensures Consistent(Acted(life, act))
  {
    match act {
      case Persisted(record) => PersistKeeps(life, record);
      case Projected(m) => ProjectionKeeps(life, m);
      case Mutated(mutation) => MutationKeeps(life, mutation);
    }
  }

  /** The journal persists only what can be projected and fits, and the product binds no further context. */
  predicate Undisturbed(lives: seq<Life>, acts: seq<Act>)
    requires Lives(lives, acts)
  {
    forall i :: 0 <= i < |acts| ==> Allowed(lives[i], acts[i])
  }

  lemma {:induction false} LivesConsistent(lives: seq<Life>, acts: seq<Act>, i: nat)
    requires Lives(lives, acts) && Undisturbed(lives, acts) && i < |lives|
    ensures Consistent(lives[i])
    decreases i
  {
    hide Consistent, Allowed, Acted;
    if i == 0 {
      EmptyConsistent(lives[0]);
    } else {
      LivesConsistent(lives, acts, i - 1);
      ActKeeps(lives[i - 1], acts[i - 1]);
    }
  }

  lemma {:induction false} EmptyConsistent(life: Life)
    requires life.journal == [] && life.task.None?
    ensures Consistent(life)
  {
  }

  /** Over a whole run: at no point is any version of the record refused. */
  lemma {:induction false} RunNeverRefuses(lives: seq<Life>, acts: seq<Act>, i: nat, m: nat)
    requires Lives(lives, acts) && Undisturbed(lives, acts) && i < |lives| && m < |lives[i].journal|
    requires lives[i].task.Some? ==> lives[i].task.value.version < MAX_SAFE_INTEGER
    ensures !Attempt(SafeRecord(lives[i].recordId, lives[i].journal[m]), lives[i].task).Refuses?
  {
    LivesConsistent(lives, acts, i);
    ProjectionNeverRefused(lives[i], m);
  }

  // ---------------------------------------------------------------- the condition is exact

  /** The task after projecting the named versions of a given journal one after the other. */
  function Played(recordId: string, journal: seq<J.RuntimeRecord>, schedule: seq<nat>): (life: Life)
    ensures life.recordId == recordId && life.journal == journal
  {
    if schedule == [] then Life(recordId, journal, None)
    else Acted(Played(recordId, journal, schedule[..|schedule| - 1]), Projected(schedule[|schedule| - 1]))
  }

  /** No version is refused, whichever have been projected before and in whatever order. */
  ghost predicate NeverRefused(recordId: string, journal: seq<J.RuntimeRecord>) {
    forall schedule: seq<nat>, m: nat :: m < |journal| ==>
      !Attempt(SafeRecord(recordId, journal[m]), Played(recordId, journal, schedule).task).Refuses?
  }

  lemma {:induction false} NoStoreWithoutVersion(record: ProjectableRecord, task: Option<StoredTask>)
    requires Attempt(record, task).Stores?
    requires task.Some? ==> task.value.version <= task.value.projectedJournalVersion
    ensures var next := Attempt(record, task).task; next.version <= next.projectedJournalVersion <= MAX_SAFE_INTEGER
  {
    hide ProjectionAdmitted, TC.FromRuntimeJournal, MergeProviderState, ProjectedState, ValidState;
  }

  lemma {:induction false} PlayedConsistent(recordId: string, journal: seq<J.RuntimeRecord>, schedule: seq<nat>)
    requires Compatible(recordId, journal) && AllProjectable(recordId, journal)
    ensures var life := Played(recordId, journal, schedule);
      && Consistent(life)
      && (life.task.Some? ==> life.task.value.version <= life.task.value.projectedJournalVersion)
    decreases |schedule|
  {
    hide Compatible, AllProjectable, Wellformed, Derived, Attempt;
    if schedule != [] {
      var last := |schedule| - 1;
      PlayedConsistent(recordId, journal, schedule[..last]);
      var before, m := Played(recordId, journal, schedule[..last]), schedule[last];
      ProjectionKeeps(before, m);
      if m < |journal| && Attempt(SafeRecord(recordId, journal[m]), before.task).Stores? {
        NoStoreWithoutVersion(SafeRecord(recordId, journal[m]), before.task);
      }
    }
  }

  lemma {:induction false} RefusalNeedsRoom(record: ProjectableRecord, task: StoredTask)
    requires task.version <= task.projectedJournalVersion && record.journalVersion > task.projectedJournalVersion
    requires RecordReadable(record)
    ensures task.version < MAX_SAFE_INTEGER
  {
  }

  lemma {:induction false} CompatibleNeverRefused(recordId: string, journal: seq<J.RuntimeRecord>, schedule: seq<nat>,
      m: nat)
    requires Compatible(recordId, journal) && AllProjectable(recordId, journal) && m < |journal|
    ensures !Attempt(SafeRecord(recordId, journal[m]), Played(recordId, journal, schedule).task).Refuses?
  {
    hide Compatible, Wellformed, Derived, RecordReadable, Stored, OtherRequest, Agrees, OperationName, ValidContext;
    PlayedConsistent(recordId, journal, schedule);
    var life, record := Played(recordId, journal, schedule), SafeRecord(recordId, journal[m]);
    assert Projectable(recordId, journal[m]);
    if life.task.Some? {
      DerivedAgrees(recordId, journal, life.task.value, m);
      if record.journalVersion <= life.task.value.projectedJournalVersion {
        NotNewerNotRefused(record, life.task.value);
      } else {
        RefusalNeedsRoom(record, life.task.value);
        ProjectionNeverRefused(life, m);
      }
    } else {
      ProjectionNeverRefused(life, m);
    }
  }

  lemma {:induction false} NotNewerNotRefused(record: ProjectableRecord, task: StoredTask)
    requires RecordReadable(record) && !OtherRequest(record, task)
    requires record.journalVersion <= task.projectedJournalVersion
    ensures Attempt(record, Some(task)).Skips?
  {
    hide RecordReadable, Stored;
  }

  /** Where only one version has been projected, another is refused exactly when the two do not fit. */
  lemma {:induction false} SecondRefusedExactly(recordId: string, journal: seq<J.RuntimeRecord>, i: nat, j: nat)
    requires AllProjectable(recordId, journal) && i < |journal| && j < |journal|
    ensures Attempt(SafeRecord(recordId, journal[j]), Played(recordId, journal, [i]).task).Refuses?
       <==> !Fits(recordId, journal[i], journal[j])
  {
    hide RecordReadable, Stored, StoredAs, ValidContext, Wellformed, OperationName, OtherRequest, Agrees, Fits;
    var first, next := SafeRecord(recordId, journal[i]), SafeRecord(recordId, journal[j]);
    assert Projectable(recordId, journal[i]) && Projectable(recordId, journal[j]);
    FirstStoredExactly(first);
    var task := StoredAs(first, None);
    PlayedOnce(recordId, journal, i);
    FirstStarted(recordId, journal[i]);
    FirstVersion(first);
    FitsExactly(recordId, journal[i], journal[j], task);
    hide StartedBy, BoundBy;
    AttemptExactly(next, task);
  }

  lemma {:induction false} PlayedOnce(recordId: string, journal: seq<J.RuntimeRecord>, i: nat)
    requires i < |journal| && Projectable(recordId, journal[i])
    ensures var first := SafeRecord(recordId, journal[i]);
      Stored(first, None) && Played(recordId, journal, [i]).task == Some(StoredAs(first, None))
  {
    hide RecordReadable, Stored, StoredAs, ValidContext, OperationName;
    FirstStoredExactly(SafeRecord(recordId, journal[i]));
    assert [i][..0] == [];
    assert Played(recordId, journal, []).task == None;
  }

  lemma {:induction false} FirstVersion(record: ProjectableRecord)
    requires Stored(record, None)
    ensures var task := StoredAs(record, None);
      task.version == 1 && task.projectedJournalVersion == record.journalVersion
  {
    hide ValidTask, TC.FromRuntimeJournal, ProjectedState;
  }

  lemma {:induction false} FitsExactly(recordId: string, first: J.RuntimeRecord, record: J.RuntimeRecord,
      task: StoredTask)
    requires StartedBy(recordId, first, task) && BoundBy(first, task)
    requires task.projectedJournalVersion == J.Version(first)
    ensures var next := SafeRecord(recordId, record);
      Fits(recordId, first, record) <==>
        && !OtherRequest(next, task)
        && (next.journalVersion > task.projectedJournalVersion && next.state != TC.Deleted ==> Agrees(next, task))
  {
    hide OperationName;
  }

  /** Main result on a whole journal: no order of projections ever runs into a refusal exactly when everything the
      journal has said under this key fits together. */
  lemma {:induction false} NeverRefusedExactly(recordId: string, journal: seq<J.RuntimeRecord>)
    requires AllProjectable(recordId, journal)
    ensures NeverRefused(recordId, journal) <==> Compatible(recordId, journal)
  {
    hide AllProjectable, Fits, Attempt, SafeRecord, Played;
    if Compatible(recordId, journal) {
      forall schedule: seq<nat>, m: nat | m < |journal|
        ensures !Attempt(SafeRecord(recordId, journal[m]), Played(recordId, journal, schedule).task).Refuses?
      {
        CompatibleNeverRefused(recordId, journal, schedule, m);
      }
    } else {
      var i, j :| 0 <= i < |journal| && 0 <= j < |journal| && !Fits(recordId, journal[i], journal[j]);
      SecondRefusedExactly(recordId, journal, i, j);
      assert !NeverRefused(recordId, journal);
    }
  }

  // ---------------------------------------------------------------- the product's part of the condition

  /** The mutation names a context field that is not bound yet, and contradicts none that is. */
  predicate BindsFurther(task: StoredTask, mutation: ProductMutation) {
    && mutation.ProductEvent? && mutation.event.BindContext? && task.state.context.Scoped?
    && TC.Agree(task.state.context.fields, mutation.event.fields, TC.FIELD_ORDER)
    && exists f :: f in mutation.event.fields && f !in task.state.context.fields
  }

  lemma {:induction false} EveryField(f: TC.ContextField)
    ensures f in TC.FIELD_ORDER
  {
    assert TC.FIELD_ORDER[0] == TC.ProjectId && TC.FIELD_ORDER[1] == TC.NodeId && TC.FIELD_ORDER[2] == TC.ConversationId
        && TC.FIELD_ORDER[3] == TC.MessageId && TC.FIELD_ORDER[4] == TC.BatchIndex && TC.FIELD_ORDER[5] == TC.BatchCount
        && TC.FIELD_ORDER[6] == TC.RetryOf && TC.FIELD_ORDER[7] == TC.AttemptGroupId;
  }

  /** A stored mutation changes the context exactly when it binds a further field. */
  lemma {:induction false} ContextChangesExactly(task: StoredTask, mutation: ProductMutation)
    requires MutatedTask(task, mutation).Some?
    ensures LeavesContext(task, mutation) <==> !BindsFurther(task, mutation)
  {
    hide ValidTask;
    if mutation.ProductEvent? && mutation.event.BindContext? && task.state.context.Scoped? {
      var bound, incoming := task.state.context.fields, mutation.event.fields;
      TC.MergeFieldsExact(bound, incoming, TC.FIELD_ORDER);
      forall f ensures f in TC.FIELD_ORDER {
        EveryField(f);
      }
      hide TC.MergeFields;
      if TC.Agree(bound, incoming, TC.FIELD_ORDER) {
        var merged := TC.MergeFields(bound, incoming, TC.FIELD_ORDER).value;
        assert merged == bound <==> forall f :: f in incoming ==> f in bound;
      }
    }
  }

  /** The condition is needed: after a stored mutation the next version of a record that names its context is
      refused exactly when the mutation bound a further context field and the record is no deletion. */
  lemma {:induction false} BoundContextRefusesExactly(record: ProjectableRecord, task: StoredTask,
      mutation: ProductMutation)
    requires RecordReadable(record) && Wellformed(task) && Awaits(record, task)
    requires Agrees(record, task) && record.context.Some? && MutatedTask(task, mutation).Some?
    requires task.version < MAX_SAFE_INTEGER - 1
    ensures Attempt(record, MutatedTask(task, mutation)).Refuses?
       <==> record.state != TC.Deleted && BindsFurther(task, mutation)
  {
    ContextChangesExactly(task, mutation);
    hide RecordReadable, Stored, ValidTask, TC.Reduce, TC.Follows, BindsFurther;
    MutationFollows(task, mutation);
    StoredExactly(record, MutatedTask(task, mutation).value);
  }
}
