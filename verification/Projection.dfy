/** Projecting journal versions into the product store (canvas-agent/src/dreamina-task-projection.ts). */
module Projection {
  import opened Wrappers
  import opened ProductTask
  import J = Journal
  import TC = TaskContract

  /** What the projector reads of a journal record. */
  datatype ProjectableRecord = ProjectableRecord(
    recordId: string,
    journalVersion: int,
    requestHash: string,
    clientOperationId: Option<string>,
    context: Option<TC.Context>,
    state: TC.JournalState,
    hasProviderTask: bool,
    operation: Option<string>,
    mode: Option<TC.MediaType>,
    model: Option<string>,
    createdAt: Option<Time>,
    updatedAt: Time,
    errorCode: Option<string>,
    officialStatus: Option<TC.ProviderStatus>,
    accountBinding: Option<string>,
    fenceEpoch: Option<int>,
    providerOutputs: Option<seq<J.ProviderOutput>>,
    hidden: bool)

  datatype ProjectionError = RecordInvalid | IdentityChanged | BindingChanged

  // ---------------------------------------------------------------- what a record must look like

  const ARTIFACT_PREFIX: string := "dreamina-provider-artifact:"

  predicate HexOrDash(text: string) {
    forall i :: 0 <= i < |text| ==> '0' <= text[i] <= '9' || 'a' <= text[i] <= 'f' || text[i] == '-'
  }

  /** A prefix, a UUID, a colon and a digit from 0 to 3. */
  predicate ArtifactRef(ref: string) {
    && |ref| == |ARTIFACT_PREFIX| + 38
    && ref[..|ARTIFACT_PREFIX|] == ARTIFACT_PREFIX
    && HexOrDash(ref[|ARTIFACT_PREFIX|..|ARTIFACT_PREFIX| + 36])
    && ref[|ARTIFACT_PREFIX| + 36] == ':' && '0' <= ref[|ARTIFACT_PREFIX| + 37] <= '3'
  }

  predicate ControlFree(text: string) {
    forall c :: c in text ==> c > '\U{1f}' && c != '\U{7f}'
  }

  /** The projector's own context test, wider than the store's. */
  predicate ContextReadable(context: TC.Context) {
    context.Scoped? ==> forall f :: f in context.fields ==>
      var value := context.fields[f];
      match f
      case BatchIndex => value.Number? && 0 <= value.number <= MAX_SAFE_INTEGER
      case BatchCount => value.Number? && 1 <= value.number <= MAX_SAFE_INTEGER
      case _ => value.Text? && 1 <= |value.text| <= 200 && ControlFree(value.text)
  }

  predicate OutputsReadable(record: ProjectableRecord, outputs: seq<J.ProviderOutput>) {
    && record.state == TC.JournalState.Succeeded
    && record.officialStatus == Some(TC.Completed)
    && 1 <= |outputs| <= 4
    && forall i :: 0 <= i < |outputs| ==>
         outputs[i].outputIndex == i && Some(outputs[i].mediaType) == record.mode && ArtifactRef(outputs[i].artifactRef)
  }

  predicate PlainName(name: Option<string>) {
    name.Some? ==> SafeId(name.value, 1, 120) && name.value[0] !in "._:-"
  }

  /** validateJournalRecord does not throw. */
  predicate RecordReadable(record: ProjectableRecord) {
    && SafeId(record.recordId, 8, 160)
    && 1 <= record.journalVersion <= MAX_SAFE_INTEGER
    && SafeHash(record.requestHash)
    && ValidText(record.clientOperationId, 16, 120)
    && (record.context.Some? ==> ContextReadable(record.context.value))
    && record.mode in {None, Some(TC.Image), Some(TC.Video)}
    && PlainName(record.operation) && PlainName(record.model)
    && (record.errorCode.Some? ==> SafeCode(record.errorCode.value))
    && (record.accountBinding.Some? ==> SafeHash(record.accountBinding.value))
    && (record.fenceEpoch.Some? ==> 1 <= record.fenceEpoch.value <= MAX_SAFE_INTEGER)
    && (record.providerOutputs.Some? ==> OutputsReadable(record, record.providerOutputs.value))
  }

  // ---------------------------------------------------------------- building the task

  function Or<T>(first: Option<T>, second: Option<T>): Option<T> {
    if first.Some? then first else second
  }

  function Later(current: Option<Time>, incoming: Time): Time {
    if current.Some? && current.value > incoming then current.value else incoming
  }

  function MergeProviderState(current: Option<StoredTask>, incoming: TC.TaskState): TC.TaskState {
    if current.None? then incoming
    else
      var was := current.value.state;
      var sync := if was.syncState == TC.SyncConflict then TC.SyncConflict else incoming.syncState;
      var (lifecycle, outcome, syncState) :=
        if was.lifecycle == TC.Terminal then
          (TC.Lifecycle.Terminal, was.terminalOutcome,
           if incoming.lifecycle == TC.Terminal && incoming.terminalOutcome != was.terminalOutcome then TC.SyncConflict
             else sync)
        else if TC.Rank(incoming.lifecycle) < TC.Rank(was.lifecycle) then (was.lifecycle, was.terminalOutcome, sync)
        else (incoming.lifecycle, incoming.terminalOutcome, sync);
      incoming.(
        lifecycle := lifecycle, terminalOutcome := outcome, syncState := syncState,
        lastSyncErrorCode :=
          if syncState == TC.SyncConflict && Truthy(was.lastSyncErrorCode) && !Truthy(incoming.lastSyncErrorCode)
          then was.lastSyncErrorCode else incoming.lastSyncErrorCode)
  }

  function AsTaskOutput(output: J.ProviderOutput): TC.TaskOutput {
    TC.TaskOutput(output.outputIndex, output.mediaType, Some(output.artifactRef), None, None)
  }

  function AsTaskOutputs(outputs: Option<seq<J.ProviderOutput>>): seq<TC.TaskOutput> {
    if outputs.None? then []
      else seq(|outputs.value|, i requires 0 <= i < |outputs.value| => AsTaskOutput(outputs.value[i]))
  }

  /** Provider outputs are taken over as long as the product holds none. */
  predicate TakesOutputs(current: Option<StoredTask>, projected: seq<TC.TaskOutput>) {
    && projected != []
    && (current.Some? ==>
          && current.value.state.outputs == []
          && current.value.state.resultState in {TC.NotAvailable, TC.PendingMaterialization})
  }

  function ProviderState(record: ProjectableRecord): TC.TaskState {
    TC.FromRuntimeJournal(TC.JournalSnapshot(record.state, record.hasProviderTask, record.errorCode,
      record.officialStatus))
  }

  function ProjectedVisibility(record: ProjectableRecord, current: Option<StoredTask>): Visibility {
    if current.Some? && current.value.visibility == Some(Visibility.Deleted) then Visibility.Deleted
    else if (current.Some? && current.value.visibility == Some(Hidden)) || record.hidden then Hidden
    else Visible
  }

  function ProjectedState(record: ProjectableRecord, current: Option<StoredTask>): TC.TaskState {
    var state := MergeProviderState(current, ProviderState(record));
    var projected := AsTaskOutputs(record.providerOutputs);
    var takes := TakesOutputs(current, projected);
    var preserves := current.Some? && current.value.state.resultState != TC.NotAvailable && !takes;
    TC.TaskState(
      state.lifecycle,
      state.terminalOutcome,
      state.syncState,
      if preserves then current.value.state.resultState else if takes then TC.PendingMaterialization
        else state.resultState,
      if preserves then current.value.state.outputs else if takes then projected else state.outputs,
      if current.Some? && Truthy(current.value.state.accountBinding) then current.value.state.accountBinding
        else record.accountBinding,
      if record.context.Some? then record.context.value else if current.Some? then current.value.state.context
        else TC.LegacyUnscoped,
      None,
      if Truthy(state.lastSyncErrorCode) then state.lastSyncErrorCode
      else if state.syncState == TC.SyncConflict && current.Some? then current.value.state.lastSyncErrorCode else None)
  }

  function TaskIdOf(recordId: string): string {
    TASK_PREFIX + recordId
  }

  /** The version number is the store's to give. */
  function ProjectRecord(record: ProjectableRecord, current: Option<StoredTask>): Result<StoredTask, ProjectionError> {
    if current.Some? && (current.value.origin.requestHash != record.requestHash
                         || current.value.origin.journalRecordId != record.recordId) then Err(IdentityChanged)
    else if current.Some? && Truthy(current.value.state.accountBinding) && Truthy(record.accountBinding)
            && current.value.state.accountBinding != record.accountBinding then Err(BindingChanged)
    else
      var was := if current.Some? then current.value.details else Details(None, None, None, None, None);
      Ok(StoredTask(
        TaskIdOf(record.recordId),
        Some(ProjectedVisibility(record, current)),
        Origin(if record.clientOperationId.Some? then record.clientOperationId.value
               else if current.Some? then current.value.origin.clientOperationId else record.recordId,
               record.requestHash, record.recordId),
        ProjectedState(record, current),
        Details(Or(record.officialStatus, was.officialStatus), Or(record.mode, was.mode),
          Or(record.operation, was.operation),
                Or(record.model, was.model), Or(record.createdAt, was.createdAt)),
        0,
        record.journalVersion,
        Later(if current.Some? then Some(current.value.updatedAt) else None, record.updatedAt)))
  }

  function DeletedProviderState(record: ProjectableRecord): TC.JournalState {
    match record.officialStatus
    case Some(Completed) => TC.JournalState.Succeeded
    case Some(Failed) => TC.JournalState.Failed
    case Some(Cancelled) => TC.JournalState.Cancelled
    case _ => if record.hasProviderTask then TC.JournalState.Accepted else TC.Queued
  }

  function ProjectDeletedRecord(record: ProjectableRecord, current: Option<StoredTask>): Result<StoredTask,
      ProjectionError> {
    match current
    case Some(task) =>
      Ok(task.(visibility := Some(Visibility.Deleted), projectedJournalVersion := record.journalVersion,
               updatedAt := Later(Some(task.updatedAt), record.updatedAt)))
    case None =>
      match ProjectRecord(record.(state := DeletedProviderState(record)), None)
      case Err(e) => Err(e)
      case Ok(task) => Ok(task.(visibility := Some(Visibility.Deleted),
          projectedJournalVersion := record.journalVersion))
  }

  function Project(record: ProjectableRecord, current: Option<StoredTask>): Result<StoredTask, ProjectionError> {
    if record.state == TC.Deleted then ProjectDeletedRecord(record, current) else ProjectRecord(record, current)
  }

  // ---------------------------------------------------------------- what the store admits

  function NextVersion(current: Option<StoredTask>): int {
    (if current.Some? then current.value.version else 0) + 1
  }

  /** The store takes the projection: it is built, valid and an admitted successor. */
  predicate Stored(record: ProjectableRecord, current: Option<StoredTask>) {
    && Project(record, current).Ok?
    && var next := Project(record, current).value.(version := NextVersion(current));
       ValidTask(next) && ProjectionAdmitted(current, next)
  }

  function StoredAs(record: ProjectableRecord, current: Option<StoredTask>): StoredTask
    requires Stored(record, current)
  {
    Project(record, current).value.(version := NextVersion(current))
  }

  /** The task projects this record, and not yet this version. */
  predicate Awaits(record: ProjectableRecord, task: StoredTask) {
    && task.taskId == TaskIdOf(record.recordId)
    && task.origin.requestHash == record.requestHash && task.origin.journalRecordId == record.recordId
    && task.projectedJournalVersion < record.journalVersion
    && task.version < MAX_SAFE_INTEGER
  }

  /** Where the record says something, the task does not say otherwise. */
  predicate Agrees(record: ProjectableRecord, task: StoredTask) {
    && (record.clientOperationId.Some? ==> task.origin.clientOperationId == record.clientOperationId.value)
    && (record.context.Some? ==> task.state.context == record.context.value)
    && (record.accountBinding.Some? && task.state.accountBinding.Some? ==>
      task.state.accountBinding == record.accountBinding)
  }

  lemma {:induction false} ArtifactSafe(ref: string)
    requires ArtifactRef(ref)
    ensures SafeId(ref, 1, 256)
  {
    var n := |ARTIFACT_PREFIX|;
    var middle := ref[n..n + 36];
    assert ref == ARTIFACT_PREFIX + middle + [ref[n + 36], ref[n + 37]];
    forall c | c in ref ensures 'A' <= c <= 'Z' || 'a' <= c <= 'z' || '0' <= c <= '9' || c in "._:-" {
      PrefixCharacters();
      assert c in ARTIFACT_PREFIX || c in middle || c in [ref[n + 36], ref[n + 37]];
    }
  }

  lemma {:induction false} PrefixCharacters()
    ensures forall c :: c in ARTIFACT_PREFIX ==> 'a' <= c <= 'z' || c == '-' || c == ':'
  {
  }

  lemma {:induction false} OutputsSafe(record: ProjectableRecord)
    requires RecordReadable(record)
    ensures ValidOutputs(AsTaskOutputs(record.providerOutputs))
    ensures forall output :: output in AsTaskOutputs(record.providerOutputs) ==> FreshFromProvider(output)
  {
    if record.providerOutputs.Some? {
      forall i | 0 <= i < |record.providerOutputs.value|
        ensures SafeId(record.providerOutputs.value[i].artifactRef, 1, 256)
      {
        ArtifactSafe(record.providerOutputs.value[i].artifactRef);
      }
      hide SafeId, ArtifactRef;
    }
  }

  lemma {:induction false} HashSafe(hash: string)
    requires SafeHash(hash)
    ensures SafeId(hash, 8, 160)
  {
  }

  lemma {:induction false} MergedCoherent(current: Option<StoredTask>, record: ProjectableRecord)
    requires current.Some? ==> Wellformed(current.value)
    ensures var state := MergeProviderState(current, ProviderState(record));
      && TC.Coherent(state) && state.outputs == []
      && state.resultState in {TC.NotAvailable, TC.PendingMaterialization}
      && (state.lastSyncErrorCode.Some? ==>
            state.lastSyncErrorCode == record.errorCode ||
            (current.Some? && state.lastSyncErrorCode == current.value.state.lastSyncErrorCode))
      && (current.Some? ==>
            && TC.Rank(current.value.state.lifecycle) <= TC.Rank(state.lifecycle)
            && (current.value.state.lifecycle == TC.Terminal ==>
              state.terminalOutcome == current.value.state.terminalOutcome))
  {
    hide TC.IsLocalSyncError, TC.IsAmbiguousOfficialFailure, SafeCode, SafeId, ValidContext, ValidOutputs;
  }

  lemma {:induction false} StateValid(record: ProjectableRecord, current: Option<StoredTask>)
    requires RecordReadable(record) && (current.Some? ==> Wellformed(current.value))
    ensures var state := ProjectedState(record, current);
      && (ValidState(state) <==> ValidContext(state.context))
      && (state.resultState == TC.NotAvailable ==> state.outputs == [])
  {
    hide TC.FromRuntimeJournal, MergeProviderState, ContextReadable, ArtifactRef, SafeHash, SafeCode, SafeId,
      ValidContext, OutputsReadable;
    MergedCoherent(current, record);
    OutputsSafe(record);
    if record.accountBinding.Some? {
      HashSafe(record.accountBinding.value);
    }
  }

  lemma {:induction false} PrefixedIdSafe(recordId: string)
    requires SafeId(recordId, 8, 160)
    ensures SafeTaskId(TaskIdOf(recordId))
  {
    assert TaskIdOf(recordId)[..|TASK_PREFIX|] == TASK_PREFIX && TaskIdOf(recordId)[|TASK_PREFIX|..] == recordId;
  }

  lemma {:induction false} NamesSafe(record: ProjectableRecord)
    requires RecordReadable(record)
    ensures SafeTaskId(TaskIdOf(record.recordId)) && SafeOperationId(record.recordId)
    ensures record.clientOperationId.Some? ==> SafeOperationId(record.clientOperationId.value)
    ensures ValidText(record.operation, 1, 120) && ValidText(record.model, 1, 120)
  {
    PrefixedIdSafe(record.recordId);
  }

  lemma {:induction false} TaskValid(record: ProjectableRecord, current: Option<StoredTask>)
    requires RecordReadable(record) && (current.Some? ==> Wellformed(current.value) && Awaits(record, current.value))
    requires ProjectRecord(record, current).Ok?
    ensures var next := ProjectRecord(record, current).value.(version := NextVersion(current));
      && (ValidTask(next) <==> ValidContext(next.state.context))
      && (ValidTask(next) ==> Wellformed(next))
  {
    hide ProjectedState, ProjectedVisibility, ValidState, SafeId, SafeTaskId, SafeOperationId, SafeHash, SafeCode,
      ContextReadable;
    StateValid(record, current);
    NamesSafe(record);
  }

  /** Main result on one projection: the store takes it exactly when the record contradicts neither the task's
      operation id nor its context nor its account. A context bound by the product after the fact is such a
      contradiction; a deletion never is. */
  lemma {:induction false} StoredExactly(record: ProjectableRecord, task: StoredTask)
    requires RecordReadable(record) && Wellformed(task) && Awaits(record, task)
    ensures Stored(record, Some(task)) <==> record.state == TC.Deleted || Agrees(record, task)
  {
    var current := Some(task);
    if record.state == TC.Deleted {
      DeletionStored(record, task);
    } else if ProjectRecord(record, current).Ok? {
      TaskValid(record, current);
      AdmittedExactly(record, task);
    } else {
      assert record.accountBinding.Some? && task.state.accountBinding.Some?;
    }
  }

  lemma {:induction false} DeletionStored(record: ProjectableRecord, task: StoredTask)
    requires RecordReadable(record) && Wellformed(task) && Awaits(record, task) && record.state == TC.Deleted
    ensures Stored(record, Some(task)) && Wellformed(StoredAs(record, Some(task)))
  {
    hide ContextReadable, OutputsReadable, SafeId, SafeTaskId, SafeHash, SafeCode, ValidState;
  }

  lemma {:induction false} AdmittedExactly(record: ProjectableRecord, task: StoredTask)
    requires RecordReadable(record) && Wellformed(task) && Awaits(record, task)
    requires ProjectRecord(record, Some(task)).Ok?
    ensures var next := ProjectRecord(record, Some(task)).value.(version := NextVersion(Some(task)));
      (ValidTask(next) && ProjectionAdmitted(Some(task), next)) <==> Agrees(record, task)
  {
    var current := Some(task);
    var next := ProjectRecord(record, current).value.(version := NextVersion(current));
    TaskValid(record, current);
    BindingNotEmpty(task);
    OutputsSafe(record);
    MergedCoherent(current, record);
    assert ValidContext(task.state.context);
    hide TC.FromRuntimeJournal, MergeProviderState, ContextReadable, SafeHash, SafeCode, SafeId, ValidContext,
      OutputsReadable, ValidTask, ValidOutputs;
    if record.accountBinding.Some? && task.state.accountBinding.Some?
      && task.state.accountBinding != record.accountBinding {
      RecordBindingNotEmpty(record);
    }
  }

  lemma {:induction false} BindingNotEmpty(task: StoredTask)
    requires ValidTask(task)
    ensures task.state.accountBinding.Some? ==> Truthy(task.state.accountBinding)
  {
  }

  lemma {:induction false} RecordBindingNotEmpty(record: ProjectableRecord)
    requires RecordReadable(record)
    ensures record.accountBinding.Some? ==> Truthy(record.accountBinding)
  {
  }

  /** The first projection of a record is stored exactly when the store can spell its context. */
  lemma {:induction false} FirstStoredExactly(record: ProjectableRecord)
    requires RecordReadable(record)
    ensures Stored(record, None) <==> (record.context.Some? ==> ValidContext(record.context.value))
    ensures Stored(record, None) ==> Wellformed(StoredAs(record, None))
  {
    assert ValidContext(TC.LegacyUnscoped);
    hide ContextReadable, SafeHash, SafeCode, SafeId, ValidContext, ProjectedVisibility, SafeTaskId, ValidTask;
    var read := if record.state == TC.Deleted then record.(state := DeletedProviderState(record)) else record;
    assert RecordReadable(read);
    TaskValid(read, None);
    WellformedVisibility(ProjectRecord(read, None).value.(version := 1), Some(Visibility.Deleted));
    assert record.state == TC.Deleted ==>
        Project(record, None).value.(version := 1)
          == ProjectRecord(read, None).value.(version := 1, visibility := Some(Visibility.Deleted));
  }

  lemma {:induction false} WellformedVisibility(task: StoredTask, visibility: Option<Visibility>)
    ensures ValidTask(task.(visibility := visibility)) == ValidTask(task)
    ensures Wellformed(task.(visibility := visibility)) == Wellformed(task)
  {
  }

  /** A stored projection only moves the task forward. */
  lemma {:induction false} ProjectionFollows(record: ProjectableRecord, task: StoredTask)
    requires RecordReadable(record) && Wellformed(task) && Awaits(record, task) && Stored(record, Some(task))
    ensures var next := StoredAs(record, Some(task));
      Wellformed(next) && TaskFollows(task, next) && next.projectedJournalVersion == record.journalVersion
  {
    if record.state == TC.Deleted {
      DeletionStored(record, task);
      hide ContextReadable, OutputsReadable, SafeId, SafeTaskId, SafeHash, SafeCode, ValidOutputs, ValidContext;
    } else {
      TaskValid(record, Some(task));
      MergedCoherent(Some(task), record);
      BindingNotEmpty(task);
      hide TC.FromRuntimeJournal, MergeProviderState, ContextReadable, SafeHash, SafeCode, SafeId, ValidContext,
        OutputsReadable, ValidOutputs;
    }
  }

  predicate Contradicts(provider: TC.TaskState, known: TC.TaskState) {
    known.lifecycle == TC.Terminal && provider.lifecycle == TC.Terminal
      && provider.terminalOutcome != known.terminalOutcome
  }

  /** What a stored projection takes from the record: outputs once and only while the product holds none, the
      hidden mark always, a contradicting outcome as a conflict, and a recorded conflict never goes away. */
  lemma {:induction false} ProjectionTakes(record: ProjectableRecord, task: StoredTask)
    requires RecordReadable(record) && Wellformed(task) && Awaits(record, task) && Stored(record, Some(task))
    requires record.state != TC.Deleted
    ensures var next := StoredAs(record, Some(task));
      && (if record.providerOutputs.Some? && task.state.outputs == []
        && task.state.resultState in {TC.NotAvailable, TC.PendingMaterialization}
          then next.state.outputs == AsTaskOutputs(record.providerOutputs)
            && next.state.resultState == TC.PendingMaterialization
          else next.state.outputs == task.state.outputs)
      && (record.hidden ==> next.visibility in {Some(Hidden), Some(Visibility.Deleted)})
      && (task.state.syncState == TC.SyncConflict ==> next.state.syncState == TC.SyncConflict)
      && (Contradicts(ProviderState(record), task.state) ==> next.state.syncState == TC.SyncConflict)
      && next.updatedAt >= record.updatedAt
  {
    MergedCoherent(Some(task), record);
    OutputsSafe(record);
    hide TC.FromRuntimeJournal, ContextReadable, SafeHash, SafeCode, SafeId, ValidContext, ValidOutputs, ValidTask,
      ArtifactRef;
  }
}
