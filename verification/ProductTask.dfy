/** The product task kept by canvas-agent/src/dreamina-task-store.ts: its validity, what a journal
    projection may change about it, and the product's own mutations. */
module ProductTask {
  import opened Wrappers
  import TC = TaskContract

  /** Milliseconds; the source stores ISO strings and compares them through Date.parse. */
  type Time = int

  datatype Visibility = Visible | Hidden | Deleted

  /** What ties a task to the journal record it projects. */
  datatype Origin = Origin(clientOperationId: string, requestHash: string, journalRecordId: string)

  datatype Details = Details(
    officialStatus: Option<TC.ProviderStatus>,
    mode: Option<TC.MediaType>,
    operation: Option<string>,
    model: Option<string>,
    createdAt: Option<Time>)

  /** `state` gathers the fields the task reducer works on; a stored task has no provider observation. */
  datatype StoredTask = StoredTask(
    taskId: string,
    visibility: Option<Visibility>,
    origin: Origin,
    state: TC.TaskState,
    details: Details,
    version: int,
    projectedJournalVersion: int,
    updatedAt: Time)

  datatype TaskError = StateInvalid

  // ---------------------------------------------------------------- validity

  predicate ValidText(field: Option<string>, low: nat, high: nat) {
    field.Some? ==> SafeId(field.value, low, high)
  }

  predicate ValidContextField(field: TC.ContextField, value: TC.ContextValue) {
    match field
    case BatchIndex => value.Number? && 0 <= value.number <= MAX_SAFE_INTEGER
    case BatchCount => value.Number? && 1 <= value.number <= MAX_SAFE_INTEGER
    case _ => value.Text? && SafeId(value.text, 1, 200)
  }

  predicate ValidContext(context: TC.Context) {
    context.Scoped? ==> forall f :: f in context.fields ==> ValidContextField(f, context.fields[f])
  }

  predicate ValidOutput(output: TC.TaskOutput) {
    && 0 <= output.outputIndex <= MAX_SAFE_INTEGER
    && ValidText(output.providerArtifactRef, 1, 256)
    && ValidText(output.materializedAssetId, 1, 256)
    && (output.materializationErrorCode.Some? ==> SafeCode(output.materializationErrorCode.value))
  }

  predicate ValidOutputs(outputs: seq<TC.TaskOutput>) {
    && |outputs| <= 32
    && (forall i :: 0 <= i < |outputs| ==> ValidOutput(outputs[i]))
    && (forall i, j :: 0 <= i < j < |outputs| ==> outputs[i].outputIndex != outputs[j].outputIndex)
  }

  predicate ValidState(state: TC.TaskState) {
    && TC.Coherent(state)
    && ValidContext(state.context)
    && ValidOutputs(state.outputs)
    && ValidText(state.accountBinding, 8, 160)
    && (state.lastSyncErrorCode.Some? ==> SafeCode(state.lastSyncErrorCode.value))
    && state.providerObservation.None?
  }

  const TASK_PREFIX: string := "dreamina:"

  predicate SafeTaskId(id: string) {
    |id| >= |TASK_PREFIX| && id[..|TASK_PREFIX|] == TASK_PREFIX && SafeId(id[|TASK_PREFIX|..], 8, 160)
  }

  predicate SafeOperationId(id: string) {
    SafeId(id, 8, 160)
  }

  /** 64 hexadecimal digits. */
  predicate SafeHash(hash: string) {
    |hash| == 64 && forall c :: c in hash ==> '0' <= c <= '9' || 'a' <= c <= 'f'
  }

  predicate ValidTask(task: StoredTask) {
    && SafeTaskId(task.taskId)
    && SafeOperationId(task.origin.clientOperationId)
    && SafeHash(task.origin.requestHash)
    && SafeOperationId(task.origin.journalRecordId)
    && ValidState(task.state)
    && 1 <= task.version <= MAX_SAFE_INTEGER
    && 1 <= task.projectedJournalVersion <= MAX_SAFE_INTEGER
    && task.details.mode in {None, Some(TC.Image), Some(TC.Video)}
    && ValidText(task.details.operation, 1, 120)
    && ValidText(task.details.model, 1, 120)
  }

  // ---------------------------------------------------------------- projections

  predicate VisibilityResurrected(previous: Option<Visibility>, next: Option<Visibility>) {
    if previous == Some(Deleted) then next != Some(Deleted)
    else previous == Some(Hidden) && (next.None? || next == Some(Visible))
  }

  predicate FreshFromProvider(output: TC.TaskOutput) {
    && Truthy(output.providerArtifactRef)
    && output.materializedAssetId.None?
    && output.materializationErrorCode.None?
  }

  predicate ProjectionOutputsAllowed(current: TC.TaskState, next: TC.TaskState) {
    || next.outputs == current.outputs
    || (&& current.outputs == []
        && current.resultState in {TC.NotAvailable, TC.PendingMaterialization}
        && next.resultState == TC.PendingMaterialization
        && next.outputs != []
        && forall output :: output in next.outputs ==> FreshFromProvider(output))
  }

  predicate ProjectionResultAllowed(current: TC.ResultState, next: TC.ResultState) {
    || current == TC.NotAvailable
    || next == current
  }

  /** assertProjectionMutation: a task projected for the first time is unconstrained. */
  predicate ProjectionAdmitted(current: Option<StoredTask>, next: StoredTask) {
    current.Some? ==>
      var was := current.value;
      && next.origin == was.origin
      && next.projectedJournalVersion > was.projectedJournalVersion
      && !VisibilityResurrected(was.visibility, next.visibility)
      && (was.state.accountBinding.Some? ==> next.state.accountBinding == was.state.accountBinding)
      && next.state.context == was.state.context
      && ProjectionOutputsAllowed(was.state, next.state)
      && ProjectionResultAllowed(was.state.resultState, next.state.resultState)
  }

  // ---------------------------------------------------------------- product mutations

  datatype ProductMutation =
    | ProductEvent(event: TC.TaskEvent, updatedAt: Time)
    | Materialization(resultState: TC.ResultState, outputs: seq<TC.TaskOutput>, updatedAt: Time)

  /** parseProductMutation: only synchronisation and context events, and no account binding. */
  predicate MutationParses(mutation: ProductMutation) {
    mutation.ProductEvent? ==>
      match mutation.event
      case SyncError(_, _) => true
      case SyncRecovered => true
      case BindContext(accountBinding, _) => accountBinding.None?
      case _ => false
  }

  function ResultTransitions(from: TC.ResultState): set<TC.ResultState> {
    match from
    case PendingMaterialization => {TC.Materializing, TC.Ready, TC.FailedRetryable, TC.FailedPermanent}
    case Materializing => {TC.Ready, TC.FailedRetryable, TC.FailedPermanent}
    case FailedRetryable => {TC.Materializing, TC.FailedPermanent}
    case _ => {}
  }

  function ApplyProductMutation(current: StoredTask, mutation: ProductMutation): Result<StoredTask, TaskError> {
    if mutation.updatedAt < current.updatedAt then Err(StateInvalid)
    else
      match mutation
      case Materialization(resultState, outputs, updatedAt) =>
        if current.state.lifecycle != TC.Terminal || current.state.terminalOutcome != Some(TC.Outcome.Succeeded)
           || resultState !in ResultTransitions(current.state.resultState) then Err(StateInvalid)
        else Ok(current.(state := current.state.(resultState := resultState, outputs := outputs),
          updatedAt := updatedAt))
      case ProductEvent(event, updatedAt) =>
        if event.BindContext? && current.state.context.LegacyUnscoped? then Err(StateInvalid)
        else
          match TC.Reduce(current.state, event)
          case Err(_) => Err(StateInvalid)
          case Ok(state) =>
            Ok(current.(state := state.(accountBinding := current.state.accountBinding), updatedAt := updatedAt))
  }

  // ---------------------------------------------------------------- what happens to one task

  /** A task without results has no outputs, so a later projection may still bring them. */
  predicate Wellformed(task: StoredTask) {
    ValidTask(task) && (task.state.resultState == TC.NotAvailable ==> task.state.outputs == [])
  }

  /** `after` is a possible future of `before`. */
  predicate TaskFollows(before: StoredTask, after: StoredTask) {
    && after.taskId == before.taskId
    && after.origin == before.origin
    && before.version <= after.version
    && before.projectedJournalVersion <= after.projectedJournalVersion
    && before.updatedAt <= after.updatedAt
    && !VisibilityResurrected(before.visibility, after.visibility)
    && TC.Follows(before.state, after.state)
  }

  lemma {:induction false} TaskFollowsTransitive(a: StoredTask, b: StoredTask, c: StoredTask)
    requires TaskFollows(a, b) && TaskFollows(b, c)
    ensures TaskFollows(a, c)
  {
    VisibilityOnlyNarrows(a.visibility, b.visibility, c.visibility);
  }

  lemma {:induction false} VisibilityOnlyNarrows(a: Option<Visibility>, b: Option<Visibility>, c: Option<Visibility>)
    requires !VisibilityResurrected(a, b) && !VisibilityResurrected(b, c)
    ensures !VisibilityResurrected(a, c)
  {
    assert b.Some? ==> b.value.Visible? || b.value.Hidden? || b.value.Deleted?;
  }

  /** A product mutation only moves a task forward, and never where a projection has to. */
  lemma {:induction false} MutationFollows(current: StoredTask, mutation: ProductMutation)
    requires Wellformed(current) && MutationParses(mutation)
    requires ApplyProductMutation(current, mutation).Ok?
    requires var next := ApplyProductMutation(current, mutation).value.(version := current.version + 1); ValidTask(next)
    ensures var next := ApplyProductMutation(current, mutation).value.(version := current.version + 1);
      && Wellformed(next) && TaskFollows(current, next)
      && next.projectedJournalVersion == current.projectedJournalVersion
      && next.visibility == current.visibility
      && next.state.lifecycle == current.state.lifecycle
      && next.state.terminalOutcome == current.state.terminalOutcome
      && next.state.accountBinding == current.state.accountBinding
  {
    if mutation.ProductEvent? {
      TC.ReduceFollows(current.state, mutation.event);
      if mutation.event.BindContext? && current.state.context.Scoped? {
        TC.MergeFieldsExact(current.state.context.fields, mutation.event.fields, TC.FIELD_ORDER);
      }
    }
  }
}
