/** The pure task reducer of canvas-agent/src/dreamina-task-contract.ts. */
module TaskContract {
  import opened Wrappers

  datatype Lifecycle = QueuedLocal | Submitting | SubmissionUncertain | Accepted | Running | Terminal
  datatype Outcome = Succeeded | Rejected | Failed | Cancelled | FailedOrCancelled
  datatype SyncState = SyncOk | SyncRetryWait | SyncBlockedAccount | SyncUncertain | SyncConflict
  datatype ResultState =
    | NotAvailable | PendingMaterialization | Materializing | Ready | FailedRetryable | FailedPermanent
  datatype MediaType = Image | Video | Audio
  datatype ProviderStatus = Pending | Processing | Completed | Failed | Cancelled

  datatype TaskOutput = TaskOutput(
    outputIndex: int,
    mediaType: MediaType,
    providerArtifactRef: Option<string>,
    materializedAssetId: Option<string>,
    materializationErrorCode: Option<string>)

  datatype ContextField =
    ProjectId | NodeId | ConversationId | MessageId | BatchIndex | BatchCount | RetryOf | AttemptGroupId
  datatype ContextValue = Text(text: string) | Number(number: int)
  type ScopedFields = map<ContextField, ContextValue>
  datatype Context = LegacyUnscoped | Scoped(fields: ScopedFields)

  /** `observedAt` is what Date.parse makes of the timestamp: None stands for NaN. */
  datatype Observation = Observation(
    observedAt: Option<int>,
    accountBinding: Option<string>,
    fenceEpoch: Option<int>,
    status: ProviderStatus)

  datatype TaskState = TaskState(
    lifecycle: Lifecycle,
    terminalOutcome: Option<Outcome>,
    syncState: SyncState,
    resultState: ResultState,
    outputs: seq<TaskOutput>,
    accountBinding: Option<string>,
    context: Context,
    providerObservation: Option<Observation>,
    lastSyncErrorCode: Option<string>)

  datatype SyncErrorKind = Query | Transport | Parse | Lock | Login | Account

  datatype TaskEvent =
    | Transition(lifecycle: Lifecycle, outcome: Option<Outcome>)
    | ProviderObservation(observation: Observation)
    | SyncError(kind: SyncErrorKind, code: string)
    | SyncRecovered
    | BindContext(accountBinding: Option<string>, fields: ScopedFields)

  datatype TransitionError = LifecycleForbidden | ObservationInvalid | ErrorCodeUnsafe

  // ---------------------------------------------------------------- the reducer

  function Forward(from: Lifecycle): set<Lifecycle> {
    match from
    case QueuedLocal => {Submitting}
    case Submitting => {Lifecycle.Accepted, SubmissionUncertain, Terminal}
    case SubmissionUncertain => {Lifecycle.Accepted, Terminal}
    case Accepted => {Running, Terminal}
    case Running => {Terminal}
    case Terminal => {}
  }

  function Reduce(state: TaskState, event: TaskEvent): Result<TaskState, TransitionError> {
    match event
    case Transition(lifecycle, outcome) => TransitionLifecycle(state, lifecycle, outcome)
    case ProviderObservation(observation) => ApplyObservation(state, observation)
    case SyncError(kind, code) =>
      if !SafeCode(code) then Err(ErrorCodeUnsafe)
      else Ok(state.(syncState := if kind == Account then SyncBlockedAccount else SyncRetryWait,
                     lastSyncErrorCode := Some(code)))
    case SyncRecovered =>
      if state.syncState == SyncConflict then Ok(state)
      else Ok(state.(syncState := SyncOk, lastSyncErrorCode := None))
    case BindContext(binding, fields) => Ok(BindToContext(state, binding, fields))
  }

  function TransitionLifecycle(state: TaskState, lifecycle: Lifecycle, outcome: Option<Outcome>)
    : Result<TaskState, TransitionError>
  {
    if lifecycle == state.lifecycle then
      if lifecycle != Terminal then
        if outcome.Some? then Err(LifecycleForbidden) else Ok(state)
      else if outcome.None? || outcome != state.terminalOutcome then Err(LifecycleForbidden)
      else Ok(state)
    else if lifecycle !in Forward(state.lifecycle) then Err(LifecycleForbidden)
    else if lifecycle == Terminal && outcome.None? then Err(LifecycleForbidden)
    else if lifecycle != Terminal && outcome.Some? then Err(LifecycleForbidden)
    else if state.lifecycle == Submitting && lifecycle == Terminal && outcome != Some(Rejected)
      then Err(LifecycleForbidden)
    else if state.lifecycle == SubmissionUncertain && lifecycle == Terminal then Err(LifecycleForbidden)
    else
      var moved := state.(lifecycle := lifecycle, terminalOutcome := if lifecycle == Terminal then outcome else None);
      var synced :=
        if lifecycle == SubmissionUncertain then moved.(syncState := SyncUncertain)
        else if state.lifecycle == SubmissionUncertain && lifecycle == Lifecycle.Accepted then
          moved.(syncState := SyncOk, lastSyncErrorCode := None)
        else moved;
      Ok(if lifecycle == Terminal then WithOutcomeResult(synced, outcome) else synced)
  }

  function WithOutcomeResult(state: TaskState, outcome: Option<Outcome>): TaskState {
    if outcome == Some(Outcome.Succeeded) && state.resultState == NotAvailable
    then state.(resultState := PendingMaterialization) else state
  }

  function OutcomeOf(status: ProviderStatus): Option<Outcome> {
    match status
    case Completed => Some(Outcome.Succeeded)
    case Cancelled => Some(Outcome.Cancelled)
    case Failed => Some(FailedOrCancelled)
    case _ => None
  }

  predicate ObservationAcceptable(observation: Observation) {
    && observation.observedAt.Some?
    && (observation.fenceEpoch.Some? ==> 0 <= observation.fenceEpoch.value <= MAX_SAFE_INTEGER)
  }

  function ApplyObservation(state: TaskState, observation: Observation): Result<TaskState, TransitionError> {
    if !ObservationAcceptable(observation) then Err(ObservationInvalid)
    else if Truthy(state.accountBinding) && Truthy(observation.accountBinding)
            && state.accountBinding != observation.accountBinding then
      Ok(state.(syncState := SyncConflict))
    else
      var seen := state.(
        accountBinding := if Truthy(state.accountBinding) || !Truthy(observation.accountBinding)
                          then state.accountBinding else observation.accountBinding,
        providerObservation := Some(observation),
        syncState := if state.syncState == SyncConflict then SyncConflict else SyncOk,
        lastSyncErrorCode := None);
      var observed := OutcomeOf(observation.status);
      if state.lifecycle == Terminal then
        if observed.None? || observed == state.terminalOutcome then Ok(seen)
        else Ok(seen.(syncState := SyncConflict))
      else if observed.Some? then
        Ok(WithOutcomeResult(seen.(lifecycle := Terminal, terminalOutcome := observed), observed))
      else if observation.status == Processing then
        if state.lifecycle == Running then Ok(seen)
        else Ok(seen.(lifecycle := Running, terminalOutcome := None))
      else if state.lifecycle == Running || state.lifecycle == Lifecycle.Accepted then Ok(seen)
      else Ok(seen.(lifecycle := Lifecycle.Accepted, terminalOutcome := None))
  }

  const FIELD_ORDER: seq<ContextField> :=
    [ProjectId, NodeId, ConversationId, MessageId, BatchIndex, BatchCount, RetryOf, AttemptGroupId]

  /** The copying loop of bindContext from `order` on: None when an incoming value contradicts a bound one. */
  function MergeFields(bound: ScopedFields, incoming: ScopedFields, order: seq<ContextField>): Option<ScopedFields>
    decreases order
  {
    if order == [] then Some(bound)
    else if order[0] !in incoming then MergeFields(bound, incoming, order[1..])
    else if order[0] in bound && bound[order[0]] != incoming[order[0]] then None
    else MergeFields(bound[order[0] := incoming[order[0]]], incoming, order[1..])
  }

  function BindToContext(state: TaskState, binding: Option<string>, fields: ScopedFields): TaskState {
    if state.context.LegacyUnscoped? then state
    else if Truthy(binding) && Truthy(state.accountBinding) && binding != state.accountBinding then
      state.(syncState := SyncConflict)
    else
      match MergeFields(state.context.fields, fields, FIELD_ORDER)
      case None => state.(syncState := SyncConflict)
      case Some(merged) =>
        state.(context := Scoped(merged),
               accountBinding := if Truthy(state.accountBinding) || !Truthy(binding)
                                 then state.accountBinding else binding)
  }

  // ---------------------------------------------------------------- what any event sequence keeps

  function Rank(lifecycle: Lifecycle): nat {
    match lifecycle
    case QueuedLocal => 0
    case Submitting => 1
    case SubmissionUncertain => 2
    case Accepted => 3
    case Running => 4
    case Terminal => 5
  }

  /** Being TERMINAL and having an outcome are the same thing. */
  predicate Coherent(state: TaskState) {
    state.lifecycle == Terminal <==> state.terminalOutcome.Some?
  }

  /** Every bound field of `before` keeps its value. */
  predicate FieldsKept(before: Context, after: Context) {
    match before
    case LegacyUnscoped => after == before
    case Scoped(fields) =>
      after.Scoped? && forall f :: f in fields ==> f in after.fields && after.fields[f] == fields[f]
  }

  /** `after` is a possible future of `before`. */
  predicate Follows(before: TaskState, after: TaskState) {
    && Coherent(after)
    && Rank(before.lifecycle) <= Rank(after.lifecycle)
    && (before.lifecycle == Terminal ==> after.terminalOutcome == before.terminalOutcome)
    && (Truthy(before.accountBinding) ==> after.accountBinding == before.accountBinding)
    && FieldsKept(before.context, after.context)
  }

  /** The events in order; the first rejected one stops the fold. */
  function Fold(state: TaskState, events: seq<TaskEvent>): Result<TaskState, TransitionError>
    decreases events
  {
    if events == [] then Ok(state)
    else
      match Reduce(state, events[0])
      case Err(e) => Err(e)
      case Ok(next) => Fold(next, events[1..])
  }

  /** `merged` is `bound` plus the listed incoming values. */
  predicate IsMerge(merged: ScopedFields, bound: ScopedFields, incoming: ScopedFields, order: seq<ContextField>) {
    && (forall f :: f in merged <==> f in bound || (f in incoming && f in order))
    && (forall f :: f in bound ==> merged[f] == bound[f])
    && (forall f :: f in merged && f !in bound ==> merged[f] == incoming[f])
  }

  predicate Agree(bound: ScopedFields, incoming: ScopedFields, order: seq<ContextField>) {
    forall f :: f in order && f in incoming && f in bound ==> bound[f] == incoming[f]
  }

  /** A merge succeeds exactly when no listed field disagrees, and then adds just the incoming values. */
  lemma {:induction false} MergeFieldsExact(bound: ScopedFields, incoming: ScopedFields, order: seq<ContextField>)
    ensures MergeFields(bound, incoming, order).Some? <==> Agree(bound, incoming, order)
    ensures MergeFields(bound, incoming, order).Some? ==>
              IsMerge(MergeFields(bound, incoming, order).value, bound, incoming, order)
    decreases order
  {
    if order != [] {
      var head, rest := order[0], order[1..];
      assert forall f :: f in order <==> f == head || f in rest;
      if head !in incoming {
        MergeFieldsExact(bound, incoming, rest);
      } else if head !in bound || bound[head] == incoming[head] {
        MergeFieldsExact(bound[head := incoming[head]], incoming, rest);
      }
    }
  }

  lemma {:induction false} ReduceFollows(state: TaskState, event: TaskEvent)
    requires Coherent(state)
    ensures Reduce(state, event).Ok? ==> Follows(state, Reduce(state, event).value)
  {
    if event.BindContext? && state.context.Scoped? {
      MergeFieldsExact(state.context.fields, event.fields, FIELD_ORDER);
    }
  }

  /** Folding any accepted event sequence keeps TERMINAL tied to the outcome, never lowers the
      lifecycle, never changes a terminal outcome, and rebinds neither account nor context field. */
  lemma {:induction false} FoldFollows(state: TaskState, events: seq<TaskEvent>)
    requires Coherent(state)
    ensures Fold(state, events).Ok? ==> Follows(state, Fold(state, events).value)
    decreases events
  {
    if events != [] && Reduce(state, events[0]).Ok? {
      ReduceFollows(state, events[0]);
      FoldFollows(Reduce(state, events[0]).value, events[1..]);
    }
  }

  /** A recorded conflict survives an event exactly when the event is not an accepted sync_error,
      and not a transition that resets or re-labels synchronisation. */
  lemma {:induction false} ConflictKeptExactly(state: TaskState, event: TaskEvent)
    requires state.syncState == SyncConflict && Reduce(state, event).Ok?
    ensures Reduce(state, event).value.syncState == SyncConflict <==>
            && !event.SyncError?
            && !(event.Transition? && event.lifecycle != state.lifecycle
                 && (event.lifecycle == SubmissionUncertain
                     || (state.lifecycle == SubmissionUncertain && event.lifecycle == Lifecycle.Accepted)))
  {
    if event.BindContext? && state.context.Scoped? {
      MergeFieldsExact(state.context.fields, event.fields, FIELD_ORDER);
    }
  }

  // ---------------------------------------------------------------- the journal mapping

  datatype JournalState = Queued | Pending | Accepted | Succeeded | Failed | Cancelled | Unknown | Deleted

  datatype JournalSnapshot = JournalSnapshot(
    state: JournalState,
    receiptRecorded: bool,
    errorCode: Option<string>,
    officialStatus: Option<ProviderStatus>)

  predicate OccursAt(text: string, word: string, at: nat) {
    at + |word| <= |text| && text[at..at + |word|] == word
  }

  predicate Contains(text: string, word: string) {
    exists at :: 0 <= at <= |text| && OccursAt(text, word, at)
  }

  const LOCAL_ERROR_WORDS: seq<string> :=
    ["query", "transport", "parse", "state_busy", "state_fenced", "login", "session", "unknown", "origin_not_trusted"]

  predicate IsLocalSyncError(code: string) {
    && (exists i :: 0 <= i < |LOCAL_ERROR_WORDS| && Contains(code, LOCAL_ERROR_WORDS[i]))
    && !("dreamina_official_" <= code)
  }

  predicate IsAmbiguousOfficialFailure(input: JournalSnapshot) {
    || input.officialStatus == Some(ProviderStatus.Failed)
    || input.errorCode == Some("dreamina_official_failed")
    || input.errorCode == Some("dreamina_official_incomplete")
  }

  function FromRuntimeJournal(input: JournalSnapshot): TaskState {
    var base := TaskState(QueuedLocal, None, SyncOk, NotAvailable, [], None, LegacyUnscoped, None, None);
    var code := if Truthy(input.errorCode) then input.errorCode else None;
    var local := code.Some? && IsLocalSyncError(code.value);
    var accountChanged := code == Some("dreamina_account_session_changed");
    match input.state
    case Queued => base
    case Pending => base.(lifecycle := Submitting)
    case Unknown => base.(lifecycle := SubmissionUncertain, syncState := SyncUncertain, lastSyncErrorCode := code)
    case Accepted =>
      var live := base.(lifecycle := if input.officialStatus == Some(Processing) then Running else Lifecycle.Accepted);
      if accountChanged then live.(syncState := SyncBlockedAccount, lastSyncErrorCode := code)
      else if local then live.(syncState := SyncRetryWait, lastSyncErrorCode := code)
      else live
    case Succeeded =>
      var done := base.(lifecycle := Terminal, terminalOutcome := Some(Outcome.Succeeded),
        resultState := PendingMaterialization);
      if accountChanged then done.(syncState := SyncBlockedAccount, lastSyncErrorCode := code) else done
    case Cancelled =>
      if input.receiptRecorded && code == Some("dreamina_local_wait_stopped")
        then base.(lifecycle := Lifecycle.Accepted)
      else base.(lifecycle := Terminal, terminalOutcome := Some(Outcome.Cancelled))
    case Failed =>
      if input.receiptRecorded && local then
        base.(lifecycle := Lifecycle.Accepted, syncState := SyncRetryWait, lastSyncErrorCode := code)
      else base.(lifecycle := Terminal,
                 terminalOutcome :=
                   Some(if IsAmbiguousOfficialFailure(input) then FailedOrCancelled else Outcome.Failed))
    case Deleted => base.(lifecycle := Terminal, terminalOutcome := Some(Outcome.Failed))
  }
}
