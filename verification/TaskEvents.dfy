/** What each event does to a task in canvas-agent/src/dreamina-task-contract.ts: which are accepted, where they lead,
    and what they leave alone. */
module TaskEvents {
  import opened Wrappers
  import opened TaskContract

  // ---------------------------------------------------------------- transitions

  /** The steps a task may take, each to the next stage of a submission or to its end. */
  const STEPS: set<(Lifecycle, Lifecycle)> :=
    {(QueuedLocal, Submitting), (Submitting, Lifecycle.Accepted), (Submitting, SubmissionUncertain),
     (Submitting, Terminal), (SubmissionUncertain, Lifecycle.Accepted), (Lifecycle.Accepted, Running),
     (Lifecycle.Accepted, Terminal), (Running, Terminal)}

  /** A step that names an outcome exactly if it ends, while submitting only a rejection. Staying where one is counts if
      the outcome is the one there is. An uncertain submission is ended by nobody but an observation. */
  predicate Legal(state: TaskState, lifecycle: Lifecycle, outcome: Option<Outcome>) {
    if lifecycle == state.lifecycle then outcome == state.terminalOutcome
    else
      && (state.lifecycle, lifecycle) in STEPS
      && (outcome.Some? <==> lifecycle == Terminal)
      && (state.lifecycle == Submitting && lifecycle == Terminal ==> outcome == Some(Rejected))
  }

  /** A transition is accepted exactly if it is legal, and then only says where the task is; entering and leaving
      uncertainty is said in the synchronisation as well, and success asks for the results. */
  lemma {:induction false} TransitionsExactly(state: TaskState, lifecycle: Lifecycle, outcome: Option<Outcome>)
    requires Coherent(state)
    ensures var result := Reduce(state, Transition(lifecycle, outcome));
      && (result.Ok? <==> Legal(state, lifecycle, outcome))
      && (result.Err? ==> result.error == LifecycleForbidden)
      && (result.Ok? && lifecycle == state.lifecycle ==> result.value == state)
      && (result.Ok? && lifecycle != state.lifecycle ==>
            var next := result.value;
            var clears := state.lifecycle == SubmissionUncertain;
            && next.lifecycle == lifecycle && next.terminalOutcome == outcome
            && next.syncState == (if lifecycle == SubmissionUncertain then SyncUncertain
                                  else if clears then SyncOk else state.syncState)
            && next.lastSyncErrorCode == (if clears then None else state.lastSyncErrorCode)
            && next.resultState == (if outcome == Some(Outcome.Succeeded) && state.resultState == NotAvailable
                                    then PendingMaterialization else state.resultState)
            && SameOwner(state, next) && next.providerObservation == state.providerObservation)
  {
  }

  predicate SameOwner(before: TaskState, after: TaskState) {
    after.outputs == before.outputs && after.context == before.context && after.accountBinding == before.accountBinding
  }

  // ---------------------------------------------------------------- observations

  /** The observation was made of another account than the task's. */
  predicate Foreign(state: TaskState, observation: Observation) {
    Truthy(state.accountBinding) && Truthy(observation.accountBinding)
      && state.accountBinding != observation.accountBinding
  }

  /** What the provider's status means as an outcome: a failure may as well be a cancellation. */
  predicate MeansOutcome(status: ProviderStatus, outcome: Outcome) {
    || (status == Completed && outcome == Outcome.Succeeded)
    || (status == ProviderStatus.Cancelled && outcome == Outcome.Cancelled)
    || (status == ProviderStatus.Failed && outcome == FailedOrCancelled)
  }

  predicate Final(status: ProviderStatus) {
    status in {Completed, ProviderStatus.Cancelled, ProviderStatus.Failed}
  }

  /** Where an observation takes a task that has not ended: to the end it reports, to running, or at least to
      accepted; never back from running. */
  predicate Observed(before: TaskState, status: ProviderStatus, after: TaskState) {
    if Final(status) then
      after.lifecycle == Terminal && after.terminalOutcome.Some?
        && MeansOutcome(status, after.terminalOutcome.value)
    else
      && after.terminalOutcome == before.terminalOutcome
      && after.lifecycle == if status == Processing || before.lifecycle == Running then Running else Lifecycle.Accepted
  }

  /** An observation is accepted exactly if it has a time and a sane fence. A foreign one only raises a conflict. Any
      other is remembered, lends its account to a task that has none, clears the trouble unless there is a conflict,
      takes an unfinished task where it says, and leaves a finished one as it is but for a conflict if it says
      otherwise. */
  lemma {:induction false} ObservationsExactly(state: TaskState, observation: Observation)
    requires Coherent(state)
    ensures var result := Reduce(state, ProviderObservation(observation));
      && (result.Ok? <==>
            && observation.observedAt.Some?
            && (observation.fenceEpoch.Some? ==> 0 <= observation.fenceEpoch.value <= MAX_SAFE_INTEGER))
      && (result.Err? ==> result.error == ObservationInvalid)
      && (result.Ok? && Foreign(state, observation) ==> result.value == state.(syncState := SyncConflict))
      && (result.Ok? && !Foreign(state, observation) ==>
            var next := result.value;
            var denied := state.lifecycle == Terminal && Final(observation.status)
                          && !MeansOutcome(observation.status, state.terminalOutcome.value);
            && next.providerObservation == Some(observation) && next.lastSyncErrorCode == None
            && next.outputs == state.outputs && next.context == state.context
            && next.accountBinding == (if Truthy(observation.accountBinding) then observation.accountBinding
                                       else state.accountBinding)
            && next.syncState == (if state.syncState == SyncConflict || denied then SyncConflict else SyncOk)
            && (if state.lifecycle == Terminal then
                  next.lifecycle == Terminal && next.terminalOutcome == state.terminalOutcome
                else Observed(state, observation.status, next))
            && next.resultState == (if state.lifecycle != Terminal && observation.status == Completed
                                       && state.resultState == NotAvailable
                                    then PendingMaterialization else state.resultState))
  {
  }

  // ---------------------------------------------------------------- trouble and context

  /** Trouble is recorded under a safe code and blocks the account exactly if it is the account's; recovery clears
      whatever is no conflict. */
  lemma {:induction false} SyncExactly(state: TaskState, kind: SyncErrorKind, code: string)
    ensures var (failed, recovered) := (Reduce(state, SyncError(kind, code)), Reduce(state, SyncRecovered));
      && (failed.Ok? <==> SafeCode(code)) && (failed.Err? ==> failed.error == ErrorCodeUnsafe)
      && (failed.Ok? ==>
            failed.value == state.(syncState := failed.value.syncState, lastSyncErrorCode := Some(code))
            && (failed.value.syncState == SyncBlockedAccount <==> kind == Account)
            && (failed.value.syncState == SyncRetryWait <==> kind != Account))
      && recovered.Ok?
      && (state.syncState == SyncConflict ==> recovered.value == state)
      && (state.syncState != SyncConflict ==>
            recovered.value == state.(syncState := SyncOk, lastSyncErrorCode := None))
  {
  }

  /** No incoming field says otherwise than a bound one. */
  predicate AgreesWith(bound: ScopedFields, incoming: ScopedFields) {
    forall f :: f in incoming && f in bound ==> bound[f] == incoming[f]
  }

  lemma {:induction false} EveryFieldListed(f: ContextField)
    ensures f in FIELD_ORDER
  {
    assert FIELD_ORDER[0] == ProjectId && FIELD_ORDER[1] == NodeId && FIELD_ORDER[2] == ConversationId
      && FIELD_ORDER[3] == MessageId && FIELD_ORDER[4] == BatchIndex && FIELD_ORDER[5] == BatchCount
      && FIELD_ORDER[6] == RetryOf && FIELD_ORDER[7] == AttemptGroupId;
  }

  /** Merging along an order that lists every field. */
  lemma {:induction false} AllMerged(bound: ScopedFields, fields: ScopedFields, order: seq<ContextField>)
    requires forall f: ContextField :: f in order
    ensures MergeFields(bound, fields, order) == if AgreesWith(bound, fields) then Some(bound + fields) else None
  {
    MergeFieldsExact(bound, fields, order);
    hide MergeFields;
    if AgreesWith(bound, fields) {
      assert MergeFields(bound, fields, order).value == bound + fields;
    }
  }

  lemma {:induction false} FieldsMerged(bound: ScopedFields, fields: ScopedFields)
    ensures MergeFields(bound, fields, FIELD_ORDER) == if AgreesWith(bound, fields) then Some(bound + fields) else None
  {
    hide MergeFields, AgreesWith;
    forall f ensures f in FIELD_ORDER {
      EveryFieldListed(f);
    }
    AllMerged(bound, fields, FIELD_ORDER);
  }

  /** Binding never fails. It leaves an unscoped task alone, raises a conflict where account or any field says
      otherwise, and else adds the new fields and, to a task without one, the account. */
  lemma {:induction false} BindingExactly(state: TaskState, binding: Option<string>, fields: ScopedFields)
    ensures var result := Reduce(state, BindContext(binding, fields));
      && result.Ok?
      && (state.context.LegacyUnscoped? ==> result.value == state)
      && (state.context.Scoped? ==>
            var bound := state.context.fields;
            var other := Truthy(binding) && Truthy(state.accountBinding) && binding != state.accountBinding;
            if other || !AgreesWith(bound, fields) then result.value == state.(syncState := SyncConflict)
            else
              && result.value == state.(context := result.value.context, accountBinding := result.value.accountBinding)
              && result.value.context == Scoped(bound + fields)
              && result.value.accountBinding == if Truthy(binding) then binding else state.accountBinding)
  {
    if state.context.Scoped? {
      FieldsMerged(state.context.fields, fields);
    }
    hide MergeFields, AgreesWith, SafeCode;
  }
}
