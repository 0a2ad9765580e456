/** What the product may do to a stored generation and what a projection may change of it
    (canvas-agent/src/dreamina-task-store.ts), case by case. */
module ProductRules {
  import opened Wrappers
  import TC = TaskContract
  import opened ProductTask
  import TaskEvents

  // ---------------------------------------------------------------- product mutations

  /** The steps from result state to result state that the product may take. */
  predicate Materializes(from: TC.ResultState, to: TC.ResultState) {
    || (from == TC.PendingMaterialization && to == TC.Materializing)
    || (from in {TC.PendingMaterialization, TC.Materializing} && to == TC.Ready)
    || (from in {TC.PendingMaterialization, TC.Materializing} && to == TC.FailedRetryable)
    || (from in {TC.PendingMaterialization, TC.Materializing, TC.FailedRetryable} && to == TC.FailedPermanent)
    || (from == TC.FailedRetryable && to == TC.Materializing)
  }

  /** Results are reported exactly of a generation that succeeded, never back in time, and one step at a time; what is
      ready or has failed for good stays. Only the results change. */
  lemma {:induction false} MaterializationExactly(task: StoredTask, to: TC.ResultState, outputs: seq<TC.TaskOutput>,
      at: Time)
    ensures var r := ApplyProductMutation(task, Materialization(to, outputs, at));
      && (r.Ok? <==>
            && at >= task.updatedAt && task.state.lifecycle == TC.Terminal
            && task.state.terminalOutcome == Some(TC.Outcome.Succeeded) && Materializes(task.state.resultState, to))
      && (r.Ok? ==>
            && r.value == task.(state := r.value.state, updatedAt := at)
            && r.value.state == task.state.(resultState := to, outputs := outputs))
      && (r.Err? ==> r.error == StateInvalid)
    ensures MutationParses(Materialization(to, outputs, at))
  {
    match task.state.resultState
    case NotAvailable =>
    case PendingMaterialization =>
    case Materializing =>
    case Ready =>
    case FailedRetryable =>
    case FailedPermanent =>
  }

  /** The product reports nothing but trouble, recovery, and where a generation belongs, without an account. */
  lemma {:induction false} ReportsExactly(event: TC.TaskEvent, at: Time)
    ensures MutationParses(ProductEvent(event, at)) <==>
      event.SyncError? || event.SyncRecovered? || (event.BindContext? && event.accountBinding.None?)
  {
  }

  /** Trouble under a safe code is recorded, never back in time; it blocks the account exactly if it is the
      account's. */
  lemma {:induction false} TroubleExactly(task: StoredTask, kind: TC.SyncErrorKind, code: string, at: Time)
    ensures var r := ApplyProductMutation(task, ProductEvent(TC.SyncError(kind, code), at));
      && (r.Ok? <==> at >= task.updatedAt && SafeCode(code))
      && (r.Ok? ==>
            && r.value == task.(state := r.value.state, updatedAt := at)
            && r.value.state == task.state.(lastSyncErrorCode := Some(code),
                 syncState := if kind == TC.Account then TC.SyncBlockedAccount else TC.SyncRetryWait))
      && (r.Err? ==> r.error == StateInvalid)
  {
    TaskEvents.SyncExactly(task.state, kind, code);
  }

  /** Recovery clears whatever is no conflict. */
  lemma {:induction false} RecoveryExactly(task: StoredTask, at: Time)
    ensures var r := ApplyProductMutation(task, ProductEvent(TC.SyncRecovered, at));
      && (r.Ok? <==> at >= task.updatedAt)
      && (r.Ok? ==>
            && r.value == task.(state := r.value.state, updatedAt := at)
            && r.value.state == if task.state.syncState == TC.SyncConflict then task.state
                                else task.state.(syncState := TC.SyncOk, lastSyncErrorCode := None))
      && (r.Err? ==> r.error == StateInvalid)
  {
    TaskEvents.SyncExactly(task.state, TC.Account, "");
  }

  /** The context of a generation that has one is added to; where a field says otherwise that is a conflict, and the
      context stays. */
  lemma {:induction false} BindingExactly(task: StoredTask, fields: TC.ScopedFields, at: Time)
    ensures var r := ApplyProductMutation(task, ProductEvent(TC.BindContext(None, fields), at));
      && (r.Ok? <==> at >= task.updatedAt && task.state.context.Scoped?)
      && (r.Ok? ==>
            && r.value == task.(state := r.value.state, updatedAt := at)
            && r.value.state == if TaskEvents.AgreesWith(task.state.context.fields, fields)
                                then task.state.(context := TC.Scoped(task.state.context.fields + fields))
                                else task.state.(syncState := TC.SyncConflict))
      && (r.Err? ==> r.error == StateInvalid)
  {
    TaskEvents.BindingExactly(task.state, None, fields);
    hide TC.Reduce;
  }

  // ---------------------------------------------------------------- projections

  /** How far out of sight. */
  function Withdrawn(visibility: Option<Visibility>): nat {
    match visibility
    case Some(Hidden) => 1
    case Some(Deleted) => 2
    case _ => 0
  }

  /** What a projection brings is the provider's, and not yet the product's. */
  predicate Delivered(output: TC.TaskOutput) {
    && output.providerArtifactRef.Some? && output.providerArtifactRef.value != ""
    && output.materializedAssetId == None && output.materializationErrorCode == None
  }

  /** A first projection may be anything. A later one names the same origin, carries a later version, keeps the context
      and a known account, does not bring back to sight, brings outputs only where they are awaited and none are there,
      and leaves the product's results alone. */
  lemma {:induction false} AdmittedExactly(current: Option<StoredTask>, next: StoredTask)
    ensures ProjectionAdmitted(current, next) <==>
      current.Some? ==>
        var was := current.value;
        && next.origin == was.origin && was.projectedJournalVersion < next.projectedJournalVersion
        && Withdrawn(was.visibility) <= Withdrawn(next.visibility)
        && next.state.context == was.state.context
        && was.state.accountBinding in {None, next.state.accountBinding}
        && (next.state.resultState != was.state.resultState ==> was.state.resultState == TC.NotAvailable)
        && (next.state.outputs != was.state.outputs ==>
              && was.state.outputs == [] && next.state.resultState == TC.PendingMaterialization
              && was.state.resultState in {TC.NotAvailable, TC.PendingMaterialization}
              && forall i :: 0 <= i < |next.state.outputs| ==> Delivered(next.state.outputs[i]))
  {
    if current.Some? {
      var was := current.value;
      SightExactly(was.visibility, next.visibility);
      assert (forall output :: output in next.state.outputs ==> FreshFromProvider(output))
        <==> forall i :: 0 <= i < |next.state.outputs| ==> Delivered(next.state.outputs[i]) by {
        if forall output :: output in next.state.outputs ==> FreshFromProvider(output) {
          forall i | 0 <= i < |next.state.outputs| ensures Delivered(next.state.outputs[i]) {
            assert next.state.outputs[i] in next.state.outputs;
          }
        }
      }
      hide VisibilityResurrected, Withdrawn, FreshFromProvider, Delivered;
    }
  }

  lemma {:induction false} SightExactly(was: Option<Visibility>, next: Option<Visibility>)
    ensures VisibilityResurrected(was, next) <==> Withdrawn(next) < Withdrawn(was)
  {
    match next
    case None =>
    case Some(Visible) =>
    case Some(Hidden) =>
    case Some(Deleted) =>
  }
}
