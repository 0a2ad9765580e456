/** What a stored projection says, in terms of the journal record's own fields: which lifecycle and outcome, which
    state of synchronisation, and what it takes over or leaves alone. */
module ProjectionOutcomes {
  import opened Wrappers
  import opened ProductTask
  import opened Projection
  import J = Journal
  import TC = TaskContract

  // ---------------------------------------------------------------- what the record says

  ghost predicate Within(text: string, word: string) {
    exists front: string, back: string :: text == front + word + back
  }

  lemma {:induction false} ContainsExactly(text: string, word: string)
    ensures TC.Contains(text, word) <==> Within(text, word)
  {
    if TC.Contains(text, word) {
      var at :| 0 <= at <= |text| && TC.OccursAt(text, word, at);
      assert text == text[..at] + word + text[at + |word|..];
    }
    if Within(text, word) {
      var front: string, back: string :| text == front + word + back;
      assert text[|front|..|front| + |word|] == word;
      assert TC.OccursAt(text, word, |front|);
    }
  }

  /** The code names trouble on this side: asking, transport, reading, locks, login or the session. */
  ghost predicate LocalTrouble(code: string) {
    && (|| Within(code, "query") || Within(code, "transport") || Within(code, "parse") || Within(code, "state_busy")
        || Within(code, "state_fenced") || Within(code, "login") || Within(code, "session") || Within(code, "unknown")
        || Within(code, "origin_not_trusted"))
    && !("dreamina_official_" <= code)
  }

  lemma {:induction false} LocalExactly(code: string)
    ensures TC.IsLocalSyncError(code) <==> LocalTrouble(code)
  {
    var words := TC.LOCAL_ERROR_WORDS;
    assert words[0] == "query" && words[1] == "transport" && words[2] == "parse" && words[3] == "state_busy"
      && words[4] == "state_fenced" && words[5] == "login" && words[6] == "session" && words[7] == "unknown"
      && words[8] == "origin_not_trusted";
    forall i | 0 <= i < 9 ensures TC.Contains(code, words[i]) <==> Within(code, words[i]) {
      ContainsExactly(code, words[i]);
    }
    hide TC.Contains, Within;
  }

  ghost predicate TroubleHere(record: ProjectableRecord) {
    Truthy(record.errorCode) && LocalTrouble(record.errorCode.value)
  }

  predicate AccountMoved(record: ProjectableRecord) {
    record.errorCode == Some("dreamina_account_session_changed")
  }

  /** Cancelled here, though the provider has the task. */
  predicate StoppedWaiting(record: ProjectableRecord) {
    && record.state == TC.JournalState.Cancelled && record.hasProviderTask
    && record.errorCode == Some("dreamina_local_wait_stopped")
  }

  /** Failed here for trouble on this side, though the provider has the task. */
  ghost predicate LostSight(record: ProjectableRecord) {
    record.state == TC.JournalState.Failed && record.hasProviderTask && TroubleHere(record)
  }

  /** The provider's word for a failure, which may as well be a cancellation. */
  predicate Ambiguous(record: ProjectableRecord) {
    || record.officialStatus == Some(TC.ProviderStatus.Failed)
    || record.errorCode in {Some("dreamina_official_failed"), Some("dreamina_official_incomplete")}
  }

  /** The state says what the record says: each lifecycle and outcome for exactly its cases. */
  ghost predicate Tells(record: ProjectableRecord, state: TC.TaskState) {
    && (state.lifecycle == TC.QueuedLocal <==> record.state == TC.Queued)
    && (state.lifecycle == TC.Submitting <==> record.state == TC.JournalState.Pending)
    && (state.lifecycle == TC.SubmissionUncertain <==> record.state == TC.Unknown)
    && (state.lifecycle == TC.Running <==>
          record.state == TC.JournalState.Accepted && record.officialStatus == Some(TC.Processing))
    && (state.lifecycle == TC.Lifecycle.Accepted <==>
          || (record.state == TC.JournalState.Accepted && record.officialStatus != Some(TC.Processing))
          || StoppedWaiting(record) || LostSight(record))
    && (state.terminalOutcome == Some(TC.Outcome.Succeeded) <==> record.state == TC.JournalState.Succeeded)
    && (state.terminalOutcome == Some(TC.Outcome.Cancelled) <==>
          record.state == TC.JournalState.Cancelled && !StoppedWaiting(record))
    && (state.terminalOutcome == Some(TC.FailedOrCancelled) <==>
          record.state == TC.JournalState.Failed && !LostSight(record) && Ambiguous(record))
    && (state.terminalOutcome == Some(TC.Outcome.Failed) <==>
          || (record.state == TC.JournalState.Failed && !LostSight(record) && !Ambiguous(record))
          || record.state == TC.Deleted)
    && TC.Coherent(state)
  }

  predicate Blocked(record: ProjectableRecord) {
    record.state in {TC.JournalState.Accepted, TC.JournalState.Succeeded} && AccountMoved(record)
  }

  ghost predicate Retries(record: ProjectableRecord) {
    || (record.state == TC.JournalState.Accepted && TroubleHere(record) && !AccountMoved(record))
    || LostSight(record)
  }

  /** The trouble a record tells of. */
  ghost function ToldCode(record: ProjectableRecord): Option<string> {
    if Blocked(record) || Retries(record) || (record.state == TC.Unknown && Truthy(record.errorCode))
    then record.errorCode else None
  }

  ghost predicate TellsSync(record: ProjectableRecord, sync: TC.SyncState, code: Option<string>) {
    var (blocked, retries) := (Blocked(record), Retries(record));
    && (sync == TC.SyncUncertain <==> record.state == TC.Unknown)
    && (sync == TC.SyncBlockedAccount <==> blocked)
    && (sync == TC.SyncRetryWait <==> retries)
    && (sync == TC.SyncOk <==> record.state != TC.Unknown && !blocked && !retries)
    && code == ToldCode(record)
  }

  lemma {:induction false} MappingTellsLifecycle(record: ProjectableRecord)
    ensures Tells(record, ProviderState(record))
  {
    if Truthy(record.errorCode) {
      LocalExactly(record.errorCode.value);
    }
    hide TC.IsLocalSyncError, LocalTrouble;
  }

  lemma {:induction false} MappingTellsSync(record: ProjectableRecord)
    ensures TellsSync(record, ProviderState(record).syncState, ProviderState(record).lastSyncErrorCode)
  {
    if Truthy(record.errorCode) {
      LocalExactly(record.errorCode.value);
    }
    hide TC.IsLocalSyncError, LocalTrouble, TC.IsAmbiguousOfficialFailure;
  }

  /** The mapping of a journal record by itself. */
  lemma {:induction false} MappingTells(record: ProjectableRecord)
    ensures var state := ProviderState(record);
      && Tells(record, state) && TellsSync(record, state.syncState, state.lastSyncErrorCode)
      && state.outputs == [] && state.accountBinding.None? && state.context.LegacyUnscoped?
      && state.providerObservation.None?
      && (state.resultState == TC.PendingMaterialization <==> record.state == TC.JournalState.Succeeded)
      && state.resultState in {TC.NotAvailable, TC.PendingMaterialization}
  {
    MappingTellsLifecycle(record);
    MappingTellsSync(record);
    hide TC.IsLocalSyncError, TC.IsAmbiguousOfficialFailure, Tells, TellsSync;
  }

  // ---------------------------------------------------------------- a first projection

  /** The record whose state a first projection goes by: a deleted one by what the provider last said. */
  predicate ReadAs(record: ProjectableRecord, read: ProjectableRecord) {
    && read == record.(state := read.state)
    && (record.state != TC.Deleted ==> read.state == record.state)
    && (record.state == TC.Deleted ==>
          match record.officialStatus
          case Some(Completed) => read.state == TC.JournalState.Succeeded
          case Some(Failed) => read.state == TC.JournalState.Failed
          case Some(Cancelled) => read.state == TC.JournalState.Cancelled
          case _ => read.state == if record.hasProviderTask then TC.JournalState.Accepted else TC.Queued)
  }

  /** The fields a projection copies. */
  predicate Copies(record: ProjectableRecord, task: StoredTask) {
    && task.taskId == TASK_PREFIX + record.recordId
    && task.origin.requestHash == record.requestHash && task.origin.journalRecordId == record.recordId
    && task.projectedJournalVersion == record.journalVersion
  }

  /** A first projection: visible unless hidden or deleted, under the record's own names, with the lifecycle, outcome
      and synchronisation the record tells of, and its outputs if it has any. */
  lemma {:induction false} FirstProjection(record: ProjectableRecord, read: ProjectableRecord)
    requires Stored(record, None) && ReadAs(record, read) && RecordReadable(record)
    ensures var task := StoredAs(record, None);
      && Copies(record, task) && task.version == 1 && task.updatedAt == record.updatedAt
      && Tells(read, task.state) && TellsSync(read, task.state.syncState, task.state.lastSyncErrorCode)
      && task.visibility == Some(if record.state == TC.Deleted then Visibility.Deleted
                                 else if record.hidden then Hidden else Visible)
      && task.origin.clientOperationId == record.clientOperationId.GetOr(record.recordId)
      && task.state.context == record.context.GetOr(TC.LegacyUnscoped)
      && task.state.accountBinding == record.accountBinding
      && task.state.outputs == AsTaskOutputs(record.providerOutputs)
      && (task.state.resultState == TC.PendingMaterialization <==>
            read.state == TC.JournalState.Succeeded || record.providerOutputs.Some?)
      && task.details == Details(record.officialStatus, record.mode, record.operation, record.model, record.createdAt)
  {
    MappingTells(read);
    CodeTruthy(read);
    FirstBuilt(record, read);
    FirstCopied(record);
    OutputsThere(record);
    ReadOutputs(record);
    KeepsTelling(read, ProviderState(read), StoredAs(record, None).state);
    hide ProviderState, Tells, TellsSync, Stored, StoredAs, RecordReadable, AsTaskOutputs;
  }

  lemma {:induction false} FirstBuilt(record: ProjectableRecord, read: ProjectableRecord)
    requires Stored(record, None) && ReadAs(record, read)
    ensures var (state, reported) := (StoredAs(record, None).state, ProviderState(read));
            var outputs := AsTaskOutputs(record.providerOutputs);
      && state.lifecycle == reported.lifecycle && state.terminalOutcome == reported.terminalOutcome
      && state.syncState == reported.syncState
      && (reported.lastSyncErrorCode == None || Truthy(reported.lastSyncErrorCode) ==>
            state.lastSyncErrorCode == reported.lastSyncErrorCode)
      && state.outputs == (if outputs != [] then outputs else reported.outputs)
      && state.resultState == (if outputs != [] then TC.PendingMaterialization else reported.resultState)
  {
    hide ProviderState, ValidTask, ProjectionAdmitted, AsTaskOutputs;
  }

  lemma {:induction false} FirstCopied(record: ProjectableRecord)
    requires Stored(record, None)
    ensures var task := StoredAs(record, None);
      && Copies(record, task) && task.version == 1 && task.updatedAt == record.updatedAt
      && task.visibility == Some(if record.state == TC.Deleted then Visibility.Deleted
                                 else if record.hidden then Hidden else Visible)
      && task.origin.clientOperationId == record.clientOperationId.GetOr(record.recordId)
      && task.state.context == record.context.GetOr(TC.LegacyUnscoped)
      && task.state.accountBinding == record.accountBinding
      && task.details == Details(record.officialStatus, record.mode, record.operation, record.model, record.createdAt)
  {
    hide ProviderState, ValidTask, ProjectionAdmitted, MergeProviderState;
  }

  lemma {:induction false} ReadOutputs(record: ProjectableRecord)
    requires RecordReadable(record)
    ensures record.providerOutputs.Some? ==> record.state == TC.JournalState.Succeeded
  {
    hide SafeId, SafeHash, SafeCode, ContextReadable, PlainName, ArtifactRef;
  }

  lemma {:induction false} CodeTruthy(record: ProjectableRecord)
    ensures var code := ProviderState(record).lastSyncErrorCode; code.Some? ==> Truthy(code)
  {
    hide TC.IsLocalSyncError;
  }

  lemma {:induction false} KeepsTelling(record: ProjectableRecord, state: TC.TaskState, other: TC.TaskState)
    requires Tells(record, state)
    requires other.lifecycle == state.lifecycle && other.terminalOutcome == state.terminalOutcome
    ensures Tells(record, other)
  {
  }

  // ---------------------------------------------------------------- a later projection

  /** What the record tells of is not behind the task. */
  predicate NotAhead(task: StoredTask, reported: TC.TaskState) {
    task.state.lifecycle != TC.Terminal && TC.Rank(task.state.lifecycle) <= TC.Rank(reported.lifecycle)
  }

  /** A later projection of a record that is no deletion. The lifecycle and outcome are the record's unless the task is
      terminal or ahead, where they stay; synchronisation is the record's unless there is or arises a conflict, which
      arises exactly where a terminal task meets another outcome. */
  lemma {:induction false} LaterProjection(record: ProjectableRecord, task: StoredTask, reported: TC.TaskState)
    requires Stored(record, Some(task)) && Wellformed(task) && record.state != TC.Deleted
    requires Tells(record, reported)
    ensures var next := StoredAs(record, Some(task));
            var conflict := task.state.syncState == TC.SyncConflict
                            || (&& task.state.lifecycle == TC.Terminal && reported.lifecycle == TC.Terminal
                                && reported.terminalOutcome != task.state.terminalOutcome);
      && Copies(record, next) && next.version == task.version + 1
      && next.updatedAt == (if task.updatedAt > record.updatedAt then task.updatedAt else record.updatedAt)
      && (if NotAhead(task, reported) then
            next.state.lifecycle == reported.lifecycle && next.state.terminalOutcome == reported.terminalOutcome
          else
            && next.state.lifecycle == task.state.lifecycle
            && next.state.terminalOutcome == task.state.terminalOutcome)
      && (next.state.syncState == TC.SyncConflict <==> conflict)
      && (!conflict ==> TellsSync(record, next.state.syncState, next.state.lastSyncErrorCode))
      && (conflict ==>
            next.state.lastSyncErrorCode ==
              if ToldCode(record).Some? then ToldCode(record) else task.state.lastSyncErrorCode)
      && next.visibility == Some(if task.visibility == Some(Visibility.Deleted) then Visibility.Deleted
                                 else if task.visibility == Some(Hidden) || record.hidden then Hidden else Visible)
      && next.origin == task.origin && next.state.context == task.state.context
      && next.state.accountBinding == (if task.state.accountBinding.Some? then task.state.accountBinding
                                       else record.accountBinding)
      && next.details == Details(
           if record.officialStatus.Some? then record.officialStatus else task.details.officialStatus,
           if record.mode.Some? then record.mode else task.details.mode,
           if record.operation.Some? then record.operation else task.details.operation,
           if record.model.Some? then record.model else task.details.model,
           if record.createdAt.Some? then record.createdAt else task.details.createdAt)
  {
    MappingTells(record);
    TellsOnce(record, reported, ProviderState(record));
    CodeTruthy(record);
    BindingNotEmpty(task);
    hide ProviderState, Tells, ValidTask, ProjectionOutputsAllowed, ProjectionResultAllowed, TellsSync;
    assert TC.Coherent(task.state) by {
      WellformedCoherent(task);
    }
    ReportedSync(record);
  }

  lemma {:induction false} ReportedSync(record: ProjectableRecord)
    ensures ProviderState(record).syncState != TC.SyncConflict
  {
    hide TC.IsLocalSyncError;
  }

  lemma {:induction false} WellformedCoherent(task: StoredTask)
    requires Wellformed(task)
    ensures TC.Coherent(task.state) && ValidTask(task)
  {
  }

  /** What a record tells of is one lifecycle and one outcome. */
  lemma {:induction false} TellsOnce(record: ProjectableRecord, a: TC.TaskState, b: TC.TaskState)
    requires Tells(record, a) && Tells(record, b)
    ensures a.lifecycle == b.lifecycle && a.terminalOutcome == b.terminalOutcome
  {
    hide TroubleHere, Ambiguous;
  }

  /** Outputs come in exactly where the record has some and the task holds none and awaits them; then they wait to be
      materialised, and otherwise the product's results stay. */
  lemma {:induction false} LaterOutputs(record: ProjectableRecord, task: StoredTask)
    requires Stored(record, Some(task)) && Wellformed(task) && record.state != TC.Deleted && RecordReadable(record)
    ensures var next := StoredAs(record, Some(task));
            var takes := record.providerOutputs.Some? && task.state.outputs == []
                         && task.state.resultState in {TC.NotAvailable, TC.PendingMaterialization};
      && next.state.outputs == (if takes then AsTaskOutputs(record.providerOutputs) else task.state.outputs)
      && next.state.resultState ==
           if takes || (task.state.resultState == TC.NotAvailable && record.state == TC.JournalState.Succeeded)
           then TC.PendingMaterialization else task.state.resultState
  {
    MappingTells(record);
    OutputsThere(record);
    hide ProviderState, ValidTask, ProjectionAdmitted, Tells, TellsSync, RecordReadable;
  }

  lemma {:induction false} OutputsThere(record: ProjectableRecord)
    requires RecordReadable(record)
    ensures record.providerOutputs.Some? <==> AsTaskOutputs(record.providerOutputs) != []
  {
    hide SafeId, SafeHash, SafeCode, ContextReadable, PlainName, ArtifactRef;
  }

  /** A later deletion changes nothing but what is seen, the version and the times. */
  lemma {:induction false} LaterDeletion(record: ProjectableRecord, task: StoredTask)
    requires Stored(record, Some(task)) && record.state == TC.Deleted
    ensures var next := StoredAs(record, Some(task));
      next == task.(visibility := Some(Visibility.Deleted), version := task.version + 1,
                    projectedJournalVersion := record.journalVersion,
                    updatedAt := if task.updatedAt > record.updatedAt then task.updatedAt else record.updatedAt)
  {
    hide ValidTask, ProjectionAdmitted;
  }

  /** The outputs are the provider's, in order, and nothing is materialised yet. */
  lemma {:induction false} OutputsCopied(outputs: seq<J.ProviderOutput>)
    ensures var copied := AsTaskOutputs(Some(outputs));
      |copied| == |outputs| && forall i :: 0 <= i < |outputs| ==>
        && copied[i].outputIndex == outputs[i].outputIndex && copied[i].mediaType == outputs[i].mediaType
        && copied[i].providerArtifactRef == Some(outputs[i].artifactRef)
        && copied[i].materializedAssetId.None? && copied[i].materializationErrorCode.None?
  {
  }
}
