# Dreamina runtime, task store and canvas: a Dafny model

A model of the durable generation machinery in `canvas-agent/` and of three small neighbours, with proofs of what it
promises. `dafny verify dfyconfig.toml` checks everything.

## What is modelled

**The shared journal.** Several local processes share one journal file of generation records. They queue jobs, reserve
one of a bounded number of provider slots, pass a fenced CLI arbiter, make their fence durable, and only then spawn a
paid CLI submission; the provider is polled afterwards under leases. `Journal` has records, their validity and the
progression a persist must respect, `JournalRules` the same state by state. `RuntimeSections` gives each
lock-protected read, decide and persist as one decision, and `Runtime` the class whose methods carry them out in
place; `RuntimeLimits` says when deleting and failing can be carried out, and `RuntimeMemory` when a runtime is locked
out by what it remembers. `QueueOrder` has the queue and slot arithmetic, `Reconciler`, `ReconcilerLimits` and
`TaskReconciler` the polling. `RuntimeOutcomes` and `Observations` say, decision by decision, when it is taken and
what it leaves. `World` puts all of them into one state machine: any number of runtimes and reconcilers with any
memory, crashes between any two sections, lease expiry, cancellation, deletion and the synchronous path, with a
history of spawns. `RuntimeRecovery` says where a reload leads, and follows the record of an attempt that may have
spawned through runs. `SubmissionRun` has complete submissions in it and ones that are given up and repeated, and
`PollingRuns` follows poll leases through the same runs.

**The arbiter.** `Arbiter` is the ticket queue with its fenced lease and session epoch, and its reachable states;
`ArbiterProcess` the file steps of replace-with-backup and recovery, where any step may fail or be the last one before
a crash, directory syncs included, and the lease object with its released and lost flags. `ArbiterLeases` says what
each request to the arbiter does, and that a holder who beats in time stays current.

**The product store.** `ProductTask` is one stored record of a generation with its product mutations, `TaskStore` the
disk with tasks, outbox and inbox, every operation on it, compaction, and the progression test of recovery, which
`StoreRecovery` spells out delivery by delivery. `StoreProcess` is the class that changes the parsed file in place.
`StoreProgression`, `StoreSteps`, `StoreRuns` and `Compaction` prove what single calls and disciplined runs keep,
`StoreHistories` what holds of deliveries under any calls at all, and `StoreLimits` and `BorrowedKeys` what the
discipline is for. `StoreAnswers` ties every answer of the store to the files before and after it, and `ProductRules`
says which changes product and projection may make. `Projection`, `ProjectionRuns` and `ProjectionProcess` carry
journal versions into the store, `ProjectionRecovery` a whole journal, record by record. `ProjectionOutcomes` says
what task a record becomes, `ProjectionLimits` which records can be carried, and `Resubmission` what becomes of keys
that were withdrawn and submitted again. `TaskContract` is the reducer and the journal mapping both sides use,
`TaskEvents` what each of its events does. `Keyed` and `Digits` hold list and decimal helpers.

**The neighbours.** `Redactor` is the relay's streaming secret redactor and `RedactorSecrecy` what it hides, `Money`
the printing and reading of amounts, `CanvasOps`, `CanvasRules`, `CanvasReplay`, `Workflow`, `WorkflowShape`,
`WorkflowContents`, `WorkflowProofs`, `Layout` and `GenerationFlow` the canvas operation validator and the generators
whose output it judges, `Sessions` and `SessionOpenings` the signed-session table. `Trimming` is what both a price and
a workflow do with the blanks around a text.

The specification of an operation is not its own last word: what the operation answers and leaves is stated again, of
its inputs and results alone, by lemmas called `...Exactly`, `...Answers` and the like. Predicates of well-formedness
are definitions that follow the parsers. No lemma leaves an induction to be found: each carries `{:induction false}`
and makes its own.

Time is an integer of milliseconds that never runs backwards in `World` and the arbiter; the store and the sessions
assume nothing about the clock. Freshly drawn UUIDs are numbered in the order of drawing. A lock-protected section is
one atomic step.

## Where a promise has a condition

Each of these has an exact statement or a concrete failing input in the model.

* A journal persist may drop a pre-spawn record or lower the ticket counter, and recovery then refuses the file:
  `Journal.RecoveryAcceptsExactly`.
* Deleting a visible task is stored exactly when its slot is not reserved-but-unused, and failing an open task
  exactly when it holds no reservation and the code is well formed, because the result would keep a reservation no
  non-pending record may have: `RuntimeLimits.DeletingStoredExactly`, `RuntimeLimits.FailingStoredExactly`. The
  refused call has already changed the runtime's memory: `RuntimeMemory.BlockedExactly`.
* A runtime that remembers the journal as it once was takes a later one for gone backwards exactly when a remembered
  record was withdrawn and is missing, made anew for another request, or queued again though remembered as pending,
  or a submission remembered as uncertain has been found accepted and is not finished: `RuntimeMemory.StaleExactly`.
  Each of its reloads then throws, while the record is missing or the submission unfinished; the code's own steps
  lead to both:
  `RuntimeMemory.WithdrawalStrands`, `RuntimeMemory.FindingStrands`.
* An observation that comes back to a record finished meanwhile is refused exactly when it is not older than the
  last one and contradicts that outcome: `ReconcilerLimits.LateCommitStoredExactly`.
* A renewal that shortens a lease is written but is no accepted successor: `StoreSteps.HeldCallAcceptedExactly`.
* The store stays readable under compaction if product effects carry product keys, projections and mutations do not,
  every effect of the latter has one consumer that never gives its delivery back, and a key belongs to one stored
  record: `StoreSteps.Disciplined` names these habits, and `StoreLimits` has one exact statement for each of them.
  Exclusive leases and rising fences need none of them, at-most-once completion only the second, and that only for
  the key at hand: `StoreHistories`. `StoreLimits.ProtectionLostExactly` says when a completion loses its
  protection, and `BorrowedKeys.CompletesTwice` is a store in which it does.
* A product effect is completed once per consumer as long as its task is stored, deleted or not; a record dropped
  and created again starts over: `StoreHistories.AtMostOneCompletion`.
* A key can be projected, withdrawn before its spawn and submitted again. The new record is refused from then on if it
  is another request, and as soon as its version is newer if it names another operation id, context or account, even
  when its submission was accepted and paid for: `Resubmission.RequeuedExactly`, `Resubmission.ResubmittedExactly`,
  `Resubmission.BothStrand`. No order of projections runs into a refusal exactly when all the journal has said under
  the key fits together, which a key that is never withdrawn always does: `ProjectionRuns.NeverRefusedExactly`,
  `ProjectionRuns.EvolvingFits`. One refused record keeps every record after it from being projected, and with it
  every task action behind the gate: `ProjectionRecovery.Recover`, `ProjectionRecovery.GateStaysShut`.
* The first versions of a key submitted again as the same request are passed over, as their numbers have been reached:
  `Resubmission.RequeuedExactly`.
* A product mutation that binds a further context field makes every later projection fail that names its context:
  `ProjectionRuns.BoundContextRefusesExactly`. A context the journal accepts but the store cannot spell is never
  projected at all: `Projection.FirstStoredExactly`. Neither is a record whose provider outputs are not stored in
  the order 0, 1, 2, …, which the journal does not ask for: `ProjectionLimits.RecordReadableExactly`.
* `sync_error` and two transitions overwrite a recorded conflict: `TaskContract.ConflictKeptExactly`.
* Chunked redaction equals whole-body redaction exactly when no proper prefix of the secret ends like `[REDACTED]`:
  `Redactor.ChunkingSoundExactly`. A secret without `]` always qualifies.
* Redacted text never contains the secret exactly when the secret overlaps `[REDACTED]` in no way that can show:
  `RedactorSecrecy.HidesExactly`. A secret of more than eight bytes without brackets always qualifies; `RED` does
  not.
* Printed negative amounts are never read back, and `1.-5` is refused only because an int64 subtraction wraps, while
  `1.+5`, `1.+`, `1.-` and `1.-0` are accepted: `Money.ParsesExactly`.
* The canvas validator's index equals what is live throughout an accepted list exactly when no deletion by type
  meets a node of that type added in the same list, no deletion names the private id of a live connection made
  without an id, and no connection is made without an id where its private id is taken:
  `CanvasReplay.MirrorsExactly`. Each of the three passes validation: `CanvasReplay.DeletionByTypeMisses`,
  `CanvasReplay.PrivateIdMisses`, `CanvasReplay.PrivateIdOverwritten`.
* A list the workflow generator returns passes the validator exactly when no connected edge or reference leads from
  a node to itself; the generator does not look: `WorkflowProofs.WorkflowAcceptedExactly`,
  `WorkflowProofs.SelfEdgeRefused`.
* A workflow's reference to a node on the canvas is not connected exactly if the new node that is named like that
  node's identifier is to be joined to the same end: `WorkflowContents.JoinedExactly`,
  `WorkflowContents.ShadowedReference`.
* No request passes at or after the expiry of its session, whatever the clock did before; that a session once found
  expired stays refused needs a clock that does not step back: `Sessions.ExpiredSessionRefused`,
  `Sessions.ExpiredForGood`.

## Model

| member | source | states |
|---|---|---|
| `TaskContract.MergeFieldsExact` | canvas-agent/src/dreamina-task-contract.ts:324-345 | binding succeeds exactly when no incoming field contradicts a bound one, and then adds just the incoming fields |
| `TaskContract.ReduceFollows` | canvas-agent/src/dreamina-task-contract.ts:162-178 | one accepted event keeps TERMINAL tied to an outcome, never lowers the lifecycle, never changes a terminal outcome, rebinds neither account nor context |
| `TaskContract.FoldFollows` | canvas-agent/src/dreamina-task-contract.ts:162-178 | the same over any accepted sequence of events |
| `TaskContract.ConflictKeptExactly` | canvas-agent/src/dreamina-task-contract.ts:164-176 | a recorded conflict survives an event exactly when the event is no accepted sync_error and no transition that resets synchronisation |
| `TaskEvents.TransitionsExactly` | canvas-agent/src/dreamina-task-contract.ts:244-282 | a transition is accepted exactly if it is one of eight steps or stays, names an outcome exactly if it ends, and does not end an uncertain submission; it then only says where the task is |
| `TaskEvents.ObservationsExactly` | canvas-agent/src/dreamina-task-contract.ts:284-322 | an observation is accepted exactly with a time and a sane fence; a foreign one only raises a conflict, any other takes an unfinished task where it says and leaves a finished one, with a conflict if it says otherwise |
| `TaskEvents.SyncExactly` | canvas-agent/src/dreamina-task-contract.ts:166-174 | trouble is recorded exactly under a safe code and blocks exactly for account trouble; recovery clears whatever is no conflict |
| `TaskEvents.BindingExactly` | canvas-agent/src/dreamina-task-contract.ts:324-345 | binding raises a conflict exactly where the account or a field says otherwise, and else adds just the new fields |
| `Journal.VersionRecords` | canvas-agent/src/dreamina-cli-state.ts:427-442 | the versioning loop succeeds exactly when every record progresses, and assigns version 1, the old version, or one more |
| `Journal.AssignJournalVersions` | canvas-agent/src/dreamina-cli-state.ts:427-446 | both loops: accepted exactly when records progress and only pre-spawn intents disappear |
| `Journal.RecoveryAcceptsExactly` | canvas-agent/src/dreamina-cli-state.ts:207-219 | recovery accepts a persisted file exactly when the persist dropped no record and did not lower the ticket counter |
| `Journal.PersistEvolves` | canvas-agent/src/dreamina-cli-state.ts:456-489 | one accepted persist: write-once fields, sticky hidden, rising fences, and a version that rises by one exactly when the record changes |
| `Journal.StepEvolves` | canvas-agent/src/dreamina-cli-state.ts:68-91 | the same for one step of the file |
| `Journal.RunEvolves` | canvas-agent/src/dreamina-cli-state.ts:68-91 | the same over any run of accepted persists for a record that stays present |
| `Journal.ProgressionNotTransitive` | canvas-agent/src/dreamina-cli-state.ts:456-498 | the per-persist test is not transitive: unknown, accepted, failed |
| `Journal.DroppedIntentIsRefusedByRecovery` | canvas-agent/src/dreamina-cli-state.ts:207-219 | a legal persist that drops a pre-spawn record is one recovery refuses |
| `JournalRules.ProgressesExactly` | canvas-agent/src/dreamina-cli-state.ts:456-498 | a record may follow another exactly if its state goes on or an uncertain submission was found out about, leases hold on, and what was said stays said |
| `JournalRules.PersistedExactly` | canvas-agent/src/dreamina-cli-state.ts:427-454 | a persist goes through exactly if every record goes on, only pre-spawn records are left out and the result is valid; it writes the given records under versions 1, the old one or one more |
| `JournalRules.RecoversExactly` | canvas-agent/src/dreamina-cli-state.ts:207-219 | recovery takes the newer file exactly if its counter is no lower and every record has gone on, changed only under a higher version |
| `RuntimeSections.SectionEffect` | canvas-agent/src/dreamina-cli-runtime.ts:1478-1527 | a locked section works on a journal that differs from the file only by recovery, and ends in its decision or in nothing |
| `RuntimeSections.ReloadQuiet` | canvas-agent/src/dreamina-cli-runtime.ts:1478-1527 | recovery of expired reservations and queue leases starts no attempt, loses no receipt and keeps polls |
| `RuntimeSections.PerformsIsSection` | canvas-agent/src/dreamina-cli-runtime.ts:1552-1555 | what the runtime class performs under the lock is such a section |
| `RuntimeRecovery.ReloadedExactly` | canvas-agent/src/dreamina-cli-runtime.ts:1478-1527 | after a reload a pending record without a live hold is failed as interrupted exactly when its owner was never permitted to spawn, and otherwise uncertain; a queued one whose owner is gone is failed; every other record is as it was |
| `RuntimeRecovery.ReloadFailsExactly` | canvas-agent/src/dreamina-cli-runtime.ts:1505-1527 | a reload fails exactly where the file is behind the memory or the recovered journal cannot be stored |
| `RuntimeRecovery.StepKeeps` | canvas-agent/src/dreamina-cli-runtime.ts:1478-1527 | what any step of the system leaves of a record: a spent one stays spent unless an observation or a local failure settles it |
| `RuntimeRecovery.SpentStays` | canvas-agent/src/dreamina-cli-runtime.ts:1494-1501 | over any run: once an attempt may have spawned, its record is never failed, interrupted, cancelled or queued by a reload, an expiry, a crash or another process, and keeps its slot, as long as it is there and nothing settles it |
| `RuntimeRecovery.RunAwaits` | canvas-agent/src/dreamina-cli-runtime.ts:832-900 | in every reachable state the record of an attempt that may have spawned and has not ended is there, in its hands or uncertain, and without a receipt |
| `RuntimeRecovery.PermittedStays` | canvas-agent/src/dreamina-cli-runtime.ts:832-855 | the record of an attempt permitted to spawn holds its slot from there on, over any run |
| `RuntimeOutcomes.EnqueueExactly` | canvas-agent/src/dreamina-cli-runtime.ts:534-592 | a key is queued exactly if it is new and the ticket counter has room; a key that is there is a conflict exactly if it holds another request |
| `RuntimeOutcomes.QueueRenewalExactly` | canvas-agent/src/dreamina-cli-runtime.ts:714-723 | a queue lease is renewed, until now + leaseMs, exactly for the live owner of this request |
| `RuntimeOutcomes.SlotsExactly` | canvas-agent/src/dreamina-cli-runtime.ts:1670-1672 | a slot is taken by exactly what is being submitted, uncertain, or accepted and not ended |
| `RuntimeOutcomes.ReservationExactly` | canvas-agent/src/dreamina-cli-runtime.ts:645-667 | a slot is given exactly to a live queued record of this request with fewer live records ahead than slots are free; it is then held until now + leaseMs and not yet permitted to spawn |
| `RuntimeOutcomes.HoldRenewalExactly` | canvas-agent/src/dreamina-cli-runtime.ts:751-759 | a hold is renewed, until now + leaseMs, exactly for its live holder |
| `RuntimeOutcomes.FenceExactly` | canvas-agent/src/dreamina-cli-runtime.ts:832-855 | a fence is committed exactly by the live holder, under an epoch no older than the record's and for no other account; the holder may then spawn, under this epoch |
| `RuntimeOutcomes.ReceiptExactly` | canvas-agent/src/dreamina-cli-runtime.ts:857-879 | a receipt is recorded exactly for the attempt permitted to spawn under this epoch, account and session; the record is then accepted and free of its hold |
| `RuntimeOutcomes.FailureExactly` | canvas-agent/src/dreamina-cli-runtime.ts:881-900 | a failure is reported exactly by the owner under its epoch; the record goes if nothing was spawned and is uncertain otherwise |
| `RuntimeOutcomes.SubmissionProceeds` | canvas-agent/src/dreamina-cli-runtime.ts:645-900 | what one section of a submission leaves is what the next one asks for |
| `RuntimeOutcomes.CancelExactly` | canvas-agent/src/dreamina-cli-runtime.ts:398-449 | exactly what is queued, or accepted without a receipt, is cancelled; the rest is left alone or not found |
| `RuntimeOutcomes.DeleteExactly` | canvas-agent/src/dreamina-cli-runtime.ts:451-475 | what has not been permitted to spawn goes, everything else is hidden |
| `RuntimeOutcomes.FailExactly` | canvas-agent/src/dreamina-cli-runtime.ts:1009-1017 | exactly a durable record that has not ended is failed |
| `RuntimeOutcomes.DisposeExactly` | canvas-agent/src/dreamina-cli-runtime.ts:1031-1047 | exactly the queued records of this owner are failed, as interrupted |
| `RuntimeOutcomes.WarningExactly` | canvas-agent/src/dreamina-cli-runtime.ts:990-998 | a failed cleanup is noted on exactly the accepted record of its epoch |
| `RuntimeOutcomes.SubmitExactly` | canvas-agent/src/dreamina-cli-runtime.ts:1161-1181 | a synchronous submission is started exactly for a new key while a slot is free |
| `RuntimeLimits.ReplacingExactly` | canvas-agent/src/dreamina-cli-runtime.ts:1543-1550 | one record replaced by a changed progression of itself is stored exactly when it is valid and neither version nor ticket counter has run out |
| `RuntimeLimits.DeletingStoredExactly` | canvas-agent/src/dreamina-cli-runtime.ts:451-475 | deleting a visible durable task is stored exactly when it is not pending with a reserved, unused slot and there is room for another version |
| `RuntimeLimits.FailingStoredExactly` | canvas-agent/src/dreamina-cli-runtime.ts:1009-1017 | failing an open durable task is stored exactly when it holds no reservation, the code is well formed and there is room for another version |
| `RuntimeLimits.ReservedTaskStays` | canvas-agent/src/dreamina-cli-runtime.ts:462-475 | a valid journal with one live reservation, whose task can be neither deleted nor failed |
| `RuntimeMemory.RunLasts` | canvas-agent/src/dreamina-cli-runtime.ts:1514-1519 | over any run of persists a record that is never withdrawn keeps its request and never falls in rank, but for an uncertain submission found accepted |
| `RuntimeMemory.StaleExactly` | canvas-agent/src/dreamina-cli-runtime.ts:1514-1519 | a runtime that remembers an earlier journal of the run takes the later one for gone backwards exactly when a remembered record was withdrawn and is gone, made anew for another request, or queued again though remembered as pending, or an uncertain one was found accepted |
| `RuntimeMemory.WithdrawnWasEarly` | canvas-agent/src/dreamina-cli-state.ts:443-446 | over any run of persists only a record remembered as queued or pending can have been withdrawn |
| `RuntimeMemory.HonestMemoryExactly` | canvas-agent/src/dreamina-cli-runtime.ts:1514-1519 | where no remembered record was withdrawn, exactly when an uncertain one is now accepted |
| `RuntimeMemory.MissingIsStale` | canvas-agent/src/dreamina-cli-runtime.ts:1514-1519 | while a remembered record is missing every reload is refused |
| `RuntimeMemory.BlockedExactly` | canvas-agent/src/dreamina-cli-runtime.ts:462-475 | after a refused delete or failure, over any run of persists, a reload takes the file for gone backwards exactly when the task is missing, belongs to another request or is still open after recovery, or another remembered record stands in the way |
| `RuntimeMemory.BlockedUntilExpiry` | canvas-agent/src/dreamina-cli-runtime.ts:1494-1519 | on an unchanged file every reload fails until the reservation has run out, and none fails for this reason afterwards |
| `RuntimeMemory.WithdrawalStrands` | canvas-agent/src/dreamina-cli-runtime.ts:881-900 | the holder withdraws its unspawned record, and every runtime that remembers it is refused at any time |
| `RuntimeMemory.FindingStrands` | canvas-agent/src/dreamina-cli-runtime.ts:1514-1519 | an uncertain submission is found accepted, and every runtime that remembers the uncertainty is refused |
| `QueueOrder.ComparesEqualExactly` | canvas-agent/src/dreamina-cli-runtime.ts:1687-1693 | the comparator ties two different records exactly when both carry the same ticket, and is antisymmetric |
| `QueueOrder.BeforeIsStrictTotal` | canvas-agent/src/dreamina-cli-runtime.ts:1687-1693 | with ties broken by position, as the stable sort does, the queue order is strict and total |
| `QueueOrder.BeforeExactly` | canvas-agent/src/dreamina-cli-runtime.ts:1687-1693 | the queue is served first come, first served: by ticket, records without one first and by age |
| `QueueOrder.EnqueuedIsLast` | canvas-agent/src/dreamina-cli-runtime.ts:534-592 | a new request comes after every record that waits |
| `QueueOrder.InsertInOrder` | canvas-agent/src/dreamina-cli-runtime.ts:1533-1541 | insertion keeps the order and the elements |
| `QueueOrder.SortLive` | canvas-agent/src/dreamina-cli-runtime.ts:1533-1541 | the live queued records, each once, in queue order |
| `QueueOrder.HasQueuedGenerationPriority` | canvas-agent/src/dreamina-cli-runtime.ts:1533-1541 | true exactly when the record's position in the sorted live queue is below the number of free slots |
| `QueueOrder.PositionCounts` | canvas-agent/src/dreamina-cli-runtime.ts:1533-1541 | a record's position is the number of live queued records before it |
| `QueueOrder.ReservationRespectsQueue` | canvas-agent/src/dreamina-cli-runtime.ts:645-667 | a reservation is granted only to a record with fewer live queued records ahead of it than there are free slots |
| `Runtime.DreaminaCliRuntime.PersistUnlocked` | canvas-agent/src/dreamina-cli-runtime.ts:1543-1550 | writes the journal as one accepted persist, or leaves the file alone |
| `Runtime.DreaminaCliRuntime.RecoverRecords` | canvas-agent/src/dreamina-cli-runtime.ts:1478-1527 | the recovery loop over the records equals record-wise recovery, whose results `RuntimeRecovery.ReloadedExactly` gives |
| `Runtime.DreaminaCliRuntime.MaxTicket` | canvas-agent/src/dreamina-cli-runtime.ts:1478-1527 | the next ticket exceeds every ticket in the journal |
| `Runtime.DreaminaCliRuntime.ReloadFromDisk` | canvas-agent/src/dreamina-cli-runtime.ts:1478-1527 | memory is the file, recovered as `RuntimeRecovery.ReloadedExactly` says; the recovered journal is persisted if it changed |
| `Runtime.DreaminaCliRuntime.Commit` | canvas-agent/src/dreamina-cli-runtime.ts:1552-1555 | one locked decision on the reloaded journal, persisted or refused |
| `Runtime.DreaminaCliRuntime.EnqueueNew` | canvas-agent/src/dreamina-cli-runtime.ts:534-592 | adds the queued record with the next ticket unless the key is taken |
| `Runtime.DreaminaCliRuntime.ReserveSubmissionSlot` | canvas-agent/src/dreamina-cli-runtime.ts:645-667 | reserves within capacity and queue priority, clearing the queue lease |
| `Runtime.DreaminaCliRuntime.RenewQueue` | canvas-agent/src/dreamina-cli-runtime.ts:714-723 | extends the caller's own queue lease only |
| `Runtime.DreaminaCliRuntime.RenewHold` | canvas-agent/src/dreamina-cli-runtime.ts:751-759 | extends the caller's own reservation only |
| `Runtime.DreaminaCliRuntime.CommitInvocationFence` | canvas-agent/src/dreamina-cli-runtime.ts:832-855 | makes the fence durable for the caller's live reservation, before the spawn |
| `Runtime.DreaminaCliRuntime.CommitAcceptedReceipt` | canvas-agent/src/dreamina-cli-runtime.ts:857-879 | records the receipt under the same reservation and fence |
| `Runtime.DreaminaCliRuntime.CommitSubmissionFailure` | canvas-agent/src/dreamina-cli-runtime.ts:881-900 | withdraws an unspawned attempt or leaves a spawned one uncertain |
| `Runtime.DreaminaCliRuntime.CancelTask` | canvas-agent/src/dreamina-cli-runtime.ts:398-449 | cancels a record that is neither terminal, pending nor accepted with a receipt |
| `Runtime.DreaminaCliRuntime.DeleteTask` | canvas-agent/src/dreamina-cli-runtime.ts:451-492 | performs the delete decision; for a reserved, unused slot it is refused, the file stays, and memory holds the record as deleted |
| `Runtime.DreaminaCliRuntime.FailPending` | canvas-agent/src/dreamina-cli-runtime.ts:1009-1029 | fails a durable record that is not terminal |
| `Runtime.DreaminaCliRuntime.InterruptOwned` | canvas-agent/src/dreamina-cli-runtime.ts:1036-1044 | the loop fails exactly the queued records this runtime owns, and tells whether there was one |
| `Runtime.DreaminaCliRuntime.FailOwnedQueuedTasks` | canvas-agent/src/dreamina-cli-runtime.ts:1031-1047 | the disposal loop fails exactly the queued records this runtime owns |
| `Runtime.DreaminaCliRuntime.SubmitWithLock` | canvas-agent/src/dreamina-cli-runtime.ts:1161-1181 | a synchronous submission takes its slot under the lock |
| `Runtime.DreaminaCliRuntime.PersistCleanupWarning` | canvas-agent/src/dreamina-cli-runtime.ts:990-998 | marks an accepted record of this fence, nothing else |
| `World.EnqueuingKeeps` | canvas-agent/src/dreamina-cli-runtime.ts:534-592 | enqueueing keeps the system invariant |
| `World.ReservingKeeps` | canvas-agent/src/dreamina-cli-runtime.ts:645-667 | reserving keeps it: the new attempt is alone on its reservation and within capacity |
| `World.FencingKeeps` | canvas-agent/src/dreamina-cli-runtime.ts:832-855 | making the fence durable keeps it: the attempt is then the only one committed to its key |
| `World.AcceptingKeeps` | canvas-agent/src/dreamina-cli-runtime.ts:857-879 | recording a receipt keeps it: the receipt is this attempt's |
| `World.ReportingKeeps` | canvas-agent/src/dreamina-cli-runtime.ts:881-900 | reporting a failure keeps it: only an unspawned attempt's record goes away |
| `World.SyncStartingKeeps` | canvas-agent/src/dreamina-cli-runtime.ts:1161-1181 | so does a synchronous submission that keeps the lock |
| `World.KeepingKeeps` | canvas-agent/src/dreamina-cli-runtime.ts:398-513 | so do cancel, delete, fail, renewals, reloads and disposal by any process at any time |
| `World.PollingKeeps` | canvas-agent/src/dreamina-task-reconciler.ts:206-332 | so do all reconciler sections |
| `World.NextKeeps` | canvas-agent/src/dreamina-cli-runtime.ts:761-830 | every step of the system keeps the invariant |
| `World.RunInv` | canvas-agent/src/dreamina-cli-runtime.ts:761-830 | it holds in every reachable state |
| `World.AtMostOneSpawn` | canvas-agent/src/dreamina-cli-runtime.ts:761-900 | over every interleaving, crash and expiry an idempotency key has at most one CLI spawn |
| `World.ReceiptsAreGenuine` | canvas-agent/src/dreamina-cli-runtime.ts:857-879 | a recorded receipt is the one that spawn brought back, never a stale attempt's |
| `World.ComparatorIsTotal` | canvas-agent/src/dreamina-cli-runtime.ts:1687-1693 | in every reachable journal no two records tie, so the source's comparator itself is a strict total order |
| `World.CapacityIsKept` | canvas-agent/src/dreamina-cli-runtime.ts:645-667 | no reachable journal has more pending, unknown or accepted records than maxActiveTasks |
| `SubmissionRun.SubmissionCompletes` | canvas-agent/src/dreamina-cli-runtime.ts:832-879 | from any reachable empty journal a task of any identity and session can be queued, reserved, fenced, spawned once and recorded with the receipt it was answered with |
| `SubmissionRun.AttemptWithdrawn` | canvas-agent/src/dreamina-cli-runtime.ts:881-900 | from any reachable empty journal an attempt can be given up before its spawn, with or without its fence, which leaves no record and no spawn |
| `SubmissionRun.ResubmissionCompletes` | canvas-agent/src/dreamina-cli-runtime.ts:832-900 | a run in which the first attempt is withdrawn and the same key submitted again, as the same request or another: one spawn, by the second attempt |
| `Reconciler.ObservationProgresses` | canvas-agent/src/dreamina-task-reconciler.ts:390-416 | committing any observation of an eligible record, also an uncertain one, is a legal progression |
| `Reconciler.ObservationValidExactly` | canvas-agent/src/dreamina-task-reconciler.ts:261-293 | the commit is valid exactly when what it stores fits the mode and the receipt it vouches for is well formed |
| `ReconcilerLimits.LateProgressesExactly` | canvas-agent/src/dreamina-task-reconciler.ts:261-293 | on a finished record the observation is a legal progression exactly when it is older than the last one or agrees with the outcome |
| `ReconcilerLimits.LateCommitStoredExactly` | canvas-agent/src/dreamina-task-reconciler.ts:261-293 | under a held lease, on a record that stopped being eligible, the commit is stored exactly when the observation is older than the last one or agrees with the outcome, and there is room for another version |
| `Reconciler.SyncErrorCommits` | canvas-agent/src/dreamina-task-reconciler.ts:295-308 | a failed poll is always a legal and valid commit |
| `Observations.ObservationExactly` | canvas-agent/src/dreamina-task-reconciler.ts:261-293 | an observation counts exactly for the holder of the lease and then leaves the state it tells of; an older one than the last only gives up the lease and asks again |
| `Observations.SyncErrorExactly` | canvas-agent/src/dreamina-task-reconciler.ts:295-308 | a failed poll counts exactly for the holder, and leaves its code and the longer wait |
| `Observations.ClaimExactly` | canvas-agent/src/dreamina-task-reconciler.ts:206-227 | a claim is granted exactly on the due record that comes before all other due ones, which is then leased as asked |
| `Observations.HoldingExactly` | canvas-agent/src/dreamina-task-reconciler.ts:250-259 | a lease is renewed and given up exactly by its holder |
| `Observations.ReleaseOwnedExactly` | canvas-agent/src/dreamina-task-reconciler.ts:320-332 | an owner who goes away gives up exactly his leases |
| `Observations.SchedulingExactly` | canvas-agent/src/dreamina-task-reconciler.ts:122-152 | a background poll never puts one off, one asked for now is due at once, both only where the record is polled |
| `Observations.InitializingExactly` | canvas-agent/src/dreamina-task-reconciler.ts:97-113 | exactly the polled records without a time are dated |
| `Observations.WellFormedExactly` | canvas-agent/src/dreamina-task-reconciler.ts:428-449 | an observation is well formed exactly with a safe code, and outputs only of a completion, one to four, numbered apart |
| `TaskReconciler.PolledBeforeIsStrictTotal` | canvas-agent/src/dreamina-task-reconciler.ts:380-388 | the polling order is a strict total order |
| `TaskReconciler.ApplyObservation` | canvas-agent/src/dreamina-task-reconciler.ts:390-416 | the in-place update equals the specified observation step |
| `TaskReconciler.DreaminaTaskReconciler.FirstDue` | canvas-agent/src/dreamina-task-reconciler.ts:206-227 | the loop finds the first due record in polling order |
| `TaskReconciler.DreaminaTaskReconciler.ClaimDue` | canvas-agent/src/dreamina-task-reconciler.ts:206-227 | leases that record and nothing else, or changes nothing |
| `TaskReconciler.DreaminaTaskReconciler.Renew` | canvas-agent/src/dreamina-task-reconciler.ts:250-259 | extends only the lease that is still held |
| `TaskReconciler.DreaminaTaskReconciler.Commit` | canvas-agent/src/dreamina-task-reconciler.ts:261-293 | an observation under a held lease, otherwise no change |
| `TaskReconciler.DreaminaTaskReconciler.CommitFailure` | canvas-agent/src/dreamina-task-reconciler.ts:295-308 | a failed poll under a held lease, otherwise no change |
| `TaskReconciler.DreaminaTaskReconciler.Release` | canvas-agent/src/dreamina-task-reconciler.ts:310-318 | gives up only the lease that is still held |
| `TaskReconciler.DreaminaTaskReconciler.ReleaseOwnedLeases` | canvas-agent/src/dreamina-task-reconciler.ts:320-332 | gives up exactly this owner's leases |
| `TaskReconciler.DreaminaTaskReconciler.DateUndated` | canvas-agent/src/dreamina-task-reconciler.ts:97-113 | the loop dates exactly the eligible records without a due time |
| `TaskReconciler.DreaminaTaskReconciler.InitializeDueTimes` | canvas-agent/src/dreamina-task-reconciler.ts:97-113 | dates exactly the eligible records without a due time |
| `PollingRuns.StepPolled` | canvas-agent/src/dreamina-task-reconciler.ts:206-332 | no step but the reconciler's own touches polls, and issued leases are new |
| `PollingRuns.ObservedNeverFalls` | canvas-agent/src/dreamina-task-reconciler.ts:261-293 | lastObservedAt never decreases over any run |
| `PollingRuns.ReplacedLeaseStaysGone` | canvas-agent/src/dreamina-task-reconciler.ts:451-453 | a replaced or released poll lease never comes back |
| `PollingRuns.GoneLeaseIsIgnored` | canvas-agent/src/dreamina-task-reconciler.ts:261-318 | what its holder then reports leaves the journal unchanged |
| `PollingRuns.ClaimsExcludeLiveLeases` | canvas-agent/src/dreamina-task-reconciler.ts:206-227 | no claim is granted while another unexpired lease is on the record |
| `Arbiter.MutateValid` | canvas-agent/src/dreamina-cli-arbiter.ts:220-233 | a mutation only ever writes a valid state: unique ids and tickets, counters above all issued values |
| `Arbiter.MutateProgresses` | canvas-agent/src/dreamina-cli-arbiter.ts:324-329 | the revision and session test accepts every state and its successor |
| `Arbiter.NextKeeps` | canvas-agent/src/dreamina-cli-arbiter.ts:79-200 | every step keeps the arbiter's invariant |
| `Arbiter.RunInv` | canvas-agent/src/dreamina-cli-arbiter.ts:79-200 | it holds in every reachable state |
| `Arbiter.GrantsRise` | canvas-agent/src/dreamina-cli-arbiter.ts:92-113 | granted fence epochs strictly increase, and so do the tickets they served |
| `Arbiter.OneCurrentLease` | canvas-agent/src/dreamina-cli-arbiter.ts:433-435 | at most one lease ever granted is current |
| `Arbiter.EarlierLeaseIsFenced` | canvas-agent/src/dreamina-cli-arbiter.ts:127-200 | once a later lease is granted an earlier one passes no check and none of its commits, advances or heartbeats goes through |
| `Arbiter.GrantsPersist` | canvas-agent/src/dreamina-cli-arbiter.ts:92-113 | the history of grants only grows, so what was fenced stays fenced |
| `Arbiter.GrantsFollowTickets` | canvas-agent/src/dreamina-cli-arbiter.ts:83-121 | a request is granted only after every smaller ticket was granted, expired or withdrawn |
| `Arbiter.FatesAreLeases` | canvas-agent/src/dreamina-cli-arbiter.ts:83-121 | in every reachable state exactly the queued tickets marked as granted have a lease |
| `Arbiter.GrantsFollowLeases` | canvas-agent/src/dreamina-cli-arbiter.ts:83-121 | a lease is granted only after each smaller ticket ever queued had its lease, expired or was withdrawn |
| `ArbiterLeases.GrantsExactly` | canvas-agent/src/dreamina-cli-arbiter.ts:94-114 | a request is granted the lease exactly when it is first in line, nobody holds it and its session is as expected; the lease then runs until now + leaseMs under a fence never issued before |
| `ArbiterLeases.BeatExtends` | canvas-agent/src/dreamina-cli-arbiter.ts:159-168 | a heartbeat goes through exactly for the holder in its session, and the lease then runs until now + leaseMs |
| `ArbiterLeases.HolderStaysCurrent` | canvas-agent/src/dreamina-cli-arbiter.ts:79-200 | over any run a holder whose last grant or beat went through less than leaseMs ago, and who has not released, is current, and nobody else was granted anything meanwhile |
| `ArbiterLeases.ReleaseFrees` | canvas-agent/src/dreamina-cli-arbiter.ts:190-198 | a release frees exactly the lease of its holder |
| `ArbiterLeases.CommitBinds` | canvas-agent/src/dreamina-cli-arbiter.ts:127-138 | a session is committed exactly under a current lease; the epoch rises exactly if the account is another |
| `ArbiterLeases.AdvanceForgets` | canvas-agent/src/dreamina-cli-arbiter.ts:140-147 | advancing forgets the account and outdates every session read before |
| `ArbiterLeases.EnqueueWaits` | canvas-agent/src/dreamina-cli-arbiter.ts:83-90 | a request is turned away exactly when the queue is full of unexpired ones, and else waits behind all of them |
| `ArbiterLeases.WithdrawLeaves` | canvas-agent/src/dreamina-cli-arbiter.ts:202-206 | withdrawing takes out exactly this request |
| `ArbiterLeases.RunProgresses` | canvas-agent/src/dreamina-cli-arbiter.ts:324-329 | over any run every later state is taken for the successor of every earlier one |
| `ArbiterLeases.OlderRefusedExactly` | canvas-agent/src/dreamina-cli-arbiter.ts:324-329 | and an earlier one for the successor of a later one, revision apart, exactly if between them nobody queued, nobody was granted a lease and the session stayed |
| `ArbiterLeases.RefusedExactly` | canvas-agent/src/dreamina-cli-arbiter.ts:324-329 | a file is refused in place of another exactly if it has given out less, or has another account in the same session |
| `ArbiterProcess.FilterQueue` | canvas-agent/src/dreamina-cli-arbiter.ts:202-206 | the filtering loop removes one request and keeps the order of the others |
| `ArbiterProcess.PruneExpired` | canvas-agent/src/dreamina-cli-arbiter.ts:423-426 | expired entries and an expired lease go, nothing else |
| `ArbiterProcess.FirstEntry` | canvas-agent/src/dreamina-cli-arbiter.ts:99-101 | the loop finds the smallest ticket |
| `ArbiterProcess.StateFiles.Recover` | canvas-agent/src/dreamina-cli-arbiter.ts:304-322 | recovery restores or drops the backup, keeps the visible state, and never finds the pair contradictory |
| `ArbiterProcess.StateFiles.Replace` | canvas-agent/src/dreamina-cli-arbiter.ts:274-302 | wherever it stops, exactly the old or the new state is visible; success means the new one |
| `ArbiterProcess.StateFiles.RestoreBackup` | canvas-agent/src/dreamina-cli-arbiter.ts:355-364 | puts the backup back only where no primary is left |
| `ArbiterProcess.StateFiles.Persist` | canvas-agent/src/dreamina-cli-arbiter.ts:254-272 | the same for the whole persist |
| `ArbiterProcess.DreaminaCliArbiter.Apply` | canvas-agent/src/dreamina-cli-arbiter.ts:83-206 | the in-place callbacks equal the specified mutation, each of which `ArbiterLeases` says by what it does to the lease, queue and session |
| `ArbiterProcess.DreaminaCliArbiter.MutateFile` | canvas-agent/src/dreamina-cli-arbiter.ts:220-233 | success leaves the new state, a throw the old one, a crash or I/O error exactly one of them |
| `ArbiterProcess.InvocationLease.Beat` | canvas-agent/src/dreamina-cli-arbiter.ts:159-178 | a heartbeat that goes through leaves this lease running until now + leaseMs in the same session and line; any other marks it lost |
| `ArbiterProcess.InvocationLease.AssertCurrent` | canvas-agent/src/dreamina-cli-arbiter.ts:179-189 | passes only while the lease is neither released, lost nor overtaken |
| `ArbiterProcess.InvocationLease.Free` | canvas-agent/src/dreamina-cli-arbiter.ts:190-198 | release happens once and frees only the own lease |
| `ArbiterProcess.SurviveCrashes` | canvas-agent/src/dreamina-cli-arbiter.ts:304-322 | after any number of crashes during recovery the old or the new state is still there |
| `ProductTask.MutationFollows` | canvas-agent/src/dreamina-task-store.ts:523-548 | a product mutation moves the task forward and touches neither lifecycle, outcome, visibility nor account |
| `ProductTask.TaskFollowsTransitive` | canvas-agent/src/dreamina-task-store.ts:474-492 | moving forward composes |
| `ProductRules.MaterializationExactly` | canvas-agent/src/dreamina-task-store.ts:523-548 | results are reported exactly of a succeeded generation, not back in time, along the nine allowed steps; only the results change |
| `ProductRules.ReportsExactly` | canvas-agent/src/dreamina-task-store.ts:501-521 | the product reports trouble, recovery and context, without an account, and nothing else |
| `ProductRules.TroubleExactly` | canvas-agent/src/dreamina-task-store.ts:523-548 | exactly under a safe code and not back in time |
| `ProductRules.RecoveryExactly` | canvas-agent/src/dreamina-task-store.ts:523-548 | clears whatever is no conflict |
| `ProductRules.BindingExactly` | canvas-agent/src/dreamina-task-store.ts:523-548 | exactly of a generation that has a context, which is added to, or kept with a conflict where a field says otherwise |
| `ProductRules.AdmittedExactly` | canvas-agent/src/dreamina-task-store.ts:474-499 | a later projection is admitted exactly if it keeps origin, context and a known account, carries a later version, brings nothing back to sight, and brings outputs only where they are awaited |
| `StoreProcess.TaskStoreDiskState.CompactTaskList` | canvas-agent/src/dreamina-task-store.ts:684-696 | the loop over deleted tasks equals its specification |
| `StoreProcess.TaskStoreDiskState.CompactOutboxList` | canvas-agent/src/dreamina-task-store.ts:698-711 | the loop dropping effects equals its specification |
| `StoreProcess.TaskStoreDiskState.CompactInboxList` | canvas-agent/src/dreamina-task-store.ts:714-727 | the loop evicting deliveries equals its specification |
| `StoreProcess.TaskStoreDiskState.CompactStoreDisk` | canvas-agent/src/dreamina-task-store.ts:684-733 | all loops in order, and failure exactly when the lists still do not fit |
| `StoreProcess.DreaminaTaskStore.Open` | canvas-agent/src/dreamina-task-store.ts:407-415 | an unreadable file opens nothing |
| `StoreProcess.DreaminaTaskStore.Persist` | canvas-agent/src/dreamina-task-store.ts:417-423 | replaces the file by the compacted state, or leaves it alone |
| `StoreProcess.DreaminaTaskStore.GetTask` | canvas-agent/src/dreamina-task-store.ts:122-125 | reads without writing |
| `StoreProcess.DreaminaTaskStore.CompareAndSwapTask` | canvas-agent/src/dreamina-task-store.ts:143-167 | stores a projection at the expected version together with its effect; any other outcome leaves the file as it was |
| `StoreProcess.DreaminaTaskStore.MutateTask` | canvas-agent/src/dreamina-task-store.ts:169-196 | stores a product mutation at the expected version together with its effect; any other outcome leaves the file as it was |
| `StoreProcess.DreaminaTaskStore.ClaimOutboxEffect` | canvas-agent/src/dreamina-task-store.ts:198-227 | leases a delivery that is neither completed nor leased; any other outcome leaves the file as it was |
| `StoreProcess.DreaminaTaskStore.ClaimProductEffect` | canvas-agent/src/dreamina-task-store.ts:229-290 | leases a product delivery, answers busy, or returns the stored result, as `StoreAnswers.ProductClaimAnswers` says of file and answer; any other outcome leaves the file as it was |
| `StoreProcess.DreaminaTaskStore.RenewProductEffect` | canvas-agent/src/dreamina-task-store.ts:292-316 | extends the lease of its current holder only; any other outcome leaves the file as it was |
| `StoreProcess.DreaminaTaskStore.FinishProductEffect` | canvas-agent/src/dreamina-task-store.ts:318-377 | completes or releases for its current holder only; any other outcome leaves the file as it was |
| `StoreProcess.DreaminaTaskStore.CompleteOutboxEffect` | canvas-agent/src/dreamina-task-store.ts:379-395 | completes for the token's holder only; any other outcome leaves the file as it was |
| `StoreProgression.ShrinksTransitive` | canvas-agent/src/dreamina-task-store.ts:684-733 | dropping for legal reasons twice is dropping for legal reasons |
| `StoreProgression.CompactTasksShrinks` | canvas-agent/src/dreamina-task-store.ts:684-696 | only deleted tasks without pending deliveries go, with all that is theirs |
| `StoreProgression.CompactOutboxShrinks` | canvas-agent/src/dreamina-task-store.ts:698-711 | only product effects and completely delivered ones go, and the rest stays well kept |
| `StoreProgression.CompactInboxShrinks` | canvas-agent/src/dreamina-task-store.ts:714-727 | only released, non-product or orphaned completed deliveries go, and the rest stays well kept |
| `StoreProgression.CompactShrinks` | canvas-agent/src/dreamina-task-store.ts:684-733 | the same for compaction as a whole; no pending delivery is ever dropped |
| `StoreProgression.ExtendThenShrink` | canvas-agent/src/dreamina-task-store.ts:778-828 | carrying on and then compacting passes the progression test |
| `StoreRecovery.RecoversExactly` | canvas-agent/src/dreamina-task-store.ts:778-844 | recovery takes a store file for the successor of another exactly if they are equal, or its revision is higher, every record, effect and delivery has gone on, and nothing is missing but what may be |
| `StoreSteps.HeldCallAcceptedExactly` | canvas-agent/src/dreamina-task-store.ts:830-844 | a call on a held lease persists, and is an accepted successor exactly when it does not shorten the lease |
| `StoreSteps.CallAccepted` | canvas-agent/src/dreamina-task-store.ts:143-395 | whatever a disciplined call persists after compaction is readable, well kept and an accepted successor |
| `Compaction.TasksPolicy` | canvas-agent/src/dreamina-task-store.ts:684-696 | no more tasks go than the capacity demands, only deleted ones and older before younger; if there are still too many, every deleted one that is left has a pending delivery |
| `Compaction.OutboxPolicy` | canvas-agent/src/dreamina-task-store.ts:698-711 | one effect goes at a time and none once it fits, announcements only when no product effect is left; if there are still too many, only announcements not yet delivered are left |
| `Compaction.InboxPolicy` | canvas-agent/src/dreamina-task-store.ts:714-727 | one row goes at a time and none once it fits, completed ones only when no released one is left; if there are still too many, what is left is under way or a product completion of a task that lives |
| `StoreRuns.StepKeeps` | canvas-agent/src/dreamina-task-store.ts:143-395 | every step, reordering included, keeps the disk readable and well kept |
| `StoreHistories.StepCarries` | canvas-agent/src/dreamina-task-store.ts:684-728 | under any call a surviving row keeps its fence or raises it, is raised by a lease, and stays as it is once completed |
| `StoreHistories.LeaseIsExclusive` | canvas-agent/src/dreamina-task-store.ts:198-290 | a pending delivery is leased anew only after its lease ran out, and renewed or finished only before |
| `StoreAnswers.ProductClaimAnswers` | canvas-agent/src/dreamina-task-store.ts:229-290 | from the answer and the files alone: done means the stored row is completed with that result, busy that it is leased until then, claimed that the file now has it leased to this token until then under a fence one higher |
| `StoreAnswers.ProductClaimGranted` | canvas-agent/src/dreamina-task-store.ts:229-290 | a claim that is spelled right and finds the row free is granted, unless the file cannot be stored |
| `StoreAnswers.OutboxClaimAnswers` | canvas-agent/src/dreamina-task-store.ts:198-227 | an outbox claim leases exactly an announced effect whose delivery is neither completed nor leased |
| `StoreAnswers.RenewalAnswers` | canvas-agent/src/dreamina-task-store.ts:292-316 | a renewal is answered with the new expiry exactly for the holder, whose row then runs until it |
| `StoreAnswers.FinishAnswers` | canvas-agent/src/dreamina-task-store.ts:340-377 | finishing is answered true exactly for the holder; the row is then completed with the result, or given back |
| `StoreAnswers.CompletionAnswers` | canvas-agent/src/dreamina-task-store.ts:379-396 | completing an outbox delivery asks for the token of a live lease |
| `StoreAnswers.LeaseUsable` | canvas-agent/src/dreamina-task-store.ts:229-377 | until it runs out and while nobody touches the row, its holder renews, completes and gives back with what was answered |
| `StoreAnswers.SwapAnswers` | canvas-agent/src/dreamina-task-store.ts:143-167 | a swap conflicts exactly where the version is not the expected one, and goes through exactly for a valid, admitted record with an announcement of its own under a free key that fits; it stores and announces what it returns |
| `StoreAnswers.MutationAnswers` | canvas-agent/src/dreamina-task-store.ts:169-196 | a mutation conflicts exactly where there is no record of that version, and goes through exactly if it can be applied and fits; it stores and announces what it returns |
| `StoreAnswers.SwapMisspelled` | canvas-agent/src/dreamina-task-store.ts:143-152 | a swap that names no record, no version or another kind of effect changes nothing |
| `StoreAnswers.MutationMisspelled` | canvas-agent/src/dreamina-task-store.ts:169-196 | nor does a mutation that names no record, no version or no key |
| `StoreAnswers.RenewalMisspelled` | canvas-agent/src/dreamina-task-store.ts:292-316 | nor a renewal whose holder, task, key, fence or length is spelled wrong |
| `StoreAnswers.FinishMisspelled` | canvas-agent/src/dreamina-task-store.ts:340-352 | nor a completion or release, or a result that is |
| `StoreAnswers.UnclaimedSurvives` | canvas-agent/src/dreamina-task-store.ts:684-733 | compaction takes no announcement that nobody has claimed, of a record that is not deleted |
| `StoreAnswers.PendingSurvives` | canvas-agent/src/dreamina-task-store.ts:684-733 | compaction never takes out a pending delivery |
| `StoreAnswers.LiveSurvives` | canvas-agent/src/dreamina-task-store.ts:684-733 | nor a record that is not deleted |
| `StoreHistories.FencesRise` | canvas-agent/src/dreamina-task-store.ts:198-290 | while a row survives its fence never falls and every lease raises it |
| `StoreHistories.StaleHolderRefused` | canvas-agent/src/dreamina-task-store.ts:292-377 | a holder whose fence was overtaken can neither renew nor finish |
| `StoreHistories.CompletedStays` | canvas-agent/src/dreamina-task-store.ts:714-727 | a completed product delivery stays as it is while its task lives |
| `StoreHistories.CompletionCompletes` | canvas-agent/src/dreamina-task-store.ts:318-377 | a completion turns the pending delivery into a completed one with its result and is always persisted |
| `StoreHistories.StepConcluded` | canvas-agent/src/dreamina-task-store.ts:684-733 | one call or reordering: a completed product delivery stays, or its task is no longer stored, or is deleted with neither effect nor delivery left |
| `StoreHistories.AtMostOneCompletion` | canvas-agent/src/dreamina-task-store.ts:340-395 | over any history of any calls, if a consumer completes a product effect twice for one task, that task was gone from the store in between |
| `StoreHistories.LaterClaimsReturnResult` | canvas-agent/src/dreamina-task-store.ts:248-250 | every later claim returns the stored result while the task lives |
| `StoreLimits.DroppingProductExactly` | canvas-agent/src/dreamina-task-store.ts:647-652 | compacting a product effect with deliveries leaves a readable disk exactly when its key has a product prefix |
| `StoreLimits.EvictingRowExactly` | canvas-agent/src/dreamina-task-store.ts:725-726 | evicting a delivery with its effect leaves a readable disk exactly when the key is a product key or has no other delivery |
| `StoreLimits.EvictingReleasedExactly` | canvas-agent/src/dreamina-task-store.ts:714-727 | recovery accepts the eviction of a released delivery exactly when its effect is a product effect or its task deleted |
| `StoreLimits.PushingExactly` | canvas-agent/src/dreamina-task-store.ts:254-265 | pushing a compacted effect again leaves a readable disk exactly when surviving deliveries belong to the same task |
| `StoreLimits.ProtectionLostExactly` | canvas-agent/src/dreamina-task-store.ts:721-727 | a completed product delivery becomes evictable by a call exactly when the call announces a projection or mutation under its key or deletes its task |
| `StoreLimits.SecondConsumerWedges` | canvas-agent/src/dreamina-task-store.ts:725-726 | a second consumer at capacity is granted a claim after which the store cannot be read |
| `BorrowedKeys.CompletesTwice` | canvas-agent/src/dreamina-task-store.ts:169-196 | a mutation under the key of a completed product effect: the completion is compacted away and the effect completed again by the same consumer while its task lives |
| `Projection.MergedCoherent` | canvas-agent/src/dreamina-task-projection.ts:222-246 | merging never lowers the lifecycle nor changes a terminal outcome, and keeps outcome and TERMINAL together |
| `Projection.StoredExactly` | canvas-agent/src/dreamina-task-projection.ts:140-193 | a newer projection is stored exactly when it is a deletion or contradicts neither operation id, context nor account |
| `Projection.FirstStoredExactly` | canvas-agent/src/dreamina-task-projection.ts:140-213 | a first projection is stored exactly when the store can hold its context |
| `Projection.ProjectionFollows` | canvas-agent/src/dreamina-task-projection.ts:140-213 | a stored projection moves the task forward |
| `Projection.ProjectionTakes` | canvas-agent/src/dreamina-task-projection.ts:140-193 | outputs are taken once and only while the product holds none; hidden and conflicts stick; contradicting outcomes are conflicts |
| `ProjectionOutcomes.MappingTells` | canvas-agent/src/dreamina-task-contract.ts:180-242 | which lifecycle, outcome and synchronisation a journal record by itself tells of, state by state |
| `ProjectionOutcomes.LocalExactly` | canvas-agent/src/dreamina-task-contract.ts:358-367 | exactly these error codes count as local trouble |
| `ProjectionOutcomes.FirstProjection` | canvas-agent/src/dreamina-task-projection.ts:140-193 | a first projection carries exactly what the record tells of, its names and its outputs |
| `ProjectionOutcomes.LaterProjection` | canvas-agent/src/dreamina-task-projection.ts:222-246 | a later one puts the task where the record says, unless it is terminal or ahead; a conflict arises exactly where a terminal task meets another outcome |
| `ProjectionOutcomes.LaterOutputs` | canvas-agent/src/dreamina-task-projection.ts:153-158 | outputs come in exactly where the record has some and the task holds none and awaits them |
| `ProjectionOutcomes.LaterDeletion` | canvas-agent/src/dreamina-task-projection.ts:195-220 | a deletion changes only what is seen, the version and the times |
| `ProjectionOutcomes.OutputsCopied` | canvas-agent/src/dreamina-task-projection.ts:153-153 | the outputs are the provider's, in order, and not yet materialised |
| `ProjectionRuns.AttemptExactly` | canvas-agent/src/dreamina-task-projection.ts:74-106 | a version is refused exactly when it cannot be read, belongs to another request, or is newer, no deletion, and contradicts operation id, context or account; it is passed over exactly when it can be read, belongs to the request, and its number has been reached |
| `ProjectionRuns.EvolvingFits` | canvas-agent/src/dreamina-cli-state.ts:456-489 | a record that is never withdrawn fits what it was before |
| `ProjectionRuns.ProjectionNeverRefused` | canvas-agent/src/dreamina-task-store.ts:474-492 | as long as everything the journal has said under a key fits together (one request hash, and no later version names another operation id, context or account), whether withdrawn and submitted again or not, and the product has bound no further context, no projection of any version is refused |
| `ProjectionRuns.ActOnward` | canvas-agent/src/dreamina-task-projection.ts:65-106 | any persist, projection of any version or product mutation moves the task forward |
| `ProjectionRuns.ActKeeps` | canvas-agent/src/dreamina-task-projection.ts:140-193 | persists that can be projected and fit what the key has said before, projections, and mutations that bind no further context keep the task derived from the journal |
| `ProjectionRuns.LivesOnward` | canvas-agent/src/dreamina-task-projection.ts:65-106 | over every interleaving of persists, projections of any version and product mutations rank never falls, a terminal outcome never changes, hidden and deleted are never undone |
| `ProjectionRuns.ReplayChangesNothing` | canvas-agent/src/dreamina-task-projection.ts:85-85 | projecting a version number already reached again, whatever happened since, changes nothing; a key submitted again starts at 1, so its first versions count as reached though none of them was projected |
| `ProjectionRuns.RunNeverRefuses` | canvas-agent/src/dreamina-task-store.ts:474-492 | at no point of a run in which every persisted record fits what its key has said before, and the product binds no further context, is a version of a projectable record refused |
| `ProjectionRuns.NeverRefusedExactly` | canvas-agent/src/dreamina-task-projection.ts:65-106 | for a journal of projectable records: no order of projections ever runs into a refusal exactly when all it has said under the key fits together |
| `ProjectionRuns.ContextChangesExactly` | canvas-agent/src/dreamina-task-contract.ts:324-345 | a stored mutation changes the context exactly when it binds a field that was not bound |
| `ProjectionRuns.BoundContextRefusesExactly` | canvas-agent/src/dreamina-task-store.ts:483-483 | after a stored mutation the next projection that names its context is refused exactly when the mutation bound a further field and the record is no deletion |
| `ProjectionLimits.RecordReadableExactly` | canvas-agent/src/dreamina-task-projection.ts:265-303 | a valid journal record can be projected exactly when its provider outputs, if any, are stored in the order 0, 1, 2, … |
| `ProjectionLimits.MisnumberedNeverProjected` | canvas-agent/src/dreamina-task-projection.ts:288-300 | any other is refused at every attempt |
| `ProjectionLimits.MisnumberedIsValid` | canvas-agent/src/dreamina-cli-state.ts:394-410 | and the journal accepts such records |
| `ProjectionRecovery.Recover` | canvas-agent/src/dreamina-task-projection.ts:57-63 | the round throws exactly when some record is refused, takes over exactly the records before the first refused one, and leaves every other task alone |
| `ProjectionRecovery.RefusedBlocksRest` | canvas-agent/src/dreamina-task-projection.ts:57-63 | one refused record keeps itself and every record after it in id order from being taken |
| `ProjectionRecovery.GateStaysShut` | canvas-agent/src/modules/dreamina-http.ts:74-92 | once a key is projected and the journal holds it as another request, or in a newer version that names another operation id, context or account, every round throws while it does, whatever else happens, and takes neither this record nor any after it |
| `ProjectionRecovery.UndisturbedCompletes` | canvas-agent/src/dreamina-task-projection.ts:57-63 | where all keys lead undisturbed lives the round completes and every task has reached its record |
| `Resubmission.RequeueingReachable` | canvas-agent/src/dreamina-cli-runtime.ts:881-900 | the system takes a key from queued to reserved to withdrawn to queued again, as any request |
| `Resubmission.RequeuedExactly` | canvas-agent/src/dreamina-task-projection.ts:82-85 | if the reserved record was projected, the one queued again is refused exactly when it is another request, and passed over unprojected otherwise |
| `Resubmission.ResubmittingReachable` | canvas-agent/src/dreamina-cli-runtime.ts:881-900 | the system withdraws a fenced attempt and completes a second one under the same key with the only spawn |
| `Resubmission.ResubmittedExactly` | canvas-agent/src/dreamina-task-store.ts:474-487 | if the fenced record was projected, the second attempt's receipt is refused exactly when request, operation id, context or account clash with the attempt that never spawned |
| `Resubmission.BothStrand` | canvas-agent/src/dreamina-task-projection.ts:82-84 | concrete submissions: another request, and another account, refused |
| `ProjectionProcess.EffectKeySafe` | canvas-agent/src/dreamina-task-projection.ts:257-259 | a projection's effect key is valid, is no product key, and names its version |
| `ProjectionProcess.DreaminaTaskProjector.ProjectJournalVersion` | canvas-agent/src/dreamina-task-projection.ts:65-106 | whatever other processes write in between, a returned task carries this record at this version or later, and is what `ProjectionOutcomes` says of the task that was seen; giving up takes four conflicts |
| `Redactor.PrefixSuffixLength` | backend/internal/handler/custom_proxy.go:302-313 | the longest proper prefix of the secret that ends the data |
| `Redactor.RelayStreamRedactor.Push` | backend/internal/handler/custom_proxy.go:282-300 | hands out the replaced text less exactly that tail, which it keeps |
| `Redactor.CutCommutes` | backend/internal/handler/custom_proxy.go:282-300 | replacing, letting go of all but the longest tail and replacing again later is replacing at once |
| `Redactor.StreamedIsWhole` | backend/internal/handler/custom_proxy.go:266-300 | any split streams to the whole-body replacement when the secret cannot reach into replacement text |
| `Redactor.NoBracketNoOverlap` | backend/internal/handler/custom_proxy.go:266-271 | a secret without the closing bracket cannot |
| `Redactor.Counterexample` | backend/internal/handler/custom_proxy.go:282-300 | for any other secret, two chunks that stream to something else |
| `Redactor.ChunkingSoundExactly` | backend/internal/handler/custom_proxy.go:266-313 | every split of every body agrees exactly for the secrets that cannot reach into replacement text |
| `Redactor.CopyCustomRelayStream` | backend/internal/handler/custom_proxy.go:216-244 | the client receives the redaction of the first maxBytes bytes, or a prefix of it when a write fails |
| `RedactorSecrecy.ShownOverlaps` | backend/internal/handler/custom_proxy.go:266-300 | an occurrence of the secret in redacted text overlaps inserted text in a way that can show |
| `RedactorSecrecy.HidesExactly` | backend/internal/handler/custom_proxy.go:266-300 | no redacted text contains the secret exactly when the secret overlaps the replacement in no way that can show |
| `RedactorSecrecy.BracketFreeIsHidden` | backend/internal/handler/custom_proxy.go:266-271 | a secret without brackets that is longer than eight bytes has no such overlap |
| `RedactorSecrecy.StreamHides` | backend/internal/handler/custom_proxy.go:216-244 | for such a secret nothing sent at any point of any split contains it |
| `RedactorSecrecy.SpelledInsideShows` | backend/internal/handler/custom_proxy.go:266-271 | a secret spelled inside the replacement text is shown |
| `Money.ParsesExactly` | backend/payment-plugins/alipay.go:373-406 | a text is accepted exactly when what stands between the white space at its ends denotes an amount that fits int64, and then with that amount |
| `Money.CombinesExactly` | backend/payment-plugins/alipay.go:401-405 | no operation wraps on unsigned amounts; a minus before a non-zero cent is refused because the headroom wraps |
| `Money.SpacesExactly` | backend/payment-plugins/alipay.go:374-374 | what counts as white space |
| `Trimming.StripExactly` | backend/payment-plugins/alipay.go:374-374 | trimming leaves the one text without blanks at its ends that stands between blanks |
| `Money.RoundTripExactly` | backend/payment-plugins/alipay.go:369-406 | reading back a printed amount gives it exactly for n from 0 to 2^63-1 and an error for negative n |
| `CanvasOps.RemoveConnections` | canvas-agent/src/canvas-context.ts:211-216 | removing one at a time drops a key exactly with its last live connection |
| `CanvasOps.ValidateCanvasOps` | canvas-agent/src/canvas-context.ts:199-314 | the loop with its incremental index reports exactly the specified issues |
| `CanvasRules.ReportedExactly` | canvas-agent/src/canvas-context.ts:226-333 | for each of 21 problems, exactly which operation it is reported of, given what is live |
| `CanvasRules.IssuesExactly` | canvas-agent/src/canvas-context.ts:199-314 | over a whole list an issue is reported exactly where its operation is to be blamed, given what the operations before it left |
| `CanvasRules.AcceptedExactly` | canvas-agent/src/canvas-context.ts:199-314 | a list passes exactly if no operation is to be blamed for anything |
| `CanvasReplay.TargetsAgreeExactly` | canvas-agent/src/canvas-context.ts:265-274 | validator and canvas delete the same nodes exactly unless, by type, a node added in the same list is of that type |
| `CanvasReplay.DeletionSafeExactly` | canvas-agent/src/canvas-context.ts:292-299 | an accepted deletion of connections finds all it names exactly when it names no private id of a live unnamed connection |
| `CanvasReplay.StepMirrors` | canvas-agent/src/canvas-context.ts:226-310 | one accepted operation that does not diverge is safe and keeps the index equal to what is live |
| `CanvasReplay.StepParts` | canvas-agent/src/canvas-context.ts:226-310 | one that diverges leaves an index that is not |
| `CanvasReplay.MirrorsExactly` | canvas-agent/src/canvas-context.ts:199-314 | over an accepted list the index equals what is live throughout exactly when no operation diverges, and then nothing missing is touched and no self-connection or duplicate made |
| `CanvasReplay.AcceptedReplays` | canvas-agent/src/canvas-context.ts:199-314 | a condition to be read off the list under which none diverges |
| `CanvasReplay.AcceptedStaysProper` | canvas-agent/src/canvas-context.ts:275-285 | if every connection had live, different ends and no twin before, so it has after a list that never diverges |
| `CanvasReplay.AcceptedIsSensible` | canvas-agent/src/canvas-context.ts:226-333 | every accepted operation has finite numbers, positive sizes, a zoom in range, and no forbidden patch, status or mode |
| `CanvasReplay.DeletionByTypeMisses` | canvas-agent/src/canvas-context.ts:266-266 | the condition on deletion by type is needed |
| `CanvasReplay.PrivateIdMisses` | canvas-agent/src/canvas-context.ts:283-283 | so is the one on deleting by a private connection id |
| `CanvasReplay.PrivateIdOverwritten` | canvas-agent/src/canvas-context.ts:283-283 | and the one on connections that already bear a private id |
| `Workflow.WorkflowOps` | canvas-agent/src/canvas-session.ts:260-332 | the generator's loops equal the specified list, with the same refusals |
| `WorkflowShape.RefusedExactly` | canvas-agent/src/canvas-session.ts:260-316 | which request is refused and with which error: the first faulty node, then an edge, then a reference to no node |
| `WorkflowShape.KindExactly` | canvas-agent/src/canvas-session.ts:338-344 | which type a kind stands for |
| `WorkflowContents.InOrder` | canvas-agent/src/canvas-session.ts:286-332 | nodes, connections, one selection of all new nodes, runs, and nothing else |
| `WorkflowContents.NodeExactly` | canvas-agent/src/canvas-session.ts:278-296 | each node bears its identifier, type and size; the first starts as asked or clear of the canvas, and each later one lies a gap beyond the one before, level with it |
| `WorkflowContents.MadeExactly` | canvas-agent/src/canvas-session.ts:297-325 | two nodes are joined exactly by the edges that are the first under their key |
| `WorkflowContents.JoinedExactly` | canvas-agent/src/canvas-session.ts:297-325 | among names without NUL exactly where that is asked for, in that direction; a reference to a node on the canvas is left out exactly if the new node named like its identifier is joined to the same end |
| `WorkflowContents.ShadowedReference` | canvas-agent/src/canvas-session.ts:317-325 | a granted request whose reference to a node on the canvas is not connected |
| `WorkflowContents.RunExactly` | canvas-agent/src/canvas-session.ts:326-330 | exactly the pictures, videos and sounds are run that ask for it, or all when the request does, each in its mode |
| `WorkflowContents.RunsOnce` | canvas-agent/src/canvas-session.ts:326-330 | no node is run twice |
| `WorkflowProofs.KeyInjective` | canvas-agent/src/canvas-context.ts:335-337 | connection keys of names without NUL tell their ends apart |
| `WorkflowProofs.WorkflowAcceptedExactly` | canvas-agent/src/canvas-session.ts:260-332 | a list the generator returns passes the validator exactly when no edge or reference from a node to itself is the first under its key |
| `WorkflowProofs.PlainWorkflowAcceptedExactly` | canvas-agent/src/canvas-session.ts:297-316 | for reference names without NUL, exactly when no edge and no reference leads from a node to itself |
| `WorkflowProofs.SelfEdgeRefused` | canvas-agent/src/canvas-session.ts:297-307 | one node with an edge to itself is generated and refused |
| `Layout.GeneratedSeparated` | canvas-agent/src/canvas-session.ts:278-296 | generated nodes lie at least 48 apart along the layout axis, in order |
| `Layout.GeneratedClearsExisting` | canvas-agent/src/canvas-session.ts:280-285 | without a start of its own the workflow overlaps no existing node |
| `GenerationFlow.FlowAcceptedExactly` | canvas-agent/src/canvas-session.ts:410-428 | the prompt-to-result flow passes exactly when its numbers are usable and its references are distinct existing nodes |
| `GenerationFlow.FlowMakes` | canvas-agent/src/canvas-session.ts:410-428 | a text, 420 to the right of it the node it and the references lead into, that node alone selected, and run only if asked |
| `Sessions.LocalRuntimeSessionManager.PruneExpired` | canvas-agent/src/local-runtime-session.ts:393-401 | exactly the expired challenges and sessions go |
| `Sessions.LocalRuntimeSessionManager.CreateChallenge` | canvas-agent/src/local-runtime-session.ts:147-174 | one pending challenge per unregistered key, at most 64 in all |
| `Sessions.LocalRuntimeSessionManager.ExchangeChallenge` | canvas-agent/src/local-runtime-session.ts:176-204 | the specified exchange, in place: a challenge is spent whatever comes of it; which exchanges open a session `SessionOpenings.OpenedExactly` says |
| `Sessions.LocalRuntimeSessionManager.VerifyRequest` | canvas-agent/src/local-runtime-session.ts:206-261 | every check in order, and the nonce is used up only by an accepted request |
| `Sessions.LocalRuntimeSessionManager.RevokeOne` | canvas-agent/src/local-runtime-session.ts:263-268 | exactly the named session goes |
| `Sessions.LocalRuntimeSessionManager.RevokeKey` | canvas-agent/src/local-runtime-session.ts:270-292 | the registration, its challenges and its sessions all go |
| `Sessions.StepKeeps` | canvas-agent/src/local-runtime-session.ts:147-351 | identifiers, origins, limits and nonces stay in order |
| `Sessions.PassedRequest` | canvas-agent/src/local-runtime-session.ts:206-261 | all an accepted request was checked against |
| `SessionOpenings.ChallengedExactly` | canvas-agent/src/local-runtime-session.ts:147-174 | a challenge is answered exactly for a trusted origin and a usable key while there is room, and is then pending for them |
| `SessionOpenings.ChallengeRefusals` | canvas-agent/src/local-runtime-session.ts:147-174 | and which error is answered otherwise |
| `SessionOpenings.OpenedExactly` | canvas-agent/src/local-runtime-session.ts:176-204 | an exchange passes exactly when its challenge was pending for this trusted origin, unexpired, and its signature verifies under the challenge's key over its own nonce and expiry; the session carries that key and origin, the scopes, and SESSION_TTL_MS |
| `SessionOpenings.ExchangeRefusals` | canvas-agent/src/local-runtime-session.ts:176-204 | and which error is answered otherwise |
| `SessionOpenings.PassesExactly` | canvas-agent/src/local-runtime-session.ts:206-261 | a request passes exactly when all that is checked holds, and uses up its nonce and nothing else |
| `SessionOpenings.RequestRefusals` | canvas-agent/src/local-runtime-session.ts:206-261 | and is otherwise refused for the first thing that does not hold |
| `SessionOpenings.RevokesExactly` | canvas-agent/src/local-runtime-session.ts:263-292 | revoking ends exactly one session, revoking its key all and only what belongs to that key and origin |
| `SessionOpenings.SessionsGoBack` | canvas-agent/src/local-runtime-session.ts:176-204 | over any run every session goes back to one exchange that was signed for under its key |
| `SessionOpenings.RegistrationsGoBack` | canvas-agent/src/local-runtime-session.ts:176-204 | so does every registration that was not there at the start |
| `SessionOpenings.ChallengesGoBack` | canvas-agent/src/local-runtime-session.ts:147-174 | every challenge was handed out for its origin and key, CHALLENGE_TTL_MS before it expires |
| `Sessions.NonceAcceptedOnce` | canvas-agent/src/local-runtime-session.ts:226-259 | over any run a session accepts a nonce at most once |
| `Sessions.ExpiredSessionRefused` | canvas-agent/src/local-runtime-session.ts:206-214 | no request on a session passes at or after the expiry it was opened with |
| `Sessions.ExpiredForGood` | canvas-agent/src/local-runtime-session.ts:206-214 | while the clock does not step back, a session once expired is refused for good, in the table or not |
| `Sessions.GoneSessionRefused` | canvas-agent/src/local-runtime-session.ts:383-391 | a session that was removed, by its timer, a revocation, a disposal or a request that found it expired, never accepts a request again |
| `Sessions.RevokedKeyRefused` | canvas-agent/src/local-runtime-session.ts:270-292 | revoking a key ends all its sessions for good |
| `Sessions.ChallengeOpensOnce` | canvas-agent/src/local-runtime-session.ts:176-204 | a challenge opens at most one session |

## Left out

- The lock directories: a critical section is atomic, and losing the lock in the middle of one is not modelled.
- Journal array order and duplicate keys: the journal is a map from keys to records, and a key is its rank in collation order.
- Timestamps as text, and the formats of the journal's hashes, identifiers and owner ids.
- Counters running into 2^53 in the store's revision and fences; versions, tickets and epochs are bounded as in the code.
- The sorts after compaction in the store: `StoreRuns` and `StoreHistories` allow any reordering at any time instead.
- The file steps of replace-with-backup for the journal and the store, which follow the arbiter's; for those two only the test recovery applies to a pair of files is modelled.
- A deleted record that compaction removed from the store and that is projected again from the journal.
- Other processes that write to the store in the middle of a `recover` round, and the consumers of the effects.
- ProjectionProcess.DreaminaTaskProjector.ProjectJournalVersion: what others write in between is any file content, so nothing is promised about the file itself, because that is what the store's own methods state.
- Runtime.DreaminaCliRuntime.ReloadFromDisk: an absent journal reads as an empty one, so the ticket counter is 1 where the source keeps the runtime's own, because the two differ only if a journal file disappears, which no step of the code does.
- StoreHistories.FencesRise: while the row survives, because a released delivery may be compacted and its fence then starts again at 1.
- StoreHistories.AtMostOneCompletion: for as long as the task is stored, because a record that compaction dropped and a projection created again has no memory of its deliveries.
- Polling timers, wake-ups, back-off and jitter: due times are parameters. Provider answers are parameters as well.
- Child processes, staging of references, artifact bytes, HTTP handlers, schemas and command lines.
- The synchronous path's polling of its own receipt and the in-memory promises and heartbeats of the runtime; `World` lets a runtime remember anything.
- Texts of validation messages, list elements and ids that are no strings, and the canvas state hash.
- Titles, prompts and metadata of generated canvas nodes; identifiers are assumed new to the canvas, numbers in a workflow request finite.
- Origin and key parsing, signatures and random bytes of the session table: origins are names, the signature check is a parameter. `Sessions` keeps endpoint and instance out of payloads, where they are constants.
- JavaScript's and Go's text handling beyond what is read here: trimming, splitting and integer parsing are modelled, encodings are not.
- The payment plugin apart from its two amount functions, the relay apart from its redactor and copy loop, and all of `web/`.
