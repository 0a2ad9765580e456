/** The calls a task store accepts and what each leaves on disk. */
module StoreSteps {
  import opened Wrappers
  import opened ProductTask
  import opened Keyed
  import opened TaskStore
  import opened StoreProgression
  import TC = TaskContract

  datatype Call =
    | Swap(taskId: string, expectedVersion: int, input: StoredTask, effect: EffectInput, now: Time)
    | Mutation(taskId: string, expectedVersion: int, mutation: ProductMutation, effectKey: string, now: Time)
    | LeaseOutbox(consumerId: string, effectKey: string, leaseMs: int, now: Time, token: Uuid)
    | LeaseProduct(consumerId: string, taskId: string, effectKey: string, leaseMs: int, now: Time, token: Uuid)
    | Renewal(consumerId: string, taskId: string, effectKey: string, leaseToken: Uuid, fence: int, leaseMs: int,
      now: Time)
    | Finishing(consumerId: string, taskId: string, effectKey: string, leaseToken: Uuid, fence: int, finish: Finish,
      now: Time)
    | Completion(consumerId: string, effectKey: string, leaseToken: Uuid, now: Time)

  function DiskOf<T>(decision: Decision<T>): Option<Disk> {
    if decision.Writes? then Some(decision.disk) else None
  }

  /** The disk a call hands to persist, if it has anything to write. */
  function Written(disk: Disk, call: Call): Option<Disk> {
    match call
    case Swap(id, expected, input, effect, now) => DiskOf(CompareAndSwap(disk, id, expected, input, effect, now))
    case Mutation(id, expected, mutation, key, now) => DiskOf(Mutate(disk, id, expected, mutation, key, now))
    case LeaseOutbox(consumer, key, leaseMs, now, token) =>
        DiskOf(ClaimOutbox(disk, consumer, key, leaseMs, now, token))
    case LeaseProduct(consumer, id, key, leaseMs, now, token) =>
        DiskOf(ClaimProduct(disk, consumer, id, key, leaseMs, now, token))
    case Renewal(consumer, id, key, token, fence, leaseMs, now) =>
        DiskOf(RenewProduct(disk, consumer, id, key, token, fence, leaseMs, now))
    case Finishing(consumer, id, key, token, fence, finish, now) =>
        DiskOf(FinishProduct(disk, consumer, id, key, token, fence, finish, now))
    case Completion(consumer, key, token, now) => DiskOf(CompleteOutbox(disk, consumer, key, token, now))
  }

  /** What the call persists; None when it writes nothing or compaction cannot make room. */
  function After(disk: Disk, call: Call, capacity: Capacity): Option<Disk> {
    var written := Written(disk, call);
    if written.Some? then Persisted(written.value, capacity) else None
  }

  /** How callers use effect keys: product keys name product effects of one task, and the effects of
      projections and mutations have one consumer each, which never gives a delivery back. */
  predicate Disciplined(disk: Disk, call: Call) {
    match call
    case Swap(_, _, _, effect, _) => !ProductKey(effect.effectKey)
    case Mutation(_, _, _, key, _) => !ProductKey(key)
    case LeaseOutbox(consumer, key, _, _, _) =>
      ProductKey(key) || forall r :: r in disk.inbox && r.effectKey == key ==> r.consumerId == consumer
    case LeaseProduct(_, id, key, _, _, _) =>
      ProductKey(key) && forall r :: r in disk.inbox && r.effectKey == key ==> r.taskId == id
    case Finishing(_, _, key, _, _, finish, _) => finish.Release? ==> ProductKey(key)
    case _ => true
  }

  /** A renewal that does not move the expiry of the lease it renews backwards. */
  predicate LeaseNotShortened(disk: Disk, call: Call) {
    call.Renewal? ==>
      var row := RowOf(disk, call.consumerId, call.effectKey);
      row.Some? && row.value.delivery.Pending? ==> call.now + call.leaseMs >= row.value.delivery.leaseExpiresAt
  }

  lemma {:induction false} SwapIsTaskStep(disk: Disk, call: Call)
    returns (task: StoredTask, effect: Effect)
    requires call.Swap? && Written(disk, call).Some? && Disciplined(disk, call)
    ensures TaskStep(disk, Written(disk, call).value, task, effect)
  {
    hide Find, Put, ValidTask, ValidEffect, ProductKey, ProjectionOutputsAllowed, ProjectionResultAllowed, SafeTaskId;
    var current := TaskOf(disk, call.taskId);
    task := call.input.(taskId := call.taskId, version := VersionOf(current) + 1);
    effect := NewEffect(call.effect, task, call.now).value;
  }

  lemma {:induction false} MutationIsTaskStep(disk: Disk, call: Call)
    returns (task: StoredTask, effect: Effect)
    requires call.Mutation? && Written(disk, call).Some? && Disciplined(disk, call)
    ensures TaskStep(disk, Written(disk, call).value, task, effect)
  {
    hide Find, Put, ValidTask, ValidEffect, ProductKey, SafeTaskId, TC.Reduce;
    var current := TaskOf(disk, call.taskId).value;
    task := ApplyProductMutation(current, call.mutation).value.(taskId := call.taskId, version := current.version + 1);
    effect := NewEffect(EffectInput(call.effectKey, TaskMutated, call.taskId, None), task, call.now).value;
    MutationProgresses(current, call.mutation);
  }

  lemma {:induction false} MutationProgresses(current: StoredTask, mutation: ProductMutation)
    requires ApplyProductMutation(current, mutation).Ok?
    ensures var next := ApplyProductMutation(current, mutation).value;
      next.origin == current.origin && next.visibility == current.visibility &&
      next.projectedJournalVersion == current.projectedJournalVersion &&
      next.state.accountBinding == current.state.accountBinding
  {
    hide TC.Reduce;
  }

  lemma {:induction false} OutboxLeaseAccepted(disk: Disk, call: Call, capacity: Capacity)
    requires WellKept(disk) && call.LeaseOutbox? && Disciplined(disk, call)
    ensures After(disk, call, capacity).Some? ==> Accepted(disk, After(disk, call, capacity).value, capacity)
  {
    hide Find, Put, ValidTask, ValidEffect, ProductKey, SafeTaskId, Persisted, Accepted;
    if Written(disk, call).Some? {
      var effect := EffectOf(disk, call.effectKey).value;
      var row := RowOf(disk, call.consumerId, call.effectKey);
      var claimed := ClaimedRow(row, call.consumerId, effect.taskId, call.effectKey, call.token,
        call.now + call.leaseMs);
      EffectRowsAgree(disk, effect);
      ClaimedFits(disk, claimed, row);
      ExtendsSelf(disk);
      LeaseAccepted(disk, disk, claimed, capacity);
    }
  }

  lemma {:induction false} EffectRowsAgree(disk: Disk, effect: Effect)
    requires WellKept(disk) && EffectOf(disk, effect.effectKey) == Some(effect)
    ensures forall r :: r in disk.inbox && r.effectKey == effect.effectKey ==> r.taskId == effect.taskId
  {
    forall r | r in disk.inbox && r.effectKey == effect.effectKey ensures r.taskId == effect.taskId {
      assert RowRefers(disk, r);
    }
  }

  lemma {:induction false} ClaimedFits(disk: Disk, claimed: Row, row: Option<Row>)
    requires WellKept(disk) && claimed.delivery.Pending? && claimed.fence == NextFence(row)
    requires row == RowOf(disk, claimed.consumerId, claimed.effectKey)
    requires SafeId(claimed.consumerId, 1, 120) && ValidEffectKey(claimed.effectKey)
    requires EffectOf(disk, claimed.effectKey).Some? && EffectOf(disk, claimed.effectKey).value.taskId == claimed.taskId
    requires forall r :: r in disk.inbox && r.effectKey == claimed.effectKey ==>
                           r.taskId == claimed.taskId
                             && (ProductKey(claimed.effectKey) || r.consumerId == claimed.consumerId)
    ensures RowFits(disk, claimed)
  {
    hide SafeId, ProductKey, SafeTaskId, Find;
    assert ValidEffect(EffectOf(disk, claimed.effectKey).value);
    if row.Some? {
      assert ValidRow(row.value);
    }
  }

  lemma {:induction false} ExtendsSelf(disk: Disk)
    requires WellKept(disk)
    ensures Extends(disk, disk)
  {
    hide RowProgresses, TaskProgresses;
    forall t | t in disk.tasks ensures TaskOf(disk, t.taskId) == Some(t) && TaskProgresses(t, t) {
      FindUnique(disk.tasks, TaskId, t);
      VisibilityNeverResurrectsItself(t);
    }
    forall r | r in disk.inbox ensures RowOf(disk, r.consumerId, r.effectKey) == Some(r) && RowProgresses(r, r) {
      FindUnique(disk.inbox, RowId, r);
      RowProgressesItself(r);
    }
  }

  /** Pushing a compacted product effect again. */
  lemma {:induction false} PushWellKept(disk: Disk, effect: Effect)
    requires WellKept(disk) && ValidEffect(effect) && effect.kind == ProductEffect && ProductKey(effect.effectKey)
    requires EffectOf(disk, effect.effectKey).None? && TaskOf(disk, effect.taskId).Some?
    requires forall r :: r in disk.inbox && r.effectKey == effect.effectKey ==> r.taskId == effect.taskId
    ensures var pushed := disk.(outbox := disk.outbox + [effect]); WellKept(pushed) && Extends(disk, pushed)
  {
    hide ValidTask, ValidEffect, ValidRow, Find, ProductKey, RowProgresses, TaskProgresses;
    var pushed := disk.(outbox := disk.outbox + [effect]);
    PutEffect(disk, effect);
    forall r | r in pushed.inbox ensures RowRefers(pushed, r) {
      assert RowRefers(disk, r);
    }
    ExtendsSelf(disk);
  }

  lemma {:induction false} ProductLeaseAccepted(disk: Disk, call: Call, capacity: Capacity)
    requires WellKept(disk) && call.LeaseProduct? && Disciplined(disk, call)
    ensures After(disk, call, capacity).Some? ==> Accepted(disk, After(disk, call, capacity).value, capacity)
  {
    hide Find, Put, ValidTask, ProductKey, SafeTaskId, SafeId, Persisted, Accepted, Extends, WellKept;
    if Written(disk, call).Some? {
      var task := TaskOf(disk, call.taskId).value;
      var row := RowOf(disk, call.consumerId, call.effectKey);
      var effect := Effect(call.effectKey, ProductEffect, call.taskId, None, task.version, call.now);
      var missing := EffectOf(disk, call.effectKey).None?;
      var pushed := if missing then disk.(outbox := disk.outbox + [effect]) else disk;
      if missing {
        TaskVersionSafe(disk, task);
        PushWellKept(disk, effect);
        WellKeptDistinct(disk);
        PutEffect(disk, effect);
      } else {
        ExtendsSelf(disk);
      }
      var claimed := ClaimedRow(row, call.consumerId, call.taskId, call.effectKey, call.token, call.now + call.leaseMs);
      ClaimedFits(pushed, claimed, row);
      LeaseAccepted(disk, pushed, claimed, capacity);
    }
  }

  lemma {:induction false} TaskVersionSafe(disk: Disk, task: StoredTask)
    requires WellKept(disk) && task in disk.tasks
    ensures 1 <= task.version <= MAX_SAFE_INTEGER
  {
    assert ValidTask(task);
  }

  /** A row put back in another state still fits where it was. */
  lemma {:induction false} ChangedFits(disk: Disk, row: Row, delivery: Delivery)
    requires WellKept(disk) && row in disk.inbox
    requires delivery.Completed? && delivery.result.Some? ==> ValidResult(delivery.result.value)
    requires delivery.Released? ==> ProductKey(row.effectKey)
    ensures RowFits(disk, row.(delivery := delivery))
  {
    hide SafeId, ProductKey, SafeTaskId, Find, ValidResult;
    assert ValidRow(row) && RowRefers(disk, row);
  }

  /** The row and the state it is put in by a call on a held lease. */
  function Changed(disk: Disk, call: Call): Option<(Row, Delivery)> {
    match call
    case Renewal(consumer, _, key, token, _, leaseMs, now) =>
      if RowOf(disk, consumer, key).Some? then Some((RowOf(disk, consumer, key).value, Pending(token, now + leaseMs)))
        else None
    case Finishing(consumer, _, key, _, _, finish, now) =>
      if RowOf(disk, consumer, key).Some? then
        Some((RowOf(disk, consumer, key).value,
          match finish case Release => Released(now) case Complete(result) => Completed(now, Some(result))))
      else None
    case Completion(consumer, key, _, now) =>
      if RowOf(disk, consumer, key).Some? then Some((RowOf(disk, consumer, key).value, Completed(now, None))) else None
    case _ => None
  }

  lemma {:induction false} HeldCallChanges(disk: Disk, call: Call)
    requires (call.Renewal? || call.Finishing? || call.Completion?) && Written(disk, call).Some?
    ensures Changed(disk, call).Some?
    ensures var (row, delivery) := Changed(disk, call).value;
      && row in disk.inbox && RowOf(disk, row.consumerId, row.effectKey) == Some(row)
      && Written(disk, call) == Some(WithDelivery(disk, row, delivery))
      && row.delivery.Pending? && row.consumerId == call.consumerId && row.effectKey == call.effectKey
      && (delivery.Completed? && delivery.result.Some? ==> ValidResult(delivery.result.value))
      && (delivery.Released? ==> call.Finishing? && call.finish.Release?)
      && (call.Renewal? ==> row.delivery.leaseToken == call.leaseToken)
      && (!call.Renewal? ==> !delivery.Pending?)
  {
    hide Find, Put, ValidResult, SafeId, SafeTaskId;
  }

  /** Calls on a held lease are accepted, except that a renewal is accepted exactly when it does not move
      the expiry backwards; otherwise a crash while the backup is still there wedges the store. */
  lemma {:induction false} HeldCallAcceptedExactly(disk: Disk, call: Call, capacity: Capacity)
    requires WellKept(disk) && Within(disk, capacity) && Disciplined(disk, call)
    requires (call.Renewal? || call.Finishing? || call.Completion?) && Written(disk, call).Some?
    ensures After(disk, call, capacity).Some?
    ensures var after := After(disk, call, capacity).value;
      && Readable(after, capacity) && WellKept(after)
      && (Accepted(disk, after, capacity) <==> LeaseNotShortened(disk, call))
  {
    hide Find, Put, ValidResult, SafeId, SafeTaskId, WellKept, Readable, StoreProgresses, ProductKey, Persisted,
      Written;
    HeldCallChanges(disk, call);
    var (row, delivery) := Changed(disk, call).value;
    ChangedFits(disk, row, delivery);
    ChangeAccepted(disk, row.(delivery := delivery), capacity);
  }

  lemma {:induction false} TaskCallAccepted(disk: Disk, call: Call, capacity: Capacity)
    requires WellKept(disk) && Within(disk, capacity) && Disciplined(disk, call)
    requires call.Swap? || call.Mutation?
    ensures After(disk, call, capacity).Some? ==> Accepted(disk, After(disk, call, capacity).value, capacity)
  {
    hide WellKept, Accepted, TaskStep, Written, Disciplined, Persisted;
    if Written(disk, call).Some? {
      if call.Swap? {
        var task, effect := SwapIsTaskStep(disk, call);
        TaskStepAccepted(disk, Written(disk, call).value, task, effect, capacity);
      } else {
        var task, effect := MutationIsTaskStep(disk, call);
        TaskStepAccepted(disk, Written(disk, call).value, task, effect, capacity);
      }
    }
  }

  /** Main result: from a readable and well-kept disk, whatever a disciplined call persists after compaction can be
      read again, is well kept, and passes recovery's comparison with the disk before it. */
  lemma {:induction false} CallAccepted(disk: Disk, call: Call, capacity: Capacity)
    requires WellKept(disk) && Within(disk, capacity) && Disciplined(disk, call) && LeaseNotShortened(disk, call)
    ensures After(disk, call, capacity).Some? ==> Accepted(disk, After(disk, call, capacity).value, capacity)
  {
    hide WellKept, Within, Disciplined, LeaseNotShortened, Accepted, Written, Persisted;
    if call.Swap? || call.Mutation? {
      TaskCallAccepted(disk, call, capacity);
    } else if call.LeaseOutbox? {
      OutboxLeaseAccepted(disk, call, capacity);
    } else if call.LeaseProduct? {
      ProductLeaseAccepted(disk, call, capacity);
    } else if Written(disk, call).Some? {
      HeldCallAcceptedExactly(disk, call, capacity);
    }
  }
}
