/** DreaminaTaskStore itself: each method reads the file under the lock, changes the state in memory, compacts it
    and writes it back. */
module StoreProcess {
  import opened Wrappers
  import opened ProductTask
  import opened Keyed
  import opened TaskStore

  /** The parsed file, changed in place by the store's methods. */
  class TaskStoreDiskState {
    var revision: int
    var tasks: seq<StoredTask>
    var outbox: seq<Effect>
    var inbox: seq<Row>

    constructor (disk: Disk)
      ensures Value() == disk
    {
      revision, tasks, outbox, inbox := disk.revision, disk.tasks, disk.outbox, disk.inbox;
    }

    function Value(): Disk
      reads this
    {
      Disk(revision, tasks, outbox, inbox)
    }

    method CompactTaskList(capacity: Capacity)
      modifies this
      ensures Value() == CompactTasks(old(Value()), capacity)
    {
      if |tasks| > capacity.maxTasks {
        var deleted := SortByAge(Filter(tasks, IsDeleted));
        var i := 0;
        while i < |deleted|
          invariant i <= |deleted|
          invariant DropTasks(Value(), deleted[i..], capacity) == CompactTasks(old(Value()), capacity)
        {
          if |tasks| <= capacity.maxTasks {
            break;
          }
          var id := deleted[i].taskId;
          assert deleted[i..][1..] == deleted[i + 1..];
          i := i + 1;
          if HasPendingRow(Value(), id) {
            continue;
          }
          tasks := Filter(tasks, NotTask(id));
          outbox := Filter(outbox, NotTaskEffect(id));
          inbox := Filter(inbox, NotTaskRow(id));
        }
      }
    }

    method CompactOutboxList(capacity: Capacity)
      modifies this
      ensures Value() == CompactOutbox(old(Value()), capacity)
    {
      while |outbox| > capacity.maxEffects
        invariant CompactOutbox(Value(), capacity) == CompactOutbox(old(Value()), capacity)
        decreases |outbox|
      {
        var i := FirstIndex(outbox, IsProduct);
        if i == |outbox| {
          i := FirstIndex(outbox, IsDone(inbox));
        }
        if i == |outbox| {
          break;
        }
        var candidate := outbox[i];
        WithoutEffectShorter(Value(), candidate);
        outbox := Filter(outbox, NotEffect(candidate.effectKey));
        if candidate.kind != ProductEffect {
          inbox := Filter(inbox, NotDelivery(candidate.effectKey));
        }
      }
    }

    method CompactInboxList(capacity: Capacity)
      modifies this
      ensures Value() == CompactInbox(old(Value()), capacity)
    {
      while |inbox| > capacity.maxEffects
        invariant CompactInbox(Value(), capacity) == CompactInbox(old(Value()), capacity)
        decreases |inbox|
      {
        var i := FirstIndex(inbox, IsReleased);
        if i == |inbox| {
          i := FirstIndex(inbox, IsEvictable(Value()));
        }
        if i == |inbox| {
          break;
        }
        var candidate := inbox[i];
        inbox := RemoveAt(inbox, i);
        outbox := Filter(outbox, NotEffect(candidate.effectKey));
      }
    }

    /** compactStoreDisk. */
    method CompactStoreDisk(capacity: Capacity) returns (ok: bool)
      modifies this
      ensures Value() == Compact(old(Value()), capacity) && ok == Within(Value(), capacity)
    {
      CompactTaskList(capacity);
      CompactOutboxList(capacity);
      CompactInboxList(capacity);
      CompactOutboxList(capacity);
      ok := |tasks| <= capacity.maxTasks && |outbox| <= capacity.maxEffects && |inbox| <= capacity.maxEffects;
    }

    /** Overwrites the row at `i`, or appends when there is none. */
    method SetRow(i: nat, row: Row)
      requires i == FirstIndex(inbox, HasRowId(RowId(row)))
      modifies this
      ensures Value() == old(Value()).(inbox := Put(old(inbox), RowId, row))
    {
      if i < |inbox| {
        PutAt(inbox, RowId, row, i);
        inbox := inbox[i := row];
      } else {
        PutAppends(inbox, RowId, row);
        inbox := inbox + [row];
      }
    }

    /** Overwrites the task at `i`, or appends when there is none. */
    method SetTask(i: nat, task: StoredTask)
      requires i == FirstIndex(tasks, HasTaskId(task.taskId))
      modifies this
      ensures Value() == old(Value()).(tasks := Put(old(tasks), TaskId, task))
    {
      if i < |tasks| {
        PutAt(tasks, TaskId, task, i);
        tasks := tasks[i := task];
      } else {
        PutAppends(tasks, TaskId, task);
        tasks := tasks + [task];
      }
    }
  }

  function HasTaskId(id: string): StoredTask -> bool { (task: StoredTask) => TaskId(task) == id }
  function HasRowId(id: (string, string)): Row -> bool { (row: Row) => RowId(row) == id }

  lemma {:induction false} FindByIndex<T(!new), K>(items: seq<T>, key: T -> K, wanted: K, has: T -> bool)
    requires forall x :: has(x) <==> key(x) == wanted
    ensures var i := FirstIndex(items, has);
      Find(items, key, wanted) == if i < |items| then Some(items[i]) else None
    decreases |items|
  {
    if items != [] && key(items[0]) != wanted {
      FindByIndex(items[1..], key, wanted, has);
    }
  }

  /** What a call returns and leaves in the file, given what was decided under the lock. */
  predicate Concluded<T(==)>(before: Option<Disk>, after: Option<Disk>, capacity: Capacity, decision: Decision<T>,
      r: Result<T, StoreError>) {
    match decision
    case Fails(error) => r == Err(error) && after == before
    case Keeps(answer) => r == Ok(answer) && after == before
    case Writes(disk, answer) =>
      match Persisted(disk, capacity)
      case Some(persisted) => r == Ok(answer) && after == Some(persisted)
      case None => r == Err(Invalid) && after == before
  }

  class DreaminaTaskStore {
    const capacity: Capacity
    /** The state file; absent before the first write. */
    var file: Option<Disk>

    constructor (capacity: Capacity)
      requires ValidCapacity(capacity)
      ensures this.capacity == capacity && file == None
    {
      this.capacity := capacity;
      file := None;
    }

    function Contents(): Disk
      reads this
    {
      file.GetOr(EMPTY)
    }

    /** An unreadable file fails every call and stays as it is; otherwise the call is decided on its contents. */
    ghost predicate Ran<T>(before: Option<Disk>, decision: Decision<T>, r: Result<T, StoreError>)
      reads this
    {
      if before.Some? && !Readable(before.value, capacity) then r == Err(Invalid) && file == before
      else Concluded(before, file, capacity, decision, r)
    }

    /** The exclusive section's reading part. */
    method Open() returns (state: Option<TaskStoreDiskState>)
      ensures state.Some? <==> (file.Some? ==> Readable(file.value, capacity))
      ensures state.Some? ==> fresh(state.value) && state.value.Value() == Contents()
    {
      if file.Some? && !Readable(file.value, capacity) {
        return None;
      }
      var disk := new TaskStoreDiskState(Contents());
      return Some(disk);
    }

    /** persist: compact, count up and replace the file, or fail without touching it. */
    method Persist(state: TaskStoreDiskState) returns (ok: bool)
      modifies this`file, state
      ensures ok <==> Persisted(old(state.Value()), capacity).Some?
      ensures file == if ok then Persisted(old(state.Value()), capacity) else old(file)
    {
      ok := state.CompactStoreDisk(capacity);
      if ok {
        state.revision := state.revision + 1;
        file := Some(state.Value());
      }
    }

    method GetTask(taskId: string) returns (r: Result<Option<StoredTask>, StoreError>)
      ensures r == if !SafeTaskId(taskId) || (file.Some? && !Readable(file.value, capacity)) then Err(Invalid)
                   else Ok(TaskOf(Contents(), taskId))
    {
      if !SafeTaskId(taskId) {
        return Err(Invalid);
      }
      var state := Open();
      if state.None? {
        return Err(Invalid);
      }
      return Ok(TaskOf(state.value.Value(), taskId));
    }

    method CompareAndSwapTask(taskId: string, expectedVersion: int, input: StoredTask, effect: EffectInput, now: Time)
      returns (r: Result<StoredTask, StoreError>)
      modifies this`file
      ensures Ran(old(file), CompareAndSwap(old(Contents()), taskId, expectedVersion, input, effect, now), r)
    {
      hide ValidTask, Readable, ProjectionAdmitted, Compact, Put, Find, FirstIndex, Within, SafeTaskId, SafeId,
        ValidEffect, Persisted;
      if !SafeTaskId(taskId) || expectedVersion < 0 || effect.kind != TaskProjected {
        return Err(Invalid);
      }
      var parsed := Open();
      if parsed.None? {
        return Err(Invalid);
      }
      var state := parsed.value;
      var index := FirstIndex(state.tasks, HasTaskId(taskId));
      FindByIndex(state.tasks, TaskId, taskId, HasTaskId(taskId));
      var current := if index < |state.tasks| then Some(state.tasks[index]) else None;
      if VersionOf(current) != expectedVersion {
        return Err(Conflict);
      }
      var task := input.(taskId := taskId, version := VersionOf(current) + 1);
      if !ValidTask(task) || !ProjectionAdmitted(current, task) {
        return Err(Invalid);
      }
      var announced := NewEffect(effect, task, now);
      if announced.None? || EffectOf(state.Value(), announced.value.effectKey).Some? {
        return Err(Invalid);
      }
      state.SetTask(index, task);
      state.outbox := state.outbox + [announced.value];
      var ok := Persist(state);
      return if ok then Ok(task) else Err(Invalid);
    }

    method MutateTask(taskId: string, expectedVersion: int, mutation: ProductMutation, effectKey: string, now: Time)
      returns (r: Result<StoredTask, StoreError>)
      modifies this`file
      ensures Ran(old(file), Mutate(old(Contents()), taskId, expectedVersion, mutation, effectKey, now), r)
    {
      hide ValidTask, Readable, ApplyProductMutation, Compact, Put, Find, FirstIndex, Within, SafeTaskId, SafeId,
        ValidEffect, MutationParses, Persisted;
      if !SafeTaskId(taskId) || !ValidEffectKey(effectKey) || expectedVersion < 0 {
        return Err(Invalid);
      }
      var parsed := Open();
      if parsed.None? {
        return Err(Invalid);
      }
      var state := parsed.value;
      var index := FirstIndex(state.tasks, HasTaskId(taskId));
      FindByIndex(state.tasks, TaskId, taskId, HasTaskId(taskId));
      if index == |state.tasks| || state.tasks[index].version != expectedVersion {
        return Err(Conflict);
      }
      var current := state.tasks[index];
      if !MutationParses(mutation) {
        return Err(Invalid);
      }
      var applied := ApplyProductMutation(current, mutation);
      if applied.Err? {
        return Err(Invalid);
      }
      var task := applied.value.(taskId := taskId, version := current.version + 1);
      if !ValidTask(task) {
        return Err(Invalid);
      }
      var announced := NewEffect(EffectInput(effectKey, TaskMutated, taskId, None), task, now);
      if announced.None? || EffectOf(state.Value(), announced.value.effectKey).Some? {
        return Err(Invalid);
      }
      state.SetTask(index, task);
      state.outbox := state.outbox + [announced.value];
      var ok := Persist(state);
      return if ok then Ok(task) else Err(Invalid);
    }

    method ClaimOutboxEffect(consumerId: string, effectKey: string, leaseMs: int, now: Time, token: Uuid)
      returns (r: Result<OutboxClaim, StoreError>)
      modifies this`file
      ensures Ran(old(file), ClaimOutbox(old(Contents()), consumerId, effectKey, leaseMs, now, token), r)
    {
      hide Readable, Compact, SafeId, Put, Find, FirstIndex, Within, SafeTaskId, LeaseLengthAllowed, Persisted;
      if !SafeId(consumerId, 1, 120) || !ValidEffectKey(effectKey) || !LeaseLengthAllowed(leaseMs) {
        return Err(Invalid);
      }
      var parsed := Open();
      if parsed.None? {
        return Err(Invalid);
      }
      var state := parsed.value;
      var effect := EffectOf(state.Value(), effectKey);
      if effect.None? {
        return Ok(NotClaimed);
      }
      var id := (consumerId, effectKey);
      var index := FirstIndex(state.inbox, HasRowId(id));
      FindByIndex(state.inbox, RowId, id, HasRowId(id));
      var row := if index < |state.inbox| then Some(state.inbox[index]) else None;
      if row.Some? && row.value.taskId != effect.value.taskId {
        return Err(Invalid);
      }
      if (row.Some? && row.value.delivery.Completed?) || Live(row, now) {
        return Ok(NotClaimed);
      }
      var fence := (if row.Some? then row.value.fence else 0) + 1;
      state.SetRow(index, Row(consumerId, effect.value.taskId, effectKey, Pending(token, now + leaseMs), fence));
      var ok := Persist(state);
      return if ok then Ok(Leased(token, now + leaseMs)) else Err(Invalid);
    }

    method ClaimProductEffect(consumerId: string, taskId: string, effectKey: string, leaseMs: int, now: Time,
        token: Uuid)
      returns (r: Result<ProductClaim, StoreError>)
      modifies this`file
      ensures Ran(old(file), ClaimProduct(old(Contents()), consumerId, taskId, effectKey, leaseMs, now, token), r)
    {
      hide Readable, Compact, SafeId, Put, Find, FirstIndex, Within, SafeTaskId, LeaseLengthAllowed, Persisted;
      if !SafeId(consumerId, 1, 120) || !SafeTaskId(taskId) || !ValidEffectKey(effectKey)
        || !LeaseLengthAllowed(leaseMs) {
        return Err(Invalid);
      }
      var parsed := Open();
      if parsed.None? {
        return Err(Invalid);
      }
      var state := parsed.value;
      var task := TaskOf(state.Value(), taskId);
      if task.None? || task.value.visibility == Some(Deleted) {
        return Err(Invalid);
      }
      var id := (consumerId, effectKey);
      var index := FirstIndex(state.inbox, HasRowId(id));
      FindByIndex(state.inbox, RowId, id, HasRowId(id));
      var row := if index < |state.inbox| then Some(state.inbox[index]) else None;
      if row.Some? && row.value.taskId != taskId {
        return Err(Invalid);
      }
      if row.Some? && row.value.delivery.Completed? {
        return Ok(Done(row.value.delivery.result.GetOr(NO_RESULT)));
      }
      if Live(row, now) {
        return Ok(Busy(row.value.delivery.leaseExpiresAt));
      }
      var effect := EffectOf(state.Value(), effectKey);
      if effect.Some? && (effect.value.kind != ProductEffect || effect.value.taskId != taskId) {
        return Err(Invalid);
      }
      if effect.None? {
        state.outbox := state.outbox + [Effect(effectKey, ProductEffect, taskId, None, task.value.version, now)];
      }
      var fence := (if row.Some? then row.value.fence else 0) + 1;
      state.SetRow(index, Row(consumerId, taskId, effectKey, Pending(token, now + leaseMs), fence));
      var ok := Persist(state);
      return if ok then Ok(Claimed(token, now + leaseMs, fence)) else Err(Invalid);
    }

    method RenewProductEffect(consumerId: string, taskId: string, effectKey: string, leaseToken: Uuid, fence: int,
        leaseMs: int, now: Time)
      returns (r: Result<Option<Time>, StoreError>)
      modifies this`file
      ensures Ran(old(file),
          RenewProduct(old(Contents()), consumerId, taskId, effectKey, leaseToken, fence, leaseMs, now), r)
    {
      hide Readable, Compact, SafeId, SafeTaskId, Put, Find, FirstIndex, Within, LeaseLengthAllowed, Persisted;
      if !HolderArgumentsValid(consumerId, taskId, effectKey, fence) || !LeaseLengthAllowed(leaseMs) {
        return Err(Invalid);
      }
      var parsed := Open();
      if parsed.None? {
        return Err(Invalid);
      }
      var state := parsed.value;
      var id := (consumerId, effectKey);
      var index := FirstIndex(state.inbox, HasRowId(id));
      FindByIndex(state.inbox, RowId, id, HasRowId(id));
      if index == |state.inbox| || !Holds(Some(state.inbox[index]), taskId, leaseToken, fence, now) {
        return Ok(None);
      }
      state.SetRow(index, state.inbox[index].(delivery := Pending(leaseToken, now + leaseMs)));
      var ok := Persist(state);
      return if ok then Ok(Some(now + leaseMs)) else Err(Invalid);
    }

    method FinishProductEffect(consumerId: string, taskId: string, effectKey: string, leaseToken: Uuid, fence: int,
        finish: Finish, now: Time)
      returns (r: Result<bool, StoreError>)
      modifies this`file
      ensures Ran(old(file),
          FinishProduct(old(Contents()), consumerId, taskId, effectKey, leaseToken, fence, finish, now), r)
    {
      hide Readable, Compact, SafeId, SafeTaskId, ValidResult, Put, Find, FirstIndex, Within, Persisted;
      if (finish.Complete? && !ValidResult(finish.result))
        || !HolderArgumentsValid(consumerId, taskId, effectKey, fence) {
        return Err(Invalid);
      }
      var parsed := Open();
      if parsed.None? {
        return Err(Invalid);
      }
      var state := parsed.value;
      var id := (consumerId, effectKey);
      var index := FirstIndex(state.inbox, HasRowId(id));
      FindByIndex(state.inbox, RowId, id, HasRowId(id));
      if index == |state.inbox| || !Holds(Some(state.inbox[index]), taskId, leaseToken, fence, now) {
        return Ok(false);
      }
      if finish.Release? {
        state.SetRow(index, state.inbox[index].(delivery := Released(now)));
      } else {
        state.SetRow(index, state.inbox[index].(delivery := Completed(now, Some(finish.result))));
      }
      var ok := Persist(state);
      return if ok then Ok(true) else Err(Invalid);
    }

    method CompleteOutboxEffect(consumerId: string, effectKey: string, leaseToken: Uuid, now: Time)
      returns (r: Result<bool, StoreError>)
      modifies this`file
      ensures Ran(old(file), CompleteOutbox(old(Contents()), consumerId, effectKey, leaseToken, now), r)
    {
      hide Readable, Compact, SafeId, Put, Find, FirstIndex, Within, SafeTaskId, LeaseLengthAllowed, Persisted;
      if !SafeId(consumerId, 1, 120) || !ValidEffectKey(effectKey) {
        return Err(Invalid);
      }
      var parsed := Open();
      if parsed.None? {
        return Err(Invalid);
      }
      var state := parsed.value;
      var id := (consumerId, effectKey);
      var index := FirstIndex(state.inbox, HasRowId(id));
      FindByIndex(state.inbox, RowId, id, HasRowId(id));
      if index == |state.inbox| {
        return Ok(false);
      }
      var row := state.inbox[index];
      if !row.delivery.Pending? || row.delivery.leaseToken != leaseToken || row.delivery.leaseExpiresAt <= now {
        return Ok(false);
      }
      state.SetRow(index, row.(delivery := Completed(now, None)));
      var ok := Persist(state);
      return if ok then Ok(true) else Err(Invalid);
    }
  }
}
