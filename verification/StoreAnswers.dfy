/** What the calls of canvas-agent/src/dreamina-task-store.ts answer, said of the rows and records in the file before
    and after: an answer means what the file says, and an answered lease can be used. */
module StoreAnswers {
  import opened Wrappers
  import opened ProductTask
  import opened Keyed
  import opened TaskStore
  import opened StoreProgression
  import opened StoreSteps
  import opened StoreHistories
  import opened StoreProcess

  /** A call on a readable file, with what it leaves there and returns. */
  predicate Ran<T(==)>(before: Disk, after: Disk, capacity: Capacity, decision: Decision<T>, r: Result<T, StoreError>) {
    Readable(before, capacity) && StoreProcess.Concluded(Some(before), Some(after), capacity, decision, r)
  }

  // ---------------------------------------------------------------- what compaction never takes

  lemma {:induction false} PendingKeepsTask(disk: Disk, id: string, row: Row)
    requires row in disk.inbox && row.delivery.Pending? && !HasPendingRow(disk, id)
    ensures row in WithoutTask(disk, id).inbox
  {
    assert NotTaskRow(id)(row);
  }

  lemma {:induction false} PendingAfterTasks(disk: Disk, deleted: seq<StoredTask>, capacity: Capacity, row: Row)
    requires row in disk.inbox && row.delivery.Pending?
    ensures row in DropTasks(disk, deleted, capacity).inbox
    decreases |deleted|
  {
    if deleted == [] || |disk.tasks| <= capacity.maxTasks {
    } else if HasPendingRow(disk, deleted[0].taskId) {
      PendingAfterTasks(disk, deleted[1..], capacity, row);
    } else {
      PendingKeepsTask(disk, deleted[0].taskId, row);
      PendingAfterTasks(WithoutTask(disk, deleted[0].taskId), deleted[1..], capacity, row);
    }
  }

  lemma {:induction false} PendingKeepsEffect(disk: Disk, effect: Effect, row: Row)
    requires row in disk.inbox && row.delivery.Pending?
    requires effect.kind == ProductEffect || AllDone(disk.inbox, effect.effectKey)
    ensures row in WithoutEffect(disk, effect).inbox
  {
    assert row.effectKey != effect.effectKey ==> NotDelivery(effect.effectKey)(row);
  }

  lemma {:induction false} PendingAfterOutbox(disk: Disk, capacity: Capacity, row: Row)
    requires row in disk.inbox && row.delivery.Pending?
    ensures row in CompactOutbox(disk, capacity).inbox
    decreases |disk.outbox|
  {
    if |disk.outbox| > capacity.maxEffects && OutboxCandidate(disk) < |disk.outbox| {
      var effect := disk.outbox[OutboxCandidate(disk)];
      WithoutEffectShorter(disk, effect);
      PendingKeepsEffect(disk, effect, row);
      hide AllDone;
      PendingAfterOutbox(WithoutEffect(disk, effect), capacity, row);
    }
  }

  lemma {:induction false} PendingAfterInbox(disk: Disk, capacity: Capacity, row: Row)
    requires row in disk.inbox && row.delivery.Pending?
    ensures row in CompactInbox(disk, capacity).inbox
    decreases |disk.inbox|
  {
    if |disk.inbox| > capacity.maxEffects && InboxCandidate(disk) < |disk.inbox| {
      var i := InboxCandidate(disk);
      OtherRowStays(disk, i, row);
      PendingAfterInbox(WithoutRow(disk, i), capacity, row);
    }
  }

  lemma {:induction false} OtherRowStays(disk: Disk, i: nat, row: Row)
    requires i < |disk.inbox| && row in disk.inbox && row.delivery.Pending?
    requires disk.inbox[i].delivery.Released? || IsEvictable(disk)(disk.inbox[i])
    ensures row in WithoutRow(disk, i).inbox
  {
    var j :| 0 <= j < |disk.inbox| && disk.inbox[j] == row;
    var rest := RemoveAt(disk.inbox, i);
    assert i != j;
    assert rest[if j < i then j else j - 1] == row;
  }

  /** A pending delivery survives compaction on any disk. */
  lemma {:induction false} PendingSurvives(disk: Disk, capacity: Capacity, row: Row)
    requires Distinct(disk) && row in disk.inbox && row.delivery.Pending?
    ensures RowOf(Compact(disk, capacity), row.consumerId, row.effectKey) == Some(row)
  {
    PendingAfterTasks(disk, SortByAge(Filter(disk.tasks, IsDeleted)), capacity, row);
    var b := CompactTasks(disk, capacity);
    PendingAfterOutbox(b, capacity, row);
    var c := CompactOutbox(b, capacity);
    PendingAfterInbox(c, capacity, row);
    PendingAfterOutbox(CompactInbox(c, capacity), capacity, row);
    CompactLeftover(disk, capacity);
    LeftoverDistinct(disk, Compact(disk, capacity));
    FindUnique(Compact(disk, capacity).inbox, RowId, row);
  }

  lemma {:induction false} TaskAfterOutbox(disk: Disk, capacity: Capacity)
    ensures CompactOutbox(disk, capacity).tasks == disk.tasks
    decreases |disk.outbox|
  {
    if |disk.outbox| > capacity.maxEffects && OutboxCandidate(disk) < |disk.outbox| {
      WithoutEffectShorter(disk, disk.outbox[OutboxCandidate(disk)]);
      TaskAfterOutbox(WithoutEffect(disk, disk.outbox[OutboxCandidate(disk)]), capacity);
    }
  }

  lemma {:induction false} TaskAfterInbox(disk: Disk, capacity: Capacity)
    ensures CompactInbox(disk, capacity).tasks == disk.tasks
    decreases |disk.inbox|
  {
    if |disk.inbox| > capacity.maxEffects && InboxCandidate(disk) < |disk.inbox| {
      TaskAfterInbox(WithoutRow(disk, InboxCandidate(disk)), capacity);
    }
  }

  lemma {:induction false} LiveAfterTasks(disk: Disk, deleted: seq<StoredTask>, capacity: Capacity, task: StoredTask)
    requires Distinct(disk) && task in disk.tasks && task.visibility != Some(Deleted)
    requires forall d :: d in deleted ==> d.taskId != task.taskId
    ensures task in DropTasks(disk, deleted, capacity).tasks
    decreases |deleted|
  {
    if deleted == [] || |disk.tasks| <= capacity.maxTasks {
    } else if HasPendingRow(disk, deleted[0].taskId) {
      LiveAfterTasks(disk, deleted[1..], capacity, task);
    } else {
      WithoutTaskLeftover(disk, deleted[0].taskId);
      assert NotTask(deleted[0].taskId)(task);
      LiveAfterTasks(WithoutTask(disk, deleted[0].taskId), deleted[1..], capacity, task);
    }
  }

  /** So does a stored record that is not deleted. */
  lemma {:induction false} LiveSurvives(disk: Disk, capacity: Capacity, task: StoredTask)
    requires Distinct(disk) && task in disk.tasks && task.visibility != Some(Deleted)
    ensures TaskOf(Compact(disk, capacity), task.taskId) == Some(task)
  {
    var deleted := SortByAge(Filter(disk.tasks, IsDeleted));
    forall d | d in deleted ensures d.taskId != task.taskId {
      assert IsDeleted(d) && d in disk.tasks;
      if d.taskId == task.taskId {
        SameKeySameItem(disk.tasks, TaskId, d, task);
      }
    }
    LiveAfterTasks(disk, deleted, capacity, task);
    var b := CompactTasks(disk, capacity);
    TaskAfterOutbox(b, capacity);
    TaskAfterInbox(CompactOutbox(b, capacity), capacity);
    TaskAfterOutbox(CompactInbox(CompactOutbox(b, capacity), capacity), capacity);
    CompactLeftover(disk, capacity);
    LeftoverDistinct(disk, Compact(disk, capacity));
    FindUnique(Compact(disk, capacity).tasks, TaskId, task);
  }

  // ---------------------------------------------------------------- claims

  /** The row is leased to this token under this fence until this time. */
  predicate LeasedIn(disk: Disk, consumerId: string, taskId: string, key: string, token: Uuid, expiry: Time,
      fence: int) {
    RowOf(disk, consumerId, key) == Some(Row(consumerId, taskId, key, Pending(token, expiry), fence))
  }

  /** What a claimed row says: completed with which result, or leased until when. */
  predicate CompletedWith(row: Option<Row>, result: EffectResult) {
    row.Some? && row.value.delivery.Completed? && row.value.delivery.result.GetOr(EffectResult(None)) == result
  }

  predicate LeasedUntil(row: Option<Row>, now: Time, expiry: Time) {
    && row.Some? && row.value.delivery.Pending? && row.value.delivery.leaseExpiresAt == expiry && now < expiry
  }

  predicate Claimable(row: Option<Row>, now: Time) {
    row.None? || row.value.delivery.Released?
      || (row.value.delivery.Pending? && row.value.delivery.leaseExpiresAt <= now)
  }

  /** The claim is spelled as the store wants it. */
  predicate ClaimSpelled(consumerId: string, key: string, leaseMs: int) {
    SafeId(consumerId, 1, 120) && SafeId(key, 1, 300) && 100 <= leaseMs <= 3600000
  }

  /** The task lives, and neither the row nor the effect there may be is another's. */
  predicate ClaimFits(disk: Disk, row: Option<Row>, taskId: string) {
    && TaskOf(disk, taskId).Some? && TaskOf(disk, taskId).value.visibility != Some(Deleted)
    && (row.Some? ==> row.value.taskId == taskId)
  }

  predicate EffectFits(disk: Disk, taskId: string, key: string) {
    match EffectOf(disk, key)
    case Some(effect) => effect.kind == ProductEffect && effect.taskId == taskId
    case None => true
  }

  /** Storing a pending row, whatever compaction takes out around it. */
  lemma {:induction false} LeaseStored(before: Disk, mid: Disk, row: Row, after: Disk, capacity: Capacity)
    requires Distinct(mid) && row.delivery.Pending?
    requires Persisted(mid.(inbox := Put(mid.inbox, RowId, row)), capacity) == Some(after)
    ensures RowOf(after, row.consumerId, row.effectKey) == Some(row)
  {
    var w := mid.(inbox := Put(mid.inbox, RowId, row));
    PutRow(mid, row);
    assert Distinct(w);
    PendingSurvives(w, capacity, row);
    hide Compact, Put, Find, Distinct;
    assert after.inbox == Compact(w, capacity).inbox;
  }

  /** Main result on claims of product effects. Completed means the row is, with that result; busy means it is leased,
      until then; claimed means it was free and the file now has it leased to this token, until then, under a fence one
      above the last. Anything else changes nothing. */
  lemma {:induction false} ProductClaimAnswers(before: Disk, after: Disk, capacity: Capacity, consumerId: string,
      taskId: string,
      key: string, leaseMs: int, now: Time, token: Uuid, r: Result<ProductClaim, StoreError>)
    requires Ran(before, after, capacity, ClaimProduct(before, consumerId, taskId, key, leaseMs, now, token), r)
    ensures var row := RowOf(before, consumerId, key);
            var asked := ClaimSpelled(consumerId, key, leaseMs) && SafeTaskId(taskId) && ClaimFits(before, row, taskId);
      && (forall result :: r == Ok(Done(result)) <==> asked && CompletedWith(row, result))
      && (forall expiry :: r == Ok(Busy(expiry)) <==> asked && LeasedUntil(row, now, expiry))
      && (r.Ok? && r.value.Claimed? ==>
            && asked && Claimable(row, now) && EffectFits(before, taskId, key)
            && r.value == Claimed(token, now + leaseMs, if row.Some? then row.value.fence + 1 else 1)
            && LeasedIn(after, consumerId, taskId, key, token, now + leaseMs, r.value.fence))
      && (!(r.Ok? && r.value.Claimed?) ==> after == before)
      && (r.Err? ==> r.error == Invalid)
  {
    hide Readable, Compact, Persisted, Find, Put, SafeId, SafeTaskId;
    ReadableDistinct(before, capacity);
    if r.Ok? && r.value.Claimed? {
      ClaimStores(before, after, capacity, consumerId, taskId, key, leaseMs, now, token, r.value);
    }
  }

  lemma {:induction false} ClaimStores(before: Disk, after: Disk, capacity: Capacity, consumerId: string,
      taskId: string, key: string,
      leaseMs: int, now: Time, token: Uuid, claim: ProductClaim)
    requires Distinct(before) && claim.Claimed?
    requires StoreProcess.Concluded(Some(before), Some(after), capacity,
      ClaimProduct(before, consumerId, taskId, key, leaseMs, now, token), Ok(claim))
    ensures LeasedIn(after, consumerId, taskId, key, token, now + leaseMs, claim.fence)
  {
    hide Compact, Persisted, Find, Put, SafeId, SafeTaskId;
    var row := RowOf(before, consumerId, key);
    var mid := if EffectOf(before, key).Some? then before
               else before.(outbox := before.outbox
                              + [Effect(key, ProductEffect, taskId, None, TaskOf(before, taskId).value.version, now)]);
    if EffectOf(before, key).None? {
      PutEffect(before, Effect(key, ProductEffect, taskId, None, TaskOf(before, taskId).value.version, now));
    }
    LeaseStored(before, mid, ClaimedRow(row, consumerId, taskId, key, token, now + leaseMs), after, capacity);
  }

  /** And a claim that is spelled right, fits and finds the row free is granted, unless there is no room to persist. */
  lemma {:induction false} ProductClaimGranted(before: Disk, after: Disk, capacity: Capacity, consumerId: string,
      taskId: string,
      key: string, leaseMs: int, now: Time, token: Uuid, r: Result<ProductClaim, StoreError>)
    requires Ran(before, after, capacity, ClaimProduct(before, consumerId, taskId, key, leaseMs, now, token), r)
    requires ClaimSpelled(consumerId, key, leaseMs) && SafeTaskId(taskId)
    requires ClaimFits(before, RowOf(before, consumerId, key), taskId) && EffectFits(before, taskId, key)
    requires Claimable(RowOf(before, consumerId, key), now)
    ensures var decision := ClaimProduct(before, consumerId, taskId, key, leaseMs, now, token);
      && decision.Writes? && (r.Ok? ==> r.value.Claimed?)
      && (r.Ok? <==> Within(Compact(decision.disk, capacity), capacity))
  {
    hide Readable, Compact, Find, Put, SafeId, SafeTaskId, Within;
  }

  /** An outbox claim leases exactly an announced effect whose delivery is neither completed nor leased. */
  lemma {:induction false} OutboxClaimAnswers(before: Disk, after: Disk, capacity: Capacity, consumerId: string,
      key: string, leaseMs: int,
      now: Time, token: Uuid, r: Result<OutboxClaim, StoreError>)
    requires Ran(before, after, capacity, ClaimOutbox(before, consumerId, key, leaseMs, now, token), r)
    ensures var (row, effect) := (RowOf(before, consumerId, key), EffectOf(before, key));
            var spelled := ClaimSpelled(consumerId, key, leaseMs);
            var foreign := effect.Some? && row.Some? && row.value.taskId != effect.value.taskId;
      && (r == Ok(NotClaimed) <==> spelled && !foreign && (effect.None? || !Claimable(row, now)))
      && (r.Ok? && r.value.Leased? ==>
            && spelled && effect.Some? && !foreign && Claimable(row, now) && r.value == Leased(token, now + leaseMs)
            && LeasedIn(after, consumerId, effect.value.taskId, key, token, now + leaseMs,
                 if row.Some? then row.value.fence + 1 else 1))
      && (!(r.Ok? && r.value.Leased?) ==> after == before)
      && (r.Err? ==> r.error == Invalid)
  {
    hide Readable, Compact, Persisted, Find, Put, SafeId, SafeTaskId;
    ReadableDistinct(before, capacity);
    if r.Ok? && r.value.Leased? {
      var row := RowOf(before, consumerId, key);
      LeaseStored(before, before,
        ClaimedRow(row, consumerId, EffectOf(before, key).value.taskId, key, token, now + leaseMs), after, capacity);
    }
  }

  // ---------------------------------------------------------------- using a lease

  /** The caller holds the row: its task, token and fence, and the lease has not run out. */
  predicate HeldBy(row: Option<Row>, taskId: string, token: Uuid, fence: int, now: Time) {
    && row.Some? && row.value.taskId == taskId && row.value.fence == fence
    && row.value.delivery.Pending? && row.value.delivery.leaseToken == token && now < row.value.delivery.leaseExpiresAt
  }

  /** Only this row changed, and to this delivery. */
  ghost predicate OnlyRow(before: Disk, after: Disk, row: Row, delivery: Delivery) {
    && after.tasks == before.tasks && after.outbox == before.outbox
    && RowOf(after, row.consumerId, row.effectKey) == Some(row.(delivery := delivery))
    && forall consumer, key :: (consumer, key) != (row.consumerId, row.effectKey) ==>
         RowOf(after, consumer, key) == RowOf(before, consumer, key)
  }

  lemma {:induction false} ChangeWithin(disk: Disk, capacity: Capacity, row: Row, delivery: Delivery)
    requires Readable(disk, capacity) && RowOf(disk, row.consumerId, row.effectKey) == Some(row)
    ensures Within(WithDelivery(disk, row, delivery), capacity)
    ensures OnlyRow(disk, WithDelivery(disk, row, delivery).(revision := disk.revision + 1), row, delivery)
  {
    ReadableDistinct(disk, capacity);
    PutRow(disk, row.(delivery := delivery));
    hide Put, Find, Readable, Distinct;
  }

  lemma {:induction false} ChangeStored(before: Disk, capacity: Capacity, row: Row, delivery: Delivery)
    requires Readable(before, capacity) && RowOf(before, row.consumerId, row.effectKey) == Some(row)
    ensures Persisted(WithDelivery(before, row, delivery), capacity)
         == Some(WithDelivery(before, row, delivery).(revision := before.revision + 1))
    ensures OnlyRow(before, WithDelivery(before, row, delivery).(revision := before.revision + 1), row, delivery)
  {
    ChangeWithin(before, capacity, row, delivery);
    hide Put, Find, Readable, OnlyRow, Within, Compact;
    CompactIdle(WithDelivery(before, row, delivery), capacity);
  }

  /** A renewal is answered with the new expiry exactly for the holder, and the row then runs until it. */
  lemma {:induction false} RenewalAnswers(before: Disk, after: Disk, capacity: Capacity, consumerId: string,
      taskId: string, key: string,
      token: Uuid, fence: int, leaseMs: int, now: Time, r: Result<Option<Time>, StoreError>)
    requires Ran(before, after, capacity,
      RenewProduct(before, consumerId, taskId, key, token, fence, leaseMs, now), r)
    requires ClaimSpelled(consumerId, key, leaseMs) && SafeTaskId(taskId) && fence >= 1
    ensures var row := RowOf(before, consumerId, key);
      && (r == Ok(Some(now + leaseMs)) <==> HeldBy(row, taskId, token, fence, now))
      && (r == Ok(None) <==> !HeldBy(row, taskId, token, fence, now))
      && (r == Ok(None) ==> after == before)
      && (r == Ok(Some(now + leaseMs)) ==> OnlyRow(before, after, row.value, Pending(token, now + leaseMs)))
  {
    hide Readable, Compact, Find, Put, SafeId, SafeTaskId, Persisted, WithDelivery, OnlyRow;
    var row := RowOf(before, consumerId, key);
    if HeldBy(row, taskId, token, fence, now) {
      ChangeStored(before, capacity, row.value, Pending(token, now + leaseMs));
    }
  }

  /** Finishing is answered with true exactly for the holder; the row is then completed with the result, or given
      back. */
  lemma {:induction false} FinishAnswers(before: Disk, after: Disk, capacity: Capacity, consumerId: string,
      taskId: string, key: string,
      token: Uuid, fence: int, finish: Finish, now: Time, r: Result<bool, StoreError>)
    requires Ran(before, after, capacity, FinishProduct(before, consumerId, taskId, key, token, fence, finish, now), r)
    requires SafeId(consumerId, 1, 120) && SafeTaskId(taskId) && SafeId(key, 1, 300) && fence >= 1
    requires finish.Complete? ==> ValidResult(finish.result)
    ensures var row := RowOf(before, consumerId, key);
      && (r == Ok(true) <==> HeldBy(row, taskId, token, fence, now))
      && (r == Ok(false) <==> !HeldBy(row, taskId, token, fence, now))
      && (r == Ok(false) ==> after == before)
      && (r == Ok(true) ==>
            match finish
            case Complete(result) => OnlyRow(before, after, row.value, Completed(now, Some(result)))
            case Release => OnlyRow(before, after, row.value, Released(now)))
  {
    hide Readable, Compact, Find, Put, SafeId, SafeTaskId, Persisted, WithDelivery, OnlyRow, ValidResult;
    var row := RowOf(before, consumerId, key);
    if HeldBy(row, taskId, token, fence, now) {
      ChangeStored(before, capacity, row.value,
        match finish case Complete(result) => Completed(now, Some(result)) case Release => Released(now));
    }
  }

  /** Completing an outbox delivery asks for the token alone. */
  lemma {:induction false} CompletionAnswers(before: Disk, after: Disk, capacity: Capacity, consumerId: string,
      key: string, token: Uuid,
      now: Time, r: Result<bool, StoreError>)
    requires Ran(before, after, capacity, CompleteOutbox(before, consumerId, key, token, now), r)
    requires SafeId(consumerId, 1, 120) && SafeId(key, 1, 300)
    ensures var row := RowOf(before, consumerId, key);
            var holds := row.Some? && HeldBy(row, row.value.taskId, token, row.value.fence, now);
      && (r == Ok(true) <==> holds) && (r == Ok(false) <==> !holds) && (r == Ok(false) ==> after == before)
      && (r == Ok(true) ==> OnlyRow(before, after, row.value, Completed(now, None)))
  {
    hide Readable, Compact, Find, Put, SafeId, SafeTaskId, Persisted, WithDelivery, OnlyRow;
    var row := RowOf(before, consumerId, key);
    if row.Some? && HeldBy(row, row.value.taskId, token, row.value.fence, now) {
      ChangeStored(before, capacity, row.value, Completed(now, None));
    }
  }

  /** What was answered can be used: until the lease runs out, and as long as nobody touches the row, its holder renews,
      completes and gives back with the answered token and fence. */
  lemma {:induction false} LeaseUsable(disk: Disk, capacity: Capacity, consumerId: string, taskId: string, key: string,
      token: Uuid,
      expiry: Time, fence: int, leaseMs: int, now: Time, result: EffectResult)
    requires Readable(disk, capacity) && LeasedIn(disk, consumerId, taskId, key, token, expiry, fence)
    requires now < expiry && 100 <= leaseMs <= 3600000 && ValidResult(result)
    ensures RenewProduct(disk, consumerId, taskId, key, token, fence, leaseMs, now).Writes?
    ensures FinishProduct(disk, consumerId, taskId, key, token, fence, Complete(result), now).Writes?
    ensures FinishProduct(disk, consumerId, taskId, key, token, fence, Release, now).Writes?
    ensures CompleteOutbox(disk, consumerId, key, token, now).Writes?
  {
    assert ValidRow(RowOf(disk, consumerId, key).value) by {
      assert ItemsValid(disk);
    }
    hide Readable, Find, Put, SafeId, SafeTaskId, ValidResult;
  }

  // ---------------------------------------------------------------- projections and mutations

  /** The record is stored under the next version and, unless it is deleted, is what is found afterwards; one effect
      announces it, under a key that was free. */
  predicate Announced(before: Disk, after: Disk, task: StoredTask, key: string) {
    && EffectOf(before, key).None?
    && (task.visibility != Some(Deleted) ==> TaskOf(after, task.taskId) == Some(task))
    && (forall t :: t in after.tasks ==> t == task || t in before.tasks)
    && (forall r :: r in after.inbox ==> r in before.inbox)
    && (forall r :: r in before.inbox && r.delivery.Pending? ==> r in after.inbox)
  }

  /** The announcement is in the outbox; compaction takes it only with a deleted record, or when deliveries under its
      key are there already. */
  predicate Announcement(before: Disk, after: Disk, task: StoredTask, effect: Effect) {
    && EffectOf(after, effect.effectKey) in {None, Some(effect)}
    && (task.visibility != Some(Deleted) && Unclaimed(before, effect.effectKey) ==>
          EffectOf(after, effect.effectKey) == Some(effect))
  }

  predicate Unclaimed(disk: Disk, key: string) {
    forall r :: r in disk.inbox ==> r.effectKey != key
  }

  predicate Alone(disk: Disk, effect: Effect) {
    && effect in disk.outbox && effect.kind != ProductEffect && Unclaimed(disk, effect.effectKey)
    && forall e :: e in disk.outbox && e.effectKey == effect.effectKey ==> e == effect
  }

  lemma {:induction false} AloneAfterTasks(disk: Disk, deleted: seq<StoredTask>, capacity: Capacity, effect: Effect)
    requires Alone(disk, effect) && forall d :: d in deleted ==> d.taskId != effect.taskId
    ensures Alone(DropTasks(disk, deleted, capacity), effect)
    decreases |deleted|
  {
    if deleted == [] || |disk.tasks| <= capacity.maxTasks {
    } else if HasPendingRow(disk, deleted[0].taskId) {
      AloneAfterTasks(disk, deleted[1..], capacity, effect);
    } else {
      assert NotTaskEffect(deleted[0].taskId)(effect);
      AloneAfterTasks(WithoutTask(disk, deleted[0].taskId), deleted[1..], capacity, effect);
    }
  }

  lemma {:induction false} AloneAfterOutbox(disk: Disk, capacity: Capacity, effect: Effect)
    requires Alone(disk, effect)
    ensures Alone(CompactOutbox(disk, capacity), effect)
    decreases |disk.outbox|
  {
    if |disk.outbox| > capacity.maxEffects && OutboxCandidate(disk) < |disk.outbox| {
      var other := disk.outbox[OutboxCandidate(disk)];
      WithoutEffectShorter(disk, other);
      assert other.effectKey != effect.effectKey;
      assert NotEffect(other.effectKey)(effect);
      AloneAfterOutbox(WithoutEffect(disk, other), capacity, effect);
    }
  }

  lemma {:induction false} AloneAfterInbox(disk: Disk, capacity: Capacity, effect: Effect)
    requires Alone(disk, effect)
    ensures Alone(CompactInbox(disk, capacity), effect)
    decreases |disk.inbox|
  {
    if |disk.inbox| > capacity.maxEffects && InboxCandidate(disk) < |disk.inbox| {
      AloneAfterInbox(WithoutRow(disk, InboxCandidate(disk)), capacity, effect);
    }
  }

  /** Compaction takes no announcement that nobody has claimed, of a record that is not deleted. */
  lemma {:induction false} UnclaimedSurvives(disk: Disk, capacity: Capacity, task: StoredTask, effect: Effect)
    requires Distinct(disk) && task in disk.tasks && task.visibility != Some(Deleted) && effect.taskId == task.taskId
    requires effect in disk.outbox && effect.kind != ProductEffect && Unclaimed(disk, effect.effectKey)
    ensures effect in Compact(disk, capacity).outbox
  {
    var deleted := SortByAge(Filter(disk.tasks, IsDeleted));
    forall d | d in deleted ensures d.taskId != task.taskId {
      assert IsDeleted(d) && d in disk.tasks;
      if d.taskId == task.taskId {
        SameKeySameItem(disk.tasks, TaskId, d, task);
      }
    }
    forall e | e in disk.outbox && e.effectKey == effect.effectKey ensures e == effect {
      SameKeySameItem(disk.outbox, EffectId, e, effect);
    }
    AloneAfterTasks(disk, deleted, capacity, effect);
    var b := CompactTasks(disk, capacity);
    AloneAfterOutbox(b, capacity, effect);
    AloneAfterInbox(CompactOutbox(b, capacity), capacity, effect);
    AloneAfterOutbox(CompactInbox(CompactOutbox(b, capacity), capacity), capacity, effect);
  }

  /** The disk with the record and its announcement, before compaction. */
  function WithAnnounced(before: Disk, task: StoredTask, effect: Effect): Disk {
    before.(tasks := Put(before.tasks, TaskId, task), outbox := before.outbox + [effect])
  }

  lemma {:induction false} AnnouncedDistinct(before: Disk, task: StoredTask, effect: Effect)
    requires Distinct(before) && EffectOf(before, effect.effectKey).None?
    ensures var w := WithAnnounced(before, task, effect);
      && Distinct(w) && task in w.tasks && effect in w.outbox && w.inbox == before.inbox
      && forall t :: t in w.tasks ==> t == task || t in before.tasks
  {
    PutTask(before, task);
    PutEffect(before, effect);
    hide Put, Find;
  }

  lemma {:induction false} AnnouncedStored(before: Disk, after: Disk, capacity: Capacity, task: StoredTask,
      effect: Effect)
    requires Readable(before, capacity) && EffectOf(before, effect.effectKey).None?
    requires Persisted(WithAnnounced(before, task, effect), capacity) == Some(after)
    requires effect.kind != ProductEffect && effect.taskId == task.taskId
    ensures Announced(before, after, task, effect.effectKey) && Announcement(before, after, task, effect)
  {
    var w := WithAnnounced(before, task, effect);
    ReadableDistinct(before, capacity);
    AnnouncedDistinct(before, task, effect);
    CompactLeftover(w, capacity);
    hide Readable, Put, Find, Compact, Distinct, WithAnnounced, Within;
    if task.visibility != Some(Deleted) {
      LiveSurvives(w, capacity, task);
    }
    forall r | r in before.inbox && r.delivery.Pending? ensures r in after.inbox {
      PendingSurvives(w, capacity, r);
    }
    LeftoverDistinct(w, Compact(w, capacity));
    AnnouncementLeft(w, before, after, capacity, task, effect);
  }

  lemma {:induction false} AnnouncementLeft(w: Disk, before: Disk, after: Disk, capacity: Capacity, task: StoredTask,
      effect: Effect)
    requires Distinct(w) && task in w.tasks && effect in w.outbox && w.inbox == before.inbox
    requires after.outbox == Compact(w, capacity).outbox && Distinct(Compact(w, capacity))
    requires forall e :: e in after.outbox ==> e in w.outbox
    requires effect.kind != ProductEffect && effect.taskId == task.taskId
    ensures Announcement(before, after, task, effect)
  {
    hide Compact;
    var left := EffectOf(after, effect.effectKey);
    if left.Some? {
      SameKeySameItem(w.outbox, EffectId, left.value, effect);
    }
    if task.visibility != Some(Deleted) && Unclaimed(before, effect.effectKey) {
      UnclaimedSurvives(w, capacity, task, effect);
      FindUnique(after.outbox, EffectId, effect);
    }
  }

  /** A swap conflicts exactly where the version is not the expected one. It returns the given record under the next
      version, an admitted successor of the stored one, which is what is stored. */
  lemma {:induction false} SwapAnswers(before: Disk, after: Disk, capacity: Capacity, taskId: string,
      expectedVersion: int,
      input: StoredTask, effect: EffectInput, now: Time, r: Result<StoredTask, StoreError>)
    requires Ran(before, after, capacity, CompareAndSwap(before, taskId, expectedVersion, input, effect, now), r)
    requires SafeTaskId(taskId) && expectedVersion >= 0 && effect.kind == TaskProjected
    ensures var current := TaskOf(before, taskId);
            var version := if current.Some? then current.value.version else 0;
      && (r == Err(Conflict) <==> version != expectedVersion)
      && (r.Ok? ==>
            && r.value == input.(taskId := taskId, version := version + 1)
            && ValidTask(r.value) && ProjectionAdmitted(current, r.value)
            && effect.taskId == taskId && effect.journalVersion == Some(r.value.projectedJournalVersion)
            && Announced(before, after, r.value, effect.effectKey)
            && Announcement(before, after, r.value, Effect(effect.effectKey, TaskProjected, taskId,
                 effect.journalVersion, version + 1, now)))
      && (r.Err? ==> after == before)
      && (r.Ok? <==>
            var next := input.(taskId := taskId, version := version + 1);
            var announced :=
              Effect(effect.effectKey, TaskProjected, taskId, effect.journalVersion, version + 1, now);
            && version == expectedVersion && ValidTask(next) && ProjectionAdmitted(current, next)
            && effect.taskId == taskId && ValidEffect(announced) && EffectOf(before, effect.effectKey).None?
            && effect.journalVersion == Some(next.projectedJournalVersion)
            && Persisted(WithAnnounced(before, next, announced), capacity).Some?)
  {
    hide Readable, Compact, Persisted, Find, Put, SafeId, SafeTaskId, ValidTask, ProjectionAdmitted, Announced,
      Announcement;
    if r.Ok? {
      AnnouncedStored(before, after, capacity, r.value,
        Effect(effect.effectKey, TaskProjected, taskId, effect.journalVersion, r.value.version, now));
    }
  }

  /** A mutation conflicts exactly where there is no record of that version. It returns what the mutation makes of the
      stored record under the next version, which is what is stored. */
  lemma {:induction false} MutationAnswers(before: Disk, after: Disk, capacity: Capacity, taskId: string,
      expectedVersion: int,
      mutation: ProductMutation, effectKey: string, now: Time, r: Result<StoredTask, StoreError>)
    requires Ran(before, after, capacity, TaskStore.Mutate(before, taskId, expectedVersion, mutation, effectKey, now),
        r)
    requires SafeTaskId(taskId) && SafeId(effectKey, 1, 300) && expectedVersion >= 0
    ensures var current := TaskOf(before, taskId);
      && (r == Err(Conflict) <==> current.None? || current.value.version != expectedVersion)
      && (r.Ok? ==>
            && MutationParses(mutation) && ApplyProductMutation(current.value, mutation).Ok? && ValidTask(r.value)
            && r.value == ApplyProductMutation(current.value, mutation).value
                          .(taskId := taskId, version := expectedVersion + 1)
            && Announced(before, after, r.value, effectKey)
            && Announcement(before, after, r.value,
                 Effect(effectKey, TaskMutated, taskId, None, expectedVersion + 1, now)))
      && (r.Err? ==> after == before)
      && (r.Ok? <==>
            && current.Some? && current.value.version == expectedVersion && MutationParses(mutation)
            && ApplyProductMutation(current.value, mutation).Ok?
            && var next := ApplyProductMutation(current.value, mutation).value
                           .(taskId := taskId, version := expectedVersion + 1);
               var announced := Effect(effectKey, TaskMutated, taskId, None, expectedVersion + 1, now);
               && ValidTask(next) && EffectOf(before, effectKey).None?
               && Persisted(WithAnnounced(before, next, announced), capacity).Some?)
  {
    hide Readable, Compact, Persisted, Find, Put, SafeId, SafeTaskId, ValidState, ApplyProductMutation, Announced,
      Announcement;
    if r.Ok? {
      AnnouncedStored(before, after, capacity, r.value,
        Effect(effectKey, TaskMutated, taskId, None, r.value.version, now));
    }
  }

  /** A swap that names no record, no version or another kind of effect is turned away before anything is read. */
  lemma {:induction false} SwapMisspelled(before: Disk, after: Disk, capacity: Capacity, taskId: string,
      expectedVersion: int, input: StoredTask, effect: EffectInput, now: Time, r: Result<StoredTask, StoreError>)
    requires Ran(before, after, capacity, CompareAndSwap(before, taskId, expectedVersion, input, effect, now), r)
    requires !SafeTaskId(taskId) || expectedVersion < 0 || effect.kind != TaskProjected
    ensures r == Err(Invalid) && after == before
  {
    hide Readable, Persisted;
  }

  /** So is a mutation that names no record, no version or no key. */
  lemma {:induction false} MutationMisspelled(before: Disk, after: Disk, capacity: Capacity, taskId: string,
      expectedVersion: int, mutation: ProductMutation, effectKey: string, now: Time,
      r: Result<StoredTask, StoreError>)
    requires Ran(before, after, capacity, TaskStore.Mutate(before, taskId, expectedVersion, mutation, effectKey, now),
        r)
    requires !SafeTaskId(taskId) || expectedVersion < 0 || !SafeId(effectKey, 1, 300)
    ensures r == Err(Invalid) && after == before
  {
    hide Readable, Persisted;
  }

  predicate Names(consumerId: string, taskId: string, key: string) {
    SafeId(consumerId, 1, 120) && SafeTaskId(taskId) && SafeId(key, 1, 300)
  }

  /** So is a renewal whose holder, task, key, fence or length is spelled wrong. */
  lemma {:induction false} RenewalMisspelled(before: Disk, after: Disk, capacity: Capacity, consumerId: string,
      taskId: string, key: string, token: Uuid, fence: int, leaseMs: int, now: Time,
      r: Result<Option<Time>, StoreError>)
    requires
      Ran(before, after, capacity, RenewProduct(before, consumerId, taskId, key, token, fence, leaseMs, now), r)
    requires !Names(consumerId, taskId, key) || fence < 1 || leaseMs < 100 || leaseMs > 3600000
    ensures r == Err(Invalid) && after == before
  {
    hide Readable, Persisted, SafeId, SafeTaskId;
  }

  /** And a completion or release, or a result that is. */
  lemma {:induction false} FinishMisspelled(before: Disk, after: Disk, capacity: Capacity, consumerId: string,
      taskId: string, key: string, token: Uuid, fence: int, finish: Finish, now: Time, r: Result<bool, StoreError>)
    requires
      Ran(before, after, capacity, FinishProduct(before, consumerId, taskId, key, token, fence, finish, now), r)
    requires !Names(consumerId, taskId, key) || fence < 1 || (finish.Complete? && !ValidResult(finish.result))
    ensures r == Err(Invalid) && after == before
  {
    hide Readable, Persisted, SafeId, SafeTaskId, ValidResult;
  }

  lemma {:induction false} CompletionMisspelled(before: Disk, after: Disk, capacity: Capacity, consumerId: string,
      key: string, token: Uuid, now: Time, r: Result<bool, StoreError>)
    requires Ran(before, after, capacity, CompleteOutbox(before, consumerId, key, token, now), r)
    requires !SafeId(consumerId, 1, 120) || !SafeId(key, 1, 300)
    ensures r == Err(Invalid) && after == before
  {
    hide Readable, Persisted, SafeId, SafeTaskId;
  }
}
