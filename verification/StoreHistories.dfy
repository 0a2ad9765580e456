/** Histories of the task store under any calls at all: what leases, completions and compaction do to one delivery.
    Nothing is asked of the callers but, where it matters, that no projection or mutation borrows the key. */
module StoreHistories {
  import opened Wrappers
  import opened ProductTask
  import opened Keyed
  import opened TaskStore
  import opened StoreProgression
  import opened StoreSteps
  import opened StoreRuns

  /** One call, or a change of order. An unreadable file fails every call and stays as it is. */
  predicate Served(a: Disk, b: Disk, call: Option<Call>, capacity: Capacity) {
    if !Readable(a, capacity) then b == a
    else
      match call
      case None => Reordered(a, b)
      case Some(made) => b == match After(a, made, capacity) case Some(after) => after case None => a
  }

  predicate Happened(h: History, capacity: Capacity) {
    && |h.disks| == |h.calls| + 1
    && forall i :: 0 <= i < |h.calls| ==> Served(h.disks[i], h.disks[i + 1], h.calls[i], capacity)
  }

  /** No projection or mutation announces itself under `key`. */
  predicate LeavesKey(call: Option<Call>, key: string) {
    match call
    case Some(Swap(_, _, _, effect, _)) => effect.effectKey != key
    case Some(Mutation(_, _, _, effectKey, _)) => effectKey != key
    case _ => true
  }

  predicate ProductOnly(disk: Disk, key: string) {
    forall e :: e in disk.outbox && e.effectKey == key ==> e.kind == ProductEffect
  }

  /** `key` belongs to product effects throughout. */
  predicate KeyKept(h: History, key: string) {
    h.disks != [] && ProductOnly(h.disks[0], key) && forall i :: 0 <= i < |h.calls| ==> LeavesKey(h.calls[i], key)
  }

  predicate Alive(disk: Disk, taskId: string) {
    TaskOf(disk, taskId).Some? && TaskOf(disk, taskId).value.visibility != Some(Deleted)
  }

  // ---------------------------------------------------------------- what a call writes

  lemma {:induction false} ReadableDistinct(disk: Disk, capacity: Capacity)
    requires Readable(disk, capacity)
    ensures Distinct(disk) && Within(disk, capacity)
  {
  }

  /** The one effect a call adds to the outbox, if any. */
  lemma {:induction false} WrittenOutbox(disk: Disk, call: Call) returns (pushed: Option<Effect>)
    requires Written(disk, call).Some?
    ensures var w := Written(disk, call).value;
      match pushed
      case None => w.outbox == disk.outbox
      case Some(e) =>
        && w.outbox == disk.outbox + [e] && EffectOf(disk, e.effectKey).None?
        && (call.Swap? ==> e.effectKey == call.effect.effectKey) && (call.Mutation? ==> e.effectKey == call.effectKey)
        && (!call.Swap? && !call.Mutation? ==>
              call.LeaseProduct? && e.kind == ProductEffect && e.effectKey == call.effectKey && e.taskId == call.taskId)
  {
    hide Find, Put, SafeId, SafeTaskId, ValidResult, ValidTask, ValidEffect, ApplyProductMutation;
    var w := Written(disk, call).value;
    if w.outbox == disk.outbox {
      pushed := None;
    } else {
      pushed := Some(w.outbox[|w.outbox| - 1]);
    }
  }

  /** A call changes at most one stored record, and never undoes a deletion. */
  lemma {:induction false} WrittenTasks(disk: Disk, call: Call, id: string)
    requires Distinct(disk) && Written(disk, call).Some?
    ensures DistinctBy(Written(disk, call).value.tasks, TaskId)
    ensures TaskDeleted(disk, id) ==> TaskDeleted(Written(disk, call).value, id)
    ensures TaskOf(disk, id).Some? ==> TaskOf(Written(disk, call).value, id).Some?
  {
    hide Find, Put, SafeId, SafeTaskId, ValidResult, ValidTask, ValidEffect, ProjectionOutputsAllowed,
      ProjectionResultAllowed;
    if call.Swap? {
      var current := TaskOf(disk, call.taskId);
      PutTask(disk, call.input.(taskId := call.taskId, version := VersionOf(current) + 1));
    } else if call.Mutation? {
      var current := TaskOf(disk, call.taskId).value;
      MutationProgresses(current, call.mutation);
      var next := ApplyProductMutation(current, call.mutation).value;
      hide ApplyProductMutation;
      PutTask(disk, next.(taskId := call.taskId, version := current.version + 1));
    } else {
      SameTasks(disk, call);
    }
  }

  lemma {:induction false} SameTasks(disk: Disk, call: Call)
    requires Written(disk, call).Some? && !call.Swap? && !call.Mutation?
    ensures Written(disk, call).value.tasks == disk.tasks
  {
    hide Find, Put, SafeId, SafeTaskId, ValidResult;
  }

  lemma {:induction false} WrittenDistinct(disk: Disk, call: Call)
    requires Distinct(disk) && Written(disk, call).Some?
    ensures Distinct(Written(disk, call).value)
  {
    hide Written;
    WrittenTasks(disk, call, "");
    WrittenInbox(disk, call);
    var pushed := WrittenOutbox(disk, call);
    if pushed.Some? {
      PutEffect(disk, pushed.value);
    }
    if RowWritten(disk, call).Some? {
      PutRow(disk, RowWritten(disk, call).value);
    }
  }

  lemma {:induction false} WrittenProductOnly(disk: Disk, call: Call, key: string)
    requires Written(disk, call).Some? && ProductOnly(disk, key) && LeavesKey(Some(call), key)
    ensures ProductOnly(Written(disk, call).value, key)
  {
    hide Written;
    var pushed := WrittenOutbox(disk, call);
  }

  // ---------------------------------------------------------------- what compaction leaves

  predicate Leftover(a: Disk, b: Disk) {
    && Distinct(b)
    && (forall t :: t in b.tasks ==> t in a.tasks)
    && (forall e :: e in b.outbox ==> e in a.outbox)
    && (forall r :: r in b.inbox ==> r in a.inbox)
  }

  lemma {:induction false} WithoutTaskLeftover(disk: Disk, id: string)
    requires Distinct(disk)
    ensures Leftover(disk, WithoutTask(disk, id))
    ensures TaskOf(WithoutTask(disk, id), id).None?
    ensures forall r: Row :: r in disk.inbox && r.taskId != id ==> r in WithoutTask(disk, id).inbox
  {
    DistinctFilters(disk, NotTask(id), NotTaskEffect(id), NotTaskRow(id));
    var next := WithoutTask(disk, id);
    forall t | t in next.tasks ensures t.taskId != id {
      assert NotTask(id)(t);
    }
    forall r: Row | r in disk.inbox && r.taskId != id ensures r in next.inbox {
      assert NotTaskRow(id)(r);
    }
  }

  lemma {:induction false} WithoutEffectLeftover(disk: Disk, effect: Effect)
    requires Distinct(disk)
    ensures Leftover(disk, WithoutEffect(disk, effect))
    ensures forall r: Row :: r in disk.inbox && (effect.kind == ProductEffect || r.effectKey != effect.effectKey) ==>
              r in WithoutEffect(disk, effect).inbox
  {
    FilterDistinct(disk.outbox, EffectId, NotEffect(effect.effectKey));
    FilterDistinct(disk.inbox, RowId, NotDelivery(effect.effectKey));
    forall r: Row | r in disk.inbox && r.effectKey != effect.effectKey ensures NotDelivery(effect.effectKey)(r) {
    }
  }

  lemma {:induction false} WithoutRowLeftover(disk: Disk, i: nat)
    requires Distinct(disk) && i < |disk.inbox|
    ensures Leftover(disk, WithoutRow(disk, i))
    ensures EffectOf(WithoutRow(disk, i), disk.inbox[i].effectKey).None?
    ensures forall r :: r in disk.inbox && r != disk.inbox[i] ==> r in WithoutRow(disk, i).inbox
  {
    var key := disk.inbox[i].effectKey;
    RemoveAtExact(disk.inbox, RowId, i);
    FilterDistinct(disk.outbox, EffectId, NotEffect(key));
    forall e | e in WithoutRow(disk, i).outbox ensures e.effectKey != key {
      assert NotEffect(key)(e);
    }
  }

  lemma {:induction false} LeftoverTransitive(a: Disk, b: Disk, c: Disk)
    requires Leftover(a, b) && Leftover(b, c)
    ensures Leftover(a, c)
  {
  }

  lemma {:induction false} LeftoverDistinct(a: Disk, b: Disk)
    requires Leftover(a, b)
    ensures Distinct(b)
  {
  }

  lemma {:induction false} DropTasksLeftover(disk: Disk, deleted: seq<StoredTask>, capacity: Capacity)
    requires Distinct(disk)
    ensures Leftover(disk, DropTasks(disk, deleted, capacity))
    decreases |deleted|
  {
    if deleted == [] || |disk.tasks| <= capacity.maxTasks {
    } else if HasPendingRow(disk, deleted[0].taskId) {
      DropTasksLeftover(disk, deleted[1..], capacity);
    } else {
      hide Distinct, Leftover;
      var next := WithoutTask(disk, deleted[0].taskId);
      WithoutTaskLeftover(disk, deleted[0].taskId);
      LeftoverDistinct(disk, next);
      DropTasksLeftover(next, deleted[1..], capacity);
      LeftoverTransitive(disk, next, DropTasks(next, deleted[1..], capacity));
    }
  }

  lemma {:induction false} CompactOutboxLeftover(disk: Disk, capacity: Capacity)
    requires Distinct(disk)
    ensures Leftover(disk, CompactOutbox(disk, capacity))
    decreases |disk.outbox|
  {
    if |disk.outbox| > capacity.maxEffects && OutboxCandidate(disk) < |disk.outbox| {
      hide Distinct, Leftover, AllDone;
      var effect := disk.outbox[OutboxCandidate(disk)];
      var next := WithoutEffect(disk, effect);
      WithoutEffectShorter(disk, effect);
      WithoutEffectLeftover(disk, effect);
      LeftoverDistinct(disk, next);
      CompactOutboxLeftover(next, capacity);
      LeftoverTransitive(disk, next, CompactOutbox(next, capacity));
    }
  }

  lemma {:induction false} CompactInboxLeftover(disk: Disk, capacity: Capacity)
    requires Distinct(disk)
    ensures Leftover(disk, CompactInbox(disk, capacity))
    decreases |disk.inbox|
  {
    if |disk.inbox| > capacity.maxEffects && InboxCandidate(disk) < |disk.inbox| {
      hide Distinct, Leftover, IsEvictable;
      var next := WithoutRow(disk, InboxCandidate(disk));
      WithoutRowLeftover(disk, InboxCandidate(disk));
      LeftoverDistinct(disk, next);
      CompactInboxLeftover(next, capacity);
      LeftoverTransitive(disk, next, CompactInbox(next, capacity));
    }
  }

  lemma {:induction false} CompactTasksLeftover(disk: Disk, capacity: Capacity)
    requires Distinct(disk)
    ensures Leftover(disk, CompactTasks(disk, capacity))
  {
    DropTasksLeftover(disk, SortByAge(Filter(disk.tasks, IsDeleted)), capacity);
  }

  /** Compaction only leaves things out. */
  lemma {:induction false} CompactLeftover(disk: Disk, capacity: Capacity)
    requires Distinct(disk)
    ensures Leftover(disk, Compact(disk, capacity))
  {
    hide Leftover, Distinct;
    var b := CompactTasks(disk, capacity);
    var c := CompactOutbox(b, capacity);
    var d := CompactInbox(c, capacity);
    CompactTasksLeftover(disk, capacity);
    LeftoverDistinct(disk, b);
    CompactOutboxLeftover(b, capacity);
    LeftoverDistinct(b, c);
    CompactInboxLeftover(c, capacity);
    LeftoverDistinct(c, d);
    CompactOutboxLeftover(d, capacity);
    LeftoverTransitive(disk, b, c);
    LeftoverTransitive(disk, c, d);
    LeftoverTransitive(disk, d, CompactOutbox(d, capacity));
  }

  // ---------------------------------------------------------------- what becomes of a completed product delivery

  /** It is there, its stored record is gone, or the record is deleted and the effect gone. */
  predicate Fate(disk: Disk, r: Row) {
    r in disk.inbox || TaskOf(disk, r.taskId).None?
      || (TaskDeleted(disk, r.taskId) && EffectOf(disk, r.effectKey).None?)
  }

  predicate Settled(disk: Disk, r: Row) {
    Distinct(disk) && ProductOnly(disk, r.effectKey) && Fate(disk, r)
  }

  /** Dropping items other than the row keeps its fate. */
  lemma {:induction false} SettledKept(a: Disk, b: Disk, r: Row)
    requires Settled(a, r) && Leftover(a, b)
    requires r in a.inbox ==> r in b.inbox || TaskOf(b, r.taskId).None?
    ensures Settled(b, r)
  {
    if r !in a.inbox && TaskOf(b, r.taskId).Some? {
      TaskKept(a, b, TaskOf(b, r.taskId).value);
    }
  }

  lemma {:induction false} DropTasksSettled(disk: Disk, deleted: seq<StoredTask>, capacity: Capacity, r: Row)
    requires Settled(disk, r)
    ensures Settled(DropTasks(disk, deleted, capacity), r)
    decreases |deleted|
  {
    if deleted == [] || |disk.tasks| <= capacity.maxTasks {
    } else if HasPendingRow(disk, deleted[0].taskId) {
      DropTasksSettled(disk, deleted[1..], capacity, r);
    } else {
      WithoutTaskLeftover(disk, deleted[0].taskId);
      SettledKept(disk, WithoutTask(disk, deleted[0].taskId), r);
      hide Settled;
      DropTasksSettled(WithoutTask(disk, deleted[0].taskId), deleted[1..], capacity, r);
    }
  }

  lemma {:induction false} CompactOutboxSettled(disk: Disk, capacity: Capacity, r: Row)
    requires Settled(disk, r)
    ensures Settled(CompactOutbox(disk, capacity), r)
    decreases |disk.outbox|
  {
    if |disk.outbox| > capacity.maxEffects && OutboxCandidate(disk) < |disk.outbox| {
      var effect := disk.outbox[OutboxCandidate(disk)];
      WithoutEffectShorter(disk, effect);
      WithoutEffectLeftover(disk, effect);
      SettledKept(disk, WithoutEffect(disk, effect), r);
      hide Settled;
      CompactOutboxSettled(WithoutEffect(disk, effect), capacity, r);
    }
  }

  /** The row itself is evicted only when its record is deleted, and then the effect goes with it. */
  lemma {:induction false} EvictionSettled(disk: Disk, i: nat, r: Row)
    requires Settled(disk, r) && ProductKey(r.effectKey) && r.delivery.Completed?
    requires i < |disk.inbox| && (disk.inbox[i].delivery.Released? || IsEvictable(disk)(disk.inbox[i]))
    ensures Settled(WithoutRow(disk, i), r)
  {
    WithoutRowLeftover(disk, i);
    if disk.inbox[i] == r {
      assert TaskDeleted(disk, r.taskId);
      assert WithoutRow(disk, i).tasks == disk.tasks;
    } else {
      SettledKept(disk, WithoutRow(disk, i), r);
    }
  }

  lemma {:induction false} CompactInboxSettled(disk: Disk, capacity: Capacity, r: Row)
    requires Settled(disk, r) && ProductKey(r.effectKey) && r.delivery.Completed?
    ensures Settled(CompactInbox(disk, capacity), r)
    decreases |disk.inbox|
  {
    hide Settled, IsEvictable;
    if |disk.inbox| > capacity.maxEffects && InboxCandidate(disk) < |disk.inbox| {
      EvictionSettled(disk, InboxCandidate(disk), r);
      CompactInboxSettled(WithoutRow(disk, InboxCandidate(disk)), capacity, r);
    }
  }

  lemma {:induction false} CompactTasksSettled(disk: Disk, capacity: Capacity, r: Row)
    requires Settled(disk, r)
    ensures Settled(CompactTasks(disk, capacity), r)
  {
    DropTasksSettled(disk, SortByAge(Filter(disk.tasks, IsDeleted)), capacity, r);
  }

  lemma {:induction false} CompactSettled(disk: Disk, capacity: Capacity, r: Row)
    requires Settled(disk, r) && ProductKey(r.effectKey) && r.delivery.Completed?
    ensures Settled(Compact(disk, capacity), r)
  {
    hide Settled;
    CompactTasksSettled(disk, capacity, r);
    CompactOutboxSettled(CompactTasks(disk, capacity), capacity, r);
    CompactInboxSettled(CompactOutbox(CompactTasks(disk, capacity), capacity), capacity, r);
    CompactOutboxSettled(CompactInbox(CompactOutbox(CompactTasks(disk, capacity), capacity), capacity), capacity, r);
  }

  // ---------------------------------------------------------------- one step and one row

  /** The row of a delivery after a step, if it is still there. */
  predicate RowFollows(r: Row, next: Row) {
    && next.taskId == r.taskId && next.fence >= r.fence && (r.delivery.Completed? ==> next == r)
  }

  predicate Leases(a: Disk, call: Option<Call>, capacity: Capacity, consumer: string, key: string) {
    && Readable(a, capacity) && call.Some? && IsLease(call.value) && About(call.value, consumer, key)
    && After(a, call.value, capacity).Some?
  }

  lemma {:induction false} ReorderedLookups(a: Disk, b: Disk)
    requires Distinct(a) && Reordered(a, b)
    ensures Distinct(b)
    ensures forall consumer, key :: RowOf(b, consumer, key) == RowOf(a, consumer, key)
    ensures forall id :: TaskOf(b, id) == TaskOf(a, id)
    ensures forall key :: EffectOf(b, key) == EffectOf(a, key)
    ensures forall e :: e in b.outbox <==> e in a.outbox
  {
    hide Find;
    ReorderedDistinct(a.tasks, b.tasks, TaskId);
    ReorderedDistinct(a.outbox, b.outbox, EffectId);
    ReorderedDistinct(a.inbox, b.inbox, RowId);
    forall id ensures TaskOf(b, id) == TaskOf(a, id) { ReorderedFind(a.tasks, b.tasks, TaskId, id); }
    forall key ensures EffectOf(b, key) == EffectOf(a, key) { ReorderedFind(a.outbox, b.outbox, EffectId, key); }
    forall consumer, key ensures RowOf(b, consumer, key) == RowOf(a, consumer, key) {
      ReorderedFind(a.inbox, b.inbox, RowId, (consumer, key));
    }
  }

  /** A row that survives a step keeps its fence or raises it, is raised by a lease, and stays as it is once
      completed. */
  lemma {:induction false} StepCarries(a: Disk, b: Disk, call: Option<Call>, capacity: Capacity, consumer: string,
      key: string)
    requires Served(a, b, call, capacity) && RowOf(a, consumer, key).Some? && RowOf(b, consumer, key).Some?
    ensures var r, next := RowOf(a, consumer, key).value, RowOf(b, consumer, key).value;
      RowFollows(r, next) && (Leases(a, call, capacity, consumer, key) ==> next.fence > r.fence)
  {
    hide Written, Compact, Readable, Distinct, Find;
    if Readable(a, capacity) {
      ReadableDistinct(a, capacity);
      if call.None? {
        ReorderedLookups(a, b);
      } else if After(a, call.value, capacity).Some? {
        var w := Written(a, call.value).value;
        var r, next := RowOf(a, consumer, key).value, RowOf(b, consumer, key).value;
        WrittenCarries(a, call.value, r);
        var carried: Row :| carried in w.inbox && Carried(a, call.value, r, carried);
        WrittenDistinct(a, call.value);
        CompactLeftover(w, capacity);
        SurvivorIsCarried(w, Compact(w, capacity), carried, next);
      }
    }
  }

  lemma {:induction false} SurvivorIsCarried(w: Disk, c: Disk, carried: Row, next: Row)
    requires Distinct(w) && Leftover(w, c) && carried in w.inbox && next in c.inbox
    requires next.consumerId == carried.consumerId && next.effectKey == carried.effectKey
    ensures next == carried
  {
    SameKeySameItem(w.inbox, RowId, next, carried);
  }

  /** A pending delivery is leased anew only once its lease has run out, and renewed or finished only before
      that, by the holder of its token. */
  lemma {:induction false} LeaseIsExclusive(disk: Disk, call: Call, consumer: string, key: string)
    requires Written(disk, call).Some? && About(call, consumer, key)
    requires RowOf(disk, consumer, key).Some? && RowOf(disk, consumer, key).value.delivery.Pending?
    ensures var lease := RowOf(disk, consumer, key).value.delivery;
      if IsLease(call) then lease.leaseExpiresAt <= call.now
      else lease.leaseExpiresAt > call.now && lease.leaseToken == call.leaseToken
  {
    hide Find, Put, SafeId, SafeTaskId, ValidResult;
  }

  // ---------------------------------------------------------------- fences

  /** The row survives from `i` to `j`. */
  predicate Survives(h: History, consumer: string, key: string, i: nat, j: nat)
    requires i <= j < |h.disks|
  {
    forall m :: i <= m <= j ==> RowOf(h.disks[m], consumer, key).Some?
  }

  /** While a row survives its fence never falls, and every lease taken on it in between raises it. */
  lemma {:induction false} FencesRise(h: History, capacity: Capacity, consumer: string, key: string, i: nat, j: nat)
    requires Happened(h, capacity) && i <= j < |h.disks| && Survives(h, consumer, key, i, j)
    ensures var first, last := RowOf(h.disks[i], consumer, key).value, RowOf(h.disks[j], consumer, key).value;
      RowFollows(first, last) &&
      ((exists m :: i <= m < j && Leases(h.disks[m], h.calls[m], capacity, consumer, key)) ==> last.fence > first.fence)
    decreases j
  {
    hide Served, Leases;
    if i < j {
      FencesRise(h, capacity, consumer, key, i, j - 1);
      StepCarries(h.disks[j - 1], h.disks[j], h.calls[j - 1], capacity, consumer, key);
    }
  }

  /** A holder whose fence was overtaken while the row survived can neither renew nor finish. */
  lemma {:induction false} StaleHolderRefused(h: History, capacity: Capacity, i: nat, j: nat, call: Call)
    requires Happened(h, capacity) && i <= j < |h.disks| && (call.Renewal? || call.Finishing?)
    requires Survives(h, call.consumerId, call.effectKey, i, j)
    requires call.fence <= RowOf(h.disks[i], call.consumerId, call.effectKey).value.fence
    requires exists m :: i <= m < j && Leases(h.disks[m], h.calls[m], capacity, call.consumerId, call.effectKey)
    ensures Written(h.disks[j], call).None?
  {
    hide Happened, Leases, Put, Find, SafeId, SafeTaskId;
    FencesRise(h, capacity, call.consumerId, call.effectKey, i, j);
  }

  // ---------------------------------------------------------------- completions

  /** No row of the consumer and no effect of the key belongs to the deleted record any more. */
  predicate Closed(disk: Disk, r: Row) {
    && TaskDeleted(disk, r.taskId)
    && (RowOf(disk, r.consumerId, r.effectKey).Some? ==>
      RowOf(disk, r.consumerId, r.effectKey).value.taskId != r.taskId)
    && (EffectOf(disk, r.effectKey).Some? ==> EffectOf(disk, r.effectKey).value.taskId != r.taskId)
  }

  /** After the completion `r`: the row is still as it was, its stored record is gone, or nothing can reopen it. */
  predicate Concluded(disk: Disk, r: Row) {
    || RowOf(disk, r.consumerId, r.effectKey) == Some(r)
    || TaskOf(disk, r.taskId).None?
    || Closed(disk, r)
  }

  lemma {:induction false} CompletedWritten(disk: Disk, call: Call, r: Row)
    requires Distinct(disk) && Written(disk, call).Some? && r.delivery.Completed?
    requires RowOf(disk, r.consumerId, r.effectKey) == Some(r)
    ensures r in Written(disk, call).value.inbox
  {
    hide Written, Find;
    WrittenCarries(disk, call, r);
  }

  lemma {:induction false} SettledConcludes(disk: Disk, r: Row)
    requires Settled(disk, r) && r.delivery.Completed?
    requires forall other :: other in disk.inbox && RowId(other) == RowId(r) ==> other == r
    ensures Concluded(disk, r)
  {
    if r in disk.inbox {
      FindUnique(disk.inbox, RowId, r);
    }
  }

  lemma {:induction false} OpenRowConcludes(a: Disk, w: Disk, call: Call, capacity: Capacity, r: Row)
    requires Distinct(a) && ProductOnly(a, r.effectKey) && LeavesKey(Some(call), r.effectKey) && ProductKey(r.effectKey)
    requires r.delivery.Completed? && RowOf(a, r.consumerId, r.effectKey) == Some(r) && Written(a, call) == Some(w)
    ensures Concluded(Compact(w, capacity), r)
  {
    hide Written, Compact, Find, Concluded, ProductKey;
    CompletedWritten(a, call, r);
    WrittenDistinct(a, call);
    WrittenProductOnly(a, call, r.effectKey);
    CompactSettled(w, capacity, r);
    CompactLeftover(w, capacity);
    var c := Compact(w, capacity);
    forall other | other in c.inbox && RowId(other) == RowId(r) ensures other == r {
      SameKeySameItem(w.inbox, RowId, other, r);
    }
    SettledConcludes(c, r);
  }

  /** With the record deleted no call brings row or effect back to it. */
  lemma {:induction false} ClosedWritten(a: Disk, call: Call, r: Row)
    requires Distinct(a) && Closed(a, r) && LeavesKey(Some(call), r.effectKey) && Written(a, call).Some?
    ensures Closed(Written(a, call).value, r)
  {
    hide Find, Put, SafeId, SafeTaskId, ValidResult, ValidTask, ValidEffect, ProjectionAdmitted, ApplyProductMutation;
    var w := Written(a, call).value;
    WrittenTasks(a, call, r.taskId);
    ClosedOutbox(a, call, r);
    ClosedInbox(a, call, r);
  }

  lemma {:induction false} ClosedOutbox(a: Disk, call: Call, r: Row)
    requires Distinct(a) && Closed(a, r) && LeavesKey(Some(call), r.effectKey) && Written(a, call).Some?
    ensures var effect := EffectOf(Written(a, call).value, r.effectKey); effect.Some? ==>
        effect.value.taskId != r.taskId
  {
    var pushed := WrittenOutbox(a, call);
    if call.LeaseProduct? {
      assert call.taskId != r.taskId;
    }
    hide Find, Written;
    if pushed.Some? {
      PutEffect(a, pushed.value);
    }
  }

  lemma {:induction false} ClosedInbox(a: Disk, call: Call, r: Row)
    requires Distinct(a) && Closed(a, r) && Written(a, call).Some?
    ensures var row := RowOf(Written(a, call).value, r.consumerId, r.effectKey); row.Some? ==>
        row.value.taskId != r.taskId
  {
    WrittenInbox(a, call);
    if call.LeaseProduct? {
      assert call.taskId != r.taskId;
    }
    hide Find, Written, Put;
    if RowWritten(a, call).Some? {
      PutRow(a, RowWritten(a, call).value);
    }
  }

  lemma {:induction false} LeftoverClosed(a: Disk, b: Disk, r: Row)
    requires Distinct(a) && Leftover(a, b) && Closed(a, r)
    ensures Concluded(b, r)
  {
    if TaskOf(b, r.taskId).Some? {
      TaskKept(a, b, TaskOf(b, r.taskId).value);
    }
    if RowOf(b, r.consumerId, r.effectKey).Some? {
      RowKept(a, b, RowOf(b, r.consumerId, r.effectKey).value);
    }
    if EffectOf(b, r.effectKey).Some? {
      EffectKept(a, b, EffectOf(b, r.effectKey).value);
    }
  }

  lemma {:induction false} SameLookupsConcluded(a: Disk, b: Disk, r: Row)
    requires Concluded(a, r) && RowOf(a, r.consumerId, r.effectKey) == RowOf(b, r.consumerId, r.effectKey)
    requires TaskOf(a, r.taskId) == TaskOf(b, r.taskId) && EffectOf(a, r.effectKey) == EffectOf(b, r.effectKey)
    ensures Concluded(b, r)
  {
  }

  /** One step keeps a completion concluded as long as the stored record is there. */
  lemma {:induction false} StepConcluded(a: Disk, b: Disk, call: Option<Call>, capacity: Capacity, r: Row)
    requires Served(a, b, call, capacity) && LeavesKey(call, r.effectKey) && ProductOnly(a, r.effectKey)
    requires ProductKey(r.effectKey) && r.delivery.Completed? && Concluded(a, r) && TaskOf(a, r.taskId).Some?
    ensures Concluded(b, r) && ProductOnly(b, r.effectKey)
  {
    hide Written, Compact, Readable, Distinct, Find, Concluded, Closed, ProductKey, LeavesKey;
    if Readable(a, capacity) {
      ReadableDistinct(a, capacity);
      if call.None? {
        ReorderedLookups(a, b);
        SameLookupsConcluded(a, b, r);
      } else if After(a, call.value, capacity).Some? {
        var w := Written(a, call.value).value;
        var c := Compact(w, capacity);
        WrittenDistinct(a, call.value);
        WrittenProductOnly(a, call.value, r.effectKey);
        CompactLeftover(w, capacity);
        if RowOf(a, r.consumerId, r.effectKey) == Some(r) {
          OpenRowConcludes(a, w, call.value, capacity, r);
        } else {
          ConcludedClosed(a, r);
          ClosedWritten(a, call.value, r);
          LeftoverClosed(w, c, r);
        }
        SameLookupsConcluded(c, b, r);
      }
    }
  }

  lemma {:induction false} ConcludedClosed(disk: Disk, r: Row)
    requires Concluded(disk, r) && RowOf(disk, r.consumerId, r.effectKey) != Some(r) && TaskOf(disk, r.taskId).Some?
    ensures Closed(disk, r)
  {
  }

  /** The stored record is there from `i` to `j`, deleted or not. */
  predicate Kept(h: History, taskId: string, i: nat, j: nat)
    requires j < |h.disks|
  {
    forall m :: i <= m <= j ==> TaskOf(h.disks[m], taskId).Some?
  }

  lemma {:induction false} KeyStaysProduct(h: History, capacity: Capacity, key: string, i: nat)
    requires Happened(h, capacity) && KeyKept(h, key) && i < |h.disks|
    ensures ProductOnly(h.disks[i], key)
    decreases i
  {
    hide Served, LeavesKey, ProductOnly;
    if i > 0 {
      KeyStaysProduct(h, capacity, key, i - 1);
      StepProductOnly(h.disks[i - 1], h.disks[i], h.calls[i - 1], capacity, key);
    }
  }

  lemma {:induction false} StepProductOnly(a: Disk, b: Disk, call: Option<Call>, capacity: Capacity, key: string)
    requires Served(a, b, call, capacity) && LeavesKey(call, key) && ProductOnly(a, key)
    ensures ProductOnly(b, key)
  {
    hide Written, Compact, Readable, Distinct, Find;
    if Readable(a, capacity) {
      ReadableDistinct(a, capacity);
      if call.None? {
        ReorderedLookups(a, b);
      } else if After(a, call.value, capacity).Some? {
        var w := Written(a, call.value).value;
        WrittenDistinct(a, call.value);
        WrittenProductOnly(a, call.value, key);
        CompactLeftover(w, capacity);
      }
    }
  }

  lemma {:induction false} ConcludedStays(h: History, capacity: Capacity, r: Row, i: nat, j: nat)
    requires Happened(h, capacity) && KeyKept(h, r.effectKey) && i <= j < |h.disks| && Kept(h, r.taskId, i, j)
    requires ProductKey(r.effectKey) && r.delivery.Completed? && Concluded(h.disks[i], r)
    ensures Concluded(h.disks[j], r)
    decreases j
  {
    hide Served, LeavesKey, ProductOnly, Concluded, ProductKey;
    if i < j {
      ConcludedStays(h, capacity, r, i, j - 1);
      KeyStaysProduct(h, capacity, r.effectKey, j - 1);
      StepConcluded(h.disks[j - 1], h.disks[j], h.calls[j - 1], capacity, r);
    }
  }

  /** The call completes the delivery. */
  predicate Completes(a: Disk, call: Option<Call>, capacity: Capacity, consumer: string, key: string) {
    && Readable(a, capacity) && call.Some? && About(call.value, consumer, key) && Written(a, call.value).Some?
    && (call.value.Completion? || (call.value.Finishing? && call.value.finish.Complete?))
  }

  /** A completion turns a pending row into a completed one with the given result, and is always persisted. */
  lemma {:induction false} CompletionCompletes(a: Disk, b: Disk, call: Option<Call>, capacity: Capacity,
      consumer: string, key: string)
    requires Served(a, b, call, capacity) && Completes(a, call, capacity, consumer, key)
    ensures RowOf(a, consumer, key).Some? && RowOf(a, consumer, key).value.delivery.Pending?
    ensures RowOf(b, consumer, key).Some? && RowOf(b, consumer, key).value.delivery.Completed?
    ensures RowOf(b, consumer, key).value.taskId == RowOf(a, consumer, key).value.taskId
    ensures call.value.Finishing? ==> RowOf(b, consumer, key).value.delivery.result == Some(call.value.finish.result)
  {
    hide Find, Put, ValidResult, SafeId, SafeTaskId, Written, Sound, Compact;
    HeldCallChanges(a, call.value);
    var (row, delivery) := Changed(a, call.value).value;
    var w := Written(a, call.value).value;
    ReadableDistinct(a, capacity);
    PutRow(a, row.(delivery := delivery));
    CompactIdle(w, capacity);
    assert b == w.(revision := w.revision + 1);
    assert RowOf(b, consumer, key) == RowOf(w, consumer, key);
  }

  /** Main result: over any history at all, if one consumer completes a product effect twice for the same stored
      record, that record was gone from the store in between. */
  lemma {:induction false} AtMostOneCompletion(h: History, capacity: Capacity, consumer: string, key: string, i: nat,
      j: nat)
    requires Happened(h, capacity) && KeyKept(h, key) && ProductKey(key) && i < j < |h.calls|
    requires Completes(h.disks[i], h.calls[i], capacity, consumer, key)
    requires Completes(h.disks[j], h.calls[j], capacity, consumer, key)
    ensures RowOf(h.disks[i], consumer, key).Some? && RowOf(h.disks[j], consumer, key).Some?
    ensures RowOf(h.disks[i], consumer, key).value.taskId == RowOf(h.disks[j], consumer, key).value.taskId ==>
              exists m :: i < m <= j && TaskOf(h.disks[m], RowOf(h.disks[i], consumer, key).value.taskId).None?
  {
    hide Completes, Served, ProductKey, KeyKept, Concluded;
    assert Served(h.disks[i], h.disks[i + 1], h.calls[i], capacity);
    assert Served(h.disks[j], h.disks[j + 1], h.calls[j], capacity);
    CompletionCompletes(h.disks[i], h.disks[i + 1], h.calls[i], capacity, consumer, key);
    CompletionCompletes(h.disks[j], h.disks[j + 1], h.calls[j], capacity, consumer, key);
    var r := RowOf(h.disks[i + 1], consumer, key).value;
    if Kept(h, r.taskId, i + 1, j) {
      RowConcludes(h.disks[i + 1], r);
      ConcludedStays(h, capacity, r, i + 1, j);
      ConcludedNotPending(h.disks[j], r);
    }
  }

  lemma {:induction false} RowConcludes(disk: Disk, r: Row)
    requires RowOf(disk, r.consumerId, r.effectKey) == Some(r)
    ensures Concluded(disk, r)
  {
  }

  lemma {:induction false} ConcludedNotPending(disk: Disk, r: Row)
    requires Concluded(disk, r) && TaskOf(disk, r.taskId).Some? && r.delivery.Completed?
    ensures var row := RowOf(disk, r.consumerId, r.effectKey);
      row.Some? && row.value.delivery.Pending? ==> row.value.taskId != r.taskId
  {
  }

  predicate AliveFrom(h: History, taskId: string, i: nat, j: nat)
    requires j < |h.disks|
  {
    forall m :: i <= m <= j ==> Alive(h.disks[m], taskId)
  }

  /** A completed product delivery stays exactly as it is while its task lives. */
  lemma {:induction false} CompletedStays(h: History, capacity: Capacity, r: Row, i: nat, j: nat)
    requires Happened(h, capacity) && KeyKept(h, r.effectKey) && ProductKey(r.effectKey) && i <= j < |h.disks|
    requires RowOf(h.disks[i], r.consumerId, r.effectKey) == Some(r) && r.delivery.Completed?
    requires AliveFrom(h, r.taskId, i, j)
    ensures RowOf(h.disks[j], r.consumerId, r.effectKey) == Some(r)
  {
    hide Happened, KeyKept, ProductKey;
    RowConcludes(h.disks[i], r);
    assert Kept(h, r.taskId, i, j);
    ConcludedStays(h, capacity, r, i, j);
    assert Alive(h.disks[j], r.taskId);
  }

  /** Every later claim of a completed product delivery returns the stored result while the task lives. */
  lemma {:induction false} LaterClaimsReturnResult(h: History, capacity: Capacity, r: Row, i: nat, j: nat, leaseMs: int,
      now: Time,
      token: Uuid)
    requires Happened(h, capacity) && KeyKept(h, r.effectKey) && ProductKey(r.effectKey) && i <= j < |h.disks|
    requires RowOf(h.disks[i], r.consumerId, r.effectKey) == Some(r) && r.delivery.Completed?
    requires AliveFrom(h, r.taskId, i, j)
    requires Readable(h.disks[j], capacity) && LeaseLengthAllowed(leaseMs)
    ensures ClaimProduct(h.disks[j], r.consumerId, r.taskId, r.effectKey, leaseMs, now, token)
              == Keeps(Done(r.delivery.result.GetOr(NO_RESULT)))
    ensures !ClaimOutbox(h.disks[j], r.consumerId, r.effectKey, leaseMs, now, token).Writes?
  {
    CompletedStays(h, capacity, r, i, j);
    assert ValidRow(r) by { assert ItemsValid(h.disks[j]); }
    assert Alive(h.disks[j], r.taskId);
    hide Happened, SafeId, SafeTaskId, Find, Readable, KeyKept;
  }
}
