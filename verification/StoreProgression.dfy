/** Every operation of the task store followed by compaction leaves a disk that can be read again and that
    recovery accepts as a successor of the disk before. */
module StoreProgression {
  import opened Wrappers
  import opened ProductTask
  import opened Keyed
  import opened TaskStore

  // ---------------------------------------------------------------- the discipline callers keep

  /** Exactly the product effects carry product keys. */
  predicate KeysNameKinds(disk: Disk) {
    forall e :: e in disk.outbox ==> (e.kind == ProductEffect <==> ProductKey(e.effectKey))
  }

  /** Only deliveries of product effects are released; any other effect has one consumer; a key belongs to one task. */
  predicate RowsDisciplined(disk: Disk) {
    && (forall r :: r in disk.inbox && r.delivery.Released? ==> ProductKey(r.effectKey))
    && (forall r, s :: r in disk.inbox && s in disk.inbox && r.effectKey == s.effectKey ==>
          r.taskId == s.taskId && (ProductKey(r.effectKey) || r == s))
  }

  predicate WellKept(disk: Disk) {
    Sound(disk) && KeysNameKinds(disk) && RowsDisciplined(disk)
  }

  // ---------------------------------------------------------------- what compaction may drop

  /** `b` is `a` less some items, each dropped for a reason; `purging` says whether deletion is one. */
  predicate TasksShrink(a: Disk, b: Disk, purging: bool) {
    && (forall t :: t in b.tasks ==> t in a.tasks)
    && (forall t :: t in a.tasks ==> t in b.tasks || (purging && t.visibility == Some(Deleted)))
  }

  predicate EffectsShrink(a: Disk, b: Disk, purging: bool) {
    && (forall e :: e in b.outbox ==> e in a.outbox)
    && (forall e :: e in a.outbox ==>
          || e in b.outbox
          || e.kind == ProductEffect
          || (purging && TaskDeleted(a, e.taskId))
          || AllDone(a.inbox, e.effectKey))
  }

  predicate RowsShrink(a: Disk, b: Disk, purging: bool) {
    && (forall r :: r in b.inbox ==> r in a.inbox)
    && (forall r :: r in a.inbox && r.delivery.Pending? ==> r in b.inbox)
    && (forall r :: r in a.inbox ==>
          || r in b.inbox
          || r.delivery.Released?
          || (purging && TaskDeleted(a, r.taskId))
          || !ProductKey(r.effectKey))
    && (forall r, e :: r in a.inbox && e in b.outbox && r.effectKey == e.effectKey ==> r in b.inbox)
  }

  predicate Shrinks(a: Disk, b: Disk, purging: bool) {
    b.revision == a.revision && TasksShrink(a, b, purging) && EffectsShrink(a, b, purging) && RowsShrink(a, b, purging)
  }

  lemma {:induction false} TaskKept(a: Disk, b: Disk, t: StoredTask)
    requires Distinct(a) && Distinct(b) && t in b.tasks && forall x :: x in b.tasks ==> x in a.tasks
    ensures TaskOf(a, t.taskId) == Some(t) == TaskOf(b, t.taskId)
  {
    FindUnique(a.tasks, TaskId, t);
    FindUnique(b.tasks, TaskId, t);
  }

  lemma {:induction false} EffectKept(a: Disk, b: Disk, e: Effect)
    requires Distinct(a) && Distinct(b) && e in b.outbox && forall x :: x in b.outbox ==> x in a.outbox
    ensures EffectOf(a, e.effectKey) == Some(e) == EffectOf(b, e.effectKey)
  {
    FindUnique(a.outbox, EffectId, e);
    FindUnique(b.outbox, EffectId, e);
  }

  lemma {:induction false} DeletedBefore(a: Disk, b: Disk, id: string)
    requires Distinct(a) && Distinct(b) && (forall x :: x in b.tasks ==> x in a.tasks) && TaskDeleted(b, id)
    ensures TaskDeleted(a, id)
  {
    TaskKept(a, b, TaskOf(b, id).value);
  }

  lemma {:induction false} AllDoneBefore(a: Disk, b: Disk, e: Effect, purging: bool)
    requires RowsShrink(a, b, purging) && e in b.outbox && AllDone(b.inbox, e.effectKey)
    ensures AllDone(a.inbox, e.effectKey)
  {
    var r :| r in b.inbox && r.effectKey == e.effectKey;
    assert r in a.inbox;
    forall r | r in a.inbox && r.effectKey == e.effectKey ensures r.delivery.Completed? {
      assert r in b.inbox;
    }
  }

  lemma {:induction false} EffectsShrinkTransitive(a: Disk, b: Disk, c: Disk, purging: bool)
    requires Distinct(a) && Distinct(b) && Shrinks(a, b, purging) && Shrinks(b, c, purging)
    ensures EffectsShrink(a, c, purging)
  {
    forall e | e in a.outbox
      ensures e in c.outbox || e.kind == ProductEffect || (purging && TaskDeleted(a, e.taskId))
          || AllDone(a.inbox, e.effectKey)
    {
      if e in b.outbox && e !in c.outbox {
        if purging && TaskDeleted(b, e.taskId) {
          DeletedBefore(a, b, e.taskId);
        } else if AllDone(b.inbox, e.effectKey) {
          AllDoneBefore(a, b, e, purging);
        }
      }
    }
  }

  /** Shrinking twice is shrinking. */
  lemma {:induction false} ShrinksTransitive(a: Disk, b: Disk, c: Disk, purging: bool)
    requires Distinct(a) && Distinct(b) && Shrinks(a, b, purging) && Shrinks(b, c, purging)
    ensures Shrinks(a, c, purging)
  {
    EffectsShrinkTransitive(a, b, c, purging);
    forall r | r in a.inbox
      ensures r in c.inbox || r.delivery.Released? || (purging && TaskDeleted(a, r.taskId)) || !ProductKey(r.effectKey)
    {
      if r in b.inbox && r !in c.inbox && purging && TaskDeleted(b, r.taskId) {
        DeletedBefore(a, b, r.taskId);
      }
    }
  }

  // ---------------------------------------------------------------- each step shrinks and keeps the discipline

  /** Dropping items keeps what remains well kept as long as nothing that remains refers to what is gone. */
  lemma {:induction false} SubDiskWellKept(a: Disk, b: Disk)
    requires WellKept(a) && Distinct(b) && b.revision == a.revision
    requires forall t :: t in b.tasks ==> t in a.tasks
    requires forall e :: e in b.outbox ==> e in a.outbox && TaskOf(a, e.taskId).value in b.tasks
    requires forall r :: r in b.inbox ==> r in a.inbox && TaskOf(a, r.taskId).value in b.tasks
    requires forall r :: r in b.inbox && !ProductKey(r.effectKey) ==> EffectOf(a, r.effectKey).value in b.outbox
    ensures WellKept(b)
  {
    forall e | e in b.outbox ensures TaskOf(b, e.taskId).Some? {
      TaskKept(a, b, TaskOf(a, e.taskId).value);
    }
    forall r | r in b.inbox ensures RowRefers(b, r) {
      assert RowRefers(a, r);
      TaskKept(a, b, TaskOf(a, r.taskId).value);
      if EffectOf(b, r.effectKey).Some? {
        EffectKept(a, b, EffectOf(b, r.effectKey).value);
      }
    }
  }

  lemma {:induction false} DistinctFilters(disk: Disk, tasks: StoredTask -> bool, effects: Effect -> bool,
      rows: Row -> bool)
    requires Distinct(disk)
    ensures Distinct(disk.(tasks := Filter(disk.tasks, tasks), outbox := Filter(disk.outbox, effects),
        inbox := Filter(disk.inbox, rows)))
  {
    FilterDistinct(disk.tasks, TaskId, tasks);
    FilterDistinct(disk.outbox, EffectId, effects);
    FilterDistinct(disk.inbox, RowId, rows);
  }

  lemma {:induction false} WithoutTaskShrinks(disk: Disk, task: StoredTask)
    requires WellKept(disk) && task in disk.tasks && task.visibility == Some(Deleted)
    requires !HasPendingRow(disk, task.taskId)
    ensures WellKept(WithoutTask(disk, task.taskId)) && Shrinks(disk, WithoutTask(disk, task.taskId), true)
  {
    var id := task.taskId;
    var b := WithoutTask(disk, id);
    DistinctFilters(disk, NotTask(id), NotTaskEffect(id), NotTaskRow(id));
    FindUnique(disk.tasks, TaskId, task);
    assert TaskDeleted(disk, id);
    forall t | t in disk.tasks && t !in b.tasks ensures t == task {
      assert !NotTask(id)(t);
      SameKeySameItem(disk.tasks, TaskId, t, task);
    }
    forall e | e in b.outbox ensures e in disk.outbox && TaskOf(disk, e.taskId).value in b.tasks {
      assert NotTaskEffect(id)(e);
      assert NotTask(id)(TaskOf(disk, e.taskId).value);
    }
    forall r | r in b.inbox ensures r in disk.inbox && TaskOf(disk, r.taskId).value in b.tasks {
      assert NotTaskRow(id)(r);
      assert RowRefers(disk, r);
      assert NotTask(id)(TaskOf(disk, r.taskId).value);
    }
    forall r | r in b.inbox && !ProductKey(r.effectKey) ensures EffectOf(disk, r.effectKey).value in b.outbox {
      assert NotTaskRow(id)(r);
      assert RowRefers(disk, r);
      assert NotTaskEffect(id)(EffectOf(disk, r.effectKey).value);
    }
    SubDiskWellKept(disk, b);
    forall e | e in disk.outbox && e !in b.outbox ensures TaskDeleted(disk, e.taskId) {
      assert !NotTaskEffect(id)(e);
    }
    forall r | r in disk.inbox && r !in b.inbox ensures TaskDeleted(disk, r.taskId) && !r.delivery.Pending? {
      assert !NotTaskRow(id)(r);
    }
    forall r, e | r in disk.inbox && e in b.outbox && r.effectKey == e.effectKey ensures r in b.inbox {
      assert NotTaskEffect(id)(e);
      FindUnique(disk.outbox, EffectId, e);
      assert RowRefers(disk, r);
      assert NotTaskRow(id)(r);
    }
  }

  lemma {:induction false} ShrinksSelf(disk: Disk, purging: bool)
    ensures Shrinks(disk, disk, purging)
  {
  }

  lemma {:induction false} DropTasksShrinks(disk: Disk, deleted: seq<StoredTask>, capacity: Capacity)
    requires WellKept(disk) && forall t :: t in deleted ==> t.visibility == Some(Deleted)
    requires forall t :: t in deleted && TaskOf(disk, t.taskId).Some? ==> t in disk.tasks
    ensures WellKept(DropTasks(disk, deleted, capacity)) && Shrinks(disk, DropTasks(disk, deleted, capacity), true)
    decreases |deleted|
  {
    hide WellKept, Shrinks;
    if deleted == [] || |disk.tasks| <= capacity.maxTasks {
      ShrinksSelf(disk, true);
    } else if HasPendingRow(disk, deleted[0].taskId) {
      DropTasksShrinks(disk, deleted[1..], capacity);
    } else {
      var next := WithoutTask(disk, deleted[0].taskId);
      NextShrinks(disk, deleted);
      DropTasksShrinks(next, deleted[1..], capacity);
      WellKeptDistinct(disk);
      WellKeptDistinct(next);
      ShrinksTransitive(disk, next, DropTasks(next, deleted[1..], capacity), true);
    }
  }

  lemma {:induction false} WellKeptDistinct(disk: Disk)
    requires WellKept(disk)
    ensures Distinct(disk) && disk.revision >= 0
  {
  }

  /** Dropping the first listed task, or nothing when an earlier namesake went already. */
  lemma {:induction false} NextShrinks(disk: Disk, deleted: seq<StoredTask>)
    requires WellKept(disk) && deleted != [] && forall t :: t in deleted ==> t.visibility == Some(Deleted)
    requires forall t :: t in deleted && TaskOf(disk, t.taskId).Some? ==> t in disk.tasks
    requires !HasPendingRow(disk, deleted[0].taskId)
    ensures var next := WithoutTask(disk, deleted[0].taskId);
      && WellKept(next) && Shrinks(disk, next, true)
      && forall t :: t in deleted[1..] && TaskOf(next, t.taskId).Some? ==> t in next.tasks
  {
    var id := deleted[0].taskId;
    var next := WithoutTask(disk, id);
    if TaskOf(disk, id).Some? {
      assert deleted[0] in disk.tasks;
      WithoutTaskShrinks(disk, deleted[0]);
    } else {
      NothingToDrop(disk, id);
    }
    forall t | t in deleted[1..] && TaskOf(next, t.taskId).Some? ensures t in next.tasks {
      var found := TaskOf(next, t.taskId).value;
      assert found in disk.tasks && NotTask(id)(found);
      assert TaskOf(disk, t.taskId).Some?;
      assert NotTask(id)(t);
    }
  }

  lemma {:induction false} FilterAll<T(!new)>(items: seq<T>, keep: T -> bool)
    requires forall x :: x in items ==> keep(x)
    ensures Filter(items, keep) == items
    decreases |items|
  {
    if items != [] {
      FilterAll(items[1..], keep);
    }
  }

  lemma {:induction false} NothingToDrop(disk: Disk, id: string)
    requires WellKept(disk) && TaskOf(disk, id).None?
    ensures WithoutTask(disk, id) == disk && Shrinks(disk, disk, true)
  {
    forall r | r in disk.inbox ensures NotTaskRow(id)(r) {
      assert RowRefers(disk, r);
    }
    FilterAll(disk.tasks, NotTask(id));
    FilterAll(disk.outbox, NotTaskEffect(id));
    FilterAll(disk.inbox, NotTaskRow(id));
  }

  lemma {:induction false} CompactTasksShrinks(disk: Disk, capacity: Capacity)
    requires WellKept(disk)
    ensures var b := CompactTasks(disk, capacity);
      WellKept(b) && Shrinks(disk, b, |disk.tasks| > capacity.maxTasks)
  {
    if |disk.tasks| > capacity.maxTasks {
      var deleted := SortByAge(Filter(disk.tasks, IsDeleted));
      forall t | t in deleted ensures t.visibility == Some(Deleted) && t in disk.tasks {
        assert t in Filter(disk.tasks, IsDeleted);
      }
      DropTasksShrinks(disk, deleted, capacity);
    } else {
      ShrinksSelf(disk, false);
    }
  }

  lemma {:induction false} WithoutEffectShrinks(disk: Disk, effect: Effect)
    requires WellKept(disk) && effect in disk.outbox
    requires effect.kind == ProductEffect || AllDone(disk.inbox, effect.effectKey)
    ensures WellKept(WithoutEffect(disk, effect)) && Shrinks(disk, WithoutEffect(disk, effect), false)
  {
    var key := effect.effectKey;
    var b := WithoutEffect(disk, effect);
    FilterDistinct(disk.outbox, EffectId, NotEffect(key));
    FilterDistinct(disk.inbox, RowId, NotDelivery(key));
    forall e | e in disk.outbox && e !in b.outbox ensures e == effect {
      assert !NotEffect(key)(e);
      SameKeySameItem(disk.outbox, EffectId, e, effect);
    }
    forall r | r in b.inbox ensures r in disk.inbox && TaskOf(disk, r.taskId).value in b.tasks {
      assert RowRefers(disk, r);
    }
    forall r | r in b.inbox && !ProductKey(r.effectKey) ensures EffectOf(disk, r.effectKey).value in b.outbox {
      assert RowRefers(disk, r);
      if effect.kind != ProductEffect {
        assert NotDelivery(key)(r);
      }
      assert NotEffect(key)(EffectOf(disk, r.effectKey).value);
    }
    SubDiskWellKept(disk, b);
    forall r | r in disk.inbox && r !in b.inbox ensures r.delivery.Completed? && !ProductKey(r.effectKey) {
      assert !NotDelivery(key)(r);
    }
    forall r, e | r in disk.inbox && e in b.outbox && r.effectKey == e.effectKey ensures r in b.inbox {
      assert NotEffect(key)(e);
      assert NotDelivery(key)(r);
    }
  }

  lemma {:induction false} CompactOutboxShrinks(disk: Disk, capacity: Capacity)
    requires WellKept(disk)
    ensures WellKept(CompactOutbox(disk, capacity)) && Shrinks(disk, CompactOutbox(disk, capacity), false)
    decreases |disk.outbox|
  {
    hide WellKept, Shrinks, AllDone;
    if |disk.outbox| <= capacity.maxEffects || OutboxCandidate(disk) == |disk.outbox| {
      ShrinksSelf(disk, false);
    } else {
      var effect := disk.outbox[OutboxCandidate(disk)];
      var next := WithoutEffect(disk, effect);
      WithoutEffectShorter(disk, effect);
      WithoutEffectShrinks(disk, effect);
      CompactOutboxShrinks(next, capacity);
      WellKeptDistinct(disk);
      WellKeptDistinct(next);
      ShrinksTransitive(disk, next, CompactOutbox(next, capacity), false);
    }
  }

  /** The effect of an evicted row goes with it, and so do no other rows that still need it. */
  lemma {:induction false} WithoutRowShrinks(disk: Disk, i: nat)
    requires WellKept(disk) && i < |disk.inbox|
    requires disk.inbox[i].delivery.Released? || IsEvictable(disk)(disk.inbox[i])
    ensures WellKept(WithoutRow(disk, i)) && Shrinks(disk, WithoutRow(disk, i), true)
  {
    var row := disk.inbox[i];
    var key := row.effectKey;
    var b := WithoutRow(disk, i);
    RemoveAtExact(disk.inbox, RowId, i);
    FilterDistinct(disk.outbox, EffectId, NotEffect(key));
    EvictableKinds(disk, row);
    forall r | r in b.inbox ensures r in disk.inbox && TaskOf(disk, r.taskId).value in b.tasks {
      assert RowRefers(disk, r);
    }
    forall r | r in b.inbox && !ProductKey(r.effectKey) ensures EffectOf(disk, r.effectKey).value in b.outbox {
      assert RowRefers(disk, r) && r.effectKey != key;
      assert NotEffect(key)(EffectOf(disk, r.effectKey).value);
    }
    SubDiskWellKept(disk, b);
    forall e | e in disk.outbox && e !in b.outbox
      ensures e.kind == ProductEffect || TaskDeleted(disk, e.taskId) || AllDone(disk.inbox, e.effectKey)
    {
      assert !NotEffect(key)(e);
      if !ProductKey(key) {
        forall r | r in disk.inbox && r.effectKey == key ensures r.delivery.Completed? {
          assert r == row;
        }
      }
    }
    forall r, e | r in disk.inbox && e in b.outbox && r.effectKey == e.effectKey ensures r in b.inbox {
      assert NotEffect(key)(e);
    }
  }

  lemma {:induction false} EvictableKinds(disk: Disk, row: Row)
    requires WellKept(disk) && row in disk.inbox && (row.delivery.Released? || IsEvictable(disk)(row))
    ensures row.delivery.Released? ==> ProductKey(row.effectKey)
    ensures !row.delivery.Released? ==>
              row.delivery.Completed? && (!ProductKey(row.effectKey) || TaskDeleted(disk, row.taskId))
  {
    assert RowRefers(disk, row);
  }

  lemma {:induction false} CompactInboxShrinks(disk: Disk, capacity: Capacity)
    requires WellKept(disk)
    ensures WellKept(CompactInbox(disk, capacity))
    ensures Shrinks(disk, CompactInbox(disk, capacity), |disk.inbox| > capacity.maxEffects)
    decreases |disk.inbox|
  {
    hide WellKept, Shrinks, IsEvictable;
    if |disk.inbox| <= capacity.maxEffects || InboxCandidate(disk) == |disk.inbox| {
      ShrinksSelf(disk, |disk.inbox| > capacity.maxEffects);
    } else {
      var next := WithoutRow(disk, InboxCandidate(disk));
      WithoutRowShrinks(disk, InboxCandidate(disk));
      CompactInboxShrinks(next, capacity);
      ShrinksMore(next, CompactInbox(next, capacity), |next.inbox| > capacity.maxEffects);
      WellKeptDistinct(disk);
      WellKeptDistinct(next);
      ShrinksTransitive(disk, next, CompactInbox(next, capacity), true);
    }
  }

  lemma {:induction false} ShrinksMore(a: Disk, b: Disk, purging: bool)
    requires Shrinks(a, b, purging)
    ensures Shrinks(a, b, true)
  {
  }

  /** Whether deletion is a reason to drop anything: only a list that is too long makes it one. */
  predicate Purging(disk: Disk, capacity: Capacity) {
    |disk.tasks| > capacity.maxTasks || |disk.inbox| > capacity.maxEffects
  }

  lemma {:induction false} ShrinksCond(a: Disk, b: Disk, weak: bool, strong: bool)
    requires Shrinks(a, b, weak) && (weak ==> strong)
    ensures Shrinks(a, b, strong)
  {
  }

  /** Compaction only shrinks the disk, and what is left is well kept. */
  lemma {:induction false} CompactShrinks(disk: Disk, capacity: Capacity)
    requires WellKept(disk)
    ensures WellKept(Compact(disk, capacity)) && Shrinks(disk, Compact(disk, capacity), Purging(disk, capacity))
  {
    hide WellKept, Shrinks;
    var purging := Purging(disk, capacity);
    var b := CompactTasks(disk, capacity);
    var c := CompactOutbox(b, capacity);
    var d := CompactInbox(c, capacity);
    var e := CompactOutbox(d, capacity);
    CompactTasksShrinks(disk, capacity);
    CompactOutboxShrinks(b, capacity);
    CompactInboxShrinks(c, capacity);
    CompactOutboxShrinks(d, capacity);
    InboxNoLonger(disk, capacity);
    WellKeptDistinct(disk);
    WellKeptDistinct(b);
    WellKeptDistinct(c);
    WellKeptDistinct(d);
    ShrinksCond(disk, b, |disk.tasks| > capacity.maxTasks, purging);
    ShrinksCond(b, c, false, purging);
    ShrinksCond(c, d, |c.inbox| > capacity.maxEffects, purging);
    ShrinksCond(d, e, false, purging);
    ShrinksTransitive(disk, b, c, purging);
    ShrinksTransitive(disk, c, d, purging);
    ShrinksTransitive(disk, d, e, purging);
  }

  lemma {:induction false} DropTasksNoLonger(disk: Disk, deleted: seq<StoredTask>, capacity: Capacity)
    ensures |DropTasks(disk, deleted, capacity).inbox| <= |disk.inbox|
    decreases |deleted|
  {
    if deleted != [] && |disk.tasks| > capacity.maxTasks {
      if HasPendingRow(disk, deleted[0].taskId) {
        DropTasksNoLonger(disk, deleted[1..], capacity);
      } else {
        DropTasksNoLonger(WithoutTask(disk, deleted[0].taskId), deleted[1..], capacity);
      }
    }
  }

  lemma {:induction false} CompactOutboxNoLonger(disk: Disk, capacity: Capacity)
    ensures |CompactOutbox(disk, capacity).inbox| <= |disk.inbox|
    decreases |disk.outbox|
  {
    if |disk.outbox| > capacity.maxEffects && OutboxCandidate(disk) < |disk.outbox| {
      var effect := disk.outbox[OutboxCandidate(disk)];
      WithoutEffectShorter(disk, effect);
      CompactOutboxNoLonger(WithoutEffect(disk, effect), capacity);
    }
  }

  lemma {:induction false} InboxNoLonger(disk: Disk, capacity: Capacity)
    ensures |CompactOutbox(CompactTasks(disk, capacity), capacity).inbox| <= |disk.inbox|
  {
    if |disk.tasks| > capacity.maxTasks {
      DropTasksNoLonger(disk, SortByAge(Filter(disk.tasks, IsDeleted)), capacity);
    }
    CompactOutboxNoLonger(CompactTasks(disk, capacity), capacity);
  }

  /** A disk within its capacity is left alone. */
  lemma {:induction false} CompactIdle(disk: Disk, capacity: Capacity)
    requires Within(disk, capacity)
    ensures Compact(disk, capacity) == disk
  {
  }

  // ---------------------------------------------------------------- from a step and a shrinking to progression

  /** `b` carries on from `a` without dropping anything: rows are left alone or leased, tasks progress. */
  predicate Extends(a: Disk, b: Disk) {
    && b.revision == a.revision
    && (forall t :: t in a.tasks ==> TaskOf(b, t.taskId).Some? && TaskProgresses(t, TaskOf(b, t.taskId).value))
    && (forall e :: e in a.outbox ==> e in b.outbox)
    && (forall r :: r in a.inbox ==>
          var next := RowOf(b, r.consumerId, r.effectKey);
          next.Some? && RowProgresses(r, next.value) && (next.value == r || next.value.delivery.Pending?))
    && (forall r :: r in b.inbox ==> r in a.inbox || r.delivery.Pending?)
  }

  predicate DeletionKept(a: Disk, b: Disk) {
    forall t :: t in a.tasks && TaskDeleted(b, t.taskId) ==> t.visibility == Some(Deleted)
  }

  lemma {:induction false} TasksAccepted(a: Disk, b: Disk, c: Disk, purging: bool, t: StoredTask)
    requires WellKept(a) && WellKept(b) && WellKept(c) && Extends(a, b) && Shrinks(b, c, purging)
    requires purging ==> DeletionKept(a, b)
    requires t in a.tasks
    ensures TaskLegal(a, c, t)
  {
    var next := TaskOf(b, t.taskId).value;
    if TaskOf(c, t.taskId).Some? {
      TaskKept(b, c, TaskOf(c, t.taskId).value);
    }
  }

  lemma {:induction false} AllDoneExtends(a: Disk, b: Disk, key: string)
    requires Extends(a, b) && AllDone(b.inbox, key)
    ensures AllDone(a.inbox, key)
  {
    var row :| row in b.inbox && row.effectKey == key;
    assert row in a.inbox;
    forall r | r in a.inbox && r.effectKey == key ensures r.delivery.Completed? {
      assert RowOf(b, r.consumerId, r.effectKey).value in b.inbox;
    }
  }

  lemma {:induction false} DeletedExtends(a: Disk, b: Disk, id: string)
    requires DeletionKept(a, b) && TaskOf(a, id).Some? && TaskDeleted(b, id)
    ensures TaskDeleted(a, id)
  {
  }

  lemma {:induction false} EffectsAccepted(a: Disk, b: Disk, c: Disk, purging: bool, e: Effect)
    requires WellKept(a) && WellKept(b) && WellKept(c) && Extends(a, b) && Shrinks(b, c, purging)
    requires purging ==> DeletionKept(a, b)
    requires e in a.outbox
    ensures EffectLegal(a, c, e)
  {
    FindUnique(b.outbox, EffectId, e);
    if EffectOf(c, e.effectKey).Some? {
      EffectKept(b, c, EffectOf(c, e.effectKey).value);
    } else if e.kind != ProductEffect {
      if purging && TaskDeleted(b, e.taskId) {
        DeletedExtends(a, b, e.taskId);
      } else {
        AllDoneExtends(a, b, e.effectKey);
      }
    }
  }

  lemma {:induction false} RowKept(a: Disk, b: Disk, r: Row)
    requires Distinct(a) && Distinct(b) && r in b.inbox && forall x :: x in b.inbox ==> x in a.inbox
    ensures RowOf(a, r.consumerId, r.effectKey) == Some(r) == RowOf(b, r.consumerId, r.effectKey)
  {
    FindUnique(a.inbox, RowId, r);
    FindUnique(b.inbox, RowId, r);
  }

  lemma {:induction false} RowsAccepted(a: Disk, b: Disk, c: Disk, purging: bool, r: Row)
    requires WellKept(a) && WellKept(b) && WellKept(c) && Extends(a, b) && Shrinks(b, c, purging)
    requires purging ==> DeletionKept(a, b)
    requires r in a.inbox
    ensures RowLegal(a, c, r)
  {
    var next := RowOf(b, r.consumerId, r.effectKey).value;
    assert RowRefers(a, r);
    if RowOf(c, r.consumerId, r.effectKey).Some? {
      RowKept(b, c, RowOf(c, r.consumerId, r.effectKey).value);
    } else {
      assert next !in c.inbox && next == r;
      if purging && TaskDeleted(b, r.taskId) {
        DeletedExtends(a, b, r.taskId);
      }
    }
  }

  /** Carrying on and then compacting is a step that recovery accepts. */
  lemma {:induction false} ExtendThenShrink(a: Disk, b: Disk, c: Disk, purging: bool)
    requires WellKept(a) && WellKept(b) && WellKept(c) && Extends(a, b) && Shrinks(b, c, purging)
    requires purging ==> DeletionKept(a, b)
    ensures StoreProgresses(a, c.(revision := c.revision + 1))
  {
    var d := c.(revision := c.revision + 1);
    forall t | t in a.tasks ensures TaskLegal(a, d, t) {
      TasksAccepted(a, b, c, purging, t);
    }
    forall e | e in a.outbox ensures EffectLegal(a, d, e) {
      EffectsAccepted(a, b, c, purging, e);
    }
    forall r | r in a.inbox ensures RowLegal(a, d, r) {
      RowsAccepted(a, b, c, purging, r);
    }
  }

  /** The disk read next: readable, well kept, and an accepted successor. */
  predicate Accepted(before: Disk, after: Disk, capacity: Capacity) {
    Readable(after, capacity) && WellKept(after) && StoreProgresses(before, after)
  }

  lemma {:induction false} PersistAccepted(a: Disk, b: Disk, capacity: Capacity)
    requires WellKept(a) && WellKept(b) && Extends(a, b)
    requires Purging(b, capacity) ==> DeletionKept(a, b)
    ensures Persisted(b, capacity).Some? ==> Accepted(a, Persisted(b, capacity).value, capacity)
  {
    hide Extends, Shrinks, Compact, Purging, DeletionKept;
    CompactShrinks(b, capacity);
    var c := Compact(b, capacity);
    ExtendThenShrink(a, b, c, Purging(b, capacity));
    RevisionWellKept(c, c.revision + 1);
  }

  lemma {:induction false} RevisionWellKept(disk: Disk, revision: int)
    requires WellKept(disk) && revision >= 0
    ensures WellKept(disk.(revision := revision))
  {
    var b := disk.(revision := revision);
    forall r | r in b.inbox ensures RowRefers(b, r) {
      assert RowRefers(disk, r);
    }
  }

  // ---------------------------------------------------------------- recording a task version

  /** A task version and the effect announcing it. */
  predicate TaskStep(a: Disk, b: Disk, task: StoredTask, effect: Effect) {
    && b == a.(tasks := Put(a.tasks, TaskId, task), outbox := a.outbox + [effect])
    && ValidTask(task) && ValidEffect(effect) && effect.taskId == task.taskId
    && effect.kind != ProductEffect && !ProductKey(effect.effectKey)
    && EffectOf(a, effect.effectKey).None?
    && (TaskOf(a, task.taskId).Some? ==> TaskProgresses(TaskOf(a, task.taskId).value, task))
  }

  lemma {:induction false} PutTask(a: Disk, task: StoredTask)
    requires Distinct(a)
    ensures var tasks := Put(a.tasks, TaskId, task);
      && DistinctBy(tasks, TaskId)
      && (forall t :: t in tasks <==> t == task || (t in a.tasks && t.taskId != task.taskId))
      && |tasks| == |a.tasks| + (if TaskOf(a, task.taskId).Some? then 0 else 1)
      && (forall id :: Find(tasks, TaskId, id) == if id == task.taskId then Some(task) else TaskOf(a, id))
  {
    PutExact(a.tasks, TaskId, task);
    var b := a.(tasks := Put(a.tasks, TaskId, task));
    forall id ensures TaskOf(b, id) == if id == task.taskId then Some(task) else TaskOf(a, id) {
      if id == task.taskId {
        FindUnique(b.tasks, TaskId, task);
      } else if TaskOf(a, id).Some? {
        FindUnique(b.tasks, TaskId, TaskOf(a, id).value);
      }
    }
  }

  lemma {:induction false} PutEffect(a: Disk, effect: Effect)
    requires Distinct(a) && EffectOf(a, effect.effectKey).None?
    ensures var outbox := a.outbox + [effect];
      && DistinctBy(outbox, EffectId)
      && (forall e :: e in outbox <==> e == effect || e in a.outbox)
      && (forall key ::
        Find(outbox, EffectId, key) == if key == effect.effectKey then Some(effect) else EffectOf(a, key))
  {
    PutAppends(a.outbox, EffectId, effect);
    PutExact(a.outbox, EffectId, effect);
    var b := a.(outbox := a.outbox + [effect]);
    forall key ensures EffectOf(b, key) == if key == effect.effectKey then Some(effect) else EffectOf(a, key) {
      if key == effect.effectKey {
        FindUnique(b.outbox, EffectId, effect);
      } else if EffectOf(a, key).Some? {
        FindUnique(b.outbox, EffectId, EffectOf(a, key).value);
      }
    }
  }

  lemma {:induction false} TaskStepWellKept(a: Disk, b: Disk, task: StoredTask, effect: Effect)
    requires WellKept(a) && TaskStep(a, b, task, effect)
    ensures WellKept(b)
  {
    hide ValidTask, ValidEffect, ValidRow, Put, TaskProgresses, Find, ProductKey;
    PutTask(a, task);
    PutEffect(a, effect);
    forall e | e in b.outbox ensures TaskOf(b, e.taskId).Some? {
    }
    forall r | r in b.inbox ensures RowRefers(b, r) {
      assert RowRefers(a, r);
    }
    assert RowsDisciplined(b) by {
      assert b.inbox == a.inbox;
    }
  }

  lemma {:induction false} TaskStepExtends(a: Disk, b: Disk, task: StoredTask, effect: Effect)
    requires WellKept(a) && TaskStep(a, b, task, effect)
    ensures Extends(a, b)
  {
    hide ValidTask, ValidEffect, ValidRow, Put, TaskProgresses, RowProgresses, Find, ProductKey;
    PutTask(a, task);
    PutEffect(a, effect);
    forall t | t in a.tasks ensures TaskOf(b, t.taskId).Some? && TaskProgresses(t, TaskOf(b, t.taskId).value) {
      FindUnique(a.tasks, TaskId, t);
      VisibilityNeverResurrectsItself(t);
    }
    forall r | r in a.inbox ensures RowOf(b, r.consumerId, r.effectKey) == Some(r) && RowProgresses(r, r) {
      FindUnique(a.inbox, RowId, r);
      RowProgressesItself(r);
    }
  }

  lemma {:induction false} VisibilityNeverResurrectsItself(t: StoredTask)
    ensures TaskProgresses(t, t)
  {
  }

  lemma {:induction false} TaskStepAccepted(a: Disk, b: Disk, task: StoredTask, effect: Effect, capacity: Capacity)
    requires WellKept(a) && Within(a, capacity) && TaskStep(a, b, task, effect)
    ensures Persisted(b, capacity).Some? ==> Accepted(a, Persisted(b, capacity).value, capacity)
  {
    hide ValidTask, ValidEffect, ValidRow, Put, TaskProgresses, RowProgresses, Find, ProductKey, Extends;
    TaskStepWellKept(a, b, task, effect);
    TaskStepExtends(a, b, task, effect);
    PutTask(a, task);
    if Purging(b, capacity) {
      forall t | t in a.tasks && TaskDeleted(b, t.taskId) ensures t.visibility == Some(Deleted) {
        FindUnique(a.tasks, TaskId, t);
      }
    }
    PersistAccepted(a, b, capacity);
  }

  // ---------------------------------------------------------------- changing one inbox row

  lemma {:induction false} PutRow(a: Disk, row: Row)
    requires Distinct(a)
    ensures var inbox := Put(a.inbox, RowId, row);
      && DistinctBy(inbox, RowId)
      && (forall r ::
        r in inbox <==> r == row || (r in a.inbox && (r.consumerId, r.effectKey) != (row.consumerId, row.effectKey)))
      && |inbox| == |a.inbox| + (if RowOf(a, row.consumerId, row.effectKey).Some? then 0 else 1)
      && (forall consumer, key :: Find(inbox, RowId, (consumer, key)) ==
            if consumer == row.consumerId && key == row.effectKey then Some(row) else RowOf(a, consumer, key))
  {
    PutExact(a.inbox, RowId, row);
    var b := a.(inbox := Put(a.inbox, RowId, row));
    forall consumer, key ensures RowOf(b, consumer, key) ==
        if consumer == row.consumerId && key == row.effectKey then Some(row) else RowOf(a, consumer, key)
    {
      if consumer == row.consumerId && key == row.effectKey {
        FindUnique(b.inbox, RowId, row);
      } else if RowOf(a, consumer, key).Some? {
        FindUnique(b.inbox, RowId, RowOf(a, consumer, key).value);
      }
    }
  }

  /** The row fits among the others: its effect or a product key is there, and no other row contradicts it. */
  predicate RowFits(a: Disk, row: Row) {
    && ValidRow(row) && TaskOf(a, row.taskId).Some?
    && (match EffectOf(a, row.effectKey)
        case Some(effect) => effect.taskId == row.taskId
        case None => ProductKey(row.effectKey))
    && (row.delivery.Released? ==> ProductKey(row.effectKey))
    && (forall r :: r in a.inbox && r.effectKey == row.effectKey ==>
          r.taskId == row.taskId && (ProductKey(row.effectKey) || r.consumerId == row.consumerId))
  }

  lemma {:induction false} PutRowWellKept(a: Disk, row: Row)
    requires WellKept(a) && RowFits(a, row)
    ensures WellKept(a.(inbox := Put(a.inbox, RowId, row)))
  {
    hide ValidTask, ValidEffect, ValidRow, Put, Find, ProductKey;
    var b := a.(inbox := Put(a.inbox, RowId, row));
    PutRow(a, row);
    forall r | r in b.inbox ensures RowRefers(b, r) {
      if r != row {
        assert RowRefers(a, r);
      }
    }
    assert RowsDisciplined(b) by {
      PutRowDisciplined(a, row);
    }
  }

  lemma {:induction false} PutRowDisciplined(a: Disk, row: Row)
    requires WellKept(a) && RowFits(a, row)
    ensures RowsDisciplined(a.(inbox := Put(a.inbox, RowId, row)))
  {
    hide ValidTask, ValidEffect, ValidRow, Put, Find, ProductKey, Sound, KeysNameKinds;
    PutRow(a, row) by {
      WellKeptDistinct(a);
    }
    var b := a.(inbox := Put(a.inbox, RowId, row));
    forall r, s | r in b.inbox && s in b.inbox && r.effectKey == s.effectKey
      ensures r.taskId == s.taskId && (ProductKey(r.effectKey) || r == s)
    {
    }
  }

  lemma {:induction false} PutRowExtends(a: Disk, row: Row)
    requires WellKept(a) && row.delivery.Pending?
    requires var prior := RowOf(a, row.consumerId, row.effectKey); prior.Some? ==> RowProgresses(prior.value, row)
    ensures Extends(a, a.(inbox := Put(a.inbox, RowId, row)))
  {
    var b := a.(inbox := Put(a.inbox, RowId, row));
    PutRow(a, row);
    forall t | t in a.tasks ensures TaskOf(b, t.taskId).Some? && TaskProgresses(t, TaskOf(b, t.taskId).value) {
      FindUnique(a.tasks, TaskId, t);
      VisibilityNeverResurrectsItself(t);
    }
    forall r | r in a.inbox ensures var next := RowOf(b, r.consumerId, r.effectKey);
      next.Some? && RowProgresses(r, next.value) && (next.value == r || next.value.delivery.Pending?)
    {
      FindUnique(a.inbox, RowId, r);
    }
  }

  /** Leasing a row, with the product effect pushed again if it had been compacted. */
  lemma {:induction false} LeaseAccepted(a: Disk, pushed: Disk, row: Row, capacity: Capacity)
    requires WellKept(a) && WellKept(pushed) && Extends(a, pushed) && pushed.tasks == a.tasks && pushed.inbox == a.inbox
    requires RowFits(pushed, row) && row.delivery.Pending?
    requires var prior := RowOf(a, row.consumerId, row.effectKey); prior.Some? ==> RowProgresses(prior.value, row)
    ensures var b := pushed.(inbox := Put(pushed.inbox, RowId, row));
      Persisted(b, capacity).Some? ==> Accepted(a, Persisted(b, capacity).value, capacity)
  {
    var b := pushed.(inbox := Put(pushed.inbox, RowId, row));
    PutRowWellKept(pushed, row);
    PutRowExtends(pushed, row);
    forall r | r in a.inbox ensures var next := RowOf(b, r.consumerId, r.effectKey);
      next.Some? && RowProgresses(r, next.value) && (next.value == r || next.value.delivery.Pending?)
    {
      assert r in pushed.inbox;
    }
    forall t | t in a.tasks ensures TaskOf(b, t.taskId) == TaskOf(a, t.taskId) == Some(t) {
      FindUnique(a.tasks, TaskId, t);
    }
    assert Extends(a, b);
    PersistAccepted(a, b, capacity);
  }

  /** Changing a row that is there adds nothing, so nothing is compacted. */
  lemma {:induction false} ChangeAccepted(a: Disk, row: Row, capacity: Capacity)
    requires WellKept(a) && Within(a, capacity) && RowFits(a, row)
    requires RowOf(a, row.consumerId, row.effectKey).Some?
    ensures var b := a.(inbox := Put(a.inbox, RowId, row));
      && Persisted(b, capacity) == Some(b.(revision := a.revision + 1))
      && Readable(b.(revision := a.revision + 1), capacity) && WellKept(b.(revision := a.revision + 1))
      && (StoreProgresses(a, b.(revision := a.revision + 1))
          <==> RowProgresses(RowOf(a, row.consumerId, row.effectKey).value, row))
  {
    hide RowFits, Sound, Compact, ProductKey, RowsDisciplined, KeysNameKinds, StoreProgresses;
    var b := a.(inbox := Put(a.inbox, RowId, row));
    WellKeptDistinct(a);
    PutRow(a, row);
    PutRowWellKept(a, row);
    RevisionWellKept(b, a.revision + 1);
    CompactIdle(b, capacity);
    ChangeProgresses(a, row);
  }

  lemma {:induction false} ChangeProgresses(a: Disk, row: Row)
    requires Distinct(a) && RowOf(a, row.consumerId, row.effectKey).Some?
    ensures var d := a.(inbox := Put(a.inbox, RowId, row), revision := a.revision + 1);
      StoreProgresses(a, d) <==> RowProgresses(RowOf(a, row.consumerId, row.effectKey).value, row)
  {
    hide RowProgresses, TaskProgresses, Put, AllDone;
    var d := a.(inbox := Put(a.inbox, RowId, row), revision := a.revision + 1);
    var prior := RowOf(a, row.consumerId, row.effectKey).value;
    PutRow(a, row);
    forall t | t in a.tasks ensures TaskLegal(a, d, t) {
      FindUnique(a.tasks, TaskId, t);
      VisibilityNeverResurrectsItself(t);
    }
    forall e | e in a.outbox ensures EffectLegal(a, d, e) {
      FindUnique(a.outbox, EffectId, e);
    }
    forall r | r in a.inbox && r != prior ensures RowLegal(a, d, r) {
      FindUnique(a.inbox, RowId, r);
      RowProgressesItself(r);
    }
    assert RowLegal(a, d, prior) <==> RowProgresses(prior, row);
  }

  lemma {:induction false} RowProgressesItself(r: Row)
    ensures RowProgresses(r, r)
  {
  }
}
