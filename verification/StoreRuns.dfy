/** Runs of disciplined calls on the task store: it never becomes unreadable. */
module StoreRuns {
  import opened Wrappers
  import opened ProductTask
  import opened Keyed
  import opened TaskStore
  import opened StoreProgression
  import opened StoreSteps

  /** The sorts in persist, and any other change of order. */
  predicate Reordered(a: Disk, b: Disk) {
    && b.revision == a.revision
    && multiset(b.tasks) == multiset(a.tasks)
    && multiset(b.outbox) == multiset(a.outbox)
    && multiset(b.inbox) == multiset(a.inbox)
  }

  /** One disciplined call, or a change of order. A call that writes nothing or cannot be persisted changes nothing. */
  predicate Step(a: Disk, b: Disk, call: Option<Call>, capacity: Capacity) {
    match call
    case None => Reordered(a, b)
    case Some(made) =>
      Disciplined(a, made) && b == match After(a, made, capacity) case Some(after) => after case None => a
  }

  datatype History = History(disks: seq<Disk>, calls: seq<Option<Call>>)

  predicate Runs(h: History, capacity: Capacity) {
    && |h.disks| == |h.calls| + 1
    && Within(h.disks[0], capacity) && WellKept(h.disks[0])
    && forall i :: 0 <= i < |h.calls| ==> Step(h.disks[i], h.disks[i + 1], h.calls[i], capacity)
  }

  // ---------------------------------------------------------------- reordering changes nothing that is looked up

  lemma {:induction false} CountDistinct<T(!new), K>(items: seq<T>, key: T -> K, x: T)
    requires DistinctBy(items, key)
    ensures multiset(items)[x] <= 1
    decreases |items|
  {
    if items != [] {
      DistinctTail(items, key);
      CountDistinct(items[1..], key, x);
      assert items == [items[0]] + items[1..];
      assert multiset(items) == multiset{items[0]} + multiset(items[1..]);
      if items[0] == x {
        assert x !in items[1..];
      }
    }
  }

  lemma {:induction false} CountTwice<T>(items: seq<T>, i: nat, j: nat)
    requires i < j < |items| && items[i] == items[j]
    ensures multiset(items)[items[i]] >= 2
  {
    assert items == items[..j] + [items[j]] + items[j + 1..];
    assert items[i] in items[..j];
    assert multiset(items) == multiset(items[..j]) + multiset{items[j]} + multiset(items[j + 1..]);
  }

  lemma {:induction false} ReorderedDistinct<T(!new), K>(a: seq<T>, b: seq<T>, key: T -> K)
    requires DistinctBy(a, key) && multiset(a) == multiset(b)
    ensures DistinctBy(b, key) && |b| == |a| && forall x :: x in b <==> x in a
  {
    assert |a| == |multiset(a)| == |multiset(b)| == |b|;
    forall x ensures x in b <==> x in a {
      assert x in a <==> x in multiset(a);
      assert x in b <==> x in multiset(b);
    }
    forall i, j | 0 <= i < j < |b| ensures key(b[i]) != key(b[j]) {
      if key(b[i]) == key(b[j]) {
        assert b[i] in a && b[j] in a;
        SameKeySameItem(a, key, b[i], b[j]);
        CountTwice(b, i, j);
        CountDistinct(a, key, b[i]);
      }
    }
  }

  lemma {:induction false} ReorderedFind<T(!new), K>(a: seq<T>, b: seq<T>, key: T -> K, k: K)
    requires DistinctBy(a, key) && multiset(a) == multiset(b)
    ensures Find(b, key, k) == Find(a, key, k)
  {
    ReorderedDistinct(a, b, key);
    if Find(a, key, k).Some? {
      FindUnique(b, key, Find(a, key, k).value);
    }
  }

  lemma {:induction false} ReorderedKeeps(a: Disk, b: Disk, capacity: Capacity)
    requires WellKept(a) && Within(a, capacity) && Reordered(a, b)
    ensures WellKept(b) && Within(b, capacity)
    ensures forall consumer, key :: RowOf(b, consumer, key) == RowOf(a, consumer, key)
    ensures forall id :: TaskOf(b, id) == TaskOf(a, id)
  {
    hide ValidTask, ValidEffect, ValidRow, ProductKey, Find;
    ReorderedDistinct(a.tasks, b.tasks, TaskId);
    ReorderedDistinct(a.outbox, b.outbox, EffectId);
    ReorderedDistinct(a.inbox, b.inbox, RowId);
    forall id ensures TaskOf(b, id) == TaskOf(a, id) { ReorderedFind(a.tasks, b.tasks, TaskId, id); }
    forall key ensures EffectOf(b, key) == EffectOf(a, key) { ReorderedFind(a.outbox, b.outbox, EffectId, key); }
    forall consumer, key ensures RowOf(b, consumer, key) == RowOf(a, consumer, key) {
      ReorderedFind(a.inbox, b.inbox, RowId, (consumer, key));
    }
    forall r | r in b.inbox ensures RowRefers(b, r) {
      assert RowRefers(a, r);
    }
  }

  // ---------------------------------------------------------------- one call and one row

  predicate IsLease(call: Call) {
    call.LeaseOutbox? || call.LeaseProduct?
  }

  /** The delivery a call is about. */
  predicate About(call: Call, consumer: string, key: string) {
    !call.Swap? && !call.Mutation? && call.consumerId == consumer && call.effectKey == key
  }

  /** The one row a call writes, if any. */
  function RowWritten(disk: Disk, call: Call): Option<Row> {
    if Written(disk, call).None? then None
    else
      match call
      case LeaseOutbox(consumer, key, leaseMs, now, token) =>
        if EffectOf(disk, key).None? then None
        else Some(ClaimedRow(RowOf(disk, consumer, key), consumer, EffectOf(disk, key).value.taskId, key, token,
          now + leaseMs))
      case LeaseProduct(consumer, id, key, leaseMs, now, token) =>
        Some(ClaimedRow(RowOf(disk, consumer, key), consumer, id, key, token, now + leaseMs))
      case _ =>
        match Changed(disk, call)
        case None => None
        case Some((row, delivery)) => Some(row.(delivery := delivery))
  }

  lemma {:induction false} WrittenInbox(disk: Disk, call: Call)
    requires Written(disk, call).Some?
    ensures var w := Written(disk, call).value;
      match RowWritten(disk, call)
      case None => w.inbox == disk.inbox && (call.Swap? || call.Mutation?)
      case Some(row) =>
        && About(call, row.consumerId, row.effectKey) && w.inbox == Put(disk.inbox, RowId, row) && w.tasks == disk.tasks
        && var prior := RowOf(disk, row.consumerId, row.effectKey);
        && (prior.Some? ==> !prior.value.delivery.Completed? && row.taskId == prior.value.taskId)
        && (if IsLease(call) then row.fence == NextFence(prior) && row.delivery.Pending?
            else prior.Some? && row.fence == prior.value.fence)
  {
    hide Find, Put, SafeId, SafeTaskId, ValidResult;
    if call.Renewal? || call.Finishing? || call.Completion? {
      HeldCallChanges(disk, call);
    }
  }

  /** What a call leaves of each row before compaction: completed rows are untouched, fences never fall. */
  lemma {:induction false} WrittenCarries(disk: Disk, call: Call, r: Row)
    requires Distinct(disk) && Written(disk, call).Some? && r in disk.inbox
    ensures exists next: Row :: next in Written(disk, call).value.inbox && Carried(disk, call, r, next)
  {
    WrittenInbox(disk, call);
    FindUnique(disk.inbox, RowId, r);
    var w := Written(disk, call).value;
    match RowWritten(disk, call) {
      case None => assert r in w.inbox && Carried(disk, call, r, r);
      case Some(row) =>
        PutRow(disk, row);
        if (r.consumerId, r.effectKey) == (row.consumerId, row.effectKey) {
          assert row in w.inbox && Carried(disk, call, r, row);
        } else {
          assert r in w.inbox && Carried(disk, call, r, r);
        }
    }
  }

  predicate Carried(disk: Disk, call: Call, r: Row, next: Row) {
    && next.consumerId == r.consumerId && next.effectKey == r.effectKey && next.taskId == r.taskId
    && next.fence >= r.fence
    && (r.delivery.Completed? ==> next == r)
    && (IsLease(call) && About(call, r.consumerId, r.effectKey) ==> next.fence > r.fence)
  }

  lemma {:induction false} OutboxLeaseWellKept(disk: Disk, call: Call)
    requires WellKept(disk) && call.LeaseOutbox? && Disciplined(disk, call) && Written(disk, call).Some?
    ensures WellKept(Written(disk, call).value)
  {
    hide Find, Put, ValidTask, ValidEffect, ProductKey, SafeTaskId;
    var effect := EffectOf(disk, call.effectKey).value;
    var row := RowOf(disk, call.consumerId, call.effectKey);
    var claimed := ClaimedRow(row, call.consumerId, effect.taskId, call.effectKey, call.token, call.now + call.leaseMs);
    EffectRowsAgree(disk, effect);
    ClaimedFits(disk, claimed, row);
    PutRowWellKept(disk, claimed);
  }

  lemma {:induction false} ProductLeaseWellKept(disk: Disk, call: Call)
    requires WellKept(disk) && call.LeaseProduct? && Disciplined(disk, call) && Written(disk, call).Some?
    ensures WellKept(Written(disk, call).value)
  {
    hide Find, Put, ValidTask, ProductKey, SafeTaskId, SafeId, Extends, WellKept;
    var task := TaskOf(disk, call.taskId).value;
    var row := RowOf(disk, call.consumerId, call.effectKey);
    var effect := Effect(call.effectKey, ProductEffect, call.taskId, None, task.version, call.now);
    var missing := EffectOf(disk, call.effectKey).None?;
    var pushed := if missing then disk.(outbox := disk.outbox + [effect]) else disk;
    if missing {
      TaskVersionSafe(disk, task);
      PushWellKept(disk, effect);
      WellKeptDistinct(disk);
      PutEffect(disk, effect);
    }
    var claimed := ClaimedRow(row, call.consumerId, call.taskId, call.effectKey, call.token, call.now + call.leaseMs);
    ClaimedFits(pushed, claimed, row);
    PutRowWellKept(pushed, claimed);
  }

  lemma {:induction false} HeldCallWellKept(disk: Disk, call: Call)
    requires WellKept(disk) && Disciplined(disk, call) && Written(disk, call).Some?
    requires call.Renewal? || call.Finishing? || call.Completion?
    ensures WellKept(Written(disk, call).value)
  {
    hide Find, Put, ValidResult, SafeId, SafeTaskId, WellKept, ProductKey, Written;
    HeldCallChanges(disk, call);
    var (row, delivery) := Changed(disk, call).value;
    ChangedFits(disk, row, delivery);
    PutRowWellKept(disk, row.(delivery := delivery));
  }

  lemma {:induction false} WrittenWellKept(disk: Disk, call: Call)
    requires WellKept(disk) && Disciplined(disk, call) && Written(disk, call).Some?
    ensures WellKept(Written(disk, call).value)
  {
    hide WellKept, TaskStep, Disciplined, Written;
    if call.Swap? {
      var task, effect := SwapIsTaskStep(disk, call);
      TaskStepWellKept(disk, Written(disk, call).value, task, effect);
    } else if call.Mutation? {
      var task, effect := MutationIsTaskStep(disk, call);
      TaskStepWellKept(disk, Written(disk, call).value, task, effect);
    } else if call.LeaseOutbox? {
      OutboxLeaseWellKept(disk, call);
    } else if call.LeaseProduct? {
      ProductLeaseWellKept(disk, call);
    } else {
      HeldCallWellKept(disk, call);
    }
  }

  /** Every step keeps the disk readable and well kept. */
  lemma {:induction false} StepKeeps(a: Disk, b: Disk, call: Option<Call>, capacity: Capacity)
    requires WellKept(a) && Within(a, capacity) && Step(a, b, call, capacity)
    ensures WellKept(b) && Within(b, capacity)
  {
    hide WellKept, Disciplined, Written, Compact;
    if call.None? {
      ReorderedKeeps(a, b, capacity);
    } else if After(a, call.value, capacity).Some? {
      var w := Written(a, call.value).value;
      WrittenWellKept(a, call.value);
      CompactShrinks(w, capacity);
      var c := Compact(w, capacity);
      WellKeptDistinct(c);
      RevisionWellKept(c, c.revision + 1);
    }
  }

  /** A run of disciplined calls never leaves an unreadable store. */
  lemma {:induction false} RunKeeps(h: History, capacity: Capacity, i: nat)
    requires Runs(h, capacity) && i < |h.disks|
    ensures WellKept(h.disks[i]) && Within(h.disks[i], capacity)
    decreases i
  {
    hide WellKept, Within, Step;
    if i > 0 {
      RunKeeps(h, capacity, i - 1);
      StepKeeps(h.disks[i - 1], h.disks[i], h.calls[i - 1], capacity);
    }
  }
}
