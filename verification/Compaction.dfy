/** Which items compaction gives up: no more than it must, and among deleted tasks the oldest first. */
module Compaction {
  import opened Wrappers
  import opened ProductTask
  import opened Keyed
  import opened TaskStore
  import opened StoreProgression

  predicate ByAge(tasks: seq<StoredTask>) {
    forall i, j :: 0 <= i < j < |tasks| ==> tasks[i].updatedAt <= tasks[j].updatedAt
  }

  lemma {:induction false} InsertKeepsAge(sorted: seq<StoredTask>, task: StoredTask)
    requires ByAge(sorted)
    ensures ByAge(InsertByAge(sorted, task)) && |InsertByAge(sorted, task)| == |sorted| + 1
    decreases |sorted|
  {
    if sorted == [] {
    } else if task.updatedAt < sorted[0].updatedAt {
    } else {
      InsertKeepsAge(sorted[1..], task);
      var rest := InsertByAge(sorted[1..], task);
      forall j | 0 <= j < |rest| ensures sorted[0].updatedAt <= rest[j].updatedAt {
        assert rest[j] in rest;
        if rest[j] != task {
          var k :| 0 <= k < |sorted[1..]| && sorted[1..][k] == rest[j];
          assert sorted[k + 1] == rest[j];
        }
      }
    }
  }

  lemma {:induction false} SortedByAge(tasks: seq<StoredTask>)
    ensures ByAge(SortByAge(tasks)) && |SortByAge(tasks)| == |tasks|
    decreases |tasks|
  {
    if tasks != [] {
      SortedByAge(tasks[..|tasks| - 1]);
      InsertKeepsAge(SortByAge(tasks[..|tasks| - 1]), tasks[|tasks| - 1]);
    }
  }

  lemma {:induction false} WithoutTaskExact(disk: Disk, id: string)
    requires Distinct(disk)
    ensures var b := WithoutTask(disk, id);
      && Distinct(b)
      && (forall t :: t in b.tasks <==> t in disk.tasks && t.taskId != id)
      && (forall other :: other != id ==> HasPendingRow(b, other) == HasPendingRow(disk, other))
      && |b.tasks| >= |disk.tasks| - 1
  {
    DistinctFilters(disk, NotTask(id), NotTaskEffect(id), NotTaskRow(id));
    var b := WithoutTask(disk, id);
    forall t ensures t in b.tasks <==> t in disk.tasks && t.taskId != id {
      assert NotTask(id)(t) <==> t.taskId != id;
    }
    forall r: Row | r in disk.inbox && r.taskId != id ensures r in b.inbox {
      assert NotTaskRow(id)(r);
    }
    forall r: Row | r in b.inbox ensures r in disk.inbox {
    }
    DropsAtMostOne(disk.tasks, TaskId, NotTask(id), id);
  }

  lemma {:induction false} KeepsEverything<T(!new)>(items: seq<T>, keep: T -> bool)
    requires forall x :: x in items ==> keep(x)
    ensures |Filter(items, keep)| == |items|
    decreases |items|
  {
    if items != [] {
      KeepsEverything(items[1..], keep);
    }
  }

  lemma {:induction false} DropsAtMostOne<T(!new), K>(items: seq<T>, key: T -> K, keep: T -> bool, id: K)
    requires DistinctBy(items, key) && forall x :: x in items && key(x) != id ==> keep(x)
    ensures |Filter(items, keep)| >= |items| - 1
    decreases |items|
  {
    if items != [] {
      DistinctTail(items, key);
      if key(items[0]) == id {
        KeepsEverything(items[1..], keep);
      } else {
        DropsAtMostOne(items[1..], key, keep, id);
      }
    }
  }

  /** `s` went and `t`, which might have gone too, stayed. */
  predicate Preferred(before: Disk, after: Disk, s: StoredTask, t: StoredTask) {
    && s in before.tasks && s !in after.tasks
    && t in after.tasks && t.visibility == Some(Deleted) && !Awaited(before, t.taskId)
  }

  /** A delivery of the task is under way. */
  predicate Awaited(disk: Disk, taskId: string) {
    exists r :: r in disk.inbox && r.taskId == taskId && r.delivery.Pending?
  }

  lemma {:induction false} DropTasksPolicy(disk: Disk, deleted: seq<StoredTask>, capacity: Capacity)
    requires Distinct(disk) && ByAge(deleted) && DistinctBy(deleted, TaskId) && capacity.maxTasks >= 0
    ensures var b := DropTasks(disk, deleted, capacity);
      && Distinct(b) && (forall t :: t in b.tasks ==> t in disk.tasks)
      && (|disk.tasks| > capacity.maxTasks ==> |b.tasks| >= capacity.maxTasks)
      && (forall s :: s in disk.tasks && s !in b.tasks ==> exists d :: d in deleted && d.taskId == s.taskId)
      && (forall s, t :: Preferred(disk, b, s, t) && s in deleted && t in deleted ==> s.updatedAt <= t.updatedAt)
      && (|b.tasks| > capacity.maxTasks ==> forall t :: t in deleted && t in b.tasks ==> Awaited(disk, t.taskId))
    decreases |deleted|
  {
    if deleted == [] || |disk.tasks| <= capacity.maxTasks {
    } else {
      var first, rest := deleted[0], deleted[1..];
      var next := if HasPendingRow(disk, first.taskId) then disk else WithoutTask(disk, first.taskId);
      WithoutTaskExact(disk, first.taskId);
      DistinctTail(deleted, TaskId);
      DropTasksPolicy(next, rest, capacity);
      var b := DropTasks(disk, deleted, capacity);
      forall s, t | Preferred(disk, b, s, t) && s in deleted && t in deleted ensures s.updatedAt <= t.updatedAt {
        PolicyStep(disk, next, b, deleted, s, t);
      }
      if |b.tasks| > capacity.maxTasks {
        forall t | t in deleted && t in b.tasks ensures Awaited(disk, t.taskId) {
          LeftIsAwaited(disk, next, b, deleted, t);
        }
      }
      forall s | s in disk.tasks && s !in b.tasks ensures exists d :: d in deleted && d.taskId == s.taskId {
        if s.taskId == first.taskId {
          assert first in deleted;
        } else {
          var d :| d in rest && d.taskId == s.taskId;
          assert d in deleted;
        }
      }
    }
  }

  lemma {:induction false} LeftIsAwaited(disk: Disk, next: Disk, b: Disk, deleted: seq<StoredTask>, t: StoredTask)
    requires deleted != [] && DistinctBy(deleted, TaskId) && Distinct(disk)
    requires next == if HasPendingRow(disk, deleted[0].taskId) then disk else WithoutTask(disk, deleted[0].taskId)
    requires forall x :: x in b.tasks ==> x in next.tasks
    requires forall x :: x in deleted[1..] && x in b.tasks ==> Awaited(next, x.taskId)
    requires t in deleted && t in b.tasks
    ensures Awaited(disk, t.taskId)
  {
    WithoutTaskExact(disk, deleted[0].taskId);
    var j :| 0 <= j < |deleted| && deleted[j] == t;
    if j > 0 {
      assert deleted[1..][j - 1] == t && TaskId(deleted[j]) != TaskId(deleted[0]);
      assert HasPendingRow(next, t.taskId);
    }
  }

  lemma {:induction false} PolicyStep(disk: Disk, next: Disk, b: Disk, deleted: seq<StoredTask>, s: StoredTask,
      t: StoredTask)
    requires deleted != [] && ByAge(deleted) && DistinctBy(deleted, TaskId) && Distinct(disk)
    requires next == if HasPendingRow(disk, deleted[0].taskId) then disk else WithoutTask(disk, deleted[0].taskId)
    requires forall x :: x in b.tasks ==> x in next.tasks
    requires forall x, y :: Preferred(next, b, x, y) && x in deleted[1..] && y in deleted[1..] ==>
        x.updatedAt <= y.updatedAt
    requires Preferred(disk, b, s, t) && s in deleted && t in deleted
    ensures s.updatedAt <= t.updatedAt
  {
    WithoutTaskExact(disk, deleted[0].taskId);
    var i :| 0 <= i < |deleted| && deleted[i] == s;
    var j :| 0 <= j < |deleted| && deleted[j] == t;
    assert t.taskId != deleted[0].taskId;
    if i > j {
      assert TaskId(deleted[i]) != TaskId(deleted[0]);
      assert s in next.tasks && Preferred(next, b, s, t);
      assert deleted[1..][i - 1] == s && deleted[1..][j - 1] == t;
    }
  }

  lemma {:induction false} InsertKeepsDistinct(sorted: seq<StoredTask>, task: StoredTask)
    requires DistinctBy(sorted, TaskId) && forall t :: t in sorted ==> t.taskId != task.taskId
    ensures DistinctBy(InsertByAge(sorted, task), TaskId)
    decreases |sorted|
  {
    if sorted == [] {
    } else if task.updatedAt < sorted[0].updatedAt {
      DistinctCons(task, sorted, TaskId);
    } else {
      DistinctTail(sorted, TaskId);
      InsertKeepsDistinct(sorted[1..], task);
      DistinctCons(sorted[0], InsertByAge(sorted[1..], task), TaskId);
    }
  }

  lemma {:induction false} SortKeepsDistinct(tasks: seq<StoredTask>)
    requires DistinctBy(tasks, TaskId)
    ensures DistinctBy(SortByAge(tasks), TaskId)
    decreases |tasks|
  {
    if tasks != [] {
      var n := |tasks| - 1;
      SortKeepsDistinct(tasks[..n]);
      forall t | t in tasks[..n] ensures t.taskId != tasks[n].taskId {
        var i :| 0 <= i < n && tasks[..n][i] == t;
        assert TaskId(tasks[i]) != TaskId(tasks[n]);
      }
      InsertKeepsDistinct(SortByAge(tasks[..n]), tasks[n]);
    }
  }

  /** Of the tasks no more go than the capacity demands, only deleted ones go, and a task that goes is no younger
      than a deleted task without pending deliveries that stays. If there are still too many, every deleted task that
      is left has a pending delivery. */
  lemma {:induction false} TasksPolicy(disk: Disk, capacity: Capacity, s: StoredTask, t: StoredTask)
    requires Distinct(disk) && capacity.maxTasks >= 0
    ensures var b := CompactTasks(disk, capacity);
      && (|disk.tasks| <= capacity.maxTasks ==> b == disk)
      && (|disk.tasks| > capacity.maxTasks ==> |b.tasks| >= capacity.maxTasks)
      && (s in disk.tasks && s !in b.tasks ==> s.visibility == Some(Deleted))
      && (Preferred(disk, b, s, t) ==> s.updatedAt <= t.updatedAt)
      && (|b.tasks| > capacity.maxTasks && t in b.tasks && t.visibility == Some(Deleted) ==> Awaited(disk, t.taskId))
  {
    if |disk.tasks| > capacity.maxTasks {
      var candidates := Filter(disk.tasks, IsDeleted);
      var deleted := SortByAge(candidates);
      FilterDistinct(disk.tasks, TaskId, IsDeleted);
      SortedByAge(candidates);
      SortKeepsDistinct(candidates);
      DropTasksPolicy(disk, deleted, capacity);
      var b := DropTasks(disk, deleted, capacity);
      if t in b.tasks && t.visibility == Some(Deleted) {
        assert t in disk.tasks && IsDeleted(t);
        assert t in candidates;
      }
      if s in disk.tasks && s !in b.tasks {
        var d :| d in deleted && d.taskId == s.taskId;
        assert d in candidates && IsDeleted(d);
        SameKeySameItem(disk.tasks, TaskId, d, s);
        if Preferred(disk, b, s, t) {
          assert t in disk.tasks && IsDeleted(t);
          assert t in candidates;
        }
      }
    }
  }

  /** The outbox gives up one effect at a time, and none once it fits. Announcements go only when no product effect is
      left. If there are still too many, every effect that is left is an announcement with a delivery that is not
      completed, or with none. */
  lemma {:induction false} OutboxPolicy(disk: Disk, capacity: Capacity)
    requires Distinct(disk) && capacity.maxEffects >= 0
    ensures
      var b := CompactOutbox(disk, capacity);
      && (|disk.outbox| > capacity.maxEffects ==> |b.outbox| >= capacity.maxEffects)
      && (forall e :: e in b.outbox ==> e in disk.outbox)
      && (forall e, left ::
            e in disk.outbox && e !in b.outbox && e.kind != ProductEffect && left in b.outbox ==>
              left.kind != ProductEffect)
      && (|b.outbox| > capacity.maxEffects ==>
            forall e :: e in b.outbox ==> e.kind != ProductEffect && Undelivered(b, e.effectKey))
    decreases |disk.outbox|
  {
    var i := OutboxCandidate(disk);
    if |disk.outbox| > capacity.maxEffects && i < |disk.outbox| {
      var effect := disk.outbox[i];
      var next := WithoutEffect(disk, effect);
      WithoutEffectShorter(disk, effect);
      FilterDistinct(disk.outbox, EffectId, NotEffect(effect.effectKey));
      FilterDistinct(disk.inbox, RowId, NotDelivery(effect.effectKey));
      forall e | e in disk.outbox && EffectId(e) != effect.effectKey ensures NotEffect(effect.effectKey)(e) {
      }
      DropsAtMostOne(disk.outbox, EffectId, NotEffect(effect.effectKey), effect.effectKey);
      OutboxPolicy(next, capacity);
      var b := CompactOutbox(disk, capacity);
      forall e, left
        | e in disk.outbox && e !in b.outbox && e.kind != ProductEffect && left in b.outbox
        ensures left.kind != ProductEffect
      {
        if e.effectKey == effect.effectKey {
          SameKeySameItem(disk.outbox, EffectId, e, effect);
          CandidateIsLast(disk);
        } else {
          assert NotEffect(effect.effectKey)(e);
        }
      }
    } else if |disk.outbox| > capacity.maxEffects {
      CandidateIsLast(disk);
    }
  }

  predicate Undelivered(disk: Disk, key: string) {
    (forall r :: r in disk.inbox ==> r.effectKey != key)
    || exists r :: r in disk.inbox && r.effectKey == key && !r.delivery.Completed?
  }

  /** An announcement is a candidate only if there is no product effect, and nothing is only if there is none either. */
  lemma {:induction false} CandidateIsLast(disk: Disk)
    ensures var i := OutboxCandidate(disk);
      && (i < |disk.outbox| && disk.outbox[i].kind != ProductEffect ==>
            forall e :: e in disk.outbox ==> e.kind != ProductEffect)
      && (i == |disk.outbox| ==>
            forall e :: e in disk.outbox ==> e.kind != ProductEffect && Undelivered(disk, e.effectKey))
  {
    forall e | e in disk.outbox ensures IsProduct(e) <==> e.kind == ProductEffect {
    }
    forall e | e in disk.outbox ensures IsDone(disk.inbox)(e) <==> !Undelivered(disk, e.effectKey) {
    }
  }

  /** So does the inbox. Completed deliveries go only when no released one is left. If there are still too many, what is
      left is under way, or completed by the product for a task that is not deleted. */
  lemma {:induction false} InboxPolicy(disk: Disk, capacity: Capacity)
    requires Distinct(disk) && capacity.maxEffects >= 0
    ensures
      var b := CompactInbox(disk, capacity);
      && (|disk.inbox| > capacity.maxEffects ==> |b.inbox| >= capacity.maxEffects)
      && b.tasks == disk.tasks && (forall r :: r in b.inbox ==> r in disk.inbox)
      && (forall r, left ::
            r in disk.inbox && r !in b.inbox && r.delivery.Completed? && left in b.inbox ==> !left.delivery.Released?)
      && (|b.inbox| > capacity.maxEffects ==>
            forall r :: r in b.inbox ==>
              || r.delivery.Pending?
              || (r.delivery.Completed? && IsProductRow(b, r) && !Gone(b, r.taskId)))
    decreases |disk.inbox|
  {
    var i := InboxCandidate(disk);
    RowCandidateIsLast(disk);
    if |disk.inbox| > capacity.maxEffects && i < |disk.inbox| {
      RemoveAtExact(disk.inbox, RowId, i);
      FilterDistinct(disk.outbox, EffectId, NotEffect(disk.inbox[i].effectKey));
      InboxPolicy(WithoutRow(disk, i), capacity);
    }
  }

  /** The task is stored, and deleted. */
  predicate Gone(disk: Disk, taskId: string) {
    match TaskOf(disk, taskId)
    case Some(task) => task.visibility == Some(Deleted)
    case None => false
  }

  lemma {:induction false} RowCandidateIsLast(disk: Disk)
    ensures var i := InboxCandidate(disk);
      && (i < |disk.inbox| && disk.inbox[i].delivery.Completed? ==>
            forall r :: r in disk.inbox ==> !r.delivery.Released?)
      && (i == |disk.inbox| ==>
            forall r :: r in disk.inbox ==>
              || r.delivery.Pending?
              || (r.delivery.Completed? && IsProductRow(disk, r) && !Gone(disk, r.taskId)))
  {
    forall r | r in disk.inbox
      ensures IsReleased(r) <==> r.delivery.Released?
      ensures IsEvictable(disk)(r) <==> r.delivery.Completed? && (!IsProductRow(disk, r) || Gone(disk, r.taskId))
    {
    }
  }
}
