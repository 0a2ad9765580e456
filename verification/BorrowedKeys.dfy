/** A mutation announced under the key of a completed product effect: the task store accepts it, forgets the
    completion at the next compaction, and lets the same consumer complete the effect again. */
module BorrowedKeys {
  import opened Wrappers
  import opened ProductTask
  import opened Keyed
  import opened TaskStore
  import opened StoreProgression
  import opened StoreSteps
  import opened StoreRuns
  import opened StoreHistories
  import opened StoreLimits
  import TC = TaskContract

  const KEY: string := "materialize:x"
  const ONE: Capacity := Capacity(1, 1)

  const TOUCH: ProductMutation := ProductEvent(TC.SyncRecovered, 0)
  const BORROW: Call := Mutation(TASK, 1, TOUCH, KEY, 1)
  const ANOTHER: Call := Mutation(TASK, 2, TOUCH, "other", 2)
  const AGAIN: Call := LeaseProduct("a", TASK, KEY, 30000, 3, 9)
  const FINISH: Call := Finishing("a", TASK, KEY, 9, 1, Complete(NO_RESULT), 4)

  const FIRST: Row := Row("a", TASK, KEY, Completed(0, Some(NO_RESULT)), 1)
  const BORROWER: Effect := Effect(KEY, TaskMutated, TASK, None, 2, 1)
  const OTHER: Effect := Effect("other", TaskMutated, TASK, None, 3, 2)
  const PRODUCT: Effect := Effect(KEY, ProductEffect, TASK, None, 3, 3)
  const LEASED: Row := Row("a", TASK, KEY, Pending(9, 30003), 1)
  const SECOND_ROW: Row := Row("a", TASK, KEY, Completed(4, Some(NO_RESULT)), 1)

  const S0: Disk := Disk(1, [STORED], [], [FIRST])
  const S1: Disk := Disk(2, [STORED.(version := 2)], [BORROWER], [FIRST])
  const S2: Disk := Disk(3, [STORED.(version := 3)], [OTHER], [])
  const S3: Disk := Disk(4, [STORED.(version := 3)], [OTHER], [LEASED])
  const S4: Disk := Disk(5, [STORED.(version := 3)], [OTHER], [SECOND_ROW])

  lemma {:induction false} KeysSafe()
    ensures SafeId(KEY, 1, 300) && SafeId("other", 1, 300) && SafeId("a", 1, 120) && SafeId(RECORD, 8, 160)
    ensures ProductKey(KEY) && KEY != "other"
  {
    NamesSafe();
    assert KEY[..12] == "materialize:";
    assert KEY[0] != "other"[0];
  }

  lemma {:induction false} TaskNameSafe()
    ensures SafeTaskId(TASK) && ValidTask(STORED) && ValidTask(STORED.(version := 2))
    ensures ValidTask(STORED.(version := 3))
  {
    KeysSafe();
    assert TASK[..9] == TASK_PREFIX && TASK[9..] == RECORD;
    hide SafeId;
  }

  lemma {:induction false} TouchChangesNothing(task: StoredTask)
    requires task in {STORED, STORED.(version := 2)}
    ensures MutationParses(TOUCH) && ApplyProductMutation(task, TOUCH) == Ok(task)
  {
  }

  // ---------------------------------------------------------------- what each call writes

  lemma {:induction false} BorrowWritten()
    ensures Written(S0, BORROW) == Some(S1.(revision := 1))
  {
    TaskNameSafe();
    KeysSafe();
    TouchChangesNothing(STORED);
    hide ValidTask, SafeTaskId, SafeId, ApplyProductMutation, MutationParses;
    assert TaskOf(S0, TASK) == Some(STORED);
    assert EffectOf(S0, KEY).None?;
    var task := STORED.(version := 2);
    assert Put(S0.tasks, TaskId, task) == [task];
    assert NewEffect(EffectInput(KEY, TaskMutated, TASK, None), task, 1) == Some(BORROWER);
    assert Announce(S0, task, EffectInput(KEY, TaskMutated, TASK, None), 1) == Writes(S1.(revision := 1), task);
    assert Mutate(S0, TASK, 1, TOUCH, KEY, 1) == Writes(S1.(revision := 1), task);
  }

  lemma {:induction false} AnotherWritten()
    ensures Written(S1, ANOTHER) == Some(S1.(tasks := S2.tasks, outbox := [BORROWER, OTHER]))
  {
    TaskNameSafe();
    KeysSafe();
    TouchChangesNothing(STORED.(version := 2));
    hide ValidTask, SafeTaskId, SafeId, ApplyProductMutation, MutationParses;
    assert TaskOf(S1, TASK) == Some(STORED.(version := 2));
    assert EffectOf(S1, "other").None?;
    var task := STORED.(version := 3);
    assert Put(S1.tasks, TaskId, task) == [task];
    assert NewEffect(EffectInput("other", TaskMutated, TASK, None), task, 2) == Some(OTHER);
    var w := S1.(tasks := [task], outbox := [BORROWER, OTHER]);
    assert Announce(S1, task, EffectInput("other", TaskMutated, TASK, None), 2) == Writes(w, task);
    assert Mutate(S1, TASK, 2, TOUCH, "other", 2) == Writes(w, task);
  }

  lemma {:induction false} AgainWritten()
    ensures Written(S2, AGAIN) == Some(S2.(outbox := [OTHER, PRODUCT], inbox := [LEASED]))
  {
    TaskNameSafe();
    KeysSafe();
    hide ValidTask, SafeTaskId, SafeId;
    assert TaskOf(S2, TASK) == Some(STORED.(version := 3));
    assert EffectOf(S2, KEY).None? && RowOf(S2, "a", KEY).None?;
    assert Put(S2.inbox, RowId, LEASED) == [LEASED];
    assert ClaimedRow(None, "a", TASK, KEY, 9, 30003) == LEASED;
    var w := S2.(outbox := [OTHER, PRODUCT], inbox := [LEASED]);
    assert ClaimProduct(S2, "a", TASK, KEY, 30000, 3, 9) == Writes(w, Claimed(9, 30003, 1));
  }

  lemma {:induction false} FinishWritten()
    ensures Written(S3, FINISH) == Some(S3.(inbox := [SECOND_ROW]))
  {
    TaskNameSafe();
    KeysSafe();
    hide ValidTask, SafeTaskId, SafeId;
    assert RowOf(S3, "a", KEY) == Some(LEASED);
    assert Put(S3.inbox, RowId, SECOND_ROW) == [SECOND_ROW];
  }

  // ---------------------------------------------------------------- what compaction leaves

  /** The borrowed effect counts as delivered, by the row of the product effect, and takes that row along. */
  lemma {:induction false} BorrowedIsForgotten()
    ensures Compact(S1.(tasks := S2.tasks, outbox := [BORROWER, OTHER]), ONE) == S2.(revision := 2)
  {
    KeysSafe();
    hide ProductKey, SafeId;
    var w := S1.(tasks := S2.tasks, outbox := [BORROWER, OTHER]);
    assert CompactTasks(w, ONE) == w;
    assert FirstIndex(w.outbox, IsProduct) == 2;
    assert AllDone(w.inbox, KEY) by { assert FIRST in w.inbox; }
    assert IsDone(w.inbox)(w.outbox[0]);
    assert OutboxCandidate(w) == 0;
    assert Filter([OTHER], NotEffect(KEY)) == [OTHER];
    assert Filter(w.outbox, NotEffect(KEY)) == [OTHER];
    assert Filter(w.inbox, NotDelivery(KEY)) == [];
    var left := S2.(revision := 2);
    assert WithoutEffect(w, BORROWER) == left;
    assert CompactOutbox(left, ONE) == left && CompactOutbox(w, ONE) == left;
    assert CompactInbox(left, ONE) == left;
  }

  lemma {:induction false} ProductIsDropped()
    ensures Compact(S2.(outbox := [OTHER, PRODUCT], inbox := [LEASED]), ONE) == S3.(revision := 3)
  {
    KeysSafe();
    hide ProductKey, SafeId;
    var w := S2.(outbox := [OTHER, PRODUCT], inbox := [LEASED]);
    assert CompactTasks(w, ONE) == w;
    assert FirstIndex([PRODUCT], IsProduct) == 0;
    assert FirstIndex(w.outbox, IsProduct) == 1;
    assert OutboxCandidate(w) == 1;
    assert Filter([PRODUCT], NotEffect(KEY)) == [];
    assert Filter(w.outbox, NotEffect(KEY)) == [OTHER];
    var left := S3.(revision := 3);
    assert WithoutEffect(w, PRODUCT) == left;
    assert CompactOutbox(left, ONE) == left && CompactOutbox(w, ONE) == left;
    assert CompactInbox(left, ONE) == left;
  }

  lemma {:induction false} AllPersisted()
    ensures After(S0, BORROW, ONE) == Some(S1) && After(S1, ANOTHER, ONE) == Some(S2)
    ensures After(S2, AGAIN, ONE) == Some(S3) && After(S3, FINISH, ONE) == Some(S4)
  {
    BorrowWritten();
    AnotherWritten();
    AgainWritten();
    FinishWritten();
    hide Written;
    CompactIdle(S1.(revision := 1), ONE);
    BorrowedIsForgotten();
    ProductIsDropped();
    CompactIdle(S3.(inbox := [SECOND_ROW]), ONE);
    hide Compact;
  }

  // ---------------------------------------------------------------- every file on the way is readable

  lemma {:induction false} EachReadable(disk: Disk)
    requires disk in {S0, S1, S2, S3}
    ensures Readable(disk, ONE) && Alive(disk, TASK)
  {
    TaskNameSafe();
    KeysSafe();
    hide ValidTask, SafeTaskId, SafeId, ProductKey;
    assert TaskOf(disk, TASK) == Some(disk.tasks[0]);
    forall e | e in disk.outbox ensures ValidEffect(e) && e.taskId == TASK && EffectOf(disk, e.effectKey) == Some(e) {
    }
    forall r | r in disk.inbox ensures ValidRow(r) && RowRefers(disk, r) {
      assert r == disk.inbox[0];
    }
  }

  const STORY: History :=
    History([S0, S1, S2, S3, S4], [Some(BORROW), Some(ANOTHER), Some(AGAIN), Some(FINISH)])

  /** The effect is completed at the start and, while its task lives, completed once more; the mutation that
      borrows its key is the only call out of line. */
  lemma {:induction false} CompletesTwice()
    ensures Happened(STORY, ONE) && AliveFrom(STORY, TASK, 0, 3)
    ensures RowOf(S0, "a", KEY) == Some(FIRST) && FIRST.delivery.Completed?
    ensures Completes(S3, Some(FINISH), ONE, "a", KEY)
    ensures !Disciplined(S0, BORROW) && Disciplined(S1, ANOTHER) && Disciplined(S2, AGAIN) && Disciplined(S3, FINISH)
  {
    hide Written, Readable, Compact, ProductKey, SafeId;
    AllPersisted();
    KeysSafe();
    forall disk | disk in {S0, S1, S2, S3} ensures Readable(disk, ONE) && Alive(disk, TASK) {
      EachReadable(disk);
    }
    FinishWritten();
    OtherIsNoProductKey();
  }

  lemma {:induction false} OtherIsNoProductKey()
    ensures !ProductKey("other")
  {
    assert "other"[0] == 'o';
    assert "materialize:"[0] == 'm' && "attach-node:"[0] == 'a' && "attach-message:"[0] == 'a'
      && "agent-resume:"[0] == 'a';
  }
}
