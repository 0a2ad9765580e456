/** Where the task store's promises stop: for each habit the callers must keep, exactly when breaking it costs
    a readable disk or an accepted successor. */
module StoreLimits {
  import opened Wrappers
  import opened ProductTask
  import opened Keyed
  import opened TaskStore
  import opened StoreProgression
  import opened StoreSteps
  import opened StoreHistories
  import TC = TaskContract

  predicate HasRows(disk: Disk, key: string) {
    exists r :: r in disk.inbox && r.effectKey == key
  }

  lemma {:induction false} SoundSubset(a: Disk, b: Disk)
    requires Sound(a) && Distinct(b) && b.revision == a.revision && b.tasks == a.tasks
    requires (forall e :: e in b.outbox ==> e in a.outbox) && (forall r :: r in b.inbox ==> r in a.inbox)
    ensures Sound(b) <==> forall r :: r in b.inbox && EffectOf(b, r.effectKey).None? ==> ProductKey(r.effectKey)
  {
    hide ValidTask, ValidEffect, ValidRow, ProductKey, Find;
    forall r | r in b.inbox && EffectOf(b, r.effectKey).Some?
      ensures EffectOf(b, r.effectKey) == EffectOf(a, r.effectKey) && RowRefers(b, r)
    {
      EffectKept(a, b, EffectOf(b, r.effectKey).value);
      assert RowRefers(a, r);
    }
    if forall r :: r in b.inbox && EffectOf(b, r.effectKey).None? ==> ProductKey(r.effectKey) {
      forall r | r in b.inbox ensures RowRefers(b, r) {
        assert RowRefers(a, r);
      }
    }
    if Sound(b) {
      forall r | r in b.inbox && EffectOf(b, r.effectKey).None? ensures ProductKey(r.effectKey) {
        assert RowRefers(b, r);
      }
    }
  }

  /** Compacting a product effect that still has deliveries leaves a readable disk exactly when its key is
      recognisable as a product key. */
  lemma {:induction false} DroppingProductExactly(disk: Disk, effect: Effect)
    requires Sound(disk) && effect in disk.outbox && effect.kind == ProductEffect && HasRows(disk, effect.effectKey)
    ensures Sound(WithoutEffect(disk, effect)) <==> ProductKey(effect.effectKey)
  {
    hide Sound, ProductKey, Find;
    var key := effect.effectKey;
    var b := WithoutEffect(disk, effect);
    SoundDistinct(disk);
    FilterDistinct(disk.outbox, EffectId, NotEffect(key));
    SoundSubset(disk, b);
    var row :| row in disk.inbox && row.effectKey == key;
    EffectGone(disk.outbox, b, key);
    OthersStay(disk, b, key);
  }

  lemma {:induction false} SoundDistinct(disk: Disk)
    requires Sound(disk)
    ensures Distinct(disk)
  {
  }

  lemma {:induction false} EffectGone(outbox: seq<Effect>, b: Disk, key: string)
    requires b.outbox == Filter(outbox, NotEffect(key))
    ensures EffectOf(b, key).None?
    ensures forall e :: e in outbox && e.effectKey != key ==> e in b.outbox
  {
    forall e | e in b.outbox ensures e.effectKey != key {
      assert NotEffect(key)(e);
    }
    forall e | e in outbox && e.effectKey != key ensures e in b.outbox {
      assert NotEffect(key)(e);
    }
  }

  /** Rows of other effects keep their effect, or never had one. */
  lemma {:induction false} OthersStay(disk: Disk, b: Disk, key: string)
    requires Sound(disk) && b.outbox == Filter(disk.outbox, NotEffect(key))
    ensures forall r :: r in disk.inbox && r.effectKey != key && EffectOf(b, r.effectKey).None? ==>
        ProductKey(r.effectKey)
  {
    EffectGone(disk.outbox, b, key);
    forall r | r in disk.inbox && r.effectKey != key && EffectOf(b, r.effectKey).None? ensures ProductKey(r.effectKey) {
      assert RowRefers(disk, r);
    }
  }

  /** Evicting one delivery, which takes the effect with it, leaves a readable disk exactly when the key is a
      product key or no other consumer has a delivery of it. */
  lemma {:induction false} EvictingRowExactly(disk: Disk, i: nat)
    requires Sound(disk) && i < |disk.inbox|
    ensures Sound(WithoutRow(disk, i)) <==>
              ProductKey(disk.inbox[i].effectKey) ||
              forall r :: r in disk.inbox && r.effectKey == disk.inbox[i].effectKey ==> r == disk.inbox[i]
  {
    hide Sound, ProductKey, Find;
    var row := disk.inbox[i];
    var key := row.effectKey;
    var b := WithoutRow(disk, i);
    SoundDistinct(disk);
    RemoveAtExact(disk.inbox, RowId, i);
    FilterDistinct(disk.outbox, EffectId, NotEffect(key));
    SoundSubset(disk, b);
    EffectGone(disk.outbox, b, key);
    OthersStay(disk, b, key);
  }

  /** Evicting a released delivery takes its effect along; recovery accepts that exactly when the effect is a
      product effect or its task is deleted. */
  lemma {:induction false} EvictingReleasedExactly(disk: Disk, i: nat, effect: Effect)
    requires Sound(disk) && i < |disk.inbox| && disk.inbox[i].delivery.Released?
    requires EffectOf(disk, disk.inbox[i].effectKey) == Some(effect)
    ensures EffectLegal(disk, WithoutRow(disk, i), effect)
        <==> effect.kind == ProductEffect || TaskDeleted(disk, effect.taskId)
  {
    hide Find;
    var b := WithoutRow(disk, i);
    var key := effect.effectKey;
    EffectGone(disk.outbox, b, key);
    assert disk.inbox[i] in disk.inbox;
  }

  /** Pushing a compacted product effect again leaves a readable disk exactly when the deliveries that outlived
      it belong to the same task. */
  lemma {:induction false} PushingExactly(disk: Disk, effect: Effect)
    requires Sound(disk) && ValidEffect(effect) && EffectOf(disk, effect.effectKey).None?
    requires TaskOf(disk, effect.taskId).Some?
    ensures Sound(disk.(outbox := disk.outbox + [effect])) <==>
              forall r :: r in disk.inbox && r.effectKey == effect.effectKey ==> r.taskId == effect.taskId
  {
    hide ValidTask, ValidEffect, ValidRow, Find, ProductKey;
    var pushed := disk.(outbox := disk.outbox + [effect]);
    PutEffect(disk, effect);
    forall r | r in disk.inbox
      ensures RowRefers(pushed, r) <==> (r.effectKey == effect.effectKey ==> r.taskId == effect.taskId)
    {
      assert RowRefers(disk, r);
    }
  }

  /** A completed product delivery that compaction must keep stays protected through a call exactly when the call
      is no projection or mutation announced under its key, and does not delete its task. */
  lemma {:induction false} ProtectionLostExactly(disk: Disk, call: Call, r: Row)
    requires Distinct(disk) && Written(disk, call).Some?
    requires r in disk.inbox && r.delivery.Completed? && !IsEvictable(disk)(r)
    ensures var w := Written(disk, call).value;
      && r in w.inbox
      && (IsEvictable(w)(r) <==> !LeavesKey(Some(call), r.effectKey) || TaskDeleted(w, r.taskId))
  {
    FindUnique(disk.inbox, RowId, r);
    CompletedWritten(disk, call, r);
    hide Written, Find, ProductKey;
    var pushed := WrittenOutbox(disk, call);
    var w := Written(disk, call).value;
    if pushed.Some? {
      PutEffect(disk, pushed.value);
    }
    if call.Swap? || call.Mutation? {
      AnnouncedKind(disk, call);
    }
  }

  /** Projections and mutations add an effect of their own kind under a key that was free. */
  lemma {:induction false} AnnouncedKind(disk: Disk, call: Call)
    requires Distinct(disk) && Written(disk, call).Some? && (call.Swap? || call.Mutation?)
    ensures var key := if call.Swap? then call.effect.effectKey else call.effectKey;
      && EffectOf(disk, key).None?
      && EffectOf(Written(disk, call).value, key).Some?
        && EffectOf(Written(disk, call).value, key).value.kind != ProductEffect
  {
  }

  // ---------------------------------------------------------------- one call that leaves an unreadable disk

  function Repeat(c: char, n: nat): (s: string)
    ensures |s| == n && forall x :: x in s ==> x == c
  {
    if n == 0 then "" else Repeat(c, n - 1) + [c]
  }

  const RECORD: string := Repeat('r', 8)
  const TASK: string := TASK_PREFIX + RECORD
  const HASH: string := Repeat('0', 64)

  const STATE: TC.TaskState :=
    TC.TaskState(TC.QueuedLocal, None, TC.SyncOk, TC.NotAvailable, [], None, TC.LegacyUnscoped, None, None)

  const STORED: StoredTask :=
    StoredTask(TASK, Some(Visible), Origin(RECORD, HASH, RECORD), STATE, Details(None, None, None, None, None), 1, 1, 0)

  const ANNOUNCED: Effect := Effect("projected", TaskProjected, TASK, Some(1), 1, 0)
  const DELIVERED: Row := Row("a", TASK, "projected", Completed(5, None), 1)
  const ONE_CONSUMER: Disk := Disk(1, [STORED], [ANNOUNCED], [DELIVERED])

  lemma {:induction false} NamesSafe()
    ensures SafeId("projected", 1, 300) && SafeId("a", 1, 120) && SafeId("b", 1, 120) && SafeId(RECORD, 8, 160)
  {
  }

  lemma {:induction false} ItemsAreValid()
    ensures ValidTask(STORED) && ValidEffect(ANNOUNCED) && ValidRow(DELIVERED)
  {
    NamesSafe();
    assert TASK[..9] == TASK_PREFIX && TASK[9..] == RECORD;
    hide SafeId;
  }

  lemma {:induction false} OneConsumerReadable()
    ensures Readable(ONE_CONSUMER, Capacity(1, 1)) && WellKept(ONE_CONSUMER)
  {
    hide ValidTask, ValidEffect, ValidRow, ProductKey;
    ItemsAreValid();
    NotAProductKey();
    assert TaskOf(ONE_CONSUMER, TASK) == Some(STORED);
    assert EffectOf(ONE_CONSUMER, ANNOUNCED.effectKey) == Some(ANNOUNCED);
    assert RowRefers(ONE_CONSUMER, DELIVERED);
  }

  lemma {:induction false} NotAProductKey()
    ensures !ProductKey("projected")
  {
    assert "projected"[0] == 'p';
    assert "materialize:"[0] == 'm' && "attach-node:"[0] == 'a' && "attach-message:"[0] == 'a'
      && "agent-resume:"[0] == 'a';
  }

  const SECOND: Call := LeaseOutbox("b", "projected", 30000, 10, 7)

  const CLAIMED: Row := Row("b", TASK, "projected", Pending(7, 30010), 1)
  const TWO_ROWS: Disk := ONE_CONSUMER.(inbox := [DELIVERED, CLAIMED])

  lemma {:induction false} SecondIsWritten()
    ensures Written(ONE_CONSUMER, SECOND) == Some(TWO_ROWS)
  {
    NamesSafe();
    hide SafeId;
    assert EffectOf(ONE_CONSUMER, ANNOUNCED.effectKey) == Some(ANNOUNCED);
    assert RowOf(ONE_CONSUMER, "b", ANNOUNCED.effectKey).None? by {
      assert DELIVERED.consumerId[0] != "b"[0];
    }
    assert ClaimedRow(None, "b", TASK, "projected", 7, 30010) == CLAIMED;
    assert Put(ONE_CONSUMER.inbox, RowId, CLAIMED) == [DELIVERED, CLAIMED] by {
      PutAppends(ONE_CONSUMER.inbox, RowId, CLAIMED);
    }
    assert ClaimOutbox(ONE_CONSUMER, "b", "projected", 30000, 10, 7) == Writes(TWO_ROWS, Leased(7, 30010));
  }

  const EVICTED: Disk := ONE_CONSUMER.(outbox := [], inbox := [CLAIMED])

  lemma {:induction false} FirstIsEvicted()
    ensures Compact(TWO_ROWS, Capacity(1, 1)) == EVICTED
  {
    hide ProductKey;
    NotAProductKey();
    var key := ANNOUNCED.effectKey;
    assert EffectOf(TWO_ROWS, key) == Some(ANNOUNCED);
    assert IsEvictable(TWO_ROWS)(TWO_ROWS.inbox[0]);
    assert FirstIndex(TWO_ROWS.inbox, IsReleased) == 2;
    assert InboxCandidate(TWO_ROWS) == 0;
    assert RemoveAt(TWO_ROWS.inbox, 0) == [CLAIMED];
    assert Filter([ANNOUNCED], NotEffect(key)) == [];
    assert WithoutRow(TWO_ROWS, 0) == EVICTED;
    assert CompactInbox(TWO_ROWS, Capacity(1, 1)) == CompactInbox(EVICTED, Capacity(1, 1)) == EVICTED;
  }

  /** A second consumer of a projection effect, at capacity: the claim is granted, and the next read of the
      store fails. */
  lemma {:induction false} SecondConsumerWedges()
    ensures Readable(ONE_CONSUMER, Capacity(1, 1)) && WellKept(ONE_CONSUMER) && !Disciplined(ONE_CONSUMER, SECOND)
    ensures After(ONE_CONSUMER, SECOND, Capacity(1, 1)).Some?
    ensures !Readable(After(ONE_CONSUMER, SECOND, Capacity(1, 1)).value, Capacity(1, 1))
  {
    hide ProductKey, Compact, Written;
    OneConsumerReadable();
    NotAProductKey();
    SecondIsWritten();
    FirstIsEvicted();
    assert DELIVERED in ONE_CONSUMER.inbox && DELIVERED.consumerId[0] != SECOND.consumerId[0];
    var after := EVICTED.(revision := 2);
    assert CLAIMED in after.inbox && !RowRefers(after, CLAIMED);
  }
}
