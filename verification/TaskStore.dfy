/** The disk state of canvas-agent/src/dreamina-task-store.ts: tasks, an outbox of effects and an inbox of
    deliveries, the operations on it, compaction, and the progression recovery insists on. */
module TaskStore {
  import opened Wrappers
  import opened ProductTask
  import opened Keyed

  /** A freshly generated UUID, numbered in the order of generation. */
  type Uuid = nat

  datatype EffectKind = TaskProjected | TaskMutated | ProductEffect
  datatype Effect = Effect(
    effectKey: string, kind: EffectKind, taskId: string, journalVersion: Option<int>, taskVersion: int, createdAt: Time)
  datatype EffectInput = EffectInput(effectKey: string, kind: EffectKind, taskId: string, journalVersion: Option<int>)
  datatype EffectResult = EffectResult(materializedAssetId: Option<string>)

  /** The state of an inbox row with the fields that state allows. */
  datatype Delivery =
    | Pending(leaseToken: Uuid, leaseExpiresAt: Time)
    | Completed(completedAt: Time, result: Option<EffectResult>)
    | Released(releasedAt: Time)
  datatype Row = Row(consumerId: string, taskId: string, effectKey: string, delivery: Delivery, fence: int)

  datatype Disk = Disk(revision: int, tasks: seq<StoredTask>, outbox: seq<Effect>, inbox: seq<Row>)
  datatype Capacity = Capacity(maxTasks: int, maxEffects: int)

  const EMPTY: Disk := Disk(0, [], [], [])

  const TaskId: StoredTask -> string := (task: StoredTask) => task.taskId
  const EffectId: Effect -> string := (effect: Effect) => effect.effectKey
  const RowId: Row -> (string, string) := (row: Row) => (row.consumerId, row.effectKey)

  predicate ValidCapacity(capacity: Capacity) {
    1 <= capacity.maxTasks <= 10000 && 1 <= capacity.maxEffects <= 50000
  }

  // ---------------------------------------------------------------- validity

  predicate ValidEffectKey(key: string) {
    SafeId(key, 1, 300)
  }

  predicate ValidEffect(effect: Effect) {
    && ValidEffectKey(effect.effectKey)
    && SafeTaskId(effect.taskId)
    && (if effect.kind == TaskProjected then effect.journalVersion.Some? else true)
    && (effect.journalVersion.Some? ==> 1 <= effect.journalVersion.value <= MAX_SAFE_INTEGER)
    && 1 <= effect.taskVersion <= MAX_SAFE_INTEGER
  }

  predicate ValidResult(result: EffectResult) {
    ValidText(result.materializedAssetId, 1, 256)
  }

  predicate ValidRow(row: Row) {
    && SafeId(row.consumerId, 1, 120)
    && SafeTaskId(row.taskId)
    && ValidEffectKey(row.effectKey)
    && row.fence >= 1
    && (row.delivery.Completed? && row.delivery.result.Some? ==> ValidResult(row.delivery.result.value))
  }

  /** isProductEffectKey. */
  predicate ProductKey(key: string) {
    "materialize:" <= key || "attach-node:" <= key || "attach-message:" <= key || "agent-resume:" <= key
  }

  function TaskOf(disk: Disk, taskId: string): (task: Option<StoredTask>)
    ensures task.Some? ==> task.value in disk.tasks && task.value.taskId == taskId
    ensures task.None? ==> forall t :: t in disk.tasks ==> t.taskId != taskId
  {
    Find(disk.tasks, TaskId, taskId)
  }

  function EffectOf(disk: Disk, key: string): (effect: Option<Effect>)
    ensures effect.Some? ==> effect.value in disk.outbox && effect.value.effectKey == key
    ensures effect.None? ==> forall e :: e in disk.outbox ==> e.effectKey != key
  {
    Find(disk.outbox, EffectId, key)
  }

  function RowOf(disk: Disk, consumerId: string, key: string): (row: Option<Row>)
    ensures row.Some? ==> row.value in disk.inbox && row.value.consumerId == consumerId && row.value.effectKey == key
    ensures row.None? ==> forall r :: r in disk.inbox ==> r.consumerId != consumerId || r.effectKey != key
  {
    Find(disk.inbox, RowId, (consumerId, key))
  }

  predicate Distinct(disk: Disk) {
    DistinctBy(disk.tasks, TaskId) && DistinctBy(disk.outbox, EffectId) && DistinctBy(disk.inbox, RowId)
  }

  predicate ItemsValid(disk: Disk) {
    && (forall t :: t in disk.tasks ==> ValidTask(t))
    && (forall e :: e in disk.outbox ==> ValidEffect(e))
    && (forall r :: r in disk.inbox ==> ValidRow(r))
  }

  predicate EffectsRefer(disk: Disk) {
    forall e :: e in disk.outbox ==> TaskOf(disk, e.taskId).Some?
  }

  /** A delivery belongs to a known task, and to its effect or, once that is compacted, to a product key. */
  predicate RowRefers(disk: Disk, row: Row) {
    && TaskOf(disk, row.taskId).Some?
    && match EffectOf(disk, row.effectKey)
       case Some(effect) => effect.taskId == row.taskId
       case None => ProductKey(row.effectKey)
  }

  predicate RowsRefer(disk: Disk) {
    forall r :: r in disk.inbox ==> RowRefers(disk, r)
  }

  predicate Sound(disk: Disk) {
    disk.revision >= 0 && Distinct(disk) && ItemsValid(disk) && EffectsRefer(disk) && RowsRefer(disk)
  }

  predicate Within(disk: Disk, capacity: Capacity) {
    && |disk.tasks| <= capacity.maxTasks
    && |disk.outbox| <= capacity.maxEffects
    && |disk.inbox| <= capacity.maxEffects
  }

  /** readStoreDisk accepts the file. */
  predicate Readable(disk: Disk, capacity: Capacity) {
    Within(disk, capacity) && Sound(disk)
  }

  // ---------------------------------------------------------------- operations

  datatype StoreError = Invalid | Conflict

  /** What an operation decides inside the lock: nothing to persist, or a disk to persist. */
  datatype Decision<T> = Fails(error: StoreError) | Keeps(answer: T) | Writes(disk: Disk, answer: T)

  function NewEffect(input: EffectInput, task: StoredTask, now: Time): Option<Effect> {
    var effect := Effect(input.effectKey, input.kind, input.taskId, input.journalVersion, task.version, now);
    if effect.taskId != task.taskId || !ValidEffect(effect)
       || (effect.kind == TaskProjected && effect.journalVersion != Some(task.projectedJournalVersion)) then None
    else Some(effect)
  }

  /** Records a task version together with the effect that announces it. */
  function Announce(disk: Disk, task: StoredTask, input: EffectInput, now: Time): Decision<StoredTask> {
    var effect := NewEffect(input, task, now);
    if effect.None? || EffectOf(disk, effect.value.effectKey).Some? then Fails(Invalid)
    else Writes(disk.(tasks := Put(disk.tasks, TaskId, task), outbox := disk.outbox + [effect.value]), task)
  }

  function VersionOf(task: Option<StoredTask>): int {
    if task.Some? then task.value.version else 0
  }

  function CompareAndSwap(disk: Disk, taskId: string, expectedVersion: int, input: StoredTask, effect: EffectInput,
      now: Time)
    : Decision<StoredTask>
  {
    if !SafeTaskId(taskId) || expectedVersion < 0 || effect.kind != TaskProjected then Fails(Invalid)
    else
      var current := TaskOf(disk, taskId);
      var task := input.(taskId := taskId, version := VersionOf(current) + 1);
      if VersionOf(current) != expectedVersion then Fails(Conflict)
      else if !ValidTask(task) || !ProjectionAdmitted(current, task) then Fails(Invalid)
      else Announce(disk, task, effect, now)
  }

  function Mutate(disk: Disk, taskId: string, expectedVersion: int, mutation: ProductMutation, effectKey: string,
      now: Time)
    : Decision<StoredTask>
  {
    if !SafeTaskId(taskId) || !ValidEffectKey(effectKey) || expectedVersion < 0 then Fails(Invalid)
    else
      var current := TaskOf(disk, taskId);
      if current.None? || current.value.version != expectedVersion then Fails(Conflict)
      else if !MutationParses(mutation) then Fails(Invalid)
      else
        match ApplyProductMutation(current.value, mutation)
        case Err(_) => Fails(Invalid)
        case Ok(next) =>
          var task := next.(taskId := taskId, version := current.value.version + 1);
          if !ValidTask(task) then Fails(Invalid)
          else Announce(disk, task, EffectInput(effectKey, TaskMutated, taskId, None), now)
  }

  predicate LeaseLengthAllowed(leaseMs: int) {
    100 <= leaseMs <= 3600000
  }

  predicate Live(row: Option<Row>, now: Time) {
    row.Some? && row.value.delivery.Pending? && row.value.delivery.leaseExpiresAt > now
  }

  function NextFence(row: Option<Row>): int {
    (if row.Some? then row.value.fence else 0) + 1
  }

  function ClaimedRow(row: Option<Row>, consumerId: string, taskId: string, key: string, token: Uuid,
      expiresAt: Time): Row {
    Row(consumerId, taskId, key, Pending(token, expiresAt), NextFence(row))
  }

  datatype OutboxClaim = NotClaimed | Leased(leaseToken: Uuid, leaseExpiresAt: Time)

  function ClaimOutbox(disk: Disk, consumerId: string, key: string, leaseMs: int, now: Time,
      token: Uuid): Decision<OutboxClaim> {
    if !SafeId(consumerId, 1, 120) || !ValidEffectKey(key) || !LeaseLengthAllowed(leaseMs) then Fails(Invalid)
    else
      var effect := EffectOf(disk, key);
      var row := RowOf(disk, consumerId, key);
      if effect.None? then Keeps(NotClaimed)
      else if row.Some? && row.value.taskId != effect.value.taskId then Fails(Invalid)
      else if row.Some? && row.value.delivery.Completed? then Keeps(NotClaimed)
      else if Live(row, now) then Keeps(NotClaimed)
      else
        var claimed := ClaimedRow(row, consumerId, effect.value.taskId, key, token, now + leaseMs);
        Writes(disk.(inbox := Put(disk.inbox, RowId, claimed)), Leased(token, now + leaseMs))
  }

  datatype ProductClaim =
    | Claimed(leaseToken: Uuid, leaseExpiresAt: Time, fence: int)
    | Busy(retryAt: Time)
    | Done(result: EffectResult)

  const NO_RESULT: EffectResult := EffectResult(None)

  function ClaimProduct(disk: Disk, consumerId: string, taskId: string, key: string, leaseMs: int, now: Time,
      token: Uuid)
    : Decision<ProductClaim>
  {
    if !SafeId(consumerId, 1, 120) || !SafeTaskId(taskId) || !ValidEffectKey(key) || !LeaseLengthAllowed(leaseMs)
      then Fails(Invalid)
    else
      var task := TaskOf(disk, taskId);
      var row := RowOf(disk, consumerId, key);
      if task.None? || task.value.visibility == Some(Deleted) then Fails(Invalid)
      else if row.Some? && row.value.taskId != taskId then Fails(Invalid)
      else if row.Some? && row.value.delivery.Completed? then Keeps(Done(row.value.delivery.result.GetOr(NO_RESULT)))
      else if Live(row, now) then Keeps(Busy(row.value.delivery.leaseExpiresAt))
      else
        var effect := EffectOf(disk, key);
        if effect.Some? && (effect.value.kind != ProductEffect || effect.value.taskId != taskId) then Fails(Invalid)
        else
          var outbox := if effect.Some? then disk.outbox
                        else disk.outbox + [Effect(key, ProductEffect, taskId, None, task.value.version, now)];
          var claimed := ClaimedRow(row, consumerId, taskId, key, token, now + leaseMs);
          Writes(disk.(outbox := outbox, inbox := Put(disk.inbox, RowId, claimed)),
                 Claimed(token, now + leaseMs, claimed.fence))
  }

  /** The row is leased to whoever holds this token and fence, and the lease has not run out. */
  predicate Holds(row: Option<Row>, taskId: string, token: Uuid, fence: int, now: Time) {
    && row.Some? && row.value.taskId == taskId && row.value.delivery.Pending?
    && row.value.delivery.leaseToken == token && row.value.fence == fence
    && row.value.delivery.leaseExpiresAt > now
  }

  predicate HolderArgumentsValid(consumerId: string, taskId: string, key: string, fence: int) {
    SafeId(consumerId, 1, 120) && SafeTaskId(taskId) && ValidEffectKey(key) && fence >= 1
  }

  function WithDelivery(disk: Disk, row: Row, delivery: Delivery): Disk {
    disk.(inbox := Put(disk.inbox, RowId, row.(delivery := delivery)))
  }

  function RenewProduct(disk: Disk, consumerId: string, taskId: string, key: string, token: Uuid, fence: int,
      leaseMs: int, now: Time)
    : Decision<Option<Time>>
  {
    if !HolderArgumentsValid(consumerId, taskId, key, fence) || !LeaseLengthAllowed(leaseMs) then Fails(Invalid)
    else
      var row := RowOf(disk, consumerId, key);
      if !Holds(row, taskId, token, fence, now) then Keeps(None)
      else Writes(WithDelivery(disk, row.value, Pending(token, now + leaseMs)), Some(now + leaseMs))
  }

  datatype Finish = Complete(result: EffectResult) | Release

  function FinishProduct(disk: Disk, consumerId: string, taskId: string, key: string, token: Uuid, fence: int,
      finish: Finish, now: Time)
    : Decision<bool>
  {
    if (finish.Complete? && !ValidResult(finish.result)) || !HolderArgumentsValid(consumerId, taskId, key, fence)
      then Fails(Invalid)
    else
      var row := RowOf(disk, consumerId, key);
      if !Holds(row, taskId, token, fence, now) then Keeps(false)
      else
        match finish
        case Release => Writes(WithDelivery(disk, row.value, Released(now)), true)
        case Complete(result) => Writes(WithDelivery(disk, row.value, Completed(now, Some(result))), true)
  }

  function CompleteOutbox(disk: Disk, consumerId: string, key: string, token: Uuid, now: Time): Decision<bool> {
    if !SafeId(consumerId, 1, 120) || !ValidEffectKey(key) then Fails(Invalid)
    else
      var row := RowOf(disk, consumerId, key);
      if row.None? || !Holds(row, row.value.taskId, token, row.value.fence, now) then Keeps(false)
      else Writes(WithDelivery(disk, row.value, Completed(now, None)), true)
  }

  // ---------------------------------------------------------------- compaction

  function NotTask(taskId: string): StoredTask -> bool { (task: StoredTask) => task.taskId != taskId }
  function NotTaskEffect(taskId: string): Effect -> bool { (effect: Effect) => effect.taskId != taskId }
  function NotTaskRow(taskId: string): Row -> bool { (row: Row) => row.taskId != taskId }
  function NotEffect(key: string): Effect -> bool { (effect: Effect) => effect.effectKey != key }
  function NotDelivery(key: string): Row -> bool { (row: Row) => row.effectKey != key }

  function WithoutTask(disk: Disk, taskId: string): Disk {
    disk.(tasks := Filter(disk.tasks, NotTask(taskId)),
          outbox := Filter(disk.outbox, NotTaskEffect(taskId)),
          inbox := Filter(disk.inbox, NotTaskRow(taskId)))
  }

  predicate HasPendingRow(disk: Disk, taskId: string) {
    exists r :: r in disk.inbox && r.taskId == taskId && r.delivery.Pending?
  }

  /** The loop over the deleted tasks, oldest first. */
  function DropTasks(disk: Disk, deleted: seq<StoredTask>, capacity: Capacity): Disk
    decreases |deleted|
  {
    if deleted == [] || |disk.tasks| <= capacity.maxTasks then disk
    else if HasPendingRow(disk, deleted[0].taskId) then DropTasks(disk, deleted[1..], capacity)
    else DropTasks(WithoutTask(disk, deleted[0].taskId), deleted[1..], capacity)
  }

  const IsDeleted: StoredTask -> bool := (task: StoredTask) => task.visibility == Some(Deleted)

  /** A stable sort by updatedAt. */
  function InsertByAge(sorted: seq<StoredTask>, task: StoredTask): (r: seq<StoredTask>)
    ensures forall t :: t in r <==> t == task || t in sorted
  {
    if sorted == [] then [task]
    else if task.updatedAt < sorted[0].updatedAt then [task] + sorted
    else
      assert forall t :: t in sorted <==> t == sorted[0] || t in sorted[1..];
      [sorted[0]] + InsertByAge(sorted[1..], task)
  }

  function SortByAge(tasks: seq<StoredTask>): (r: seq<StoredTask>)
    ensures forall t :: t in r <==> t in tasks
  {
    if tasks == [] then []
    else
      var last := |tasks| - 1;
      assert forall t :: t in tasks <==> t == tasks[last] || t in tasks[..last];
      InsertByAge(SortByAge(tasks[..last]), tasks[last])
  }

  function CompactTasks(disk: Disk, capacity: Capacity): Disk {
    if |disk.tasks| <= capacity.maxTasks then disk
    else DropTasks(disk, SortByAge(Filter(disk.tasks, IsDeleted)), capacity)
  }

  /** Every delivery of the effect is completed, and there is at least one. */
  predicate AllDone(inbox: seq<Row>, key: string) {
    && (exists r :: r in inbox && r.effectKey == key)
    && forall r :: r in inbox && r.effectKey == key ==> r.delivery.Completed?
  }

  const IsProduct: Effect -> bool := (effect: Effect) => effect.kind == ProductEffect
  function IsDone(inbox: seq<Row>): Effect -> bool { (effect: Effect) => AllDone(inbox, effect.effectKey) }

  function OutboxCandidate(disk: Disk): (i: nat)
    ensures i <= |disk.outbox|
    ensures i < |disk.outbox| ==> disk.outbox[i].kind == ProductEffect || AllDone(disk.inbox, disk.outbox[i].effectKey)
  {
    var product := FirstIndex(disk.outbox, IsProduct);
    if product < |disk.outbox| then product else FirstIndex(disk.outbox, IsDone(disk.inbox))
  }

  function WithoutEffect(disk: Disk, effect: Effect): Disk {
    disk.(outbox := Filter(disk.outbox, NotEffect(effect.effectKey)),
          inbox := if effect.kind == ProductEffect then disk.inbox
            else Filter(disk.inbox, NotDelivery(effect.effectKey)))
  }

  lemma {:induction false} FilterShorter<T(!new)>(items: seq<T>, keep: T -> bool)
    ensures (exists x :: x in items && !keep(x)) ==> |Filter(items, keep)| < |items|
    decreases |items|
  {
    if items != [] {
      assert forall x :: x in items <==> x == items[0] || x in items[1..];
      FilterShorter(items[1..], keep);
    }
  }

  lemma {:induction false} WithoutEffectShorter(disk: Disk, effect: Effect)
    requires effect in disk.outbox
    ensures |WithoutEffect(disk, effect).outbox| < |disk.outbox|
  {
    FilterShorter(disk.outbox, NotEffect(effect.effectKey));
    assert !NotEffect(effect.effectKey)(effect);
  }

  function CompactOutbox(disk: Disk, capacity: Capacity): Disk
    decreases |disk.outbox|
  {
    if |disk.outbox| <= capacity.maxEffects then disk
    else
      var i := OutboxCandidate(disk);
      if i == |disk.outbox| then disk
      else
        WithoutEffectShorter(disk, disk.outbox[i]);
        CompactOutbox(WithoutEffect(disk, disk.outbox[i]), capacity)
  }

  predicate IsProductRow(disk: Disk, row: Row) {
    match EffectOf(disk, row.effectKey)
    case Some(effect) => effect.kind == ProductEffect
    case None => ProductKey(row.effectKey)
  }

  predicate TaskDeleted(disk: Disk, taskId: string) {
    TaskOf(disk, taskId).Some? && TaskOf(disk, taskId).value.visibility == Some(Deleted)
  }

  const IsReleased: Row -> bool := (row: Row) => row.delivery.Released?
  function IsEvictable(disk: Disk): Row -> bool {
    (row: Row) => row.delivery.Completed? && (!IsProductRow(disk, row) || TaskDeleted(disk, row.taskId))
  }

  function InboxCandidate(disk: Disk): (i: nat)
    ensures i <= |disk.inbox|
    ensures i < |disk.inbox| ==> disk.inbox[i].delivery.Released? || IsEvictable(disk)(disk.inbox[i])
  {
    var released := FirstIndex(disk.inbox, IsReleased);
    if released < |disk.inbox| then released else FirstIndex(disk.inbox, IsEvictable(disk))
  }

  function WithoutRow(disk: Disk, i: nat): Disk
    requires i < |disk.inbox|
  {
    disk.(inbox := RemoveAt(disk.inbox, i), outbox := Filter(disk.outbox, NotEffect(disk.inbox[i].effectKey)))
  }

  function CompactInbox(disk: Disk, capacity: Capacity): Disk
    decreases |disk.inbox|
  {
    if |disk.inbox| <= capacity.maxEffects then disk
    else
      var i := InboxCandidate(disk);
      if i == |disk.inbox| then disk else CompactInbox(WithoutRow(disk, i), capacity)
  }

  function Compact(disk: Disk, capacity: Capacity): Disk {
    CompactOutbox(CompactInbox(CompactOutbox(CompactTasks(disk, capacity), capacity), capacity), capacity)
  }

  /** persist without the final sort, whose order nothing below depends on. */
  function Persisted(disk: Disk, capacity: Capacity): Option<Disk> {
    var compacted := Compact(disk, capacity);
    if Within(compacted, capacity) then Some(compacted.(revision := compacted.revision + 1)) else None
  }

  // ---------------------------------------------------------------- the progression recovery asserts

  predicate TaskProgresses(prior: StoredTask, next: StoredTask) {
    && next.origin == prior.origin
    && !VisibilityResurrected(prior.visibility, next.visibility)
    && next.version >= prior.version
    && next.projectedJournalVersion >= prior.projectedJournalVersion
    && (prior.state.accountBinding.Some? ==> next.state.accountBinding == prior.state.accountBinding)
    && (next.version == prior.version ==> next == prior)
  }

  /** inboxProgresses. */
  predicate RowProgresses(prior: Row, next: Row) {
    && next.consumerId == prior.consumerId && next.taskId == prior.taskId && next.effectKey == prior.effectKey
    && if prior.delivery.Completed? then next == prior
       else if next.delivery.Completed? then next.fence >= prior.fence
       else if prior.delivery.Released? then
         if next.delivery.Released? then next == prior else next.fence > prior.fence
       else if next.delivery.Released? then next.fence == prior.fence
       else || next.fence > prior.fence
            || (&& next.fence == prior.fence
                && next.delivery.leaseToken == prior.delivery.leaseToken
                && next.delivery.leaseExpiresAt >= prior.delivery.leaseExpiresAt)
  }

  predicate TaskLegal(previous: Disk, current: Disk, prior: StoredTask) {
    match TaskOf(current, prior.taskId)
    case Some(next) => TaskProgresses(prior, next)
    case None => prior.visibility == Some(Deleted)
  }

  predicate EffectLegal(previous: Disk, current: Disk, prior: Effect) {
    match EffectOf(current, prior.effectKey)
    case Some(next) => next == prior
    case None =>
      prior.kind == ProductEffect || TaskDeleted(previous, prior.taskId) || AllDone(previous.inbox, prior.effectKey)
  }

  predicate NonProductIn(previous: Disk, key: string) {
    EffectOf(previous, key).None? || EffectOf(previous, key).value.kind != ProductEffect
  }

  predicate RowLegal(previous: Disk, current: Disk, prior: Row) {
    match RowOf(current, prior.consumerId, prior.effectKey)
    case Some(next) => RowProgresses(prior, next)
    case None =>
      || prior.delivery.Released?
      || TaskDeleted(previous, prior.taskId)
      || (prior.delivery.Completed? && NonProductIn(previous, prior.effectKey))
  }

  /** assertStoreProgression. */
  predicate StoreProgresses(previous: Disk, current: Disk) {
    && current.revision >= previous.revision
    && if current.revision == previous.revision then current == previous
       else && (forall t :: t in previous.tasks ==> TaskLegal(previous, current, t))
            && (forall e :: e in previous.outbox ==> EffectLegal(previous, current, e))
            && (forall r :: r in previous.inbox ==> RowLegal(previous, current, r))
  }
}
