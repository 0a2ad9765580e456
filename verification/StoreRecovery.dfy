/** Which of two store files recovery takes for the later one (canvas-agent/src/dreamina-task-store.ts), record by
    record and delivery by delivery. */
module StoreRecovery {
  import opened Wrappers
  import opened ProductTask
  import opened Keyed
  import opened TaskStore
  import ProductRules

  /** A record goes on: it keeps its origin and a known account, comes no nearer to sight, falls back in neither number,
      and has changed only under a higher version. */
  predicate GoesOn(prior: StoredTask, next: StoredTask) {
    && next.origin == prior.origin && prior.state.accountBinding in {None, next.state.accountBinding}
    && ProductRules.Withdrawn(prior.visibility) <= ProductRules.Withdrawn(next.visibility)
    && prior.projectedJournalVersion <= next.projectedJournalVersion
    && (next == prior || prior.version < next.version)
  }

  /** What may become of a delivery. What is completed stays; what is given back stays or is leased again, higher; a
      lease is completed or given back, is leased again, higher, or runs longer for the same token. */
  predicate DeliversOn(prior: Row, next: Row) {
    && (next.consumerId, next.taskId, next.effectKey) == (prior.consumerId, prior.taskId, prior.effectKey)
    && match (prior.delivery, next.delivery)
       case (Completed(_, _), _) => next == prior
       case (Released(_), Released(_)) => next == prior
       case (Released(_), Pending(_, _)) => prior.fence < next.fence
       case (Pending(_, _), Released(_)) => next.fence == prior.fence
       case (Pending(was, until), Pending(held, later)) =>
         prior.fence < next.fence || (next.fence == prior.fence && held == was && until <= later)
       case (_, Completed(_, _)) => prior.fence <= next.fence
  }

  predicate WasDeleted(disk: Disk, taskId: string) {
    match TaskOf(disk, taskId)
    case Some(task) => task.visibility == Some(Deleted)
    case None => false
  }

  /** All deliveries under the key are completed, and there are some. */
  predicate AllDelivered(disk: Disk, key: string) {
    && (exists r :: r in disk.inbox && r.effectKey == key)
    && !exists r :: r in disk.inbox && r.effectKey == key && !r.delivery.Completed?
  }

  /** What may be missing in the later file: a deleted record; an effect of the product, of a deleted record, or
      delivered; a delivery given back, of a deleted record, or completed under a key that was no product's. */
  predicate MayBeGone(previous: Disk, effect: Effect) {
    || effect.kind == ProductEffect || WasDeleted(previous, effect.taskId) || AllDelivered(previous, effect.effectKey)
  }

  predicate RowMayBeGone(previous: Disk, row: Row) {
    || row.delivery.Released? || WasDeleted(previous, row.taskId)
    || (row.delivery.Completed? && match EffectOf(previous, row.effectKey)
                                   case Some(effect) => effect.kind != ProductEffect
                                   case None => true)
  }

  predicate Later(previous: Disk, current: Disk) {
    && previous.revision < current.revision
    && (forall t :: t in previous.tasks ==>
          match TaskOf(current, t.taskId) case Some(next) => GoesOn(t, next) case None => t.visibility == Some(Deleted))
    && (forall e :: e in previous.outbox ==>
          match EffectOf(current, e.effectKey) case Some(next) => next == e case None => MayBeGone(previous, e))
    && forall r :: r in previous.inbox ==>
         match RowOf(current, r.consumerId, r.effectKey)
         case Some(next) => DeliversOn(r, next)
         case None => RowMayBeGone(previous, r)
  }

  lemma {:induction false} GoesOnExactly(prior: StoredTask, next: StoredTask)
    ensures GoesOn(prior, next) <==> TaskProgresses(prior, next)
  {
    ProductRules.SightExactly(prior.visibility, next.visibility);
    hide ProductRules.Withdrawn, VisibilityResurrected;
  }

  lemma {:induction false} DeliversOnExactly(prior: Row, next: Row)
    ensures DeliversOn(prior, next) <==> RowProgresses(prior, next)
  {
    match (prior.delivery, next.delivery)
    case (Completed(_, _), _) =>
    case (Released(_), Released(_)) =>
    case (Released(_), Pending(_, _)) =>
    case (Pending(_, _), Released(_)) =>
    case (Pending(_, _), Pending(_, _)) =>
    case (_, Completed(_, _)) =>
  }

  lemma {:induction false} EffectGone(previous: Disk, current: Disk, effect: Effect)
    requires EffectOf(current, effect.effectKey).None?
    ensures EffectLegal(previous, current, effect) <==> MayBeGone(previous, effect)
  {
    hide Find;
  }

  lemma {:induction false} RowGone(previous: Disk, current: Disk, row: Row)
    requires RowOf(current, row.consumerId, row.effectKey).None?
    ensures RowLegal(previous, current, row) <==> RowMayBeGone(previous, row)
  {
    hide Find;
  }

  /** Main result: recovery takes a file for the successor of another exactly if the two are equal, or its revision is
      higher, everything in the older one has gone on in it, and nothing is missing but what may be. */
  lemma {:induction false} RecoversExactly(previous: Disk, current: Disk)
    ensures StoreProgresses(previous, current) <==> current == previous || Later(previous, current)
  {
    hide Find, DeliversOn, RowProgresses, GoesOn, TaskProgresses, MayBeGone, RowMayBeGone;
    forall t | t in previous.tasks
      ensures TaskLegal(previous, current, t) <==>
        match TaskOf(current, t.taskId) case Some(next) => GoesOn(t, next) case None => t.visibility == Some(Deleted)
    {
      if TaskOf(current, t.taskId).Some? {
        GoesOnExactly(t, TaskOf(current, t.taskId).value);
      }
    }
    forall e | e in previous.outbox
      ensures EffectLegal(previous, current, e) <==>
        match EffectOf(current, e.effectKey) case Some(next) => next == e case None => MayBeGone(previous, e)
    {
      if EffectOf(current, e.effectKey).None? {
        EffectGone(previous, current, e);
      }
    }
    forall r | r in previous.inbox
      ensures RowLegal(previous, current, r) <==>
        match RowOf(current, r.consumerId, r.effectKey)
        case Some(next) => DeliversOn(r, next)
        case None => RowMayBeGone(previous, r)
    {
      match RowOf(current, r.consumerId, r.effectKey)
      case Some(next) => DeliversOnExactly(r, next);
      case None => RowGone(previous, current, r);
    }
    hide TaskLegal, EffectLegal, RowLegal;
  }
}
