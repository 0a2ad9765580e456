/** The imperative half of canvas-agent/src/dreamina-cli-arbiter.ts: the state file with its backup and its
    temporary, replaced and recovered step by step, and the arbiter and lease objects that use it. A file
    step may fail, be denied, or be the last one before a crash. */
module ArbiterProcess {
  import opened Wrappers
  import opened Arbiter
  import opened ArbiterLeases

  /** How an operation ended: carried out, given up on an I/O error, cut short by a crash, or thrown. */
  datatype End = Done | IoFailed | Crashed | Thrown(error: ArbiterError)

  /** What one rename, or the directory sync after it, did. Denied stands for the codes on which the platform
      refuses to overwrite. */
  datatype Rename = Renamed | Denied | Broke

  /** `after` is what some mutate made of `before`. */
  ghost predicate Successor(before: State, after: State) {
    exists step, now, leaseMs :: Mutate(before, step, now, leaseMs) == Ok(after)
  }

  class StateFiles {
    var primary: Option<State>
    var backup: Option<State>
    var temporary: Option<State>

    constructor ()
      ensures Consistent() && Visible() == EMPTY
    {
      primary, backup, temporary := None, None, None;
    }

    /** What the next lock owner will take for the state. */
    function Visible(): State
      reads this
    {
      if primary.Some? then primary.value else backup.GetOr(EMPTY)
    }

    /** What any crash leaves behind: valid files, and a backup only beside nothing or its successor. */
    ghost predicate Consistent()
      reads this
    {
      && (primary.Some? ==> ValidState(primary.value))
      && (backup.Some? ==> ValidState(backup.value))
      && (primary.Some? && backup.Some? ==> Successor(backup.value, primary.value))
    }

    /** recoverArbiterReplacement. It restores or drops the backup and never finds the pair contradictory. */
    method Recover() returns (end: End)
      requires Consistent()
      modifies this`primary, this`backup
      ensures Consistent() && Visible() == old(Visible())
      ensures !end.Thrown?
      ensures end.Done? ==> backup.None?
    {
      if backup.None? {
        return Done;
      }
      if * { return Crashed; }
      if primary.None? {
        if * { return IoFailed; }
        primary, backup := backup, None;
        if * { return Crashed; }
        end := SyncDirectory();
        return;
      }
      var previous, current := backup.value, primary.value;
      ghost var step, now, leaseMs :| Mutate(previous, step, now, leaseMs) == Ok(current);
      MutateProgresses(previous, step, now, leaseMs);
      if current.revision < previous.revision {
        return Thrown(Invalid);
      }
      if current.revision == previous.revision {
        if previous != current {
          return Thrown(Invalid);
        }
      } else if !Progresses(previous, current) {
        return Thrown(Invalid);
      }
      if * { return IoFailed; }
      backup := None;
      if * { return Crashed; }
      end := SyncDirectory();
    }

    /** syncParentDirectory: whatever it reports, the renames before it are visible. */
    method SyncDirectory() returns (end: End)
      ensures end.Done? || end.IoFailed?
    {
      if * { return IoFailed; }
      return Done;
    }

    /** replaceArbiterState: overwrite in one rename, or step aside through the backup where that is denied. A
        directory sync that is denied after the overwriting rename takes the same way, with nothing left to rename. */
    method Replace() returns (end: End)
      requires Consistent() && backup.None? && temporary.Some? && Successor(Visible(), temporary.value)
      modifies this
      ensures Consistent()
      ensures Visible() == old(Visible()) || Visible() == old(temporary.value)
      ensures end.Done? ==> primary == Some(old(temporary.value))
      ensures !end.Thrown?
    {
      ghost var before := Visible();
      ghost var hadPrimary := primary.Some?;
      var next := temporary.value;
      var rename: Rename := *;
      if rename.Renamed? {
        primary, temporary := temporary, None;
        if * { return Crashed; }
        rename := *;
        if rename.Renamed? {
          return Done;
        }
      }
      if rename.Broke? {
        return IoFailed;
      }
      if backup.Some? {
        return Thrown(Invalid);
      }
      if primary.Some? {
        if * { return IoFailed; }
        backup, primary := primary, None;
        if * { return Crashed; }
        var synced := SyncDirectory();
        if synced.IoFailed? {
          RestoreBackup();
          return IoFailed;
        }
      }
      rename := *;
      if !rename.Renamed? || temporary.None? {
        RestoreBackup();
        return IoFailed;
      }
      primary, temporary := temporary, None;
      if * { return Crashed; }
      end := SyncDirectory();
      if end.IoFailed? {
        RestoreBackup();
        return;
      }
      if * {
        backup := None;
      }
    }

    /** restoreArbiterBackup: best effort, any failure leaves the backup for the next lock owner. */
    method RestoreBackup()
      requires Consistent()
      modifies this`primary, this`backup
      ensures Consistent() && Visible() == old(Visible())
    {
      if primary.Some? || backup.None? {
        return;
      }
      if * {
        primary, backup := backup, None;
      }
    }

    /** persistState: write the temporary, replace, and remove the temporary again on failure. */
    method Persist(next: State) returns (end: End)
      requires Consistent() && backup.None? && Successor(Visible(), next)
      modifies this
      ensures Consistent()
      ensures Visible() == old(Visible()) || Visible() == next
      ensures end.Done? ==> primary == Some(next)
      ensures !end.Thrown?
    {
      if * { return IoFailed; }
      temporary := Some(next);
      if * { return Crashed; }
      end := Replace();
      if end.IoFailed? {
        temporary := None;
      }
    }
  }

  // ---------------------------------------------------------------- the arbiter

  lemma {:induction false} FilterSnoc(queue: seq<QueueEntry>, entry: QueueEntry, keep: QueueEntry -> bool)
    ensures Filter(queue + [entry], keep) == Filter(queue, keep) + (if keep(entry) then [entry] else [])
  {
    if queue != [] {
      FilterSnoc(queue[1..], entry, keep);
      assert (queue + [entry])[1..] == queue[1..] + [entry];
    }
  }

  method FilterQueue(queue: seq<QueueEntry>, keep: QueueEntry -> bool) returns (kept: seq<QueueEntry>)
    ensures kept == Filter(queue, keep)
  {
    kept := [];
    for i := 0 to |queue|
      invariant kept == Filter(queue[..i], keep)
    {
      FilterSnoc(queue[..i], queue[i], keep);
      assert queue[..i + 1] == queue[..i] + [queue[i]];
      if keep(queue[i]) {
        kept := kept + [queue[i]];
      }
    }
    assert queue[..|queue|] == queue;
  }

  method PruneExpired(state: State, now: Time) returns (pruned: State)
    ensures pruned == Prune(state, now)
  {
    var queue := FilterQueue(state.queue, Unexpired(now));
    pruned := state.(queue := queue);
    if pruned.active.Some? && pruned.active.value.expiresAt <= now {
      pruned := pruned.(active := None);
    }
  }

  /** The reduce that finds the first entry with the smallest ticket. */
  method FirstEntry(queue: seq<QueueEntry>) returns (first: int)
    ensures -1 <= first < |queue| && (first == -1 <==> queue == [])
    ensures first >= 0 ==> forall j :: 0 <= j < first ==> queue[first].ticket < queue[j].ticket
    ensures first >= 0 ==> forall j :: first < j < |queue| ==> queue[first].ticket <= queue[j].ticket
  {
    first := -1;
    for i := 0 to |queue|
      invariant -1 <= first < i || (first == -1 && i == 0)
      invariant first == -1 <==> i == 0
      invariant first >= 0 ==> forall j :: 0 <= j < first ==> queue[first].ticket < queue[j].ticket
      invariant first >= 0 ==> forall j :: first < j < i ==> queue[first].ticket <= queue[j].ticket
    {
      if first == -1 || queue[i].ticket < queue[first].ticket {
        first := i;
      }
    }
  }

  class DreaminaCliArbiter {
    const files: StateFiles
    const leaseMs: nat

    constructor (files: StateFiles, leaseMs: nat)
      ensures this.files == files && this.leaseMs == leaseMs
    {
      this.files := files;
      this.leaseMs := leaseMs;
    }

    /** The update callbacks, changing a private copy of the state field by field. */
    method Apply(current: State, step: Step, now: Time) returns (r: Result<State, ArbiterError>)
      ensures r == Update(current, step, now, leaseMs)
    {
      var state := current;
      match step {
        case Enqueue(requestId, deadline) =>
          state := PruneExpired(state, now);
          if |state.queue| >= MAX_QUEUE {
            return Err(Busy);
          }
          var ticket := state.nextTicket;
          state := state.(nextTicket := ticket + 1);
          state := state.(queue := state.queue + [QueueEntry(requestId, ticket, deadline)]);
        case TryGrant(requestId, ticket, expected) =>
          state := PruneExpired(state, now);
          if forall i :: 0 <= i < |state.queue| ==>
            state.queue[i].requestId != requestId || state.queue[i].ticket != ticket {
            return Err(Busy);
          }
          var first := FirstEntry(state.queue);
          if state.active.Some? || state.queue[first].requestId != requestId {
            NotFirst(state.queue, first, requestId);
            return Ok(state);
          }
          assert FirstInLine(state.queue, requestId);
          if !Expects(state, expected) {
            return Err(AccountChanged);
          }
          var fenceEpoch := state.nextFenceEpoch;
          state := state.(nextFenceEpoch := fenceEpoch + 1);
          var queue := FilterQueue(state.queue, Other(requestId));
          state := state.(queue := queue);
          state := state.(active := Some(Lease(requestId, fenceEpoch, now + leaseMs)));
        case CommitSession(fenceEpoch, binding) =>
          if !LeaseCurrent(state, fenceEpoch, now) {
            return Err(Fenced);
          }
          if state.accountBinding != binding {
            state := state.(sessionEpoch := state.sessionEpoch + 1);
            state := state.(accountBinding := binding);
          }
        case AdvanceSession(fenceEpoch) =>
          if !LeaseCurrent(state, fenceEpoch, now) {
            return Err(Fenced);
          }
          state := state.(sessionEpoch := state.sessionEpoch + 1);
          state := state.(accountBinding := None);
        case Heartbeat(requestId, fenceEpoch, expected) =>
          if !Holds(state, requestId, fenceEpoch) {
            return Err(Fenced);
          }
          if !Expects(state, expected) {
            return Err(AccountChanged);
          }
          var active := state.active.value;
          state := state.(active := Some(active.(expiresAt := now + leaseMs)));
        case Release(requestId, fenceEpoch) =>
          if Holds(state, requestId, fenceEpoch) {
            state := state.(active := None);
          }
        case Withdraw(requestId) =>
          var queue := FilterQueue(state.queue, Other(requestId));
          state := state.(queue := queue);
      }
      r := Ok(state);
    }

    static lemma {:induction false} NotFirst(queue: seq<QueueEntry>, first: int, requestId: RequestId)
      requires 0 <= first < |queue|
      requires forall j :: 0 <= j < first ==> queue[first].ticket < queue[j].ticket
      requires forall j :: first < j < |queue| ==> queue[first].ticket <= queue[j].ticket
      ensures queue[first].requestId != requestId ==> !FirstInLine(queue, requestId)
    {
    }

    /** mutate under the lock. Success means the new state is the primary; a throw leaves the state alone; a
        crash or an I/O error at any point leaves exactly the old state or the new one. */
    method MutateFile(step: Step, now: Time) returns (end: End)
      requires files.Consistent()
      modifies files
      ensures files.Consistent()
      ensures var outcome := Mutate(old(files.Visible()), step, now, leaseMs);
              match end
              case Done => outcome.Ok? && files.primary == Some(outcome.value)
              case Thrown(e) => outcome == Err(e) && files.Visible() == old(files.Visible())
              case _ => files.Visible() == old(files.Visible()) || (outcome.Ok? && files.Visible() == outcome.value)
    {
      hide ValidState, Update;
      end := files.Recover();
      if !end.Done? {
        return;
      }
      files.temporary := None;
      var state := files.Visible();
      var updated := Apply(state, step, now);
      if updated.Err? {
        return Thrown(updated.error);
      }
      var next := updated.value.(revision := updated.value.revision + 1);
      if !ValidState(next) {
        return Thrown(Invalid);
      }
      assert Mutate(state, step, now, leaseMs) == Ok(next);
      end := files.Persist(next);
    }

    /** inspect under the lock: reads the state without changing it. */
    method Inspect() returns (end: End, state: State)
      requires files.Consistent()
      modifies files
      ensures files.Consistent() && files.Visible() == old(files.Visible()) && state == files.Visible() && !end.Thrown?
    {
      end := files.Recover();
      state := files.Visible();
      if end.Done? {
        files.temporary := None;
      }
    }
  }

  /** The lease handed to a CLI invocation, with its own released and lost flags. */
  class InvocationLease {
    const arbiter: DreaminaCliArbiter
    const requestId: RequestId
    const fenceEpoch: int
    const expected: Option<Session>
    var released: bool
    var lost: bool

    constructor (arbiter: DreaminaCliArbiter, requestId: RequestId, fenceEpoch: int, expected: Option<Session>)
      ensures this.arbiter == arbiter && this.requestId == requestId && this.fenceEpoch == fenceEpoch
      ensures this.expected == expected
      ensures !released && !lost
    {
      this.arbiter := arbiter;
      this.requestId := requestId;
      this.fenceEpoch := fenceEpoch;
      this.expected := expected;
      released, lost := false, false;
    }

    /** One heartbeat: any failure marks the lease lost, and a lost or released lease never beats again. */
    method Beat(now: Time) returns (end: End)
      requires arbiter.files.Consistent()
      modifies arbiter.files, this`lost
      ensures arbiter.files.Consistent() && released == old(released)
      ensures old(released || lost) ==> arbiter.files.Visible() == old(arbiter.files.Visible()) && lost == old(lost)
      ensures !old(released || lost) ==> lost == !end.Done?
      ensures !old(released || lost) && end.Done? ==>
                && old(Holds(arbiter.files.Visible(), requestId, fenceEpoch)
                  && Expects(arbiter.files.Visible(), expected))
                && RunsUntil(arbiter.files.Visible(), requestId, fenceEpoch, now + arbiter.leaseMs)
                && SameSession(old(arbiter.files.Visible()), arbiter.files.Visible())
                && SameLine(old(arbiter.files.Visible()), arbiter.files.Visible())
      ensures !old(released || lost) && end == Thrown(Fenced) ==>
                old(!Holds(arbiter.files.Visible(), requestId, fenceEpoch))
      ensures !old(released || lost) && end == Thrown(AccountChanged) ==>
                old(!Expects(arbiter.files.Visible(), expected))
    {
      if released || lost {
        return Done;
      }
      hide ValidState;
      end := arbiter.MutateFile(Heartbeat(requestId, fenceEpoch, expected), now);
      if !end.Done? {
        lost := true;
      }
    }

    /** assertCurrent: passes exactly when the lease was neither released nor lost and the file still names it. */
    method AssertCurrent(now: Time) returns (end: End)
      requires arbiter.files.Consistent()
      modifies arbiter.files
      ensures arbiter.files.Consistent() && arbiter.files.Visible() == old(arbiter.files.Visible())
      ensures end.Done? ==> !released && !lost && Current(arbiter.files.Visible(), requestId, fenceEpoch, now)
                            && Expects(arbiter.files.Visible(), expected)
      ensures end == Thrown(Fenced) ==>
          released || lost || !Current(arbiter.files.Visible(), requestId, fenceEpoch, now)
      ensures end == Thrown(AccountChanged) ==> !Expects(arbiter.files.Visible(), expected)
      ensures !released && !lost && Current(arbiter.files.Visible(), requestId, fenceEpoch, now) ==>
                Expects(arbiter.files.Visible(), expected) ==> !end.Thrown?
    {
      if released || lost {
        return Thrown(Fenced);
      }
      var state;
      end, state := arbiter.Inspect();
      if !end.Done? {
        return;
      }
      if !Current(state, requestId, fenceEpoch, now) {
        return Thrown(Fenced);
      }
      if !Expects(state, expected) {
        return Thrown(AccountChanged);
      }
    }

    /** release: idempotent, and it never takes the lease away from a later holder. */
    method Free(now: Time) returns (end: End)
      requires arbiter.files.Consistent()
      modifies arbiter.files, this`released
      ensures arbiter.files.Consistent() && released && lost == old(lost)
      ensures old(released) ==> arbiter.files.Visible() == old(arbiter.files.Visible())
      ensures !Holds(old(arbiter.files.Visible()), requestId, fenceEpoch) ==>
                arbiter.files.Visible().active == old(arbiter.files.Visible()).active
      ensures end.Done? && !old(released) ==> !Holds(arbiter.files.Visible(), requestId, fenceEpoch)
      ensures SameSession(old(arbiter.files.Visible()), arbiter.files.Visible())
      ensures SameLine(old(arbiter.files.Visible()), arbiter.files.Visible())
    {
      if released {
        return Done;
      }
      released := true;
      end := arbiter.MutateFile(Release(requestId, fenceEpoch), now);
    }
  }

  /** Any sequence of mutates, each preceded by any number of interrupted recoveries: the visible state only
      ever moves along successful mutates, and a completed recovery leaves it in the primary, backup gone. */
  method SurviveCrashes(arbiter: DreaminaCliArbiter, steps: seq<Step>, clock: seq<Time>, interruptions: nat)
    returns (ghost history: seq<State>, recovered: bool)
    requires arbiter.files.Consistent() && |clock| == |steps|
    modifies arbiter.files
    ensures history != [] && history[0] == old(arbiter.files.Visible())
    ensures forall i :: 0 <= i < |history| - 1 ==> Successor(history[i], history[i + 1])
    ensures arbiter.files.Visible() == history[|history| - 1]
    ensures recovered ==> arbiter.files.backup.None? && arbiter.files.primary.GetOr(EMPTY) == history[|history| - 1]
  {
    history := [arbiter.files.Visible()];
    for i := 0 to |steps|
      invariant arbiter.files.Consistent()
      invariant history != [] && history[0] == old(arbiter.files.Visible())
      invariant forall i :: 0 <= i < |history| - 1 ==> Successor(history[i], history[i + 1])
      invariant arbiter.files.Visible() == history[|history| - 1]
    {
      ghost var before := arbiter.files.Visible();
      var end := arbiter.MutateFile(steps[i], clock[i]);
      if arbiter.files.Visible() != before {
        assert Successor(before, arbiter.files.Visible());
        history := history + [arbiter.files.Visible()];
      }
    }
    recovered := false;
    for i := 0 to interruptions
      invariant arbiter.files.Consistent() && arbiter.files.Visible() == history[|history| - 1]
      invariant recovered ==> arbiter.files.backup.None?
    {
      var end := arbiter.files.Recover();
      recovered := end.Done?;
    }
  }
}
