/** `recover` of the projector in canvas-agent/src/dreamina-task-projection.ts: every journal record is projected in
    the order of its id, and the first one that is refused ends the round. The gate before every task action of
    canvas-agent/src/modules/dreamina-http.ts is that such a round completes. */
module ProjectionRecovery {
  import opened Wrappers
  import opened ProductTask
  import opened Projection
  import opened ProjectionRuns
  import J = Journal
  import TC = TaskContract

  /** The record id behind a key, which is its rank among the ids. */
  type Names = J.Key -> string
  /** The stored tasks by the key of the record they project. */
  type Tasks = map<J.Key, StoredTask>

  function TaskOf(tasks: Tasks, key: J.Key): Option<StoredTask> {
    if key in tasks then Some(tasks[key]) else None
  }

  function Tried(records: J.Records, name: Names, tasks: Tasks, key: J.Key): Attempted
    requires key in records
  {
    Attempt(SafeRecord(name(key), records[key]), TaskOf(tasks, key))
  }

  predicate Refused(records: J.Records, name: Names, tasks: Tasks, key: J.Key) {
    key in records && Tried(records, name, tasks, key).Refuses?
  }

  /** Neither this record nor one before it is refused. */
  predicate Reached(records: J.Records, name: Names, tasks: Tasks, key: J.Key) {
    key in records && forall k :: k in records && k <= key ==> !Refused(records, name, tasks, k)
  }

  /** The round takes the record: it is reached, and its version is not there yet. */
  predicate Taken(records: J.Records, name: Names, tasks: Tasks, key: J.Key) {
    Reached(records, name, tasks, key) && Tried(records, name, tasks, key).Stores?
  }

  /** What a round leaves of one task. */
  function Left(records: J.Records, name: Names, tasks: Tasks, key: J.Key): Option<StoredTask> {
    if Taken(records, name, tasks, key) then Some(Tried(records, name, tasks, key).task) else TaskOf(tasks, key)
  }

  lemma {:induction false} LeastExists(keys: set<J.Key>)
    requires keys != {}
    ensures exists key :: key in keys && forall k :: k in keys ==> key <= k
    decreases keys
  {
    var one :| one in keys;
    if keys != {one} {
      LeastExists(keys - {one});
      var least :| least in keys - {one} && forall k :: k in keys - {one} ==> least <= k;
      var key := if one < least then one else least;
      assert key in keys && forall k :: k in keys ==> key <= k by {
        forall k | k in keys ensures key <= k {
          assert k == one || k in keys - {one};
        }
      }
    }
  }

  /** A round that has been through all records but the pending ones, which are the last, without a refusal. */
  ghost predicate Midway(records: J.Records, name: Names, tasks: Tasks, pending: set<J.Key>, after: Tasks) {
    && pending <= records.Keys
    && (forall k, p :: k in records && k !in pending && p in pending ==> k < p)
    && (forall k :: k in records && k !in pending ==> !Refused(records, name, tasks, k))
    && (forall k :: k in pending ==> TaskOf(after, k) == TaskOf(tasks, k))
    && (forall k :: k !in pending ==> TaskOf(after, k) == Left(records, name, tasks, k))
  }

  lemma {:induction false} MidwayReached(records: J.Records, name: Names, tasks: Tasks, pending: set<J.Key>,
      after: Tasks, key: J.Key)
    requires Midway(records, name, tasks, pending, after) && key in pending && !Refused(records, name, tasks, key)
    requires forall k :: k in pending ==> key <= k
    ensures Reached(records, name, tasks, key)
  {
    hide Refused, Left;
    forall k | k in records && k <= key ensures !Refused(records, name, tasks, k) {
      assert k in pending ==> k == key;
    }
  }

  lemma {:induction false} MidwayRefused(records: J.Records, name: Names, tasks: Tasks, pending: set<J.Key>,
      after: Tasks, key: J.Key)
    requires Midway(records, name, tasks, pending, after) && key in pending && Refused(records, name, tasks, key)
    requires forall k :: k in pending ==> key <= k
    ensures forall k :: TaskOf(after, k) == Left(records, name, tasks, k)
  {
    hide Refused, Tried, TaskOf;
    forall k ensures TaskOf(after, k) == Left(records, name, tasks, k) {
      assert k in pending ==> !Reached(records, name, tasks, k);
    }
  }

  lemma {:induction false} MidwayStep(records: J.Records, name: Names, tasks: Tasks, pending: set<J.Key>, after: Tasks,
      key: J.Key,
      next: Tasks)
    requires Midway(records, name, tasks, pending, after) && key in pending && !Refused(records, name, tasks, key)
    requires forall k :: k in pending ==> key <= k
    requires forall k :: k != key ==> TaskOf(next, k) == TaskOf(after, k)
    requires TaskOf(next, key) == Left(records, name, tasks, key)
    ensures Midway(records, name, tasks, pending - {key}, next)
  {
    hide Refused, Left, TaskOf;
  }

  /** The round: it throws exactly if some record is refused, and takes over exactly the records before the first
      refused one; every other task stays as it was. */
  method Recover(records: J.Records, name: Names, tasks: Tasks) returns (after: Tasks, thrown: bool)
    ensures thrown <==> exists k :: Refused(records, name, tasks, k)
    ensures forall k :: TaskOf(after, k) == Left(records, name, tasks, k)
  {
    hide Attempt, SafeRecord, Reached, Midway;
    after, thrown := tasks, false;
    var pending := records.Keys;
    assert Midway(records, name, tasks, pending, after) by {
      NothingDone(records, name, tasks);
    }
    while pending != {}
      invariant Midway(records, name, tasks, pending, after)
      decreases pending
    {
      LeastExists(pending);
      var key :| key in pending && forall k :: k in pending ==> key <= k;
      MidwayAt(records, name, tasks, pending, after, key);
      ghost var before := after;
      match Attempt(SafeRecord(name(key), records[key]), TaskOf(after, key)) {
        case Refuses =>
          assert Refused(records, name, tasks, key);
          MidwayRefused(records, name, tasks, pending, after, key);
          return after, true;
        case Stores(task) =>
          MidwayReached(records, name, tasks, pending, after, key);
          after := after[key := task];
        case Skips =>
      }
      MidwayStep(records, name, tasks, pending, before, key, after);
      pending := pending - {key};
    }
    MidwayOver(records, name, tasks, after);
  }

  lemma {:induction false} NothingDone(records: J.Records, name: Names, tasks: Tasks)
    ensures Midway(records, name, tasks, records.Keys, tasks)
  {
    hide Refused;
  }

  lemma {:induction false} MidwayAt(records: J.Records, name: Names, tasks: Tasks, pending: set<J.Key>, after: Tasks,
      key: J.Key)
    requires Midway(records, name, tasks, pending, after) && key in pending
    ensures key in records && TaskOf(after, key) == TaskOf(tasks, key)
  {
    hide Refused, Left, TaskOf;
  }

  lemma {:induction false} MidwayOver(records: J.Records, name: Names, tasks: Tasks, after: Tasks)
    requires Midway(records, name, tasks, {}, after)
    ensures !exists k :: Refused(records, name, tasks, k)
    ensures forall k :: TaskOf(after, k) == Left(records, name, tasks, k)
  {
    hide Left, TaskOf, Tried;
  }

  /** One refused record keeps itself and every record after it from being taken. */
  lemma {:induction false} RefusedBlocksRest(records: J.Records, name: Names, tasks: Tasks, refused: J.Key, key: J.Key)
    requires Refused(records, name, tasks, refused) && refused <= key
    ensures Left(records, name, tasks, key) == TaskOf(tasks, key)
  {
    assert !Reached(records, name, tasks, key);
  }

  // ---------------------------------------------------------------- round after round

  /** A journal and the tasks a round finds. */
  datatype Round = Round(records: J.Records, tasks: Tasks)

  /** Between one round and the next anything may happen that moves tasks forward. */
  ghost predicate Rounds(name: Names, rounds: seq<Round>) {
    forall i, k: J.Key :: 0 <= i < |rounds| - 1 ==>
      Onward(Left(rounds[i].records, name, rounds[i].tasks, k), TaskOf(rounds[i + 1].tasks, k))
  }

  /** The context can never be what this bound one may become: it is scoped where that is not, or lacks a bound field
      or has another value for it. */
  predicate OpposesContext(context: TC.Context, bound: TC.Context) {
    match bound
    case LegacyUnscoped => context.Scoped?
    case Scoped(fields) =>
      context.LegacyUnscoped? || exists f :: f in fields && !(f in context.fields && context.fields[f] == fields[f])
  }

  /** Where the record contradicts the task in a way nothing can ever mend. */
  predicate Opposes(record: ProjectableRecord, task: StoredTask) {
    || (record.clientOperationId.Some? && record.clientOperationId.value != task.origin.clientOperationId)
    || (record.context.Some? && OpposesContext(record.context.value, task.state.context))
    || (Truthy(record.accountBinding) && Truthy(task.state.accountBinding)
        && record.accountBinding != task.state.accountBinding)
  }

  /** The journal holds the key under another request than this task was made from, or in a version that is newer than
      what the round finds projected, is no deletion, and opposes this task. */
  predicate Strands(round: Round, name: Names, key: J.Key, task: StoredTask) {
    key in round.records &&
    var record := SafeRecord(name(key), round.records[key]);
    || record.requestHash != task.origin.requestHash
    || (record.state != TC.Deleted && Opposes(record, task)
        && (key in round.tasks ==> record.journalVersion > round.tasks[key].projectedJournalVersion))
  }

  /** A task the store may hold, made from the record of this key. */
  predicate Sound(name: Names, tasks: Tasks) {
    forall k :: k in tasks ==>
      Wellformed(tasks[k]) && tasks[k].taskId == TaskIdOf(name(k)) && tasks[k].version < MAX_SAFE_INTEGER
  }

  /** What opposes a task opposes all that may become of it. */
  lemma {:induction false} OpposedForGood(record: ProjectableRecord, task: StoredTask, after: StoredTask)
    requires Opposes(record, task) && TaskFollows(task, after)
    ensures Opposes(record, after)
  {
    hide TC.Rank, TC.Coherent;
    if record.context.Some? && OpposesContext(record.context.value, task.state.context)
      && task.state.context.Scoped? && record.context.value.Scoped? {
      var context, bound := record.context.value, task.state.context;
      var f :| f in bound.fields && !(f in context.fields && context.fields[f] == bound.fields[f]);
      assert f in after.state.context.fields;
    }
  }

  lemma {:induction false} OpposedDisagrees(record: ProjectableRecord, task: StoredTask)
    requires Opposes(record, task)
    ensures !Agrees(record, task)
  {
  }

  lemma {:induction false} StrandsRefused(round: Round, name: Names, key: J.Key, task: StoredTask)
    requires Strands(round, name, key, task) && Sound(name, round.tasks)
    requires key in round.tasks && TaskFollows(task, round.tasks[key])
    ensures Refused(round.records, name, round.tasks, key)
  {
    hide RecordReadable, Stored, SafeRecord, Wellformed, Opposes, Agrees, Attempt;
    var record, now := SafeRecord(name(key), round.records[key]), round.tasks[key];
    if record.requestHash == task.origin.requestHash {
      OpposedForGood(record, task, now);
      OpposedDisagrees(record, now);
    }
    NamedSafely(name(key), round.records[key]);
    AttemptExactly(record, now);
  }

  lemma {:induction false} NamedSafely(recordId: string, record: J.RuntimeRecord)
    ensures SafeRecord(recordId, record).recordId == recordId
    ensures SafeRecord(recordId, record).journalVersion == J.Version(record)
  {
    hide OperationName;
  }

  lemma {:induction false} StrandedStays(name: Names, rounds: seq<Round>, key: J.Key, i: nat)
    requires Rounds(name, rounds) && i < |rounds| && key in rounds[0].tasks
    requires forall j :: 0 <= j < |rounds| ==> Sound(name, rounds[j].tasks)
    requires forall j :: 0 <= j < |rounds| ==> Strands(rounds[j], name, key, rounds[0].tasks[key])
    ensures key in rounds[i].tasks && TaskFollows(rounds[0].tasks[key], rounds[i].tasks[key])
    decreases i
  {
    hide Strands, Refused, Left, TaskFollows, Wellformed;
    if i == 0 {
      FollowsItself(rounds[0].tasks[key]);
    } else {
      StrandedStays(name, rounds, key, i - 1);
      var last := rounds[i - 1];
      StrandsRefused(last, name, key, rounds[0].tasks[key]);
      RefusedBlocksRest(last.records, name, last.tasks, key, key);
      assert Onward(Left(last.records, name, last.tasks, key), TaskOf(rounds[i].tasks, key));
      TaskFollowsTransitive(rounds[0].tasks[key], last.tasks[key], rounds[i].tasks[key]);
    }
  }

  /** Main result: once a key has been projected and the journal holds it as another request, or in a newer version
      that names another operation, context or account, every round throws for as long as it does, whatever else
      happens, and no round takes this record or any after it. */
  lemma {:induction false} GateStaysShut(name: Names, rounds: seq<Round>, key: J.Key, i: nat, later: J.Key)
    requires Rounds(name, rounds) && i < |rounds| && key in rounds[0].tasks && key <= later
    requires forall j :: 0 <= j < |rounds| ==> Sound(name, rounds[j].tasks)
    requires forall j :: 0 <= j < |rounds| ==> Strands(rounds[j], name, key, rounds[0].tasks[key])
    ensures Refused(rounds[i].records, name, rounds[i].tasks, key)
    ensures Left(rounds[i].records, name, rounds[i].tasks, later) == TaskOf(rounds[i].tasks, later)
  {
    StrandedStays(name, rounds, key, i);
    hide Rounds, Refused, Left, Strands, Sound, TaskFollows;
    StrandsRefused(rounds[i], name, key, rounds[0].tasks[key]);
    RefusedBlocksRest(rounds[i].records, name, rounds[i].tasks, key, later);
  }

  // ---------------------------------------------------------------- rounds that complete

  /** The journal's record of the key is one of the versions its undisturbed life has seen. */
  predicate Lived(records: J.Records, name: Names, tasks: Tasks, key: J.Key, life: Life) {
    && key in records && life.recordId == name(key) && life.task == TaskOf(tasks, key)
    && Consistent(life) && records[key] in life.journal
    && (life.task.Some? ==> life.task.value.version < MAX_SAFE_INTEGER)
  }

  /** Where the life of every key is undisturbed, the round completes and every task has reached its record. */
  lemma {:induction false} UndisturbedCompletes(records: J.Records, name: Names, tasks: Tasks, lives: map<J.Key, Life>,
      key: J.Key)
    requires forall k :: k in records ==> k in lives && Lived(records, name, tasks, k, lives[k])
    requires key in records
    ensures !Refused(records, name, tasks, key)
    ensures var left := Left(records, name, tasks, key);
      left.Some? && left.value.projectedJournalVersion >= J.Version(records[key])
  {
    hide Attempt, Consistent, SafeRecord;
    forall k | k in records ensures !Refused(records, name, tasks, k) {
      var life := lives[k];
      var m :| 0 <= m < |life.journal| && life.journal[m] == records[k];
      ProjectionNeverRefused(life, m);
    }
    assert Reached(records, name, tasks, key);
    AttemptReaches(SafeRecord(name(key), records[key]), TaskOf(tasks, key));
    NamedSafely(name(key), records[key]);
  }

  lemma {:induction false} AttemptReaches(record: ProjectableRecord, current: Option<StoredTask>)
    ensures match Attempt(record, current)
      case Refuses => true
      case Skips => current.Some? && current.value.projectedJournalVersion >= record.journalVersion
      case Stores(task) => task.projectedJournalVersion == record.journalVersion
  {
    hide RecordReadable, ValidTask, ProjectionAdmitted, TC.FromRuntimeJournal, MergeProviderState, ProjectedState;
  }
}
