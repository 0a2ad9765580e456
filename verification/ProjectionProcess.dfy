/** The projector's retry loop over a store that other processes write to as well. */
module ProjectionProcess {
  import opened Digits
  import opened Wrappers
  import opened ProductTask
  import opened Projection
  import opened TaskStore
  import opened StoreProcess
  import TC = TaskContract

  const EFFECT_PREFIX: string := "task.projected:dreamina-cli:"

  function ProjectionEffectKey(recordId: string, journalVersion: nat): string {
    EFFECT_PREFIX + recordId + ":" + Decimal(journalVersion)
  }

  lemma {:induction false} PowersOfTen()
    ensures PowerOfTen(16) > MAX_SAFE_INTEGER
  {
    assert PowerOfTen(1) == 10;
    assert PowerOfTen(2) == 10 * PowerOfTen(1);
    assert PowerOfTen(4) == 10 * (10 * PowerOfTen(2));
    assert PowerOfTen(6) == 10 * (10 * PowerOfTen(4));
    assert PowerOfTen(8) == 10 * (10 * PowerOfTen(6));
    assert PowerOfTen(10) == 10 * (10 * PowerOfTen(8));
    assert PowerOfTen(12) == 10 * (10 * PowerOfTen(10));
    assert PowerOfTen(14) == 10 * (10 * PowerOfTen(12));
    assert PowerOfTen(16) == 10 * (10 * PowerOfTen(14));
  }

  lemma {:induction false} PrefixPlain()
    ensures |EFFECT_PREFIX| == 28 && forall c :: c in EFFECT_PREFIX ==> 'a' <= c <= 'z' || c in "._:-"
  {
  }

  /** The key of a projection effect is one the store accepts, is no product key, and names its version. */
  lemma {:induction false} EffectKeySafe(recordId: string, version: nat)
    requires SafeId(recordId, 8, 160) && version <= MAX_SAFE_INTEGER
    ensures ValidEffectKey(ProjectionEffectKey(recordId, version))
    ensures !ProductKey(ProjectionEffectKey(recordId, version))
    ensures forall other: nat :: ProjectionEffectKey(recordId, other) == ProjectionEffectKey(recordId, version) ==>
        other == version
  {
    var key := ProjectionEffectKey(recordId, version);
    PowersOfTen();
    DecimalLength(version, 16);
    DecimalReads(version);
    PrefixPlain();
    forall c | c in key ensures 'A' <= c <= 'Z' || 'a' <= c <= 'z' || '0' <= c <= '9' || c in "._:-" {
      assert c in EFFECT_PREFIX || c in recordId || c == ':' || c in Decimal(version);
      if c in Decimal(version) {
        var i :| 0 <= i < |Decimal(version)| && Decimal(version)[i] == c;
        assert IsDigit(Decimal(version)[i]);
      }
    }
    assert key[0] == 't';
    assert "materialize:"[0] == 'm' && "attach-node:"[0] == 'a' && "attach-message:"[0] == 'a'
      && "agent-resume:"[0] == 'a';
    forall other: nat | ProjectionEffectKey(recordId, other) == key ensures other == version {
      var front := EFFECT_PREFIX + recordId + ":";
      assert Decimal(other) == ProjectionEffectKey(recordId, other)[|front|..] == key[|front|..] == Decimal(version);
      DecimalInjective(other, version);
    }
  }

  datatype ProjectorError = NotProjectable(reason: ProjectionError) | StoreFailed(error: StoreError)

  class DreaminaTaskProjector {
    const store: DreaminaTaskStore

    constructor (store: DreaminaTaskStore)
      ensures this.store == store
    {
      this.store := store;
    }

    /** Anything other processes may do to the file between two of our calls. */
    method Elsewhere(disk: Disk)
      modifies store`file
      ensures store.file in {old(store.file), Some(disk)}
    {
      if * {
        store.file := Some(disk);
      }
    }

    /** projectJournalVersion with the record supplied. `others` is what the file may be changed to before each
        write. Whatever interferes, a task that is returned carries this record at this version or a later one: it is
        the task last seen, if that is so far already, or what the record makes of the task last seen. Giving up for a
        conflict takes four of them. */
    method ProjectJournalVersion(record: ProjectableRecord, others: seq<Disk>, now: Time)
      returns (r: Result<StoredTask, ProjectorError>, ghost conflicts: nat, ghost seen: Option<StoredTask>)
      requires |others| == 4
      modifies store`file
      ensures !RecordReadable(record) ==> r == Err(NotProjectable(RecordInvalid)) && store.file == old(store.file)
      ensures r.Ok? ==>
                && r.value.taskId == TaskIdOf(record.recordId)
                && r.value.projectedJournalVersion >= record.journalVersion
                && r.value.origin.requestHash == record.requestHash && r.value.origin.journalRecordId == record.recordId
      ensures r.Ok? ==>
        if seen.Some? && seen.value.projectedJournalVersion >= record.journalVersion then r.value == seen.value
        else Project(record, seen).Ok? && r.value == Project(record, seen).value.(version := NextVersion(seen))
      ensures conflicts <= 4 && (r == Err(StoreFailed(Conflict)) ==> conflicts == 4)
    {
      hide RecordReadable, ValidTask, Readable, Compact, TC.FromRuntimeJournal, MergeProviderState, ProjectionAdmitted,
        ProjectionEffectKey, ProjectedState;
      conflicts, seen := 0, None;
      if !RecordReadable(record) {
        return Err(NotProjectable(RecordInvalid)), 0, None;
      }
      RecordNames(record);
      var taskId := TaskIdOf(record.recordId);
      var attempt := 0;
      while attempt < 4
        invariant attempt <= 4 && conflicts == attempt
      {
        var read := store.GetTask(taskId);
        if read.Err? {
          return Err(StoreFailed(Invalid)), conflicts, seen;
        }
        var current := read.value;
        seen := current;
        if current.Some? && (current.value.origin.requestHash != record.requestHash
                             || current.value.origin.journalRecordId != record.recordId) {
          return Err(NotProjectable(IdentityChanged)), conflicts, seen;
        }
        if current.Some? && current.value.projectedJournalVersion >= record.journalVersion {
          return Ok(current.value), conflicts, seen;
        }
        var next := Project(record, current);
        if next.Err? {
          return Err(NotProjectable(next.error)), conflicts, seen;
        }
        ProjectNames(record, current);
        Elsewhere(others[attempt]);
        var effect := EffectInput(ProjectionEffectKey(record.recordId, record.journalVersion), TaskProjected, taskId,
          Some(record.journalVersion));
        var swapped := store.CompareAndSwapTask(taskId, if current.Some? then current.value.version
          else 0, next.value, effect, now);
        if swapped.Ok? {
          return Ok(swapped.value), conflicts, seen;
        }
        if swapped.error != Conflict {
          return Err(StoreFailed(swapped.error)), conflicts, seen;
        }
        conflicts := conflicts + 1;
        attempt := attempt + 1;
      }
      return Err(StoreFailed(Conflict)), conflicts, seen;
    }
  }

  lemma {:induction false} RecordNames(record: ProjectableRecord)
    requires RecordReadable(record)
    ensures SafeTaskId(TaskIdOf(record.recordId)) && record.journalVersion >= 1
  {
    PrefixedIdSafe(record.recordId);
  }

  lemma {:induction false} ProjectNames(record: ProjectableRecord, current: Option<StoredTask>)
    requires Project(record, current).Ok?
    requires current.Some? ==>
        current.value.origin.requestHash == record.requestHash
          && current.value.origin.journalRecordId == record.recordId
    ensures var next := Project(record, current).value;
      && next.projectedJournalVersion == record.journalVersion
      && next.origin.requestHash == record.requestHash && next.origin.journalRecordId == record.recordId
  {
    hide TC.FromRuntimeJournal, MergeProviderState, ProjectedState;
  }
}
