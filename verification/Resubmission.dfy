/** Keys that are withdrawn and submitted again, in the system of World, and what the projector then makes of them:
    canvas-agent/src/dreamina-cli-runtime.ts deletes an attempt that never spawned, while the product store of
    canvas-agent/src/dreamina-task-store.ts keeps the task made from it. */
module Resubmission {
  import opened Wrappers
  import opened ProductTask
  import opened Projection
  import opened ProjectionRuns
  import J = Journal
  import L = ProjectionLimits
  import R = RuntimeSections
  import S = SubmissionRun
  import TC = TaskContract
  import W = World

  /** The life of a key that goes through the given acts. */
  function Through(recordId: string, acts: seq<Act>): (lives: seq<Life>)
    ensures Lives(lives, acts) && lives[0].recordId == recordId
    decreases |acts|
  {
    if acts == [] then [Life(recordId, [], None)]
    else
      var before := Through(recordId, acts[..|acts| - 1]);
      before + [Acted(before[|before| - 1], acts[|acts| - 1])]
  }

  function End(recordId: string, acts: seq<Act>): Life {
    Through(recordId, acts)[|acts|]
  }

  function Persists(journal: seq<J.RuntimeRecord>): seq<Act> {
    seq(|journal|, i requires 0 <= i < |journal| => Persisted(journal[i]))
  }

  lemma {:induction false} EndsInAct(recordId: string, acts: seq<Act>, act: Act)
    ensures End(recordId, acts + [act]) == Acted(End(recordId, acts), act)
  {
    hide Acted;
    assert (acts + [act])[..|acts|] == acts;
  }

  lemma {:induction false} EndsInPersists(recordId: string, acts: seq<Act>, journal: seq<J.RuntimeRecord>)
    ensures var life := End(recordId, acts);
      End(recordId, acts + Persists(journal)) == life.(journal := life.journal + journal)
    decreases |journal|
  {
    hide End;
    if journal == [] {
      assert acts + Persists(journal) == acts;
    } else {
      var last := |journal| - 1;
      EndsInPersists(recordId, acts, journal[..last]);
      EndsInAct(recordId, acts + Persists(journal[..last]), Persisted(journal[last]));
      assert acts + Persists(journal) == acts + Persists(journal[..last]) + [Persisted(journal[last])];
      assert journal == journal[..last] + [journal[last]];
    }
  }

  /** The versions of one attempt, one projection of the latest, and the versions of the next attempt. */
  function Twice(first: seq<J.RuntimeRecord>, second: seq<J.RuntimeRecord>): seq<Act> {
    Persists(first) + [Projected(if first == [] then 0 else |first| - 1)] + Persists(second)
  }

  lemma {:induction false} TwiceEnds(recordId: string, first: seq<J.RuntimeRecord>, second: seq<J.RuntimeRecord>)
    requires first != []
    ensures var life := End(recordId, Twice(first, second));
      && life.recordId == recordId && life.journal == first + second
      && life.task == Played(recordId, first + second, [|first| - 1]).task
  {
    hide Attempt, SafeRecord;
    EndsInPersists(recordId, [], first);
    assert [] + Persists(first) == Persists(first);
    EndsInAct(recordId, Persists(first), Projected(|first| - 1));
    EndsInPersists(recordId, Persists(first) + [Projected(|first| - 1)], second);
    assert [|first| - 1][..0] == [];
    assert (first + second)[|first| - 1] == first[|first| - 1];
  }

  /** A version of the next attempt is refused exactly when it does not fit the one that was projected. */
  lemma {:induction false} TwiceRefusedExactly(recordId: string, first: seq<J.RuntimeRecord>,
      second: seq<J.RuntimeRecord>, j: nat)
    requires first != [] && j < |second|
    requires AllProjectable(recordId, first) && AllProjectable(recordId, second)
    ensures Attempt(SafeRecord(recordId, second[j]), End(recordId, Twice(first, second)).task).Refuses?
       <==> !Fits(recordId, first[|first| - 1], second[j])
  {
    hide Attempt, SafeRecord, Projectable, Fits, End, Twice, Played;
    TwiceEnds(recordId, first, second);
    assert (first + second)[|first| - 1] == first[|first| - 1] && (first + second)[|first| + j] == second[j];
    assert forall i :: 0 <= i < |first + second| ==>
        (first + second)[i] == if i < |first| then first[i] else second[i - |first|];
    SecondRefusedExactly(recordId, first + second, |first| - 1, |first| + j);
  }

  /** A version no newer than the one that was projected is not projected. */
  lemma {:induction false} TwiceNotNewer(recordId: string, first: seq<J.RuntimeRecord>, second: seq<J.RuntimeRecord>,
      j: nat)
    requires first != [] && j < |second| && Projectable(recordId, first[|first| - 1])
    requires J.Version(second[j]) <= J.Version(first[|first| - 1])
    ensures !Attempt(SafeRecord(recordId, second[j]), End(recordId, Twice(first, second)).task).Stores?
  {
    hide Projectable, End, Twice, Played, Stored, StoredAs, RecordReadable, OperationName;
    TwiceEnds(recordId, first, second);
    assert (first + second)[|first| - 1] == first[|first| - 1];
    PlayedOnce(recordId, first + second, |first| - 1);
    FirstVersion(SafeRecord(recordId, first[|first| - 1]));
  }

  // ---------------------------------------------------------------- attempts that can be projected

  /** Names, hashes and context are spelled as journal and store want them. */
  predicate Spelled(recordId: string, p: S.Plan) {
    && S.Submittable(p) && L.JournalFormats(recordId, S.MaySpawn(p, 0))
    && (p.who.context.Some? ==> ValidContext(p.who.context.value))
  }

  lemma {:induction false} StagesProjectable(recordId: string, p: S.Plan, ticket: int, id: J.Uuid)
    requires Spelled(recordId, p) && 1 <= ticket <= 100
    ensures Projectable(recordId, S.Queued(p, ticket)) && Projectable(recordId, S.Held(p, id))
    ensures Projectable(recordId, S.MaySpawn(p, id)) && Projectable(recordId, S.Done(p))
  {
    S.RecordsValid(p, ticket, id);
    hide J.ValidRecord, RecordReadable, ValidContext, SafeRecord;
    L.RecordReadableExactly(S.Queued(p, ticket), recordId);
    L.RecordReadableExactly(S.Held(p, id), recordId);
    L.RecordReadableExactly(S.MaySpawn(p, id), recordId);
    L.RecordReadableExactly(S.Done(p), recordId);
  }

  /** An attempt that takes the slot and gives up, and the next one in the queue. */
  function Requeueing(first: S.Plan, second: S.Plan): seq<Act> {
    Twice([S.Queued(first, 1), S.Held(first, 0)], [S.Queued(second, 2)])
  }

  /** The system goes through the records of Requeueing. */
  lemma {:induction false} RequeueingReachable(first: S.Plan, second: S.Plan)
    requires S.Submittable(first) && S.Submittable(second)
    ensures var w := S.AfterWithdrawal(S.START, first, false);
      && S.Reachable(S.AfterQueueing(S.START, first)) && S.Reachable(S.AfterReserving(S.START, first))
      && S.Reachable(w) && S.Reachable(S.AfterQueueing(w, second))
      && S.AfterQueueing(S.START, first).disk.records == map[S.TASK := S.Queued(first, 1)]
      && S.AfterReserving(S.START, first).disk.records == map[S.TASK := S.Held(first, 0)]
      && w.disk.records == map[]
      && S.AfterQueueing(w, second).disk.records == map[S.TASK := S.Queued(second, 2)]
  {
    S.StartReachable();
    S.FenceReachable(S.START, first);
    S.AttemptWithdrawn(S.START, first, false);
    hide S.Reachable;
    S.FenceReachable(S.AfterWithdrawal(S.START, first, false), second);
  }

  /** The reserved record is projected and withdrawn, and its key queued again. The new record is refused exactly when
      it is another request; otherwise its first version is passed over, though it was never projected. */
  lemma {:induction false} RequeuedExactly(recordId: string, first: S.Plan, second: S.Plan)
    requires Spelled(recordId, first) && Spelled(recordId, second)
    ensures var life := End(recordId, Requeueing(first, second));
            var attempt := Attempt(SafeRecord(recordId, S.Queued(second, 2)), life.task);
      && (attempt.Refuses? <==> second.who.requestHash != first.who.requestHash)
      && (attempt.Skips? <==> second.who.requestHash == first.who.requestHash)
  {
    var before, after := [S.Queued(first, 1), S.Held(first, 0)], [S.Queued(second, 2)];
    StagesProjectable(recordId, first, 1, 0);
    StagesProjectable(recordId, second, 2, 0);
    RequeuedFits(recordId, first, second);
    hide Projectable, S.Queued, S.Held, Fits, SafeRecord, S.Submittable, Attempt, End, Twice;
    TwiceRefusedExactly(recordId, before, after, 0);
    TwiceNotNewer(recordId, before, after, 0);
  }

  lemma {:induction false} RequeuedFits(recordId: string, first: S.Plan, second: S.Plan)
    ensures Fits(recordId, S.Held(first, 0), S.Queued(second, 2))
       <==> second.who.requestHash == first.who.requestHash
    ensures J.Version(S.Queued(second, 2)) < J.Version(S.Held(first, 0))
  {
  }

  // ---------------------------------------------------------------- a second attempt that completes

  /** An attempt that gives up with its fence durable, and the next one up to its receipt. */
  function Resubmitting(first: S.Plan, second: S.Plan): seq<Act> {
    Twice([S.Queued(first, 1), S.Held(first, 0), S.MaySpawn(first, 0)],
          [S.Queued(second, 2), S.Held(second, 1), S.MaySpawn(second, 1), S.Done(second)])
  }

  /** The account a plan's fence is bound to. */
  function Account(p: S.Plan): Option<string> {
    if p.session.Some? then NonEmpty(p.session.value.accountBinding) else None
  }

  /** The second plan is another request, or names an operation, context or account that is not the first one's. */
  predicate Clashes(recordId: string, first: S.Plan, second: S.Plan) {
    var operation := NonEmpty(second.who.clientOperationId);
    || second.who.requestHash != first.who.requestHash
    || (operation.Some? && operation.value != NonEmpty(first.who.clientOperationId).GetOr(recordId))
    || (second.who.context.Some? && second.who.context.value != first.who.context.GetOr(TC.LegacyUnscoped))
    || (Account(first).Some? && Account(second).Some? && Account(second) != Account(first))
  }

  lemma {:induction false} ClashesExactly(recordId: string, first: S.Plan, second: S.Plan)
    ensures Clashes(recordId, first, second) <==> !Fits(recordId, S.MaySpawn(first, 0), S.Done(second))
  {
  }

  /** The system goes through the records of Resubmitting, with one spawn, by the second attempt. */
  lemma {:induction false} ResubmittingReachable(first: S.Plan, second: S.Plan)
    requires S.Submittable(first) && S.Submittable(second)
    ensures var w := S.AfterWithdrawal(S.START, first, true); var v := S.AfterRecording(w, second);
      && S.Reachable(S.AfterFencing(S.START, first)) && S.Reachable(w)
      && S.Reachable(S.AfterFencing(w, second)) && S.Reachable(v)
      && S.AfterFencing(S.START, first).disk.records == map[S.TASK := S.MaySpawn(first, 0)]
      && w.disk.records == map[]
      && S.AfterFencing(w, second).disk.records == map[S.TASK := S.MaySpawn(second, 1)]
      && v.disk.records == map[S.TASK := S.Done(second)]
      && v.spawns == [W.Spawn(S.TASK, 1)]
  {
    S.StartReachable();
    S.FenceReachable(S.START, first);
    S.AttemptWithdrawn(S.START, first, true);
    hide S.Reachable;
    S.FenceReachable(S.AfterWithdrawal(S.START, first, true), second);
    S.ResubmissionCompletes(first, true, second);
  }

  /** Main result: the fenced record is projected, its spawn fails and it is withdrawn; the key is submitted again,
      spawned and answered. That paid submission is refused by the projector exactly when it clashes with the attempt
      that never spawned. */
  lemma {:induction false} ResubmittedExactly(recordId: string, first: S.Plan, second: S.Plan)
    requires Spelled(recordId, first) && Spelled(recordId, second)
    ensures var life := End(recordId, Resubmitting(first, second));
      Attempt(SafeRecord(recordId, S.Done(second)), life.task).Refuses? <==> Clashes(recordId, first, second)
  {
    var before := [S.Queued(first, 1), S.Held(first, 0), S.MaySpawn(first, 0)];
    var after := [S.Queued(second, 2), S.Held(second, 1), S.MaySpawn(second, 1), S.Done(second)];
    StagesProjectable(recordId, first, 1, 0);
    StagesProjectable(recordId, second, 2, 1);
    ClashesExactly(recordId, first, second);
    hide Projectable, S.Queued, S.Held, S.MaySpawn, S.Done, Fits, SafeRecord, S.Submittable, Attempt, Clashes, End,
      Twice;
    TwiceRefusedExactly(recordId, before, after, 3);
  }

  // ---------------------------------------------------------------- it happens

  function Repeated(c: char): (text: string)
    ensures |text| == 64 && forall i :: 0 <= i < 64 ==> text[i] == c
  {
    seq(64, _ => c)
  }

  /** The same request, found under the account named by `c`. */
  function SamplePlan(hash: char, account: char): S.Plan {
    S.Plan(J.Identity(Repeated(hash), true, None, None, Some(J.Text2Image), Some(TC.Image), Some("model-5"), Some(0)),
           Some(R.Session(1, Some(Repeated(account)))))
  }

  lemma {:induction false} SampleSpelled(hash: char, account: char)
    requires 'a' <= hash <= 'f' && 'a' <= account <= 'f'
    ensures Spelled("submission-1", SamplePlan(hash, account))
  {
    assert SafeId("submission-1", 8, 160);
    assert PlainName(Some("model-5"));
    hide SafeId, PlainName;
  }

  /** A key submitted again as another request, and one submitted again under another account, are refused. */
  lemma {:induction false} BothStrand()
    ensures Attempt(SafeRecord("submission-1", S.Queued(SamplePlan('b', 'a'), 2)),
                    End("submission-1", Requeueing(SamplePlan('a', 'a'), SamplePlan('b', 'a'))).task).Refuses?
    ensures Attempt(SafeRecord("submission-1", S.Done(SamplePlan('a', 'b'))),
                    End("submission-1", Resubmitting(SamplePlan('a', 'a'), SamplePlan('a', 'b'))).task).Refuses?
  {
    SampleSpelled('a', 'a');
    SampleSpelled('b', 'a');
    SampleSpelled('a', 'b');
    var first, other, moved := SamplePlan('a', 'a'), SamplePlan('b', 'a'), SamplePlan('a', 'b');
    assert first.who.requestHash[0] != other.who.requestHash[0];
    assert Account(first).value[0] != Account(moved).value[0];
    hide Spelled, Attempt, End, SafeRecord, S.Queued, S.Done;
    RequeuedExactly("submission-1", first, other);
    ResubmittedExactly("submission-1", first, moved);
  }
}
