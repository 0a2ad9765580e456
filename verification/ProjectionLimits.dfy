/** Which journal records the projector of canvas-agent/src/dreamina-task-projection.ts can read: the journal accepts
    provider outputs in any order and with gaps, the projector only those numbered from zero. */
module ProjectionLimits {
  import opened Wrappers
  import opened ProductTask
  import opened Projection
  import opened ProjectionRuns
  import J = Journal
  import TC = TaskContract

  /** The formats the journal's record validity asks for besides `Journal.ValidRecord`. */
  predicate JournalFormats(recordId: string, record: J.RuntimeRecord) {
    var identity := record.identity;
    && SafeId(recordId, 8, 160)
    && SafeHash(identity.requestHash)
    && (identity.clientOperationId.Some? ==> SafeId(identity.clientOperationId.value, 16, 120))
    && (identity.context.Some? ==> ContextReadable(identity.context.value))
    && (identity.model.Some? ==> identity.model.value != "" && PlainName(identity.model))
    && (record.fence.accountBinding.Some? ==> SafeHash(record.fence.accountBinding.value))
    && (record.providerOutputs.Some? ==>
          forall output :: output in record.providerOutputs.value ==> ArtifactRef(output.artifactRef))
  }

  predicate NumberedFromZero(outputs: seq<J.ProviderOutput>) {
    forall i :: 0 <= i < |outputs| ==> outputs[i].outputIndex == i
  }

  lemma {:induction false} OperationNamesPlain(operation: J.Operation)
    ensures PlainName(Some(OperationName(operation)))
  {
  }

  lemma {:induction false} CodesSafe(record: J.RuntimeRecord)
    requires J.ValidRecord(record)
    ensures record.errorCode.Some? ==> SafeCode(record.errorCode.value)
  {
    hide J.ValidOutputs, J.HasReceipt, J.ReservationShape, J.QueueShape;
    CleanupCodeSafe();
    hide SafeCode;
  }

  lemma {:induction false} CleanupCodeSafe()
    ensures SafeCode("dreamina_reference_cleanup_failed")
  {
  }

  lemma {:induction false} OutputsReadableExactly(record: J.RuntimeRecord, recordId: string)
    requires J.ValidRecord(record) && JournalFormats(recordId, record) && record.providerOutputs.Some?
    ensures OutputsReadable(SafeRecord(recordId, record), record.providerOutputs.value)
       <==> NumberedFromZero(record.providerOutputs.value)
  {
    hide SafeCode, SafeId, SafeHash, ArtifactRef, ContextReadable, PlainName, J.HasReceipt;
  }

  /** A valid journal record can be projected exactly when its provider outputs, if any, are numbered from zero in
      the order in which they are stored. */
  lemma {:induction false} RecordReadableExactly(record: J.RuntimeRecord, recordId: string)
    requires J.ValidRecord(record) && JournalFormats(recordId, record)
    ensures RecordReadable(SafeRecord(recordId, record))
       <==> (record.providerOutputs.Some? ==> NumberedFromZero(record.providerOutputs.value))
  {
    if record.identity.operation.Some? {
      OperationNamesPlain(record.identity.operation.value);
    }
    CodesSafe(record);
    if record.providerOutputs.Some? {
      OutputsReadableExactly(record, recordId);
    }
    hide SafeCode, SafeId, SafeHash, ContextReadable, PlainName, OutputsReadable, NumberedFromZero, OperationName,
      J.HasReceipt, J.ReservationShape, J.QueueShape, J.ValidOutputs;
  }

  /** A record that is not so numbered is refused at every attempt, and its task stays as it is. */
  lemma {:induction false} MisnumberedNeverProjected(record: J.RuntimeRecord, recordId: string,
      current: Option<StoredTask>)
    requires J.ValidRecord(record) && JournalFormats(recordId, record)
    requires record.providerOutputs.Some? && !NumberedFromZero(record.providerOutputs.value)
    ensures Attempt(SafeRecord(recordId, record), current) == Refuses
  {
    RecordReadableExactly(record, recordId);
    hide RecordReadable, SafeRecord, J.ValidRecord, JournalFormats;
  }

  /** The journal accepts such records: one image output with index one. */
  lemma {:induction false} MisnumberedIsValid(artifactRef: string)
    ensures var outputs := [J.ProviderOutput(1, TC.Image, artifactRef)];
            var record := J.Sample(TC.JournalState.Succeeded, Some("receipt-1"), Some(TC.Completed), Some(5))
                           .(providerOutputs := Some(outputs));
            J.ValidRecord(record) && !NumberedFromZero(outputs)
  {
    assert SafeId("receipt-1", 8, 160);
    var outputs := [J.ProviderOutput(1, TC.Image, artifactRef)];
    assert outputs[0].outputIndex != 0;
    hide SafeId;
  }
}
