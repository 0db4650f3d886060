/** The durable rows of ingestion and of the operation ledger, as values and as bytes. */
module DurableRows {
  import opened Wrappers
  import opened Bytes
  import opened Codec

  type OperationId = b: Bytes | |b| == 16 witness seq(16, _ => 0)

  datatype JobOutcome = NoCandidate | NeedsReview | Quarantined

  datatype Checkpoint = Checkpoint(
    generation: U32, collection: Key, cursor: Bytes, baselineCommitted: bool, lastCompleteAt: Option<I64>)

  datatype Observation = Observation(dedupKey: Key, outcome: JobOutcome, reFetchLocator: Bytes)

  datatype OperationState =
    | Pending | AttemptStarted | KnownNoSendRetryable | Ambiguous | Reconciling
    | UserAssisted | Succeeded | DefinitiveFailed | Abandoned

  datatype FailureCode =
    | NoFailure | TimeoutUnknown | TransportKnownNoSend | ThrottledKnownNoSend | CompleteZero | CompleteMany
    | EnumerationIncomplete | MarkerMissing | MarkerUnsupported | MarkerRemoved | StaleVersion
    | OwnershipConflict | AccountMismatch | AuthorityChanged | SecureStoreUnavailable
    | RollbackSuspected | ManualDraftUnrecoverable

  datatype LedgerRecord = LedgerRecord(
    operation: OperationId, key: Key, state: OperationState, attemptCount: Byte, retryAt: Option<I64>,
    failure: FailureCode, locator: Bytes, generation: U32)

  // ---- tags

  const OUTCOMES := [NoCandidate, NeedsReview, Quarantined]

  const STATES := [
    Pending, AttemptStarted, KnownNoSendRetryable, Ambiguous, Reconciling,
    UserAssisted, Succeeded, DefinitiveFailed, Abandoned]

  const FAILURES := [
    NoFailure, TimeoutUnknown, TransportKnownNoSend, ThrottledKnownNoSend, CompleteZero, CompleteMany,
    EnumerationIncomplete, MarkerMissing, MarkerUnsupported, MarkerRemoved, StaleVersion,
    OwnershipConflict, AccountMismatch, AuthorityChanged, SecureStoreUnavailable,
    RollbackSuspected, ManualDraftUnrecoverable]

  function OutcomeCode(o: JobOutcome): (c: Byte)
    ensures c < |OUTCOMES| && OUTCOMES[c] == o
  {
    match o case NoCandidate => 0 case NeedsReview => 1 case Quarantined => 2
  }

  function StateCode(s: OperationState): (c: Byte)
    ensures c < |STATES| && STATES[c] == s
  {
    match s
    case Pending => 0 case AttemptStarted => 1 case KnownNoSendRetryable => 2
    case Ambiguous => 3 case Reconciling => 4 case UserAssisted => 5
    case Succeeded => 6 case DefinitiveFailed => 7 case Abandoned => 8
  }

  function FailureTag(f: FailureCode): (c: Byte)
    ensures c < |FAILURES| && FAILURES[c] == f
  {
    match f
    case NoFailure => 0 case TimeoutUnknown => 1 case TransportKnownNoSend => 2
    case ThrottledKnownNoSend => 3 case CompleteZero => 4 case CompleteMany => 5
    case EnumerationIncomplete => 6 case MarkerMissing => 7 case MarkerUnsupported => 8
    case MarkerRemoved => 9 case StaleVersion => 10 case OwnershipConflict => 11
    case AccountMismatch => 12 case AuthorityChanged => 13 case SecureStoreUnavailable => 14
    case RollbackSuspected => 15 case ManualDraftUnrecoverable => 16
  }

  /** The variant with this tag, or the tag itself as the error. */
  function FromTag<T>(variants: seq<T>, tag: Byte): Result<T, CodecError> {
    if tag < |variants| then Ok(variants[tag]) else Err(UnknownTag(tag))
  }

  function BoolTag(b: bool): Byte { if b then 1 else 0 }

  // ---- printing

  predicate CheckpointFits(r: Checkpoint) { Prefixable(r.cursor) }

  function EncodeCheckpoint(r: Checkpoint): Bytes
    requires CheckpointFits(r)
  {
    EncU32(r.generation) + (
      r.collection + (EncBytes(r.cursor) + ([BoolTag(r.baselineCommitted)] + EncOptionI64(r.lastCompleteAt))))
  }

  predicate ObservationFits(r: Observation) { Prefixable(r.reFetchLocator) }

  function EncodeObservation(r: Observation): Bytes
    requires ObservationFits(r)
  {
    r.dedupKey + ([OutcomeCode(r.outcome)] + EncBytes(r.reFetchLocator))
  }

  predicate LedgerFits(r: LedgerRecord) { Prefixable(r.locator) }

  function EncodeLedger(r: LedgerRecord): Bytes
    requires LedgerFits(r)
  {
    r.operation + (r.key + ([StateCode(r.state)] + ([r.attemptCount] + (EncOptionI64(r.retryAt)
      + ([FailureTag(r.failure)] + (EncBytes(r.locator) + EncU32(r.generation)))))))
  }

  // ---- parsing

  function DecodeCheckpoint(s: Bytes): Result<Checkpoint, CodecError> {
    var (generation, s1) :- ParseU32(s);
    var (collection, s2) :- Take(s1, 32);
    var (cursor, s3) :- ParseBytes(s2);
    var (flag, s4) :- ParseU8(s3);
    var baseline :- FromTag([false, true], flag);
    var (last, s5) :- ParseOptionI64(s4);
    Finish(Checkpoint(generation, collection, cursor, baseline, last), s5)
  }

  function DecodeObservation(s: Bytes): Result<Observation, CodecError> {
    var (key, s1) :- Take(s, 32);
    var (tag, s2) :- ParseU8(s1);
    var outcome :- FromTag(OUTCOMES, tag);
    var (locator, s3) :- ParseBytes(s2);
    Finish(Observation(key, outcome, locator), s3)
  }

  function DecodeLedger(s: Bytes): Result<LedgerRecord, CodecError> {
    var (operation, s1) :- Take(s, 16);
    var (key, s2) :- Take(s1, 32);
    var (stateTag, s3) :- ParseU8(s2);
    var state :- FromTag(STATES, stateTag);
    var (attempts, s4) :- ParseU8(s3);
    var (retryAt, s5) :- ParseOptionI64(s4);
    var (failureTag, s6) :- ParseU8(s5);
    var failure :- FromTag(FAILURES, failureTag);
    var (locator, s7) :- ParseBytes(s6);
    var (generation, s8) :- ParseU32(s7);
    Finish(LedgerRecord(operation, key, state, attempts, retryAt, failure, locator, generation), s8)
  }

  // ---- each row format is exactly its printer's image

  lemma CheckpointRoundTrip(r: Checkpoint)
    requires CheckpointFits(r)
    ensures DecodeCheckpoint(EncodeCheckpoint(r)) == Ok(r)
  {
    hide ParseU32, ParseBytes, ParseOptionI64, EncU32, EncBytes, EncOptionI64;
    var t4 := EncOptionI64(r.lastCompleteAt);
    var t3 := [BoolTag(r.baselineCommitted)] + t4;
    var t2 := EncBytes(r.cursor) + t3;
    U32Parses(r.generation, r.collection + t2);
    TakeParses(r.collection, t2);
    BytesParse(r.cursor, t3);
    U8Parses(BoolTag(r.baselineCommitted), t4);
    OptionI64Parses(r.lastCompleteAt, []);
    assert t4 + [] == t4;
  }

  lemma ObservationRoundTrip(r: Observation)
    requires ObservationFits(r)
    ensures DecodeObservation(EncodeObservation(r)) == Ok(r)
  {
    hide ParseBytes, EncBytes;
    var t2 := EncBytes(r.reFetchLocator);
    TakeParses(r.dedupKey, [OutcomeCode(r.outcome)] + t2);
    U8Parses(OutcomeCode(r.outcome), t2);
    BytesParse(r.reFetchLocator, []);
    assert t2 + [] == t2;
  }

  lemma LedgerRoundTrip(r: LedgerRecord)
    requires LedgerFits(r)
    ensures DecodeLedger(EncodeLedger(r)) == Ok(r)
  {
    hide ParseU32, ParseBytes, ParseOptionI64, EncU32, EncBytes, EncOptionI64, StateCode, FailureTag;
    var t7 := EncU32(r.generation);
    var t6 := EncBytes(r.locator) + t7;
    var t5 := [FailureTag(r.failure)] + t6;
    var t4 := EncOptionI64(r.retryAt) + t5;
    var t3 := [r.attemptCount] + t4;
    var t2 := [StateCode(r.state)] + t3;
    TakeParses(r.operation, r.key + t2);
    TakeParses(r.key, t2);
    U8Parses(StateCode(r.state), t3);
    U8Parses(r.attemptCount, t4);
    OptionI64Parses(r.retryAt, t5);
    U8Parses(FailureTag(r.failure), t6);
    BytesParse(r.locator, t7);
    U32Parses(r.generation, []);
    assert t7 + [] == t7;
  }

  lemma CheckpointExact(s: Bytes)
    ensures DecodeCheckpoint(s).Ok? ==>
              var r := DecodeCheckpoint(s).value; CheckpointFits(r) && s == EncodeCheckpoint(r)
  {
    hide ParseU32, ParseBytes, ParseOptionI64, EncU32, EncBytes, EncOptionI64;
    if DecodeCheckpoint(s).Ok? {
      U32Exact(s);
      var s1 := ParseU32(s).value.1;
      TakeExact(s1, 32);
      var s2 := Take(s1, 32).value.1;
      BytesExact(s2);
      var s3 := ParseBytes(s2).value.1;
      U8Exact(s3);
      var s4 := ParseU8(s3).value.1;
      OptionI64Exact(s4);
      var t := EncOptionI64(ParseOptionI64(s4).value.0);
      assert t + [] == t;
    }
  }

  lemma ObservationExact(s: Bytes)
    ensures DecodeObservation(s).Ok? ==>
              var r := DecodeObservation(s).value; ObservationFits(r) && s == EncodeObservation(r)
  {
    hide ParseBytes, EncBytes;
    if DecodeObservation(s).Ok? {
      TakeExact(s, 32);
      var s1 := Take(s, 32).value.1;
      U8Exact(s1);
      var s2 := ParseU8(s1).value.1;
      BytesExact(s2);
      var t := EncBytes(ParseBytes(s2).value.0);
      assert t + [] == t;
    }
  }

  lemma LedgerExact(s: Bytes)
    ensures DecodeLedger(s).Ok? ==>
              var r := DecodeLedger(s).value; LedgerFits(r) && s == EncodeLedger(r)
  {
    hide ParseU32, ParseBytes, ParseOptionI64, EncU32, EncBytes, EncOptionI64;
    if DecodeLedger(s).Ok? {
      TakeExact(s, 16);
      var s1 := Take(s, 16).value.1;
      TakeExact(s1, 32);
      var s2 := Take(s1, 32).value.1;
      U8Exact(s2);
      var s3 := ParseU8(s2).value.1;
      StateTagExact(s2[0]);
      U8Exact(s3);
      var s4 := ParseU8(s3).value.1;
      OptionI64Exact(s4);
      var s5 := ParseOptionI64(s4).value.1;
      U8Exact(s5);
      var s6 := ParseU8(s5).value.1;
      FailureTagExact(s5[0]);
      BytesExact(s6);
      var s7 := ParseBytes(s6).value.1;
      U32Exact(s7);
      var t := EncU32(ParseU32(s7).value.0);
      assert t + [] == t;
    }
  }

  lemma StateTagExact(tag: Byte)
    ensures FromTag(STATES, tag).Ok? ==> StateCode(FromTag(STATES, tag).value) == tag
  {
  }

  lemma FailureTagExact(tag: Byte)
    ensures FromTag(FAILURES, tag).Ok? ==> FailureTag(FromTag(FAILURES, tag).value) == tag
  {
  }
}
