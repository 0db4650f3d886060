/** The row codecs as the program runs them, on a growing buffer and a cursor. */
module RowCodecs {
  import opened Wrappers
  import opened Bytes
  import opened Codec
  import opened DurableRows

  method CheckpointToBytes(r: Checkpoint) returns (bytes: Bytes)
    requires CheckpointFits(r)
    ensures bytes == EncodeCheckpoint(r)
  {
    var buf := new Writer();
    buf.PushU32(r.generation);
    buf.PushRaw(r.collection);
    var pushed := buf.PushBytes(r.cursor);
    buf.PushU8(BoolTag(r.baselineCommitted));
    buf.PushOptionI64(r.lastCompleteAt);
    bytes := buf.bytes;
    assert bytes == EncodeCheckpoint(r) by {
      hide EncU32, EncBytes, EncOptionI64;
      Flat5(EncU32(r.generation), r.collection, EncBytes(r.cursor), [BoolTag(r.baselineCommitted)],
            EncOptionI64(r.lastCompleteAt));
    }
  }

  method CheckpointFromBytes(bytes: Bytes) returns (r: Result<Checkpoint, CodecError>)
    ensures r == DecodeCheckpoint(bytes)
  {
    hide ParseU32, ParseBytes, ParseOptionI64;
    var reader := new Reader(bytes);
    var generation :- reader.ReadU32();
    var collection :- reader.ReadRaw(32);
    var cursor :- reader.ReadBytes();
    var flag :- reader.ReadU8();
    var baseline :- FromTag([false, true], flag);
    var lastCompleteAt :- reader.ReadOptionI64();
    var done := reader.AtEnd();
    r := if done then Ok(Checkpoint(generation, collection, cursor, baseline, lastCompleteAt)) else Err(TrailingBytes);
  }

  method ObservationToBytes(r: Observation) returns (bytes: Bytes)
    requires ObservationFits(r)
    ensures bytes == EncodeObservation(r)
  {
    var buf := new Writer();
    buf.PushRaw(r.dedupKey);
    buf.PushU8(OutcomeCode(r.outcome));
    var pushed := buf.PushBytes(r.reFetchLocator);
    bytes := buf.bytes;
    assert [] + r.dedupKey + [OutcomeCode(r.outcome)] + EncBytes(r.reFetchLocator) == EncodeObservation(r);
  }

  method ObservationFromBytes(bytes: Bytes) returns (r: Result<Observation, CodecError>)
    ensures r == DecodeObservation(bytes)
  {
    hide ParseBytes;
    var reader := new Reader(bytes);
    var key :- reader.ReadRaw(32);
    var tag :- reader.ReadU8();
    var outcome :- FromTag(OUTCOMES, tag);
    var locator :- reader.ReadBytes();
    var done := reader.AtEnd();
    r := if done then Ok(Observation(key, outcome, locator)) else Err(TrailingBytes);
  }

  method LedgerToBytes(r: LedgerRecord) returns (bytes: Bytes)
    requires LedgerFits(r)
    ensures bytes == EncodeLedger(r)
  {
    var buf := new Writer();
    buf.PushRaw(r.operation);
    buf.PushRaw(r.key);
    buf.PushU8(StateCode(r.state));
    buf.PushU8(r.attemptCount);
    buf.PushOptionI64(r.retryAt);
    buf.PushU8(FailureTag(r.failure));
    var pushed := buf.PushBytes(r.locator);
    buf.PushU32(r.generation);
    bytes := buf.bytes;
    assert bytes == EncodeLedger(r) by {
      hide EncU32, EncBytes, EncOptionI64, StateCode, FailureTag;
      Flat8(r.operation, r.key, [StateCode(r.state)], [r.attemptCount], EncOptionI64(r.retryAt),
            [FailureTag(r.failure)], EncBytes(r.locator), EncU32(r.generation));
    }
  }

  method LedgerFromBytes(bytes: Bytes) returns (r: Result<LedgerRecord, CodecError>)
    ensures r == DecodeLedger(bytes)
  {
    hide ParseU32, ParseBytes, ParseOptionI64;
    var reader := new Reader(bytes);
    var operation :- reader.ReadRaw(16);
    var key :- reader.ReadRaw(32);
    var stateTag :- reader.ReadU8();
    var state :- FromTag(STATES, stateTag);
    var attempts :- reader.ReadU8();
    var retryAt :- reader.ReadOptionI64();
    var failureTag :- reader.ReadU8();
    var failure :- FromTag(FAILURES, failureTag);
    var locator :- reader.ReadBytes();
    var generation :- reader.ReadU32();
    var done := reader.AtEnd();
    r := if done then Ok(LedgerRecord(operation, key, state, attempts, retryAt, failure, locator, generation))
         else Err(TrailingBytes);
  }

  lemma Flat5(a: Bytes, b: Bytes, c: Bytes, d: Bytes, e: Bytes)
    ensures [] + a + b + c + d + e == a + (b + (c + (d + e)))
  {
  }

  lemma Flat8(a: Bytes, b: Bytes, c: Bytes, d: Bytes, e: Bytes, f: Bytes, g: Bytes, h: Bytes)
    ensures [] + a + b + c + d + e + f + g + h == a + (b + (c + (d + (e + (f + (g + h))))))
  {
    Flat5(a, b, c, d, e + (f + (g + h)));
    Flat5([] + a + b + c + d, e, f, g, h);
  }
}
