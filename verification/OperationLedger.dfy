/**
 The operation ledger: one append-only row per step of an external operation, written
 before the request it announces.
 */
module OperationLedger {
  import opened Wrappers
  import opened Bytes
  import opened Codec
  import opened DurableRows
  import opened RowStore

  const MAX_ATTEMPTS: Byte := 3

  datatype AdapterOutcome = Delivered(locator: Bytes) | KnownNoSend | Unclear | Refused

  datatype LedgerError =
    | Collision(previous: Key, attempted: Key)
    | AttemptsExhausted
    | NotEligibleForRetry
    | Unavailable

  datatype BeginOutcome = FreshPending(record: LedgerRecord) | Replayed(record: LedgerRecord)

  // ---- what each entry point writes

  function FirstRow(operation: OperationId, key: Key): LedgerRecord {
    LedgerRecord(operation, key, Pending, 0, None, NoFailure, [], 0)
  }

  /** In a release build the next attempt count and the next generation wrap at their widths. */
  function NextAttempt(r: LedgerRecord): Byte { (r.attemptCount + 1) % 256 }

  function NextGeneration(r: LedgerRecord): U32 { (r.generation + 1) % 0x1_0000_0000 }

  function BeginOrReplay(found: Option<LedgerRecord>, operation: OperationId, key: Key)
    : Result<BeginOutcome, LedgerError>
  {
    match found
    case None => Ok(FreshPending(FirstRow(operation, key)))
    case Some(prev) =>
      if prev.key != key then Err(Collision(prev.key, key)) else Ok(Replayed(prev))
  }

  function Started(r: LedgerRecord): LedgerRecord {
    r.(state := AttemptStarted, attemptCount := NextAttempt(r), generation := NextGeneration(r))
  }

  function EligibleRetry(r: LedgerRecord): Result<LedgerRecord, LedgerError> {
    if r.state != KnownNoSendRetryable then Err(NotEligibleForRetry)
    else if r.attemptCount >= MAX_ATTEMPTS then Err(AttemptsExhausted)
    else Ok(Started(r).(retryAt := None, failure := NoFailure))
  }

  function Classified(r: LedgerRecord, outcome: AdapterOutcome, hint: FailureCode): LedgerRecord {
    var next := r.(generation := NextGeneration(r));
    match outcome
    case Delivered(locator) => next.(state := Succeeded, failure := NoFailure, locator := locator)
    case KnownNoSend =>
      next.(state := if r.attemptCount < MAX_ATTEMPTS then KnownNoSendRetryable else DefinitiveFailed,
            failure := TransportKnownNoSend)
    case Unclear => next.(state := Ambiguous, failure := hint)
    case Refused => next.(state := DefinitiveFailed, failure := hint)
  }

  /** What a classified row says of the answer, and what it keeps of the record it was given. */
  lemma OutcomeSays(r: LedgerRecord, outcome: AdapterOutcome, hint: FailureCode)
    ensures var next := Classified(r, outcome, hint);
            && (next.state == Succeeded <==> outcome.Delivered?)
            && (next.state == Ambiguous <==> outcome.Unclear?)
            && (next.state == KnownNoSendRetryable <==> outcome.KnownNoSend? && r.attemptCount < 3)
            && (next.state == DefinitiveFailed <==> outcome.Refused? || (outcome.KnownNoSend? && r.attemptCount >= 3))
            && next.failure == (if outcome.Delivered? then NoFailure
                                else if outcome.KnownNoSend? then TransportKnownNoSend else hint)
            && next.locator == (if outcome.Delivered? then outcome.locator else r.locator)
            && next.operation == r.operation && next.key == r.key
            && next.attemptCount == r.attemptCount && next.retryAt == r.retryAt
  {
  }

  /**
   A further attempt is refused exactly to a record that is not retryable or has had three; the row it
   writes says started once more, with nothing scheduled and no failure, and keeps what it is about.
   */
  lemma RetrySays(r: LedgerRecord)
    ensures EligibleRetry(r) == Err(NotEligibleForRetry) <==> r.state != KnownNoSendRetryable
    ensures EligibleRetry(r) == Err(AttemptsExhausted) <==> r.state == KnownNoSendRetryable && r.attemptCount >= 3
    ensures EligibleRetry(r).Ok? <==> r.state == KnownNoSendRetryable && r.attemptCount < 3
    ensures EligibleRetry(r).Ok? ==>
              var next := EligibleRetry(r).value;
              && next.state == AttemptStarted && next.attemptCount == r.attemptCount + 1
              && next.retryAt == None && next.failure == NoFailure
              && next.operation == r.operation && next.key == r.key && next.locator == r.locator
              && (next.generation == r.generation + 1 || (r.generation == 0xFFFF_FFFF && next.generation == 0))
  {
  }

  // ---- the rows of the store

  ghost predicate Readable(rows: seq<Row>) {
    Records(rows, RecordKind.OperationLedger, DecodeLedger).Ok?
  }

  ghost function Ledger(rows: seq<Row>): seq<LedgerRecord>
    requires Readable(rows)
  {
    Records(rows, RecordKind.OperationLedger, DecodeLedger).value
  }

  /** The ledger can be read unless one of its own rows does not decode. */
  lemma ReadableIff(rows: seq<Row>)
    ensures Readable(rows) <==>
              forall row :: row in rows && row.kind == RecordKind.OperationLedger ==> DecodeLedger(row.plaintext).Ok?
  {
    hide DecodeLedger;
    ScanFailsIff(rows, RecordKind.OperationLedger, DecodeLedger);
  }

  function RowOf(r: LedgerRecord): Row
    requires LedgerFits(r)
  {
    Row(RecordKind.OperationLedger, EncodeLedger(r))
  }

  /** A row of the operation that no other row of it outranks; None if it has no row. */
  predicate IsLatest(ledger: seq<LedgerRecord>, operation: OperationId, found: Option<LedgerRecord>) {
    match found
    case None => forall r :: r in ledger ==> r.operation != operation
    case Some(latest) =>
      && latest in ledger
      && latest.operation == operation
      && forall r :: r in ledger && r.operation == operation ==> r.generation <= latest.generation
  }

  lemma AppendedRow(rows: seq<Row>, r: LedgerRecord)
    requires Readable(rows) && LedgerFits(r)
    ensures Readable(rows + [RowOf(r)]) && Ledger(rows + [RowOf(r)]) == Ledger(rows) + [r]
  {
    LedgerRoundTrip(r);
    RecordsOfOne(RowOf(r), RecordKind.OperationLedger, DecodeLedger);
    RecordsConcat(rows, [RowOf(r)], RecordKind.OperationLedger, DecodeLedger);
  }

  lemma SameRecordsSameLatest(a: seq<LedgerRecord>, b: seq<LedgerRecord>, operation: OperationId,
                              found: Option<LedgerRecord>)
    requires multiset(a) == multiset(b) && IsLatest(a, operation, found)
    ensures IsLatest(b, operation, found)
  {
    assert forall r :: r in a <==> r in multiset(a);
    assert forall r :: r in b <==> r in multiset(b);
  }

  /** The ledger over one account's store. Callers pass back the record they hold. */
  class LedgerContext {
    const store: Store

    constructor (store: Store)
      ensures this.store == store
    {
      this.store := store;
    }

    ghost predicate Valid()
      reads store
    {
      Readable(store.rows)
    }

    ghost function Rows(): seq<LedgerRecord>
      reads store
      requires Valid()
    {
      Ledger(store.rows)
    }

    method LatestForOperation(operation: OperationId) returns (r: Result<Option<LedgerRecord>, LedgerError>)
      requires Valid()
      ensures r.Ok? ==> IsLatest(Rows(), operation, r.value)
      ensures r.Err? ==> r.error == Unavailable
    {
      var scanned := store.ScanRecords(RecordKind.OperationLedger, DecodeLedger);
      if scanned.Err? {
        return Err(Unavailable);
      }
      var all := scanned.value;
      var best: Option<LedgerRecord> := None;
      var i := 0;
      while i < |all|
        invariant 0 <= i <= |all|
        invariant IsLatest(all[..i], operation, best)
      {
        assert all[..i + 1] == all[..i] + [all[i]];
        if all[i].operation == operation && (best.None? || all[i].generation >= best.value.generation) {
          best := Some(all[i]);
        }
        i := i + 1;
      }
      assert all[..|all|] == all;
      SameRecordsSameLatest(all, Rows(), operation, best);
      r := Ok(best);
    }

    method Append(record: LedgerRecord) returns (ok: bool)
      requires Valid() && LedgerFits(record)
      modifies store
      ensures Valid()
      ensures Rows() == if ok then old(Rows()) + [record] else old(Rows())
      ensures ok ==> store.rows == old(store.rows) + [RowOf(record)]
      ensures !ok ==> store.rows == old(store.rows)
    {
      AppendedRow(store.rows, record);
      ok := store.WriteTransaction([RowOf(record)]);
    }

    method Begin(operation: OperationId, key: Key) returns (r: Result<BeginOutcome, LedgerError>)
      requires Valid()
      modifies store
      ensures Valid()
      ensures r == Err(Unavailable) || exists found ::
                IsLatest(old(Rows()), operation, found) && r == BeginOrReplay(found, operation, key)
      ensures Rows() == if r.Ok? && r.value.FreshPending? then old(Rows()) + [r.value.record] else old(Rows())
    {
      var found :- LatestForOperation(operation);
      assert IsLatest(old(Rows()), operation, found);
      r := BeginOrReplay(found, operation, key);
      if r.Ok? && r.value.FreshPending? {
        var ok := Append(r.value.record);
        if !ok {
          return Err(Unavailable);
        }
      }
    }

    method CommitEligibleRetry(current: LedgerRecord) returns (r: Result<LedgerRecord, LedgerError>)
      requires Valid() && LedgerFits(current)
      modifies store
      ensures Valid()
      ensures r == EligibleRetry(current) || (EligibleRetry(current).Ok? && r == Err(Unavailable))
      ensures Rows() == if r.Ok? then old(Rows()) + [r.value] else old(Rows())
    {
      r := EligibleRetry(current);
      if r.Ok? {
        var ok := Append(r.value);
        if !ok {
          return Err(Unavailable);
        }
      }
    }

    method MarkAttemptStarted(pending: LedgerRecord) returns (r: Result<LedgerRecord, LedgerError>)
      requires Valid() && LedgerFits(pending)
      modifies store
      ensures Valid()
      ensures r == Ok(Started(pending)) || r == Err(Unavailable)
      ensures Rows() == if r.Ok? then old(Rows()) + [r.value] else old(Rows())
    {
      var ok := Append(Started(pending));
      r := if ok then Ok(Started(pending)) else Err(Unavailable);
    }

    method ClassifyOutcome(inFlight: LedgerRecord, outcome: AdapterOutcome, hint: FailureCode)
      returns (r: Result<LedgerRecord, LedgerError>)
      requires Valid() && LedgerFits(inFlight)
      requires outcome.Delivered? ==> Prefixable(outcome.locator)
      modifies store
      ensures Valid()
      ensures r == Ok(Classified(inFlight, outcome, hint)) || r == Err(Unavailable)
      ensures Rows() == if r.Ok? then old(Rows()) + [r.value] else old(Rows())
    {
      var next := Classified(inFlight, outcome, hint);
      var ok := Append(next);
      r := if ok then Ok(next) else Err(Unavailable);
    }
  }
}
