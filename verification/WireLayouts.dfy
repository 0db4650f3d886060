/**
 What the stored bytes are, one by one: byte order, codes and where each field of a row stands, of a
 checkpoint, an observation and a ledger row.
 */
module WireLayouts {
  import opened Wrappers
  import opened Bytes
  import opened Codec
  import opened DurableRows
  import opened LinkTable

  // ---- numbers

  lemma BigEndianStep(v: nat, n: nat)
    requires n > 0
    ensures ToBE(v, n) == ToBE(v / 256, n - 1) + [v % 256]
  {
  }

  /** Durable rows write the high byte first, credential blobs the low byte. */
  lemma ByteOrder(v: U32)
    ensures var s := EncU32(v);
            |s| == 4 && v == 0x100_0000 * (s[0] as int) + 0x1_0000 * (s[1] as int) + 0x100 * (s[2] as int) + s[3] as int
    ensures var s := ToLE(v, 4);
            v == (s[0] as int) + 0x100 * (s[1] as int) + 0x1_0000 * (s[2] as int) + 0x100_0000 * (s[3] as int)
  {
    Powers();
    BERoundTrip(v, 4);
    LERoundTrip(v, 4);
    ValueBE(ToBE(v, 4));
    ValueLE(ToLE(v, 4));
  }

  lemma ValueBE(s: Bytes)
    requires |s| == 4
    ensures FromBE(s) == 0x100_0000 * (s[0] as int) + 0x1_0000 * (s[1] as int) + 0x100 * (s[2] as int) + s[3] as int
  {
    assert s[..3][..2] == s[..2] && s[..2][..1] == s[..1] && s[..1][..0] == [];
    assert FromBE(s[..1]) == s[0] as int;
    assert FromBE(s[..2]) == 0x100 * FromBE(s[..1]) + s[1] as int;
    assert FromBE(s[..3]) == 0x100 * FromBE(s[..2]) + s[2] as int;
  }

  lemma ValueLE(s: Bytes)
    requires |s| == 4
    ensures FromLE(s) == (s[0] as int) + 0x100 * (s[1] as int) + 0x1_0000 * (s[2] as int) + 0x100_0000 * (s[3] as int)
  {
    assert s[1..][1..] == s[2..] && s[2..][1..] == s[3..] && s[3..][1..] == [];
    assert FromLE(s[3..]) == s[3] as int;
    assert FromLE(s[2..]) == (s[2] as int) + 0x100 * FromLE(s[3..]);
    assert FromLE(s[1..]) == (s[1] as int) + 0x100 * FromLE(s[2..]);
  }

  /** An instant is negative exactly when its first written bit is set, and 64 bits count up from it. */
  lemma TwosComplement(x: I64)
    ensures (x < 0 <==> Unsigned(x) >= 0x8000_0000_0000_0000)
    ensures (Unsigned(x) - x) % 0x1_0000_0000_0000_0000 == 0
  {
  }

  // ---- durable rows

  /** The stored code of each outcome and operation state. */
  lemma CodesOfStates(o: JobOutcome, s: OperationState)
    ensures OutcomeCode(o) == 0 <==> o == NoCandidate
    ensures OutcomeCode(o) == 1 <==> o == NeedsReview
    ensures OutcomeCode(o) == 2 <==> o == Quarantined
    ensures StateCode(s) == 0 <==> s == Pending
    ensures StateCode(s) == 1 <==> s == AttemptStarted
    ensures StateCode(s) == 2 <==> s == KnownNoSendRetryable
    ensures StateCode(s) == 3 <==> s == Ambiguous
    ensures StateCode(s) == 4 <==> s == Reconciling
    ensures StateCode(s) == 5 <==> s == UserAssisted
    ensures StateCode(s) == 6 <==> s == Succeeded
    ensures StateCode(s) == 7 <==> s == DefinitiveFailed
    ensures StateCode(s) == 8 <==> s == Abandoned
  {
  }

  lemma CodesOfFailures(f: FailureCode)
    ensures FailureTag(f) == 0 <==> f == NoFailure
    ensures FailureTag(f) == 1 <==> f == TimeoutUnknown
    ensures FailureTag(f) == 2 <==> f == TransportKnownNoSend
    ensures FailureTag(f) == 3 <==> f == ThrottledKnownNoSend
    ensures FailureTag(f) == 4 <==> f == CompleteZero
    ensures FailureTag(f) == 5 <==> f == CompleteMany
    ensures FailureTag(f) == 6 <==> f == EnumerationIncomplete
    ensures FailureTag(f) == 7 <==> f == MarkerMissing
    ensures FailureTag(f) == 8 <==> f == MarkerUnsupported
    ensures FailureTag(f) == 9 <==> f == MarkerRemoved
    ensures FailureTag(f) == 10 <==> f == StaleVersion
    ensures FailureTag(f) == 11 <==> f == OwnershipConflict
    ensures FailureTag(f) == 12 <==> f == AccountMismatch
    ensures FailureTag(f) == 13 <==> f == AuthorityChanged
    ensures FailureTag(f) == 14 <==> f == SecureStoreUnavailable
    ensures FailureTag(f) == 15 <==> f == RollbackSuspected
    ensures FailureTag(f) == 16 <==> f == ManualDraftUnrecoverable
  {
  }

  lemma OptionLayout(v: Option<I64>)
    ensures var b := EncOptionI64(v); if v.None? then b == [0] else |b| == 9 && b[0] == 1 && b[1..] == I64BE(v.value)
  {
  }

  /** Generation, collection, the cursor behind its length, one byte for the baseline, and the last field. */
  lemma CheckpointLayout(r: Checkpoint)
    requires CheckpointFits(r)
    ensures var b, n := EncodeCheckpoint(r), |r.cursor|;
            && |b| >= 41 + n && b[..4] == EncU32(r.generation) && b[4..36] == r.collection
            && b[36..40] == EncU32(n) && b[40..40 + n] == r.cursor
            && (b[40 + n] == 1 <==> r.baselineCommitted) && (b[40 + n] == 0 <==> !r.baselineCommitted)
            && b[41 + n..] == EncOptionI64(r.lastCompleteAt)
  {
    hide EncU32, EncOptionI64;
    ByteOrderLength(r.generation);
    ByteOrderLength(|r.cursor|);
  }

  lemma ByteOrderLength(v: U32)
    ensures |EncU32(v)| == 4
  {
  }

  /** The key, one byte for the outcome, and the locator behind its length. */
  lemma ObservationLayout(r: Observation)
    requires ObservationFits(r)
    ensures var b := EncodeObservation(r);
            && |b| == 37 + |r.reFetchLocator|
            && b[..32] == r.dedupKey && b[32] == OutcomeCode(r.outcome)
            && b[33..37] == EncU32(|r.reFetchLocator|) && b[37..] == r.reFetchLocator
  {
    hide EncU32;
    ByteOrderLength(|r.reFetchLocator|);
  }

  /** Operation, key, state, attempts, retry time, failure, the locator behind its length, and the generation. */
  lemma LedgerLayout(r: LedgerRecord)
    requires LedgerFits(r)
    ensures var b, m, n := EncodeLedger(r), |EncOptionI64(r.retryAt)|, |r.locator|;
            && |b| == 59 + m + n
            && b[..16] == r.operation && b[16..48] == r.key && b[48] == StateCode(r.state) && b[49] == r.attemptCount
            && b[50..50 + m] == EncOptionI64(r.retryAt) && b[50 + m] == FailureTag(r.failure)
            && b[51 + m..55 + m] == EncU32(n) && b[55 + m..55 + m + n] == r.locator
            && b[55 + m + n..] == EncU32(r.generation)
  {
    hide EncU32, EncOptionI64;
    ByteOrderLength(r.generation);
    ByteOrderLength(|r.locator|);
    var last := EncU32(r.generation);
    var tail := EncU32(|r.locator|) + r.locator + last;
    var m := |EncOptionI64(r.retryAt)|;
    assert EncBytes(r.locator) + last == tail;
    LedgerTail(r.operation + r.key + [StateCode(r.state), r.attemptCount], EncOptionI64(r.retryAt),
               FailureTag(r.failure), tail, EncodeLedger(r));
  }

  lemma LedgerTail(head: Bytes, retry: Bytes, failure: Byte, tail: Bytes, b: Bytes)
    requires |head| == 50 && b == head + retry + [failure] + tail
    ensures b[..50] == head && b[50..50 + |retry|] == retry && b[50 + |retry|] == failure && b[51 + |retry|..] == tail
  {
  }

  // ---- links

  /** "OLRelations", version 1, and the number of links; then for each its kind, both keys and the time. */
  lemma LinksLayout(links: seq<Link>)
    requires |links| <= LinkTable.CAP
    ensures var b := LinkTable.BlobOf(links);
            && |b| == 13 + 73 * |links|
            && (forall i :: 0 <= i < 11 ==> b[i] == "OLRelations"[i] as int) && b[11] == 1 && b[12] == |links|
            && b[13..] == EncodeLinks(links)
  {
    hide EncodeLinks;
  }

  lemma LinkLayout(l: Link)
    ensures var b := EncodeLink(l);
            && b[1..33] == l.a && b[33..65] == l.b && b[65..] == I64LE(l.updated)
            && (b[0] == 0 <==> l.kind == SameLoop) && (b[0] == 1 <==> l.kind == NotSameLoop)
            && (b[0] == 2 <==> l.kind == SameThread) && (b[0] == 3 <==> l.kind == NotSameThread)
  {
    hide I64LE;
  }
}
