/** Turning one fetched page into one atomic append: new observations, then the page's checkpoint. */
module Ingestion {
  import opened Wrappers
  import opened Bytes
  import opened Codec
  import opened DurableRows
  import opened RowStore

  datatype Direction = Incoming | OutgoingSavedSentCopy | DraftOrCompose

  datatype ReadState = FirstObservedRead | FirstObservedUnread | UnreadToRead | StillUnread

  datatype DeltaPageItem = DeltaPageItem(
    testedLocator: Bytes, observedVersion: Bytes, direction: Direction, readState: ReadState,
    firstObserved: bool, inBackfillBatch: bool, reFetchLocator: Bytes)

  datatype DeltaPage = DeltaPage(items: seq<DeltaPageItem>, nextCursor: Bytes, closesRound: bool)

  datatype MailSourceError = Transport | Malformed | Schema

  datatype IngestionError =
    | WholePageFailure(error: MailSourceError) | DigestFailed | SealFailed | ScanFailed(scan: ScanError)

  datatype Eligibility = NotEligible | HistoryReviewBatch | AnalyzeOnce

  datatype ItemAttempt = Terminal(outcome: JobOutcome) | Retryable

  /** The keyed digest of locator and version; the digest itself may be unavailable. */
  type Digest = (Bytes, Bytes) -> Option<Key>

  /** A classifier's answers, by the number of calls made to it before. */
  type Answers = nat -> ItemAttempt

  function ClassifyEligibility(item: DeltaPageItem): Eligibility {
    match item.direction
    case DraftOrCompose => NotEligible
    case Incoming =>
      if item.readState == FirstObservedRead || item.readState == UnreadToRead
      then if item.inBackfillBatch then HistoryReviewBatch else AnalyzeOnce
      else NotEligible
    case OutgoingSavedSentCopy =>
      if item.inBackfillBatch then HistoryReviewBatch
      else if item.firstObserved then AnalyzeOnce
      else NotEligible
  }

  /** The two buckets that analyse anything, each from the outcome's side. */
  lemma EligibilityBuckets(item: DeltaPageItem)
    ensures var read := item.readState == FirstObservedRead || item.readState == UnreadToRead;
            && (ClassifyEligibility(item) == HistoryReviewBatch <==>
                  item.inBackfillBatch && (item.direction.OutgoingSavedSentCopy? || (item.direction.Incoming? && read)))
            && (ClassifyEligibility(item) == AnalyzeOnce <==>
                  && !item.inBackfillBatch
                  && ((item.direction.OutgoingSavedSentCopy? && item.firstObserved)
                      || (item.direction.Incoming? && read)))
  {
  }

  /** Until a round has closed, every item counts as history. */
  function Normalised(item: DeltaPageItem, baseline: bool): DeltaPageItem {
    item.(inBackfillBatch := item.inBackfillBatch || !baseline)
  }

  function KeyOf(digest: Digest, item: DeltaPageItem): Option<Key> {
    digest(item.testedLocator, item.observedVersion)
  }

  // ---- lookups in the store

  ghost predicate Readable(rows: seq<Row>) {
    && Records(rows, RecordKind.SyncCheckpoint, DecodeCheckpoint).Ok?
    && Records(rows, RecordKind.MessageObservation, DecodeObservation).Ok?
  }

  /** Only rows of the two kinds it reads can stop an ingestion. */
  lemma ReadableIff(rows: seq<Row>)
    ensures Readable(rows) <==>
              && (forall row :: row in rows && row.kind == RecordKind.SyncCheckpoint ==>
                    DecodeCheckpoint(row.plaintext).Ok?)
              && (forall row :: row in rows && row.kind == RecordKind.MessageObservation ==>
                    DecodeObservation(row.plaintext).Ok?)
  {
    hide DecodeCheckpoint, DecodeObservation;
    ScanFailsIff(rows, RecordKind.SyncCheckpoint, DecodeCheckpoint);
    ScanFailsIff(rows, RecordKind.MessageObservation, DecodeObservation);
  }

  ghost function Checkpoints(rows: seq<Row>): seq<Checkpoint>
    requires Readable(rows)
  {
    Records(rows, RecordKind.SyncCheckpoint, DecodeCheckpoint).value
  }

  ghost function Observations(rows: seq<Row>): seq<Observation>
    requires Readable(rows)
  {
    Records(rows, RecordKind.MessageObservation, DecodeObservation).value
  }

  /** A checkpoint of the collection that none of its others outranks. */
  predicate IsCurrent(all: seq<Checkpoint>, collection: Key, found: Option<Checkpoint>) {
    match found
    case None => forall c :: c in all ==> c.collection != collection
    case Some(current) =>
      && current in all
      && current.collection == collection
      && forall c :: c in all && c.collection == collection ==> c.generation <= current.generation
  }

  /** Some observation with the key, if there is one. */
  predicate IsExisting(all: seq<Observation>, key: Key, found: Option<Observation>) {
    match found
    case None => forall o :: o in all ==> o.dedupKey != key
    case Some(o) => o in all && o.dedupKey == key
  }

  // ---- one item

  /** An item as staged for the page: normalised, keyed and looked up. */
  datatype Staged = Staged(item: DeltaPageItem, key: Key, found: Option<Observation>)

  /** One call to the classifier. */
  datatype Call = Call(item: DeltaPageItem, eligibility: Eligibility)

  datatype Progress = Progress(
    outcomes: seq<JobOutcome>, quarantined: seq<Bytes>, recorded: seq<Observation>, calls: seq<Call>)

  const NO_PROGRESS := Progress([], [], [], [])

  /** The first terminal answer within `left` tries, and how many calls that took. */
  function Tries(answers: Answers, at: nat, left: nat): (r: (Option<JobOutcome>, nat))
    ensures r.1 <= left
    ensures forall k: nat :: at <= k < at + r.1 - 1 ==> answers(k) == Retryable
    ensures r.0.Some? ==> r.1 > 0 && answers(at + r.1 - 1) == Terminal(r.0.value)
    ensures r.0.None? ==> r.1 == left && forall k: nat :: at <= k < at + left ==> answers(k) == Retryable
    decreases left
  {
    if left == 0 then (None, 0)
    else match answers(at)
      case Terminal(outcome) => (Some(outcome), 1)
      case Retryable =>
        var r := Tries(answers, at + 1, left - 1);
        (r.0, r.1 + 1)
  }

  function Repeat(c: Call, n: nat): (r: seq<Call>)
    ensures |r| == n && forall k :: 0 <= k < n ==> r[k] == c
  {
    if n == 0 then [] else Repeat(c, n - 1) + [c]
  }

  /** At least one try is always made. */
  function Budget(maxAttempts: Byte): nat { if maxAttempts == 0 then 1 else maxAttempts }

  function StepItem(p: Progress, s: Staged, answers: Answers, base: nat, maxAttempts: Byte): Progress {
    match s.found
    case Some(existing) =>
      p.(outcomes := p.outcomes + [existing.outcome],
         quarantined := p.quarantined + if existing.outcome == Quarantined then [existing.reFetchLocator] else [])
    case None =>
      var eligibility := ClassifyEligibility(s.item);
      var (answer, used) := Tries(answers, base + |p.calls|, Budget(maxAttempts));
      var outcome := if answer.Some? then answer.value else Quarantined;
      var locator := if outcome == Quarantined then s.item.reFetchLocator else [];
      Progress(p.outcomes + [outcome],
               p.quarantined + (if outcome == Quarantined then [locator] else []),
               p.recorded + [Observation(s.key, outcome, locator)],
               p.calls + Repeat(Call(s.item, eligibility), used))
  }

  function RunItems(staged: seq<Staged>, answers: Answers, base: nat, maxAttempts: Byte): (p: Progress)
    ensures |p.outcomes| == |staged|
  {
    if staged == [] then NO_PROGRESS
    else StepItem(RunItems(staged[..|staged| - 1], answers, base, maxAttempts), staged[|staged| - 1], answers, base,
                  maxAttempts)
  }

  /**
   An item not stored yet takes the classifier's first terminal answer within its budget of
   tries, and is quarantined with its locator when they run out; nothing else keeps a locator.
   */
  lemma NewItemTakesFirstAnswer(p: Progress, s: Staged, answers: Answers, base: nat, maxAttempts: Byte)
    requires s.found.None?
    ensures var q := StepItem(p, s, answers, base, maxAttempts);
            var at, n := base + |p.calls|, |q.calls| - |p.calls|;
            var o := q.recorded[|q.recorded| - 1];
            && 1 <= n <= (if maxAttempts == 0 then 1 else maxAttempts)
            && q.calls == p.calls + Repeat(Call(s.item, ClassifyEligibility(s.item)), n)
            && (forall k: nat :: at <= k < at + n - 1 ==> answers(k) == Retryable)
            && (answers(at + n - 1).Terminal? ==> o.outcome == answers(at + n - 1).outcome)
            && (answers(at + n - 1).Retryable? ==>
                  o.outcome == Quarantined && n == if maxAttempts == 0 then 1 else maxAttempts)
            && q.recorded == p.recorded + [o] && o.dedupKey == s.key
            && o.reFetchLocator == if o.outcome == Quarantined then s.item.reFetchLocator else []
  {
    hide ClassifyEligibility;
  }

  lemma RunNone(answers: Answers, base: nat, maxAttempts: Byte)
    ensures RunItems([], answers, base, maxAttempts) == Progress([], [], [], [])
  {
  }

  lemma RunOneMore(staged: seq<Staged>, s: Staged, answers: Answers, base: nat, maxAttempts: Byte)
    ensures RunItems(staged + [s], answers, base, maxAttempts) ==
              StepItem(RunItems(staged, answers, base, maxAttempts), s, answers, base, maxAttempts)
  {
    hide StepItem;
    assert (staged + [s])[..|staged|] == staged;
  }

  // ---- the page

  datatype PlannedPage = PlannedPage(page: DeltaPage, staged: seq<Staged>, progress: Progress, checkpoint: Checkpoint)

  function Baseline(current: Option<Checkpoint>): bool {
    current.Some? && current.value.baselineCommitted
  }

  /** In a release build the generation wraps at 32 bits. */
  function NextCheckpoint(collection: Key, page: DeltaPage, current: Option<Checkpoint>): Checkpoint {
    Checkpoint(
      if current.Some? then (current.value.generation + 1) % 0x1_0000_0000 else 0,
      collection, page.nextCursor, Baseline(current) || page.closesRound, None)
  }

  function Plan(collection: Key, page: DeltaPage, current: Option<Checkpoint>, staged: seq<Staged>,
                answers: Answers, base: nat, maxAttempts: Byte): PlannedPage
  {
    PlannedPage(page, staged, RunItems(staged, answers, base, maxAttempts), NextCheckpoint(collection, page, current))
  }

  /** Every item of the page normalised, keyed and looked up among the stored observations. */
  predicate StagedFor(stored: seq<Observation>, digest: Digest, baseline: bool, items: seq<DeltaPageItem>,
                      staged: seq<Staged>) {
    && |staged| == |items|
    && forall i :: 0 <= i < |items| ==>
         && staged[i].item == Normalised(items[i], baseline)
         && KeyOf(digest, items[i]) == Some(staged[i].key)
         && IsExisting(stored, staged[i].key, staged[i].found)
  }

  lemma FoundOrNot(stored: seq<Observation>, key: Key) returns (found: Option<Observation>)
    ensures IsExisting(stored, key, found)
  {
    if i :| 0 <= i < |stored| && stored[i].dedupKey == key {
      found := Some(stored[i]);
    } else {
      found := None;
    }
  }

  lemma {:induction false} KeyedCanBeStaged(stored: seq<Observation>, digest: Digest, baseline: bool,
                                            items: seq<DeltaPageItem>) returns (staged: seq<Staged>)
    requires forall item :: item in items ==> digest(item.testedLocator, item.observedVersion).Some?
    ensures StagedFor(stored, digest, baseline, items, staged)
  {
    hide IsExisting, Normalised;
    staged := [];
    if items != [] {
      var n := |items| - 1;
      var before := KeyedCanBeStaged(stored, digest, baseline, items[..n]);
      assert items[n] in items;
      var key := KeyOf(digest, items[n]).value;
      var found := FoundOrNot(stored, key);
      staged := before + [Staged(Normalised(items[n], baseline), key, found)];
    }
  }

  /** A page can be planned, whatever is stored, exactly when every one of its items has a digest. */
  lemma StageableIff(stored: seq<Observation>, digest: Digest, baseline: bool, items: seq<DeltaPageItem>)
    ensures (exists staged :: StagedFor(stored, digest, baseline, items, staged)) <==>
              forall item :: item in items ==> digest(item.testedLocator, item.observedVersion).Some?
  {
    hide IsExisting, Normalised;
    if forall item :: item in items ==> digest(item.testedLocator, item.observedVersion).Some? {
      var staged := KeyedCanBeStaged(stored, digest, baseline, items);
    }
  }

  predicate PageFits(page: DeltaPage) {
    && Prefixable(page.nextCursor)
    && forall i :: 0 <= i < |page.items| ==> Prefixable(page.items[i].reFetchLocator)
  }

  predicate PlanFits(plan: PlannedPage) {
    && CheckpointFits(plan.checkpoint)
    && forall o :: o in plan.progress.recorded ==> ObservationFits(o)
  }

  function ObservationRows(observations: seq<Observation>): seq<Row>
    requires forall o :: o in observations ==> ObservationFits(o)
  {
    if observations == [] then []
    else
      ObservationRows(observations[..|observations| - 1])
      + [Row(RecordKind.MessageObservation, EncodeObservation(observations[|observations| - 1]))]
  }

  /** The one batch a page is committed with. */
  function PlanRows(plan: PlannedPage): seq<Row>
    requires PlanFits(plan)
  {
    ObservationRows(plan.progress.recorded) + [Row(RecordKind.SyncCheckpoint, EncodeCheckpoint(plan.checkpoint))]
  }

  lemma {:induction false} ObservationRowsRead(observations: seq<Observation>)
    requires forall o :: o in observations ==> ObservationFits(o)
    ensures Records(ObservationRows(observations), RecordKind.MessageObservation, DecodeObservation) == Ok(observations)
    ensures Records(ObservationRows(observations), RecordKind.SyncCheckpoint, DecodeCheckpoint) == Ok([])
  {
    hide DecodeObservation, DecodeCheckpoint, EncodeObservation, Records;
    RecordsOfNone(RecordKind.MessageObservation, DecodeObservation);
    RecordsOfNone(RecordKind.SyncCheckpoint, DecodeCheckpoint);
    if observations != [] {
      var before, last := observations[..|observations| - 1], observations[|observations| - 1];
      ObservationRowsRead(before);
      ObservationRoundTrip(last);
      var row := Row(RecordKind.MessageObservation, EncodeObservation(last));
      RecordsOfOne(row, RecordKind.MessageObservation, DecodeObservation);
      RecordsOfOne(row, RecordKind.SyncCheckpoint, DecodeCheckpoint);
      RecordsConcat(ObservationRows(before), [row], RecordKind.MessageObservation, DecodeObservation);
      RecordsConcat(ObservationRows(before), [row], RecordKind.SyncCheckpoint, DecodeCheckpoint);
      assert observations == before + [last];
    }
  }

  /** Committing a plan appends its new observations and its checkpoint together. */
  lemma PlanRowsRead(rows: seq<Row>, plan: PlannedPage)
    requires Readable(rows) && PlanFits(plan)
    ensures Readable(rows + PlanRows(plan))
    ensures Observations(rows + PlanRows(plan)) == Observations(rows) + plan.progress.recorded
    ensures Checkpoints(rows + PlanRows(plan)) == Checkpoints(rows) + [plan.checkpoint]
  {
    hide Records;
    var observed := ObservationRows(plan.progress.recorded);
    var last := Row(RecordKind.SyncCheckpoint, EncodeCheckpoint(plan.checkpoint));
    ObservationRowsRead(plan.progress.recorded);
    CheckpointRoundTrip(plan.checkpoint);
    RecordsOfOne(last, RecordKind.SyncCheckpoint, DecodeCheckpoint);
    RecordsOfOne(last, RecordKind.MessageObservation, DecodeObservation);
    RecordsConcat(observed, [last], RecordKind.SyncCheckpoint, DecodeCheckpoint);
    RecordsConcat(observed, [last], RecordKind.MessageObservation, DecodeObservation);
    RecordsConcat(rows, PlanRows(plan), RecordKind.SyncCheckpoint, DecodeCheckpoint);
    RecordsConcat(rows, PlanRows(plan), RecordKind.MessageObservation, DecodeObservation);
  }

  lemma {:induction false} RecordedFits(staged: seq<Staged>, answers: Answers, base: nat, maxAttempts: Byte)
    requires forall i :: 0 <= i < |staged| ==> Prefixable(staged[i].item.reFetchLocator)
    ensures forall o :: o in RunItems(staged, answers, base, maxAttempts).recorded ==> ObservationFits(o)
  {
    if staged != [] {
      RecordedFits(staged[..|staged| - 1], answers, base, maxAttempts);
    }
  }
}
