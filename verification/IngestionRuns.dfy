/** Every run of pages planned and committed one at a time, with failures and crashes. */
module IngestionRuns {
  import opened Wrappers
  import opened Bytes
  import opened DurableRows
  import opened RowStore
  import opened Ingestion
  import opened IngestionHistory
  import opened ObservationHistory

  /** A plan in memory, with the delivery it came from. */
  datatype Planned = Planned(delivery: Delivery, plan: PlannedPage)

  /** One call to the classifier and how many pages had been committed by then. */
  datatype LoggedCall = LoggedCall(call: Call, collection: Key, after: nat)

  /** rows are the store's; commits, batches and calls only record what happened. */
  datatype World = World(
    rows: seq<Row>, pending: Option<Planned>, commits: seq<Delivery>, batches: seq<seq<Row>>, calls: seq<LoggedCall>)

  const START := World([], None, [], [], [])

  /** Pages of any collections; fetches and writes may fail, and other writers add rows of their own kinds. */
  datatype Action =
    | PlanPage(delivery: Delivery, current: Option<Checkpoint>, completed: bool)
    | CommitPage(written: bool)
    | CrashAndRestart
    | OtherWrite(row: Row)

  predicate IsOwn(row: Row) { row.kind.SyncCheckpoint? || row.kind.MessageObservation? }

  /** Planning may stop part-way, at a failed digest, lookup or seal. */
  ghost predicate Enabled(digest: Digest, w: World, a: Action) {
    match a
    case PlanPage(d, current, completed) =>
      && Readable(w.rows) && PageFits(d.page)
      && |d.staged| <= |d.page.items|
      && (completed ==> |d.staged| == |d.page.items|)
      && IsCurrent(Checkpoints(w.rows), d.collection, current)
      && StagedFor(Observations(w.rows), digest, Baseline(current), d.page.items[..|d.staged|], d.staged)
    case CommitPage(_) => w.pending.Some? && PlanFits(w.pending.value.plan)
    case CrashAndRestart => true
    case OtherWrite(row) => !IsOwn(row)
  }

  function Logged(calls: seq<Call>, collection: Key, after: nat): (r: seq<LoggedCall>)
    ensures |r| == |calls| && forall i :: 0 <= i < |r| ==> r[i] == LoggedCall(calls[i], collection, after)
  {
    if calls == [] then []
    else Logged(calls[..|calls| - 1], collection, after) + [LoggedCall(calls[|calls| - 1], collection, after)]
  }

  function PlanFor(d: Delivery, current: Option<Checkpoint>): PlannedPage {
    Plan(d.collection, d.page, current, d.staged, d.answers, d.base, d.maxAttempts)
  }

  function Apply(w: World, a: Action): World
    requires a.CommitPage? ==> w.pending.Some? && PlanFits(w.pending.value.plan)
  {
    match a
    case PlanPage(d, current, completed) =>
      w.(pending := if completed then Some(Planned(d, PlanFor(d, current))) else None,
         calls := w.calls + Logged(ProgressOf(d).calls, d.collection, |w.commits|))
    case CommitPage(written) =>
      if !written then w
      else
        var p := w.pending.value;
        World(w.rows + PlanRows(p.plan), None, w.commits + [p.delivery], w.batches + [PlanRows(p.plan)], w.calls)
    case CrashAndRestart => w.(pending := None)
    case OtherWrite(row) => w.(rows := w.rows + [row])
  }

  ghost predicate IsStep(digest: Digest, run: seq<World>, actions: seq<Action>, i: nat)
    requires i < |actions| < |run|
  {
    Enabled(digest, run[i], actions[i]) && run[i + 1] == Apply(run[i], actions[i])
  }

  ghost predicate IsRun(digest: Digest, run: seq<World>, actions: seq<Action>) {
    && |run| == |actions| + 1
    && run[0] == START
    && forall i :: 0 <= i < |actions| ==> IsStep(digest, run, actions, i)
  }

  // ---- the invariant

  function OwnRows(rows: seq<Row>): seq<Row> {
    if rows == [] then []
    else
      var last := rows[|rows| - 1];
      OwnRows(rows[..|rows| - 1]) + if IsOwn(last) then [last] else []
  }

  function Flatten(batches: seq<seq<Row>>): seq<Row> {
    if batches == [] then [] else Flatten(batches[..|batches| - 1]) + batches[|batches| - 1]
  }

  /** A page's batch: its new observations, then the checkpoint that stands for it. */
  ghost predicate IsPageBatch(batch: seq<Row>, d: Delivery, checkpoint: Checkpoint) {
    && (forall o :: o in ProgressOf(d).recorded ==> ObservationFits(o))
    && CheckpointFits(checkpoint)
    && batch == ObservationRows(ProgressOf(d).recorded) + [Row(RecordKind.SyncCheckpoint, EncodeCheckpoint(checkpoint))]
  }

  ghost predicate BatchesAreWhole(w: World) {
    && |w.batches| == |w.commits|
    && OwnRows(w.rows) == Flatten(w.batches)
    && forall k :: 0 <= k < |w.commits| ==> IsPageBatch(w.batches[k], w.commits[k], CheckpointsOf(w.commits)[k])
  }

  ghost predicate StoreIsHistory(digest: Digest, w: World) {
    && Readable(w.rows)
    && Observations(w.rows) == RecordedBy(w.commits)
    && Checkpoints(w.rows) == CheckpointsOf(w.commits)
    && IsHistory(digest, w.commits)
  }

  ghost predicate PendingIsCurrent(digest: Digest, w: World) {
    w.pending.Some? ==>
      var p := w.pending.value;
      && PlannedAfter(digest, w.commits, p.delivery)
      && p.plan == PlanFor(p.delivery, CurrentAfter(w.commits, p.delivery.collection))
  }

  /** An item analysed on its own came after a page of its collection had closed a round. */
  ghost predicate CallAfterBaseline(commits: seq<Delivery>, c: LoggedCall) {
    && c.after <= |commits|
    && c.call.eligibility == ClassifyEligibility(c.call.item)
    && (c.call.eligibility == AnalyzeOnce ==> SomeCloses(PagesOf(commits[..c.after], c.collection)))
  }

  ghost predicate CallsAfterBaseline(w: World) {
    forall i :: 0 <= i < |w.calls| ==> CallAfterBaseline(w.commits, w.calls[i])
  }

  ghost predicate Safe(digest: Digest, w: World) {
    StoreIsHistory(digest, w) && BatchesAreWhole(w) && PendingIsCurrent(digest, w) && CallsAfterBaseline(w)
  }

  // ---- small facts about growing sequences

  lemma {:induction false} OwnRowsConcat(a: seq<Row>, b: seq<Row>)
    ensures OwnRows(a + b) == OwnRows(a) + OwnRows(b)
  {
    if b == [] {
      assert a + b == a;
    } else {
      OwnRowsConcat(a, b[..|b| - 1]);
      assert (a + b)[..|a + b| - 1] == a + b[..|b| - 1];
    }
  }

  lemma {:induction false} AllOwn(rows: seq<Row>)
    requires forall i :: 0 <= i < |rows| ==> IsOwn(rows[i])
    ensures OwnRows(rows) == rows
  {
    if rows != [] {
      AllOwn(rows[..|rows| - 1]);
    }
  }

  lemma {:induction false} ObservationRowsAreOwn(observations: seq<Observation>)
    requires forall o :: o in observations ==> ObservationFits(o)
    ensures forall i :: 0 <= i < |ObservationRows(observations)| ==> IsOwn(ObservationRows(observations)[i])
  {
    hide EncodeObservation;
    if observations != [] {
      ObservationRowsAreOwn(observations[..|observations| - 1]);
    }
  }

  lemma PlanRowsAreOwn(plan: PlannedPage)
    requires PlanFits(plan)
    ensures OwnRows(PlanRows(plan)) == PlanRows(plan)
  {
    hide ObservationRows, OwnRows, EncodeCheckpoint;
    ObservationRowsAreOwn(plan.progress.recorded);
    AllOwn(PlanRows(plan));
  }

  lemma CommitsGrow(commits: seq<Delivery>, d: Delivery)
    ensures RecordedBy(commits + [d]) == RecordedBy(commits) + ProgressOf(d).recorded
    ensures CheckpointsOf(commits + [d]) ==
              CheckpointsOf(commits) + [NextCheckpoint(d.collection, d.page, CurrentAfter(commits, d.collection))]
  {
    hide ProgressOf, NextCheckpoint, CurrentOf;
    assert (commits + [d])[..|commits|] == commits;
  }

  lemma HistoryGrows(digest: Digest, commits: seq<Delivery>, d: Delivery)
    requires IsHistory(digest, commits) && PlannedAfter(digest, commits, d)
    ensures IsHistory(digest, commits + [d])
  {
    hide PlannedAfter;
    var all := commits + [d];
    assert all[..|commits|] == commits;
    forall k | 0 <= k < |all| ensures PlannedInTurn(digest, all, k) {
      if k < |commits| {
        assert PlannedInTurn(digest, commits, k);
        assert all[..k] == commits[..k];
      }
    }
  }

  // ---- each step

  lemma PlanIsSafe(digest: Digest, w: World, d: Delivery, current: Option<Checkpoint>, completed: bool)
    requires Safe(digest, w) && Enabled(digest, w, PlanPage(d, current, completed))
    ensures Safe(digest, Apply(w, PlanPage(d, current, completed)))
  {
    hide Readable, IsHistory, OwnRows, Flatten, IsPageBatch, RecordedBy, CheckpointsOf, StagedFor, PageFits,
         IsCurrent, Plan, CallAfterBaseline, ProgressOf, CurrentAfter;
    CurrentIsDetermined(w.commits, d.collection, current);
    var staged := d.page.items[..|d.staged|];
    if completed {
      assert staged == d.page.items;
    }
    CallsOfPlan(digest, w.commits, d, Baseline(current), staged);
  }

  lemma {:induction false} CallsAreClassified(staged: seq<Staged>, answers: Answers, base: nat, maxAttempts: Byte)
    ensures forall c :: c in RunItems(staged, answers, base, maxAttempts).calls ==>
              c.eligibility == ClassifyEligibility(c.item) && exists i :: 0 <= i < |staged| && staged[i].item == c.item
  {
    hide ClassifyEligibility, Tries;
    if staged != [] {
      var before, s := staged[..|staged| - 1], staged[|staged| - 1];
      CallsAreClassified(before, answers, base, maxAttempts);
      forall c | c in RunItems(staged, answers, base, maxAttempts).calls
        ensures c.eligibility == ClassifyEligibility(c.item)
        ensures exists i :: 0 <= i < |staged| && staged[i].item == c.item
      {
        if c in RunItems(before, answers, base, maxAttempts).calls {
          var i :| 0 <= i < |before| && before[i].item == c.item;
          assert staged[i].item == c.item;
        } else {
          assert s.item == c.item;
        }
      }
    }
  }

  lemma CallsOfPlan(digest: Digest, commits: seq<Delivery>, d: Delivery, baseline: bool, items: seq<DeltaPageItem>)
    requires StagedFor(RecordedBy(commits), digest, baseline, items, d.staged)
    requires baseline == Baseline(CurrentAfter(commits, d.collection))
    ensures forall i :: 0 <= i < |ProgressOf(d).calls| ==>
              CallAfterBaseline(commits, LoggedCall(ProgressOf(d).calls[i], d.collection, |commits|))
  {
    hide RunItems, RecordedBy, IsExisting, PagesOf, CurrentAfter, SomeCloses, KeyOf, Normalised, ClassifyEligibility;
    var calls := ProgressOf(d).calls;
    CallsAreClassified(d.staged, d.answers, d.base, d.maxAttempts);
    BaselineNeedsAClosedRound(commits, d.collection);
    assert commits[..|commits|] == commits;
    forall i | 0 <= i < |calls|
      ensures CallAfterBaseline(commits, LoggedCall(calls[i], d.collection, |commits|))
    {
      assert calls[i] in calls;
      var k :| 0 <= k < |d.staged| && d.staged[k].item == calls[i].item;
      AnalyzeOnceNeedsABaseline(items[k], baseline);
    }
  }

  lemma CommitIsSafe(digest: Digest, w: World)
    requires Safe(digest, w) && Enabled(digest, w, CommitPage(true))
    ensures Safe(digest, Apply(w, CommitPage(true)))
  {
    hide PlanRows, OwnRows, ProgressOf, PlannedAfter, IsHistory, Readable, Observations, Checkpoints,
         CallAfterBaseline, IsPageBatch, RecordedBy, CheckpointsOf, PlanFits, Flatten;
    var p := w.pending.value;
    var next := Apply(w, CommitPage(true));
    PlanRowsRead(w.rows, p.plan);
    CommitsGrow(w.commits, p.delivery);
    HistoryGrows(digest, w.commits, p.delivery);
    PlanRowsAreOwn(p.plan);
    OwnRowsConcat(w.rows, PlanRows(p.plan));
    FlattenGrows(w.batches, PlanRows(p.plan));
    PlanIsPageBatch(p.delivery, p.plan, CurrentAfter(w.commits, p.delivery.collection));
    forall i | 0 <= i < |next.calls| ensures CallAfterBaseline(next.commits, next.calls[i]) {
      CallStaysAfterBaseline(w.commits, p.delivery, next.calls[i]);
    }
  }

  lemma FlattenGrows(batches: seq<seq<Row>>, batch: seq<Row>)
    ensures Flatten(batches + [batch]) == Flatten(batches) + batch
  {
    assert (batches + [batch])[..|batches|] == batches;
  }

  lemma PlanIsPageBatch(d: Delivery, plan: PlannedPage, current: Option<Checkpoint>)
    requires plan == PlanFor(d, current) && PlanFits(plan)
    ensures IsPageBatch(PlanRows(plan), d, NextCheckpoint(d.collection, d.page, current))
    ensures plan.progress == ProgressOf(d) && plan.checkpoint == NextCheckpoint(d.collection, d.page, current)
  {
  }

  lemma CallStaysAfterBaseline(commits: seq<Delivery>, d: Delivery, c: LoggedCall)
    requires CallAfterBaseline(commits, c)
    ensures CallAfterBaseline(commits + [d], c)
  {
    assert (commits + [d])[..c.after] == commits[..c.after];
  }

  lemma OtherWriteIsSafe(digest: Digest, w: World, row: Row)
    requires Safe(digest, w) && !IsOwn(row)
    ensures Safe(digest, Apply(w, OtherWrite(row)))
  {
    hide IsHistory, RecordedBy, CheckpointsOf, IsPageBatch, Flatten, PlannedAfter;
    RecordsConcat(w.rows, [row], RecordKind.SyncCheckpoint, DecodeCheckpoint);
    RecordsConcat(w.rows, [row], RecordKind.MessageObservation, DecodeObservation);
    RecordsOfOne(row, RecordKind.SyncCheckpoint, DecodeCheckpoint);
    RecordsOfOne(row, RecordKind.MessageObservation, DecodeObservation);
    OwnRowsConcat(w.rows, [row]);
    assert [row][..0] == [];
    assert OwnRows([row]) == [];
  }

  lemma StartIsSafe(digest: Digest)
    ensures Safe(digest, START)
  {
  }

  lemma StepIsSafe(digest: Digest, w: World, a: Action)
    requires Safe(digest, w) && Enabled(digest, w, a)
    ensures Safe(digest, Apply(w, a))
  {
    hide StoreIsHistory, BatchesAreWhole, CallsAfterBaseline;
    match a
    case PlanPage(d, current, completed) => PlanIsSafe(digest, w, d, current, completed);
    case CommitPage(written) =>
      if written {
        CommitIsSafe(digest, w);
      }
    case CrashAndRestart => CrashIsSafe(digest, w);
    case OtherWrite(row) => OtherWriteIsSafe(digest, w, row);
  }

  lemma CrashIsSafe(digest: Digest, w: World)
    requires Safe(digest, w)
    ensures Safe(digest, w.(pending := None))
  {
  }

  lemma {:induction false} RunIsSafe(digest: Digest, run: seq<World>, actions: seq<Action>, i: nat)
    requires IsRun(digest, run, actions) && i < |run|
    ensures Safe(digest, run[i])
  {
    hide Safe, Apply, Enabled;
    if i == 0 {
      StartIsSafe(digest);
    } else {
      RunIsSafe(digest, run, actions, i - 1);
      assert IsStep(digest, run, actions, i - 1);
      StepIsSafe(digest, run[i - 1], actions[i - 1]);
    }
  }

  // ---- what holds over every run

  /** The page rows of the store are the committed batches, each a page's new observations and then its checkpoint. */
  lemma EveryPageIsAtomic(digest: Digest, run: seq<World>, actions: seq<Action>, i: nat)
    requires IsRun(digest, run, actions) && i < |run|
    ensures BatchesAreWhole(run[i])
  {
    hide IsRun, BatchesAreWhole, StoreIsHistory, PendingIsCurrent, CallsAfterBaseline;
    RunIsSafe(digest, run, actions, i);
  }

  /**
   Every item of every committed page can be found in the store under the digest of its location and
   version, with the outcome its page reported.
   */
  lemma EveryItemIsDurable(digest: Digest, run: seq<World>, actions: seq<Action>, i: nat, k: nat, j: nat)
    requires IsRun(digest, run, actions) && i < |run|
    requires k < |run[i].commits| && j < |run[i].commits[k].page.items|
    ensures Readable(run[i].rows)
    ensures |ProgressOf(run[i].commits[k]).outcomes| == |run[i].commits[k].page.items|
    ensures var item := run[i].commits[k].page.items[j];
            exists o :: o in Observations(run[i].rows)
                        && Some(o.dedupKey) == digest(item.testedLocator, item.observedVersion)
                        && o.outcome == ProgressOf(run[i].commits[k]).outcomes[j]
  {
    hide IsRun, BatchesAreWhole, PendingIsCurrent, CallsAfterBaseline, Readable, Observations, IsHistory, RecordedBy,
         ProgressOf;
    RunIsSafe(digest, run, actions, i);
    EveryItemIsRecorded(digest, run[i].commits, k, j);
  }

  /**
   Whatever a scan finds as the current checkpoint holds the cursor of the collection's last
   committed page, and its baseline says whether any of them closed a round.
   */
  lemma CurrentCheckpointFollowsCommits(digest: Digest, run: seq<World>, actions: seq<Action>, i: nat,
                                        collection: Key, found: Option<Checkpoint>)
    requires IsRun(digest, run, actions) && i < |run|
    ensures Readable(run[i].rows)
    ensures IsCurrent(Checkpoints(run[i].rows), collection, found) ==>
              var pages := PagesOf(run[i].commits, collection);
              var n := Numbered(|pages|);
              && (found.None? <==> pages == [])
              && (found.Some? ==>
                    && found.value.cursor == pages[n - 1].nextCursor
                    && found.value.generation == n - 1
                    && (found.value.baselineCommitted <==> SomeCloses(pages[..n])))
  {
    hide IsRun, BatchesAreWhole, PendingIsCurrent, CallsAfterBaseline, Readable, Checkpoints, IsHistory, SomeCloses,
         PagesOf, IsCurrent, CurrentAfter;
    RunIsSafe(digest, run, actions, i);
    CurrentIsDetermined(run[i].commits, collection, found);
    CurrentCheckpointHoldsTheLastPage(run[i].commits, collection);
  }

  /** No item is analysed on its own before a page of its collection, committed earlier, has closed a round. */
  lemma NothingAnalyzedBeforeARoundCloses(digest: Digest, run: seq<World>, actions: seq<Action>, i: nat, j: nat)
    requires IsRun(digest, run, actions) && i < |run| && j < |run[i].calls|
    ensures CallAfterBaseline(run[i].commits, run[i].calls[j])
  {
    hide IsRun, BatchesAreWhole, PendingIsCurrent, StoreIsHistory, CallAfterBaseline;
    RunIsSafe(digest, run, actions, i);
  }

  /** The store never holds two observations of one key, exactly when no committed page brought a new key twice. */
  lemma KeysUniqueIff(digest: Digest, run: seq<World>, actions: seq<Action>, i: nat)
    requires IsRun(digest, run, actions) && i < |run|
    ensures Readable(run[i].rows)
    ensures Unique(Observations(run[i].rows)) <==>
              forall k :: 0 <= k < |run[i].commits| ==> Distinct(NewKeys(run[i].commits[k].staged))
  {
    hide IsRun, BatchesAreWhole, PendingIsCurrent, CallsAfterBaseline, Readable, Observations, IsHistory, RecordedBy,
         Distinct, NewKeys, Unique;
    RunIsSafe(digest, run, actions, i);
    UniqueIffPagesBringDistinctKeys(digest, run[i].commits);
  }

  lemma ObservationsGrow(digest: Digest, run: seq<World>, actions: seq<Action>, i: nat)
    requires IsRun(digest, run, actions) && i + 1 < |run|
    ensures Readable(run[i].rows) && Readable(run[i + 1].rows)
    ensures Observations(run[i].rows) <= Observations(run[i + 1].rows)
  {
    hide Readable, Observations, IsHistory, ProgressOf, PlanRows, PlanFits;
    RunIsSafe(digest, run, actions, i);
    RunIsSafe(digest, run, actions, i + 1);
    assert IsStep(digest, run, actions, i);
    if actions[i].CommitPage? && actions[i].written {
      CommitsGrow(run[i].commits, run[i].pending.value.delivery);
    }
  }

  /** No run changes or removes an observation. */
  lemma {:induction false} ObservationsAreKept(digest: Digest, run: seq<World>, actions: seq<Action>, i: nat, j: nat)
    requires IsRun(digest, run, actions) && i <= j < |run|
    ensures Readable(run[i].rows) && Readable(run[j].rows)
    ensures Observations(run[i].rows) <= Observations(run[j].rows)
    decreases j
  {
    hide IsRun, Readable, Observations;
    if i == j {
      StoreIsReadable(digest, run, actions, i);
    } else {
      ObservationsAreKept(digest, run, actions, i, j - 1);
      ObservationsGrow(digest, run, actions, j - 1);
    }
  }

  lemma StoreIsReadable(digest: Digest, run: seq<World>, actions: seq<Action>, i: nat)
    requires IsRun(digest, run, actions) && i < |run|
    ensures Readable(run[i].rows)
  {
    RunIsSafe(digest, run, actions, i);
  }

  /** Over a run whose pages bring each new key once, an outcome once found for a key is found ever after. */
  lemma RecordedOutcomeNeverChanges(digest: Digest, run: seq<World>, actions: seq<Action>, i: nat, j: nat,
                                    key: Key, earlier: Observation, later: Observation)
    requires IsRun(digest, run, actions) && i <= j < |run|
    requires forall k :: 0 <= k < |run[j].commits| ==> Distinct(NewKeys(run[j].commits[k].staged))
    requires Readable(run[i].rows) && IsExisting(Observations(run[i].rows), key, Some(earlier))
    requires Readable(run[j].rows) && IsExisting(Observations(run[j].rows), key, Some(later))
    ensures earlier == later
  {
    hide IsRun, Readable, Observations, Distinct, NewKeys, Unique;
    ObservationsAreKept(digest, run, actions, i, j);
    KeysUniqueIff(digest, run, actions, j);
    OneRowPerKey(Observations(run[j].rows), earlier, later);
  }

  /**
   A page already committed, delivered again at any later point of the run to any
   classifier: nothing new is recorded, the classifier is not called, and the outcomes
   and quarantine locators reported are the first delivery's, in order.
   */
  lemma RedeliveryIsIdempotent(digest: Digest, run: seq<World>, actions: seq<Action>, i: nat, k: nat)
    requires IsRun(digest, run, actions) && i < |actions| && actions[i].PlanPage? && actions[i].completed
    requires k < |run[i].commits| && actions[i].delivery.page.items == run[i].commits[k].page.items
    ensures var again := ProgressOf(actions[i].delivery);
            && again.recorded == [] && again.calls == []
            && ((forall c :: 0 <= c < |run[i].commits| ==> Distinct(NewKeys(run[i].commits[c].staged))) ==>
                  && again.outcomes == ProgressOf(run[i].commits[k]).outcomes
                  && again.quarantined == ProgressOf(run[i].commits[k]).quarantined)
  {
    hide Readable, Observations, IsHistory, RecordedBy, StagedFor, IsCurrent, RunItems, Distinct, NewKeys, Unique,
         Apply, PageFits, Checkpoints;
    RunIsSafe(digest, run, actions, i);
    KeysUniqueIff(digest, run, actions, i);
    assert IsStep(digest, run, actions, i);
    var d := actions[i].delivery;
    assert d.page.items[..|d.staged|] == d.page.items;
    RedeliveryChangesNothing(digest, run[i].commits, k, Baseline(actions[i].current), d.staged, d.answers, d.base,
                             d.maxAttempts);
  }
}
