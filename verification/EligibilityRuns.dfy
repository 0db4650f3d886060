/** What the classifier is asked, over every run: which items, and whether singly or as history. */
module EligibilityRuns {
  import opened Wrappers
  import opened Bytes
  import opened DurableRows
  import opened Ingestion
  import opened IngestionHistory
  import opened IngestionRuns

  /** The classifier is called for the item as staged. */
  function CallFor(s: Staged): Call { Call(s.item, ClassifyEligibility(s.item)) }

  /** Exactly the items without a stored observation are asked about. */
  lemma {:induction false} CallsAreForNewItems(staged: seq<Staged>, answers: Answers, base: nat, maxAttempts: Byte,
                                               c: Call)
    ensures c in RunItems(staged, answers, base, maxAttempts).calls <==>
              exists k :: 0 <= k < |staged| && staged[k].found.None? && c == CallFor(staged[k])
  {
    hide ClassifyEligibility, Tries;
    if staged != [] {
      var n := |staged| - 1;
      var before := staged[..n];
      CallsAreForNewItems(before, answers, base, maxAttempts, c);
      LastItemCalls(RunItems(before, answers, base, maxAttempts), staged[n], answers, base, maxAttempts, c);
      forall k | 0 <= k < n ensures before[k] == staged[k] {
      }
    }
  }

  lemma LastItemCalls(p: Progress, s: Staged, answers: Answers, base: nat, maxAttempts: Byte, c: Call)
    ensures c in StepItem(p, s, answers, base, maxAttempts).calls <==>
              c in p.calls || (s.found.None? && c == CallFor(s))
  {
    hide ClassifyEligibility;
    if s.found.None? {
      var n := Tries(answers, base + |p.calls|, Budget(maxAttempts)).1;
      AtLeastOneTry(answers, base + |p.calls|, Budget(maxAttempts));
      var again := Repeat(CallFor(s), n);
      assert again[0] == CallFor(s);
      assert StepItem(p, s, answers, base, maxAttempts).calls == p.calls + again;
    }
  }

  lemma AtLeastOneTry(answers: Answers, at: nat, left: nat)
    requires left > 0
    ensures Tries(answers, at, left).1 > 0
  {
  }

  /**
   The call made for an item as it was delivered. It is analysed singly once a round has closed, if
   it is new mail outside the backfill: received and read, or sent and first seen now. It goes to
   the history batch before that, or in the backfill, if it is received and read, or sent. Anything
   else is not eligible.
   */
  predicate AsksAbout(c: Call, item: DeltaPageItem, baseline: bool) {
    var read := item.readState == FirstObservedRead || item.readState == UnreadToRead;
    var received := item.direction == Incoming && read;
    var sent := item.direction == OutgoingSavedSentCopy;
    && c.item == item.(inBackfillBatch := c.item.inBackfillBatch)
    && (c.eligibility == AnalyzeOnce <==>
          baseline && !item.inBackfillBatch && (received || (sent && item.firstObserved)))
    && (c.eligibility == HistoryReviewBatch <==> (!baseline || item.inBackfillBatch) && (received || sent))
  }

  /** Between the two worlds a call for the collection was logged that asks about the item. */
  ghost predicate WasAsked(before: World, after: World, collection: Key, item: DeltaPageItem, baseline: bool) {
    exists n :: |before.calls| <= n < |after.calls| && after.calls[n].collection == collection
                && AsksAbout(after.calls[n].call, item, baseline)
  }

  lemma StagedAsks(digest: Digest, stored: seq<Observation>, baseline: bool, items: seq<DeltaPageItem>,
                   staged: seq<Staged>, k: nat)
    requires StagedFor(stored, digest, baseline, items, staged) && k < |staged|
    ensures AsksAbout(CallFor(staged[k]), items[k], baseline)
  {
    assert staged[k].item == Normalised(items[k], baseline);
  }

  /**
   In every run, planning a page asks about exactly its items that have no stored observation, each
   with the eligibility of the item as delivered under the baseline in force.
   */
  lemma EveryCallIsEligible(digest: Digest, run: seq<World>, actions: seq<Action>, i: nat, k: nat)
    requires IsRun(digest, run, actions) && i < |actions| && actions[i].PlanPage?
    requires k < |actions[i].delivery.staged|
    ensures var d, current := actions[i].delivery, actions[i].current;
            && k < |d.page.items|
            && (d.staged[k].found.None? ==>
                  WasAsked(run[i], run[i + 1], d.collection, d.page.items[k],
                           current.Some? && current.value.baselineCommitted))
  {
    hide IsRun, ClassifyEligibility, RunItems, AsksAbout, Normalised;
    StepOf(digest, run, actions, i);
    var d, current := actions[i].delivery, actions[i].current;
    StagedAsks(digest, Observations(run[i].rows), Baseline(current), d.page.items[..|d.staged|], d.staged, k);
    var calls := ProgressOf(d).calls;
    CallsAreForNewItems(d.staged, d.answers, d.base, d.maxAttempts, CallFor(d.staged[k]));
    if d.staged[k].found.None? {
      var m :| 0 <= m < |calls| && calls[m] == CallFor(d.staged[k]);
      assert run[i + 1].calls[|run[i].calls| + m].call == calls[m];
    }
  }

  /** The log of calls only grows. */
  lemma {:induction false} CallsAreKept(digest: Digest, run: seq<World>, actions: seq<Action>, i: nat, j: nat)
    requires IsRun(digest, run, actions) && i <= j < |run|
    ensures run[i].calls <= run[j].calls
    decreases j
  {
    hide IsRun, PlanRows, ProgressOf;
    if i < j {
      CallsAreKept(digest, run, actions, i, j - 1);
      RunLength(digest, run, actions);
      StepOf(digest, run, actions, j - 1);
    }
  }

  lemma RunLength(digest: Digest, run: seq<World>, actions: seq<Action>)
    requires IsRun(digest, run, actions)
    ensures |run| == |actions| + 1
  {
  }

  /** And nothing else is asked: every logged call of a plan is one of those. */
  lemma NothingElseIsAsked(digest: Digest, run: seq<World>, actions: seq<Action>, i: nat, n: nat)
    requires IsRun(digest, run, actions) && i < |actions| && actions[i].PlanPage?
    requires |run[i].calls| <= n < |run[i + 1].calls|
    ensures var d, current := actions[i].delivery, actions[i].current;
            && run[i + 1].calls[n].collection == d.collection
            && exists k :: 0 <= k < |d.staged| && k < |d.page.items| && d.staged[k].found.None?
                           && AsksAbout(run[i + 1].calls[n].call, d.page.items[k],
                                        current.Some? && current.value.baselineCommitted)
  {
    hide IsRun, ClassifyEligibility, RunItems, AsksAbout, Normalised;
    StepOf(digest, run, actions, i);
    var d, current := actions[i].delivery, actions[i].current;
    var c := run[i + 1].calls[n].call;
    assert c == ProgressOf(d).calls[n - |run[i].calls|];
    CallsAreForNewItems(d.staged, d.answers, d.base, d.maxAttempts, c);
    var k :| 0 <= k < |d.staged| && d.staged[k].found.None? && c == CallFor(d.staged[k]);
    StagedAsks(digest, Observations(run[i].rows), Baseline(current), d.page.items[..|d.staged|], d.staged, k);
  }

  lemma StepOf(digest: Digest, run: seq<World>, actions: seq<Action>, i: nat)
    requires IsRun(digest, run, actions) && i < |actions|
    ensures |run| == |actions| + 1 && Enabled(digest, run[i], actions[i]) && run[i + 1] == Apply(run[i], actions[i])
  {
    assert IsStep(digest, run, actions, i);
  }
}
