/** The ingestion of pages as the program runs it, over one account's store. */
module PageIngestion {
  import opened Wrappers
  import opened Bytes
  import opened Codec
  import opened DurableRows
  import opened RowStore
  import opened Ingestion

  /** Any classifier: its answers are one fixed sequence, however it comes to them. */
  class ItemClassifier {
    const answers: Answers
    var calls: seq<Call>

    constructor (answers: Answers)
      ensures this.answers == answers && calls == []
    {
      this.answers := answers;
      calls := [];
    }

    method Classify(item: DeltaPageItem, eligibility: Eligibility) returns (a: ItemAttempt)
      modifies this
      ensures calls == old(calls) + [Call(item, eligibility)]
      ensures a == answers(|old(calls)|)
    {
      a := answers(|calls|);
      calls := calls + [Call(item, eligibility)];
    }
  }

  lemma SameCheckpoints(a: seq<Checkpoint>, b: seq<Checkpoint>, collection: Key, found: Option<Checkpoint>)
    requires multiset(a) == multiset(b) && IsCurrent(a, collection, found)
    ensures IsCurrent(b, collection, found)
  {
    assert forall c :: c in a <==> c in multiset(a);
    assert forall c :: c in b <==> c in multiset(b);
  }

  lemma SameObservations(a: seq<Observation>, b: seq<Observation>, key: Key, found: Option<Observation>)
    requires multiset(a) == multiset(b) && IsExisting(a, key, found)
    ensures IsExisting(b, key, found)
  {
    assert forall o :: o in a <==> o in multiset(a);
    assert forall o :: o in b <==> o in multiset(b);
  }

  /** After these calls, all answered for a retry, the remaining tries decide. */
  ghost predicate StillAsking(answers: Answers, base: nat, budget: nat, made: nat) {
    && made <= budget
    && var rest := Tries(answers, base + made, budget - made);
       Tries(answers, base, budget) == (rest.0, rest.1 + made)
  }

  lemma NothingAsked(answers: Answers, base: nat, budget: nat)
    ensures StillAsking(answers, base, budget, 0)
  {
  }

  lemma OneMoreAnswer(answers: Answers, base: nat, budget: nat, made: nat)
    requires StillAsking(answers, base, budget, made) && made < budget
    ensures answers(base + made).Terminal? ==>
              Tries(answers, base, budget) == (Some(answers(base + made).outcome), made + 1)
    ensures answers(base + made).Retryable? ==> StillAsking(answers, base, budget, made + 1)
  {
    assert base + made + 1 == base + (made + 1) && budget - made - 1 == budget - (made + 1);
  }

  lemma AllAsked(answers: Answers, base: nat, budget: nat)
    requires StillAsking(answers, base, budget, budget)
    ensures Tries(answers, base, budget) == (None, budget)
  {
  }

  lemma RepeatNone(calls: seq<Call>, c: Call)
    ensures calls + Repeat(c, 0) == calls
  {
  }

  lemma RepeatOneMore(calls: seq<Call>, c: Call, n: nat)
    ensures calls + Repeat(c, n) + [c] == calls + Repeat(c, n + 1)
  {
  }

  lemma StagedNone(stored: seq<Observation>, digest: Digest, baseline: bool, items: seq<DeltaPageItem>)
    ensures StagedFor(stored, digest, baseline, items[..0], [])
  {
  }

  lemma NoKey(digest: Digest, items: seq<DeltaPageItem>, i: nat)
    requires i < |items| && KeyOf(digest, items[i]).None?
    ensures exists item :: item in items && digest(item.testedLocator, item.observedVersion).None?
  {
    assert items[i] in items;
  }

  lemma StagedOneMore(stored: seq<Observation>, digest: Digest, baseline: bool, items: seq<DeltaPageItem>,
                      staged: seq<Staged>, s: Staged)
    requires |staged| < |items| && StagedFor(stored, digest, baseline, items[..|staged|], staged)
    requires s.item == Normalised(items[|staged|], baseline)
    requires KeyOf(digest, items[|staged|]) == Some(s.key) && IsExisting(stored, s.key, s.found)
    ensures StagedFor(stored, digest, baseline, items[..|staged| + 1], staged + [s])
  {
    hide Normalised, KeyOf, IsExisting;
  }

  lemma StagedWhole(stored: seq<Observation>, digest: Digest, baseline: bool, page: DeltaPage, staged: seq<Staged>)
    requires StagedFor(stored, digest, baseline, page.items[..|page.items|], staged)
    ensures StagedFor(stored, digest, baseline, page.items, staged)
    ensures PageFits(page) ==> forall i :: 0 <= i < |staged| ==> Prefixable(staged[i].item.reFetchLocator)
  {
    assert page.items[..|page.items|] == page.items;
  }

  lemma PlanOf(collection: Key, page: DeltaPage, current: Option<Checkpoint>, staged: seq<Staged>,
               answers: Answers, base: nat, maxAttempts: Byte)
    requires PageFits(page)
    requires forall i :: 0 <= i < |staged| ==> Prefixable(staged[i].item.reFetchLocator)
    ensures var plan := Plan(collection, page, current, staged, answers, base, maxAttempts);
            && plan == PlannedPage(page, staged, RunItems(staged, answers, base, maxAttempts),
                                   NextCheckpoint(collection, page, current))
            && PlanFits(plan)
  {
    hide RunItems;
    RecordedFits(staged, answers, base, maxAttempts);
  }

  class IngestionContext {
    const store: Store
    const digest: Digest

    constructor (store: Store, digest: Digest)
      ensures this.store == store && this.digest == digest
    {
      this.store := store;
      this.digest := digest;
    }

    ghost predicate Valid()
      reads store
    {
      Readable(store.rows)
    }

    method CurrentCheckpoint(collection: Key) returns (r: Result<Option<Checkpoint>, IngestionError>)
      requires Valid()
      ensures r.Ok? ==> IsCurrent(Checkpoints(store.rows), collection, r.value)
      ensures r.Err? ==> r.error.ScanFailed?
    {
      var scanned := store.ScanRecords(RecordKind.SyncCheckpoint, DecodeCheckpoint);
      if scanned.Err? {
        return Err(ScanFailed(scanned.error));
      }
      var all := scanned.value;
      var best: Option<Checkpoint> := None;
      var i := 0;
      while i < |all|
        invariant 0 <= i <= |all|
        invariant IsCurrent(all[..i], collection, best)
      {
        assert all[..i + 1] == all[..i] + [all[i]];
        if all[i].collection == collection && (best.None? || all[i].generation >= best.value.generation) {
          best := Some(all[i]);
        }
        i := i + 1;
      }
      assert all[..|all|] == all;
      SameCheckpoints(all, Checkpoints(store.rows), collection, best);
      r := Ok(best);
    }

    method ExistingObservation(key: Key) returns (r: Result<Option<Observation>, IngestionError>)
      requires Valid()
      ensures r.Ok? ==> IsExisting(Observations(store.rows), key, r.value)
      ensures r.Err? ==> r.error.ScanFailed?
    {
      var scanned := store.ScanRecords(RecordKind.MessageObservation, DecodeObservation);
      if scanned.Err? {
        return Err(ScanFailed(scanned.error));
      }
      var all := scanned.value;
      var i := 0;
      while i < |all|
        invariant 0 <= i <= |all|
        invariant IsExisting(all[..i], key, None)
      {
        if all[i].dedupKey == key {
          SameObservations(all, Observations(store.rows), key, Some(all[i]));
          return Ok(Some(all[i]));
        }
        assert all[..i + 1] == all[..i] + [all[i]];
        i := i + 1;
      }
      assert all[..|all|] == all;
      SameObservations(all, Observations(store.rows), key, None);
      r := Ok(None);
    }

    /** Asks the classifier until it answers for good or the tries run out. */
    method ClassifyBounded(c: Call, classifier: ItemClassifier, budget: nat) returns (outcome: Option<JobOutcome>)
      modifies classifier
      ensures outcome == Tries(classifier.answers, |old(classifier.calls)|, budget).0
      ensures classifier.calls ==
                old(classifier.calls) + Repeat(c, Tries(classifier.answers, |old(classifier.calls)|, budget).1)
    {
      hide Tries, Repeat, StillAsking;
      ghost var before := classifier.calls;
      ghost var base := |before|;
      var made := 0;
      NothingAsked(classifier.answers, base, budget);
      RepeatNone(before, c);
      while made < budget
        invariant StillAsking(classifier.answers, base, budget, made) && made <= budget
        invariant classifier.calls == before + Repeat(c, made)
      {
        OneMoreAnswer(classifier.answers, base, budget, made);
        RepeatOneMore(before, c, made);
        var answer := classifier.Classify(c.item, c.eligibility);
        made := made + 1;
        if answer.Terminal? {
          return Some(answer.outcome);
        }
      }
      AllAsked(classifier.answers, base, budget);
      outcome := None;
    }

    /** One item's part of a plan. */
    method PlanItem(p: Progress, s: Staged, classifier: ItemClassifier, maxAttempts: Byte, ghost before: seq<Call>)
      returns (next: Progress)
      requires classifier.calls == before + p.calls
      modifies classifier
      ensures next == StepItem(p, s, classifier.answers, |before|, maxAttempts)
      ensures classifier.calls == before + next.calls
    {
      hide Tries, Repeat, ClassifyEligibility;
      match s.found {
        case Some(existing) =>
          next := p.(outcomes := p.outcomes + [existing.outcome]);
          if existing.outcome == Quarantined {
            next := next.(quarantined := next.quarantined + [existing.reFetchLocator]);
          }
        case None =>
          var c := Call(s.item, ClassifyEligibility(s.item));
          var made := |classifier.calls|;
          var answer := ClassifyBounded(c, classifier, Budget(maxAttempts));
          var outcome := if answer.Some? then answer.value else Quarantined;
          var locator := if outcome == Quarantined then s.item.reFetchLocator else [];
          next := Progress(p.outcomes + [outcome], p.quarantined, p.recorded + [Observation(s.key, outcome, locator)],
                           p.calls + classifier.calls[made..]);
          if outcome == Quarantined {
            next := next.(quarantined := p.quarantined + [locator]);
          }
      }
    }

    method PlanPageTransaction(collection: Key, fetched: Result<DeltaPage, MailSourceError>,
                               classifier: ItemClassifier, maxAttempts: Byte)
      returns (r: Result<PlannedPage, IngestionError>)
      requires Valid()
      requires fetched.Ok? ==> PageFits(fetched.value)
      modifies classifier
      ensures fetched.Err? ==> r == Err(WholePageFailure(fetched.error)) && classifier.calls == old(classifier.calls)
      ensures r.Err? && r.error.WholePageFailure? ==> fetched.Err?
      ensures r == Err(DigestFailed) ==>
                fetched.Ok? && exists item :: item in fetched.value.items
                                              && digest(item.testedLocator, item.observedVersion).None?
      ensures r.Ok? ==>
                && fetched.Ok? && PlanFits(r.value)
                && classifier.calls == old(classifier.calls) + r.value.progress.calls
                && exists current ::
                     && IsCurrent(Checkpoints(store.rows), collection, current)
                     && StagedFor(Observations(store.rows), digest, Baseline(current), fetched.value.items,
                                  r.value.staged)
                     && r.value == Plan(collection, fetched.value, current, r.value.staged,
                                        classifier.answers, |old(classifier.calls)|, maxAttempts)
    {
      hide Records, StepItem, RunItems, Normalised, KeyOf, IsExisting, IsCurrent, StagedFor, PlanFits, PageFits, Plan,
           NextCheckpoint;
      if fetched.Err? {
        return Err(WholePageFailure(fetched.error));
      }
      var page := fetched.value;
      var current :- CurrentCheckpoint(collection);
      var baseline := Baseline(current);
      var p := Progress([], [], [], []);
      var staged: seq<Staged> := [];
      ghost var before := classifier.calls;
      var i := 0;
      StagedNone(Observations(store.rows), digest, baseline, page.items);
      RunNone(classifier.answers, |before|, maxAttempts);
      while i < |page.items|
        invariant 0 <= i <= |page.items| && |staged| == i
        invariant StagedFor(Observations(store.rows), digest, baseline, page.items[..i], staged)
        invariant p == RunItems(staged, classifier.answers, |before|, maxAttempts)
        invariant classifier.calls == before + p.calls
      {
        var item := Normalised(page.items[i], baseline);
        var key := KeyOf(digest, page.items[i]);
        if key.None? {
          NoKey(digest, page.items, i);
          return Err(DigestFailed);
        }
        var existing :- ExistingObservation(key.value);
        var s := Staged(item, key.value, existing);
        p := PlanItem(p, s, classifier, maxAttempts, before);
        StagedOneMore(Observations(store.rows), digest, baseline, page.items, staged, s);
        RunOneMore(staged, s, classifier.answers, |before|, maxAttempts);
        staged := staged + [s];
        i := i + 1;
      }
      StagedWhole(Observations(store.rows), digest, baseline, page, staged);
      var sealed := *;
      if !sealed {
        return Err(SealFailed);
      }
      PlanOf(collection, page, current, staged, classifier.answers, |before|, maxAttempts);
      r := Ok(PlannedPage(page, staged, p, NextCheckpoint(collection, page, current)));
      assert r.value == Plan(collection, page, current, staged, classifier.answers, |before|, maxAttempts);
    }

    /** The page's outcomes and its checkpoint become durable together or not at all. */
    method CommitPlannedPage(planned: PlannedPage) returns (ok: bool)
      requires Valid() && PlanFits(planned)
      modifies store
      ensures Valid()
      ensures store.rows == if ok then old(store.rows) + PlanRows(planned) else old(store.rows)
    {
      PlanRowsRead(store.rows, planned);
      ok := store.WriteTransaction(PlanRows(planned));
    }

    method RunPageTransaction(collection: Key, fetched: Result<DeltaPage, MailSourceError>,
                              classifier: ItemClassifier, maxAttempts: Byte)
      returns (r: Result<PlannedPage, IngestionError>)
      requires Valid()
      requires fetched.Ok? ==> PageFits(fetched.value)
      requires classifier as object != store
      modifies classifier, store
      ensures Valid()
      ensures r.Err? ==> store.rows == old(store.rows)
      ensures fetched.Err? <==> r.Err? && r.error.WholePageFailure?
      ensures r == Err(DigestFailed) ==>
                fetched.Ok? && exists item :: item in fetched.value.items
                                              && digest(item.testedLocator, item.observedVersion).None?
      ensures r.Ok? ==>
                && fetched.Ok? && PlanFits(r.value) && store.rows == old(store.rows) + PlanRows(r.value)
                && exists current ::
                     && IsCurrent(old(Checkpoints(store.rows)), collection, current)
                     && StagedFor(old(Observations(store.rows)), digest, Baseline(current), fetched.value.items,
                                  r.value.staged)
                     && r.value == Plan(collection, fetched.value, current, r.value.staged,
                                        classifier.answers, |old(classifier.calls)|, maxAttempts)
    {
      r := PlanPageTransaction(collection, fetched, classifier, maxAttempts);
      if r.Ok? {
        var ok := CommitPlannedPage(r.value);
        if !ok {
          return Err(SealFailed);
        }
      }
    }
  }
}
