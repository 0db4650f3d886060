/** What the committed pages say about each message: one row for good, first write wins. */
module ObservationHistory {
  import opened Wrappers
  import opened Bytes
  import opened DurableRows
  import opened Ingestion
  import opened IngestionHistory

  predicate Unique(observations: seq<Observation>) {
    forall i, j :: 0 <= i < j < |observations| ==> observations[i].dedupKey != observations[j].dedupKey
  }

  predicate Distinct(keys: seq<Key>) {
    forall i, j :: 0 <= i < j < |keys| ==> keys[i] != keys[j]
  }

  function KeysOf(observations: seq<Observation>): (r: seq<Key>)
    ensures |r| == |observations|
    ensures forall i :: 0 <= i < |r| ==> r[i] == observations[i].dedupKey
  {
    if observations == [] then []
    else KeysOf(observations[..|observations| - 1]) + [observations[|observations| - 1].dedupKey]
  }

  /** The keys a page brings that the store did not have. */
  function NewKeys(staged: seq<Staged>): (r: seq<Key>)
    ensures forall key :: key in r <==> exists i :: 0 <= i < |staged| && staged[i].found.None? && staged[i].key == key
  {
    if staged == [] then []
    else
      var before, s := NewKeys(staged[..|staged| - 1]), staged[|staged| - 1];
      if s.found.None? then before + [s.key] else before
  }

  /** The observation that stands for an item: the stored one, or the one its step records. */
  function Reports(p: Progress, s: Staged, answers: Answers, base: nat, maxAttempts: Byte): Observation {
    match s.found
    case Some(o) => o
    case None =>
      var recorded := StepItem(p, s, answers, base, maxAttempts).recorded;
      recorded[|recorded| - 1]
  }

  function Reported(staged: seq<Staged>, answers: Answers, base: nat, maxAttempts: Byte): (r: seq<Observation>)
    ensures |r| == |staged|
  {
    if staged == [] then []
    else
      var before := staged[..|staged| - 1];
      Reported(before, answers, base, maxAttempts)
      + [Reports(RunItems(before, answers, base, maxAttempts), staged[|staged| - 1], answers, base, maxAttempts)]
  }

  function QuarantinedOf(reported: seq<Observation>): seq<Bytes> {
    if reported == [] then []
    else
      var last := reported[|reported| - 1];
      QuarantinedOf(reported[..|reported| - 1]) + if last.outcome == Quarantined then [last.reFetchLocator] else []
  }

  ghost predicate Agree(staged: seq<Staged>, p: Progress, reported: seq<Observation>) {
    && |reported| == |staged| == |p.outcomes|
    && p.quarantined == QuarantinedOf(reported)
    && KeysOf(p.recorded) == NewKeys(staged)
    && forall i :: 0 <= i < |staged| ==>
         && p.outcomes[i] == reported[i].outcome
         && (staged[i].found.Some? ==> reported[i] == staged[i].found.value)
         && (staged[i].found.None? ==> reported[i] in p.recorded && reported[i].dedupKey == staged[i].key)
  }

  lemma AgreeGrows(staged: seq<Staged>, p: Progress, reported: seq<Observation>, s: Staged, outcome: JobOutcome,
                   locators: seq<Bytes>, recorded: seq<Observation>, calls: seq<Call>, o: Observation)
    requires Agree(staged, p, reported)
    requires o.outcome == outcome && locators == if outcome == Quarantined then [o.reFetchLocator] else []
    requires if s.found.Some? then o == s.found.value && recorded == []
             else o.dedupKey == s.key && recorded == [o]
    ensures Agree(staged + [s],
                  Progress(p.outcomes + [outcome], p.quarantined + locators, p.recorded + recorded, calls),
                  reported + [o])
  {
    hide QuarantinedOf, KeysOf, NewKeys;
    QuarantinedOneMore(reported, o);
    NewKeysOneMore(staged, s);
    if recorded == [o] {
      KeysOneMore(p.recorded, o);
    } else {
      assert p.recorded + recorded == p.recorded;
    }
  }

  lemma QuarantinedOneMore(reported: seq<Observation>, o: Observation)
    ensures QuarantinedOf(reported + [o])
         == QuarantinedOf(reported) + if o.outcome == Quarantined then [o.reFetchLocator] else []
  {
    assert (reported + [o])[..|reported|] == reported;
  }

  lemma NewKeysOneMore(staged: seq<Staged>, s: Staged)
    ensures NewKeys(staged + [s]) == NewKeys(staged) + if s.found.None? then [s.key] else []
  {
    assert (staged + [s])[..|staged|] == staged;
  }

  lemma KeysOneMore(recorded: seq<Observation>, o: Observation)
    ensures KeysOf(recorded + [o]) == KeysOf(recorded) + [o.dedupKey]
  {
    assert (recorded + [o])[..|recorded|] == recorded;
  }

  lemma StepReports(p: Progress, s: Staged, answers: Answers, base: nat, maxAttempts: Byte)
    ensures var q := StepItem(p, s, answers, base, maxAttempts);
            var o := Reports(p, s, answers, base, maxAttempts);
            && q == Progress(p.outcomes + [o.outcome],
                             p.quarantined + (if o.outcome == Quarantined then [o.reFetchLocator] else []),
                             p.recorded + (if s.found.Some? then [] else [o]), q.calls)
            && (s.found.Some? ==> o == s.found.value)
            && (s.found.None? ==> o.dedupKey == s.key)
  {
    hide Tries, ClassifyEligibility;
    assert p.recorded + [] == p.recorded;
  }

  lemma {:induction false} RunsAgree(staged: seq<Staged>, answers: Answers, base: nat, maxAttempts: Byte)
    ensures Agree(staged, RunItems(staged, answers, base, maxAttempts), Reported(staged, answers, base, maxAttempts))
  {
    hide Agree, StepItem, Reports;
    if staged == [] {
      NothingAgrees();
    } else {
      var before, s := staged[..|staged| - 1], staged[|staged| - 1];
      RunsAgree(before, answers, base, maxAttempts);
      var p, q := RunItems(before, answers, base, maxAttempts), RunItems(staged, answers, base, maxAttempts);
      var o := Reports(p, s, answers, base, maxAttempts);
      StepReports(p, s, answers, base, maxAttempts);
      AgreeGrows(before, p, Reported(before, answers, base, maxAttempts), s, o.outcome,
                 if o.outcome == Quarantined then [o.reFetchLocator] else [],
                 if s.found.Some? then [] else [o], q.calls, o);
      assert staged == before + [s];
    }
  }

  lemma NothingAgrees()
    ensures Agree([], NO_PROGRESS, [])
  {
  }

  // ---- every item of every page

  lemma {:induction false} RecordedGrows(commits: seq<Delivery>, k: nat)
    requires k <= |commits|
    ensures RecordedBy(commits[..k]) <= RecordedBy(commits)
  {
    if k == |commits| {
      assert commits[..k] == commits;
    } else {
      var before := commits[..|commits| - 1];
      RecordedGrows(before, k);
      assert before[..k] == commits[..k];
    }
  }

  lemma RecordedAfter(commits: seq<Delivery>, k: nat)
    requires k < |commits|
    ensures RecordedBy(commits[..k + 1]) == RecordedBy(commits[..k]) + ProgressOf(commits[k]).recorded
  {
    assert commits[..k + 1][..k] == commits[..k];
  }

  lemma ReportedIsStored(digest: Digest, commits: seq<Delivery>, k: nat, i: nat)
    requires IsHistory(digest, commits) && k < |commits| && i < |commits[k].page.items|
    ensures |commits[k].staged| == |commits[k].page.items| == |ProgressOf(commits[k]).outcomes|
    ensures var d := commits[k];
            var o := Reported(d.staged, d.answers, d.base, d.maxAttempts)[i];
            && o in RecordedBy(commits[..k + 1]) && o in RecordedBy(commits)
            && Some(o.dedupKey) == KeyOf(digest, d.page.items[i])
            && o.outcome == ProgressOf(d).outcomes[i]
  {
    hide RecordedBy, RunItems, Reported, Normalised, KeyOf, QuarantinedOf, CurrentAfter;
    var d := commits[k];
    assert PlannedInTurn(digest, commits, k);
    RunsAgree(d.staged, d.answers, d.base, d.maxAttempts);
    RecordedAfter(commits, k);
    RecordedGrows(commits, k + 1);
  }

  /**
   Every item of every committed page has an observation row under the digest of the item's location
   and version, with the outcome that was reported.
   */
  lemma EveryItemIsRecorded(digest: Digest, commits: seq<Delivery>, k: nat, i: nat)
    requires IsHistory(digest, commits) && k < |commits| && i < |commits[k].page.items|
    ensures |ProgressOf(commits[k]).outcomes| == |commits[k].page.items|
    ensures var item := commits[k].page.items[i];
            exists o :: o in RecordedBy(commits)
                        && Some(o.dedupKey) == digest(item.testedLocator, item.observedVersion)
                        && o.outcome == ProgressOf(commits[k]).outcomes[i]
  {
    ReportedIsStored(digest, commits, k, i);
  }

  // ---- uniqueness

  lemma UniqueAppend(a: seq<Observation>, b: seq<Observation>)
    requires forall i, j :: 0 <= i < |a| && 0 <= j < |b| ==> a[i].dedupKey != b[j].dedupKey
    ensures Unique(a + b) <==> Unique(a) && Unique(b)
  {
    var c := a + b;
    if Unique(c) {
      forall i, j | 0 <= i < j < |a| ensures a[i].dedupKey != a[j].dedupKey {
        assert c[i] == a[i] && c[j] == a[j];
      }
      forall i, j | 0 <= i < j < |b| ensures b[i].dedupKey != b[j].dedupKey {
        assert c[|a| + i] == b[i] && c[|a| + j] == b[j];
      }
    }
  }

  /** Committing a page keeps keys unique exactly when the page's own new keys are distinct. */
  lemma PageKeepsUnique(digest: Digest, before: seq<Delivery>, d: Delivery)
    requires PlannedAfter(digest, before, d)
    ensures Unique(RecordedBy(before) + ProgressOf(d).recorded) <==>
              Unique(RecordedBy(before)) && Distinct(NewKeys(d.staged))
  {
    hide RecordedBy, RunItems, Reported, Normalised, KeyOf, QuarantinedOf, CurrentAfter;
    RunsAgree(d.staged, d.answers, d.base, d.maxAttempts);
    var was, recorded := RecordedBy(before), ProgressOf(d).recorded;
    var keys := KeysOf(recorded);
    assert Unique(recorded) <==> Distinct(keys);
    forall i, j | 0 <= i < |was| && 0 <= j < |recorded| ensures was[i].dedupKey != recorded[j].dedupKey {
      assert keys[j] in NewKeys(d.staged);
      var k :| 0 <= k < |d.staged| && d.staged[k].found.None? && d.staged[k].key == keys[j];
      assert IsExisting(was, d.staged[k].key, None);
      assert was[i] in was;
    }
    UniqueAppend(was, recorded);
  }

  /** No key is ever recorded twice, exactly when no page brought a new key twice. */
  lemma {:induction false} UniqueIffPagesBringDistinctKeys(digest: Digest, commits: seq<Delivery>)
    requires IsHistory(digest, commits)
    ensures Unique(RecordedBy(commits)) <==> forall k :: 0 <= k < |commits| ==> Distinct(NewKeys(commits[k].staged))
  {
    hide ProgressOf, PlannedAfter, Distinct, NewKeys;
    if commits != [] {
      var n := |commits| - 1;
      var before, d := commits[..n], commits[n];
      HistoryPrefix(digest, commits, n);
      UniqueIffPagesBringDistinctKeys(digest, before);
      PageKeepsUnique(digest, before, d);
    }
  }

  lemma HistoryPrefix(digest: Digest, commits: seq<Delivery>, n: nat)
    requires IsHistory(digest, commits) && n <= |commits|
    ensures IsHistory(digest, commits[..n])
    ensures n < |commits| ==> PlannedAfter(digest, commits[..n], commits[n])
  {
    hide PlannedAfter;
    forall k | 0 <= k < n ensures PlannedInTurn(digest, commits[..n], k) {
      assert PlannedInTurn(digest, commits, k);
      assert commits[..n][..k] == commits[..k];
    }
    assert n < |commits| ==> PlannedInTurn(digest, commits, n);
  }

  /** Pages whose items have pairwise distinct keys bring each key once. */
  lemma {:induction false} DistinctPageKeys(staged: seq<Staged>)
    requires forall i, j :: 0 <= i < j < |staged| ==> staged[i].key != staged[j].key
    ensures Distinct(NewKeys(staged))
  {
    if staged != [] {
      var before := staged[..|staged| - 1];
      DistinctPageKeys(before);
      var keys := NewKeys(before);
      forall i | 0 <= i < |keys| ensures keys[i] != staged[|staged| - 1].key {
        assert keys[i] in keys;
        var j :| 0 <= j < |before| && before[j].found.None? && before[j].key == keys[i];
      }
    }
  }

  /** A page that brings one key twice leaves two rows for it, either of which a later lookup may return. */
  lemma RepeatedKeyLeavesTwoRows(digest: Digest, before: seq<Delivery>, d: Delivery, i: nat, j: nat)
    requires PlannedAfter(digest, before, d) && i < j < |d.staged|
    requires d.staged[i].key == d.staged[j].key && d.staged[i].found.None? && d.staged[j].found.None?
    ensures var reported := Reported(d.staged, d.answers, d.base, d.maxAttempts);
            var after := RecordedBy(before) + ProgressOf(d).recorded;
            && !Unique(after)
            && IsExisting(after, d.staged[i].key, Some(reported[i]))
            && IsExisting(after, d.staged[i].key, Some(reported[j]))
  {
    hide RecordedBy, RunItems, Reported, QuarantinedOf, PlannedAfter;
    RunsAgree(d.staged, d.answers, d.base, d.maxAttempts);
    PageKeepsUnique(digest, before, d);
    RepeatedNewKey(d.staged, i, j);
  }

  lemma {:induction false} RepeatedNewKey(staged: seq<Staged>, i: nat, j: nat)
    requires i < j < |staged| && staged[i].key == staged[j].key && staged[i].found.None? && staged[j].found.None?
    ensures !Distinct(NewKeys(staged))
  {
    var n := |staged| - 1;
    var keys, before := NewKeys(staged), NewKeys(staged[..n]);
    if j < n {
      RepeatedNewKey(staged[..n], i, j);
      assert before <= keys;
      assert Distinct(keys) ==> Distinct(before);
    } else {
      assert staged[..n][i].found.None? && staged[..n][i].key == staged[j].key;
      assert staged[j].key in before;
      assert keys == before + [staged[j].key];
      assert keys[|before|] == staged[j].key;
      var a: nat :| a < |before| && before[a] == staged[j].key;
      assert keys[a] == staged[j].key;
      assert !(keys[a] != keys[|before|]);
    }
  }

  // ---- first write wins

  lemma OneRowPerKey(all: seq<Observation>, a: Observation, b: Observation)
    requires Unique(all) && a in all && b in all && a.dedupKey == b.dedupKey
    ensures a == b
  {
    var i :| 0 <= i < |all| && all[i] == a;
    var j :| 0 <= j < |all| && all[j] == b;
    assert !(i < j) && !(j < i);
  }

  lemma {:induction false} AllFoundRunsNothing(staged: seq<Staged>, answers: Answers, base: nat, maxAttempts: Byte)
    requires forall i :: 0 <= i < |staged| ==> staged[i].found.Some?
    ensures RunItems(staged, answers, base, maxAttempts).recorded == []
    ensures RunItems(staged, answers, base, maxAttempts).calls == []
  {
    if staged != [] {
      AllFoundRunsNothing(staged[..|staged| - 1], answers, base, maxAttempts);
    }
  }

  /** A committed page delivered again finds every one of its items. */
  lemma RedeliveryFindsAll(digest: Digest, commits: seq<Delivery>, k: nat, baseline: bool, staged: seq<Staged>)
    requires IsHistory(digest, commits) && k < |commits|
    requires StagedFor(RecordedBy(commits), digest, baseline, commits[k].page.items, staged)
    ensures forall i :: 0 <= i < |staged| ==> staged[i].found.Some?
  {
    hide RecordedBy, RunItems, Reported, Normalised, KeyOf, IsHistory, ProgressOf;
    forall i | 0 <= i < |staged| ensures staged[i].found.Some? {
      ReportedIsStored(digest, commits, k, i);
    }
  }

  /**
   Delivering a committed page again, at any later time and with any classifier, records
   nothing, calls nothing and reports the same outcomes and quarantine locators in order.
   */
  lemma RedeliveryChangesNothing(digest: Digest, commits: seq<Delivery>, k: nat, baseline: bool, staged: seq<Staged>,
                                 answers: Answers, base: nat, maxAttempts: Byte)
    requires IsHistory(digest, commits) && k < |commits|
    requires StagedFor(RecordedBy(commits), digest, baseline, commits[k].page.items, staged)
    ensures var again := RunItems(staged, answers, base, maxAttempts);
            && again.recorded == [] && again.calls == []
            && (Unique(RecordedBy(commits)) ==>
                  && again.outcomes == ProgressOf(commits[k]).outcomes
                  && again.quarantined == ProgressOf(commits[k]).quarantined)
  {
    RedeliveryFindsAll(digest, commits, k, baseline, staged);
    AllFoundRunsNothing(staged, answers, base, maxAttempts);
    if Unique(RecordedBy(commits)) {
      SameReports(digest, commits, k, baseline, staged, answers, base, maxAttempts);
      SameAnswers(staged, answers, base, maxAttempts, commits[k]);
    }
  }

  lemma SameReports(digest: Digest, commits: seq<Delivery>, k: nat, baseline: bool, staged: seq<Staged>,
                    answers: Answers, base: nat, maxAttempts: Byte)
    requires IsHistory(digest, commits) && k < |commits| && Unique(RecordedBy(commits))
    requires StagedFor(RecordedBy(commits), digest, baseline, commits[k].page.items, staged)
    requires forall i :: 0 <= i < |staged| ==> staged[i].found.Some?
    ensures var d := commits[k];
            Reported(staged, answers, base, maxAttempts) == Reported(d.staged, d.answers, d.base, d.maxAttempts)
  {
    hide RecordedBy, RunItems, Reported, Normalised, KeyOf, IsHistory, ProgressOf, QuarantinedOf, Unique, NewKeys;
    var d := commits[k];
    var r, r' := Reported(d.staged, d.answers, d.base, d.maxAttempts), Reported(staged, answers, base, maxAttempts);
    RunsAgree(staged, answers, base, maxAttempts);
    PageLength(digest, commits, k);
    forall i | 0 <= i < |staged| ensures r'[i] == r[i] {
      ReportedIsStored(digest, commits, k, i);
      OneRowPerKey(RecordedBy(commits), r[i], r'[i]);
    }
  }

  lemma PageLength(digest: Digest, commits: seq<Delivery>, k: nat)
    requires IsHistory(digest, commits) && k < |commits|
    ensures |commits[k].staged| == |commits[k].page.items|
  {
    assert PlannedInTurn(digest, commits, k);
  }

  lemma SameAnswers(staged: seq<Staged>, answers: Answers, base: nat, maxAttempts: Byte, d: Delivery)
    requires Reported(staged, answers, base, maxAttempts) == Reported(d.staged, d.answers, d.base, d.maxAttempts)
    ensures RunItems(staged, answers, base, maxAttempts).outcomes == ProgressOf(d).outcomes
    ensures RunItems(staged, answers, base, maxAttempts).quarantined == ProgressOf(d).quarantined
  {
    hide RunItems, Reported, QuarantinedOf, NewKeys;
    RunsAgree(staged, answers, base, maxAttempts);
    RunsAgree(d.staged, d.answers, d.base, d.maxAttempts);
  }
}
