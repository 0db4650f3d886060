/** Two pages planned from one view of the store and then both committed. */
module StalePlans {
  import opened Wrappers
  import opened Bytes
  import opened DurableRows
  import opened Ingestion
  import opened IngestionHistory
  import opened ObservationHistory

  /** The checkpoint a page is planned with after these commits. */
  function CheckpointFor(commits: seq<Delivery>, d: Delivery): Checkpoint {
    NextCheckpoint(d.collection, d.page, CurrentAfter(commits, d.collection))
  }

  /** No key is new in both pages. */
  ghost predicate NewKeysApart(d: Delivery, e: Delivery) {
    forall key :: key in NewKeys(d.staged) ==> key !in NewKeys(e.staged)
  }

  /** The collection has no generation left for another checkpoint. */
  predicate UsedUp(commits: seq<Delivery>, collection: Key) {
    |PagesOf(commits, collection)| >= GENERATIONS
  }

  // ---- keys

  lemma UniqueConcat(a: seq<Observation>, b: seq<Observation>)
    ensures Unique(a + b) <==>
              Unique(a) && Unique(b) && forall i, j :: 0 <= i < |a| && 0 <= j < |b| ==> a[i].dedupKey != b[j].dedupKey
  {
    var c := a + b;
    if Unique(c) {
      forall i, j | 0 <= i < |a| && 0 <= j < |b| ensures a[i].dedupKey != b[j].dedupKey {
        assert c[i] == a[i] && c[|a| + j] == b[j];
      }
    }
    if forall i, j :: 0 <= i < |a| && 0 <= j < |b| ==> a[i].dedupKey != b[j].dedupKey {
      UniqueAppend(a, b);
    }
  }

  lemma RecordedKeys(d: Delivery)
    ensures KeysOf(ProgressOf(d).recorded) == NewKeys(d.staged)
    ensures Unique(ProgressOf(d).recorded) <==> Distinct(NewKeys(d.staged))
  {
    hide RunItems, NewKeys, Reported, QuarantinedOf;
    RunsAgree(d.staged, d.answers, d.base, d.maxAttempts);
  }

  /** Two pages record no key in common exactly when no key is new in both. */
  lemma RecordedApartIff(d: Delivery, e: Delivery)
    ensures var a, b := ProgressOf(d).recorded, ProgressOf(e).recorded;
            NewKeysApart(d, e) <==> forall i, j :: 0 <= i < |a| && 0 <= j < |b| ==> a[i].dedupKey != b[j].dedupKey
  {
    hide ProgressOf, NewKeys;
    var a, b := ProgressOf(d).recorded, ProgressOf(e).recorded;
    RecordedKeys(d);
    RecordedKeys(e);
    if NewKeysApart(d, e) {
      forall i, j | 0 <= i < |a| && 0 <= j < |b| ensures a[i].dedupKey != b[j].dedupKey {
        assert KeysOf(a)[i] in NewKeys(d.staged) && KeysOf(b)[j] in NewKeys(e.staged);
      }
    } else {
      var key :| key in NewKeys(d.staged) && key in NewKeys(e.staged);
      var i :| 0 <= i < |a| && KeysOf(a)[i] == key;
      var j :| 0 <= j < |b| && KeysOf(b)[j] == key;
      assert a[i].dedupKey == b[j].dedupKey;
    }
  }

  /**
   Both plans committed keep one row for each key exactly when each page's new keys are distinct
   and no key is new in both.
   */
  lemma KeysUniqueIff(digest: Digest, commits: seq<Delivery>, d: Delivery, e: Delivery)
    requires PlannedAfter(digest, commits, d) && PlannedAfter(digest, commits, e)
    ensures Unique(RecordedBy(commits) + ProgressOf(d).recorded + ProgressOf(e).recorded) <==>
              && Unique(RecordedBy(commits))
              && Distinct(NewKeys(d.staged)) && Distinct(NewKeys(e.staged)) && NewKeysApart(d, e)
  {
    hide RecordedBy, ProgressOf, NewKeys, PlannedAfter, Unique, Distinct, NewKeysApart;
    var was, a, b := RecordedBy(commits), ProgressOf(d).recorded, ProgressOf(e).recorded;
    PageKeepsUnique(digest, commits, d);
    PageKeepsUnique(digest, commits, e);
    RecordedKeys(e);
    UniqueConcat(was, a);
    UniqueConcat(was, b);
    UniqueConcat(a, b);
    UniqueConcat(was + a, b);
    RecordedApartIff(d, e);
    StoredApart(digest, commits, e);
    assert forall i :: 0 <= i < |was| ==> (was + a)[i] == was[i];
    assert forall i :: 0 <= i < |a| ==> (was + a)[|was| + i] == a[i];
  }

  /** What a page records was not stored when it was planned. */
  lemma StoredApart(digest: Digest, commits: seq<Delivery>, d: Delivery)
    requires PlannedAfter(digest, commits, d)
    ensures var was, a := RecordedBy(commits), ProgressOf(d).recorded;
            forall i, j :: 0 <= i < |was| && 0 <= j < |a| ==> was[i].dedupKey != a[j].dedupKey
  {
    hide RecordedBy, ProgressOf, Normalised, KeyOf, CurrentAfter;
    RecordedKeys(d);
    var was, a := RecordedBy(commits), ProgressOf(d).recorded;
    forall i, j | 0 <= i < |was| && 0 <= j < |a| ensures was[i].dedupKey != a[j].dedupKey {
      assert KeysOf(a)[j] in NewKeys(d.staged);
      var k :| 0 <= k < |d.staged| && d.staged[k].found.None? && d.staged[k].key == a[j].dedupKey;
      assert IsExisting(was, d.staged[k].key, None);
      assert was[i] in was;
    }
  }

  // ---- one plan after the other

  /** A page's staging stands for more observations exactly when none of them is of a key new to it. */
  lemma StillStagedIff(was: seq<Observation>, more: seq<Observation>, digest: Digest, baseline: bool,
                       items: seq<DeltaPageItem>, staged: seq<Staged>)
    requires StagedFor(was, digest, baseline, items, staged)
    ensures StagedFor(was + more, digest, baseline, items, staged) <==>
              forall o :: o in more ==> o.dedupKey !in NewKeys(staged)
  {
    hide Normalised, KeyOf;
    if exists o :: o in more && o.dedupKey in NewKeys(staged) {
      var o :| o in more && o.dedupKey in NewKeys(staged);
      var i :| 0 <= i < |staged| && staged[i].found.None? && staged[i].key == o.dedupKey;
      assert o in was + more;
      assert !IsExisting(was + more, staged[i].key, staged[i].found);
    }
    if forall o :: o in more ==> o.dedupKey !in NewKeys(staged) {
      forall i | 0 <= i < |items| ensures IsExisting(was + more, staged[i].key, staged[i].found) {
        assert IsExisting(was, staged[i].key, staged[i].found);
        assert staged[i].found.None? ==> staged[i].key in NewKeys(staged);
      }
    }
  }

  /** A further page changes what is current for its own collection only, and for that while generations last. */
  lemma CurrentAfterOneMore(commits: seq<Delivery>, d: Delivery, collection: Key)
    ensures CurrentAfter(commits + [d], collection) ==
              if collection == d.collection && !UsedUp(commits, collection) then Some(CheckpointFor(commits, d))
              else CurrentAfter(commits, collection)
  {
    hide OfCollection, PagesOf, NextCheckpoint, AllMatch;
    var was, c := CheckpointsOf(commits), CheckpointFor(commits, d);
    assert (commits + [d])[..|commits|] == commits;
    assert CheckpointsOf(commits + [d]) == was + [c];
    OfCollectionGrows(was, c, collection);
    NextNamesCollection(d, CurrentAfter(commits, d.collection));
    CheckpointsMatch(commits, collection);
    MatchLengths(OfCollection(was, collection), collection, PagesOf(commits, collection));
  }

  lemma RecordedOneMore(commits: seq<Delivery>, d: Delivery)
    ensures RecordedBy(commits + [d]) == RecordedBy(commits) + ProgressOf(d).recorded
  {
    assert (commits + [d])[..|commits|] == commits;
  }

  lemma ApartFromNewKeys(d: Delivery, e: Delivery)
    ensures NewKeysApart(d, e) <==> forall o :: o in ProgressOf(d).recorded ==> o.dedupKey !in NewKeys(e.staged)
  {
    hide ProgressOf, NewKeys;
    var a := ProgressOf(d).recorded;
    RecordedKeys(d);
    forall key | key in NewKeys(d.staged) ensures exists o :: o in a && o.dedupKey == key {
      var i :| 0 <= i < |a| && KeysOf(a)[i] == key;
      assert a[i] in a;
    }
    forall o | o in a ensures o.dedupKey in NewKeys(d.staged) {
      var i :| 0 <= i < |a| && a[i] == o;
      assert KeysOf(a)[i] == o.dedupKey;
    }
  }

  /** The stale plan is word for word the plan that would be made after the other page was committed. */
  ghost predicate AsIfPlannedAfter(digest: Digest, commits: seq<Delivery>, d: Delivery, e: Delivery) {
    PlannedAfter(digest, commits + [d], e) && CheckpointFor(commits + [d], e) == CheckpointFor(commits, e)
  }

  /**
   A plan may be committed after another page it knows nothing of exactly when that page is of
   another collection, or its collection has used up its generations, and no key is new in both.
   */
  lemma StalePlanIsGoodIff(digest: Digest, commits: seq<Delivery>, d: Delivery, e: Delivery)
    requires PlannedAfter(digest, commits, d) && PlannedAfter(digest, commits, e)
    ensures AsIfPlannedAfter(digest, commits, d, e) <==>
              (d.collection != e.collection || UsedUp(commits, e.collection)) && NewKeysApart(d, e)
  {
    hide RecordedBy, ProgressOf, NewKeys, UsedUp, NewKeysApart, CurrentAfter, StagedFor, PageFits;
    CurrentAfterOneMore(commits, d, e.collection);
    if d.collection != e.collection || UsedUp(commits, e.collection) {
      RecordedOneMore(commits, d);
      ApartFromNewKeys(d, e);
      StillStagedIff(RecordedBy(commits), ProgressOf(d).recorded, digest,
                     Baseline(CurrentAfter(commits, e.collection)), e.page.items, e.staged);
    }
  }

  /**
   Two pages of one collection planned from one view leave two checkpoints, either of which may be
   found as current.
  */
  lemma OneCollectionLeavesTwoCurrents(commits: seq<Delivery>, d: Delivery, e: Delivery)
    requires d.collection == e.collection && !UsedUp(commits, d.collection)
    ensures var all := CheckpointsOf(commits) + [CheckpointFor(commits, d), CheckpointFor(commits, e)];
            && IsCurrent(all, d.collection, Some(CheckpointFor(commits, d)))
            && IsCurrent(all, d.collection, Some(CheckpointFor(commits, e)))
  {
    hide CheckpointsOf, PagesOf, CurrentAfter;
    var current := CurrentAfter(commits, d.collection);
    CurrentIsDetermined(commits, d.collection, current);
    CurrentCheckpointHoldsTheLastPage(commits, d.collection);
    var all := CheckpointsOf(commits) + [CheckpointFor(commits, d), CheckpointFor(commits, e)];
    assert all[|all| - 2] == CheckpointFor(commits, d) && all[|all| - 1] == CheckpointFor(commits, e);
    forall c | c in all && c.collection == d.collection
      ensures c.generation <= CheckpointFor(commits, d).generation
    {
      if c in CheckpointsOf(commits) {
        assert IsCurrent(CheckpointsOf(commits), d.collection, current);
      }
    }
  }
}
