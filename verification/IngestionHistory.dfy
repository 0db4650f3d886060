/** What a sequence of committed pages amounts to, each planned against the ones before it. */
module IngestionHistory {
  import opened Wrappers
  import opened Bytes
  import opened DurableRows
  import opened Ingestion

  /** Generations are 32 bits wide. */
  const GENERATIONS: int := 0x1_0000_0000

  /** One page as delivered: what was staged for it and which classifier answered. */
  datatype Delivery = Delivery(
    collection: Key, page: DeltaPage, staged: seq<Staged>, answers: Answers, base: nat, maxAttempts: Byte)

  function ProgressOf(d: Delivery): Progress {
    RunItems(d.staged, d.answers, d.base, d.maxAttempts)
  }

  // ---- checkpoints

  function OfCollection(checkpoints: seq<Checkpoint>, collection: Key): (r: seq<Checkpoint>)
    ensures forall c :: c in r <==> c in checkpoints && c.collection == collection
  {
    if checkpoints == [] then []
    else
      var before := OfCollection(checkpoints[..|checkpoints| - 1], collection);
      var last := checkpoints[|checkpoints| - 1];
      assert checkpoints == checkpoints[..|checkpoints| - 1] + [last];
      if last.collection == collection then before + [last] else before
  }

  /** How many checkpoints still get a generation of their own. */
  function Numbered(n: nat): nat { if n < GENERATIONS then n else GENERATIONS }

  /** The last checkpoint of the collection with a generation of its own. */
  function CurrentOf(checkpoints: seq<Checkpoint>, collection: Key): Option<Checkpoint> {
    var own := OfCollection(checkpoints, collection);
    if own == [] then None else Some(own[Numbered(|own|) - 1])
  }

  function CheckpointsOf(commits: seq<Delivery>): (r: seq<Checkpoint>)
    ensures |r| == |commits|
  {
    if commits == [] then []
    else
      var before := CheckpointsOf(commits[..|commits| - 1]);
      var d := commits[|commits| - 1];
      before + [NextCheckpoint(d.collection, d.page, CurrentOf(before, d.collection))]
  }

  function CurrentAfter(commits: seq<Delivery>, collection: Key): Option<Checkpoint> {
    CurrentOf(CheckpointsOf(commits), collection)
  }

  // ---- observations

  function RecordedBy(commits: seq<Delivery>): seq<Observation> {
    if commits == [] then []
    else RecordedBy(commits[..|commits| - 1]) + ProgressOf(commits[|commits| - 1]).recorded
  }

  /** The page was staged against what was stored before it. */
  ghost predicate PlannedAfter(digest: Digest, before: seq<Delivery>, d: Delivery) {
    && PageFits(d.page)
    && StagedFor(RecordedBy(before), digest, Baseline(CurrentAfter(before, d.collection)), d.page.items, d.staged)
  }

  ghost predicate PlannedInTurn(digest: Digest, commits: seq<Delivery>, k: nat)
    requires k < |commits|
  {
    PlannedAfter(digest, commits[..k], commits[k])
  }

  ghost predicate IsHistory(digest: Digest, commits: seq<Delivery>) {
    forall k :: 0 <= k < |commits| ==> PlannedInTurn(digest, commits, k)
  }

  function PagesOf(commits: seq<Delivery>, collection: Key): seq<DeltaPage> {
    if commits == [] then []
    else
      var before := PagesOf(commits[..|commits| - 1], collection);
      var d := commits[|commits| - 1];
      if d.collection == collection then before + [d.page] else before
  }

  predicate SomeCloses(pages: seq<DeltaPage>) {
    exists i :: 0 <= i < |pages| && pages[i].closesRound
  }

  /** Each checkpoint against the page it came with. */
  predicate Matches(c: Checkpoint, collection: Key, pages: seq<DeltaPage>, k: nat)
    requires k < |pages|
  {
    c == Checkpoint(if k < GENERATIONS then k else 0, collection, pages[k].nextCursor,
                    SomeCloses(pages[..Numbered(k)]) || pages[k].closesRound, None)
  }

  predicate AllMatch(own: seq<Checkpoint>, collection: Key, pages: seq<DeltaPage>) {
    && |own| == |pages|
    && forall k :: 0 <= k < |own| ==> Matches(own[k], collection, pages, k)
  }

  lemma ClosesSplit(pages: seq<DeltaPage>, k: nat)
    requires k < |pages|
    ensures SomeCloses(pages[..k + 1]) <==> SomeCloses(pages[..k]) || pages[k].closesRound
  {
    if pages[k].closesRound {
      assert pages[..k + 1][k].closesRound;
    }
    if SomeCloses(pages[..k]) {
      var i :| 0 <= i < k && pages[..k][i].closesRound;
      assert pages[..k + 1][i].closesRound;
    }
  }

  lemma NextMatches(own: seq<Checkpoint>, collection: Key, pages: seq<DeltaPage>, page: DeltaPage)
    requires AllMatch(own, collection, pages)
    ensures var current := if own == [] then None else Some(own[Numbered(|own|) - 1]);
            Matches(NextCheckpoint(collection, page, current), collection, pages + [page], |pages|)
  {
    var n := |pages|;
    assert (pages + [page])[..Numbered(n)] == pages[..Numbered(n)];
    if n > 0 {
      var k := Numbered(n) - 1;
      assert Matches(own[k], collection, pages, k);
      ClosesSplit(pages, k);
    }
  }

  lemma OfCollectionGrows(checkpoints: seq<Checkpoint>, c: Checkpoint, collection: Key)
    ensures OfCollection(checkpoints + [c], collection) ==
              if c.collection == collection then OfCollection(checkpoints, collection) + [c]
              else OfCollection(checkpoints, collection)
  {
    assert (checkpoints + [c])[..|checkpoints|] == checkpoints;
  }

  lemma AllMatchGrows(own: seq<Checkpoint>, collection: Key, pages: seq<DeltaPage>, c: Checkpoint, page: DeltaPage)
    requires AllMatch(own, collection, pages) && Matches(c, collection, pages + [page], |pages|)
    ensures AllMatch(own + [c], collection, pages + [page])
  {
    hide Matches;
    forall k | 0 <= k < |pages| ensures Matches(own[k], collection, pages + [page], k) {
      MatchesLonger(own[k], collection, pages, page, k);
    }
  }

  /** Each collection's checkpoints, one for each of its pages, in order. */
  lemma {:induction false} CheckpointsMatch(commits: seq<Delivery>, collection: Key)
    ensures AllMatch(OfCollection(CheckpointsOf(commits), collection), collection, PagesOf(commits, collection))
  {
    hide Matches, NextCheckpoint, OfCollection;
    if commits == [] {
      NoCheckpointsMatch(collection);
    } else {
      var before, d := commits[..|commits| - 1], commits[|commits| - 1];
      CheckpointsMatch(before, collection);
      var was := CheckpointsOf(before);
      var c := NextCheckpoint(d.collection, d.page, CurrentOf(was, d.collection));
      OfCollectionGrows(was, c, collection);
      NextNamesCollection(d, CurrentOf(was, d.collection));
      if d.collection == collection {
        var own, pages := OfCollection(was, collection), PagesOf(before, collection);
        NextMatches(own, collection, pages, d.page);
        AllMatchGrows(own, collection, pages, c, d.page);
      }
    }
  }

  lemma NoCheckpointsMatch(collection: Key)
    ensures AllMatch(OfCollection([], collection), collection, [])
  {
  }

  lemma NextNamesCollection(d: Delivery, current: Option<Checkpoint>)
    ensures NextCheckpoint(d.collection, d.page, current).collection == d.collection
  {
  }

  lemma MatchesLonger(c: Checkpoint, collection: Key, pages: seq<DeltaPage>, page: DeltaPage, k: nat)
    requires k < |pages| && Matches(c, collection, pages, k)
    ensures Matches(c, collection, pages + [page], k)
  {
    assert (pages + [page])[..Numbered(k)] == pages[..Numbered(k)];
  }

  lemma MatchAt(own: seq<Checkpoint>, collection: Key, pages: seq<DeltaPage>, k: nat)
    requires AllMatch(own, collection, pages) && k < |own|
    ensures own[k].generation == if k < GENERATIONS then k else 0
    ensures own[k].cursor == pages[k].nextCursor
    ensures k < GENERATIONS ==> (own[k].baselineCommitted <==> SomeCloses(pages[..k + 1]))
  {
    assert Matches(own[k], collection, pages, k);
    ClosesSplit(pages, k);
  }

  /** Whatever order the rows are read in, there is only one row to find as the current checkpoint. */
  lemma CurrentIsDetermined(commits: seq<Delivery>, collection: Key, found: Option<Checkpoint>)
    ensures IsCurrent(CheckpointsOf(commits), collection, found) <==> found == CurrentAfter(commits, collection)
  {
    hide CheckpointsOf, PagesOf, AllMatch, OfCollection;
    var own := OfCollection(CheckpointsOf(commits), collection);
    CheckpointsMatch(commits, collection);
    forall k | 0 <= k < |own| ensures own[k].generation == if k < GENERATIONS then k else 0 {
      MatchAt(own, collection, PagesOf(commits, collection), k);
    }
    HighestGeneration(own);
    assert forall c :: c in CheckpointsOf(commits) && c.collection == collection ==> c in own;
  }

  /** Only one of the checkpoints has the highest generation. */
  lemma HighestGeneration(own: seq<Checkpoint>)
    requires forall k :: 0 <= k < |own| ==> own[k].generation == if k < GENERATIONS then k else 0
    ensures own != [] ==>
              var current := own[Numbered(|own|) - 1];
              && current in own
              && forall c :: c in own ==> c == current || c.generation < current.generation
  {
    forall c | c in own && own != []
      ensures c == own[Numbered(|own|) - 1] || c.generation < own[Numbered(|own|) - 1].generation
    {
      var k: nat :| k < |own| && own[k] == c;
    }
  }

  /** The current checkpoint is the last page's for the first 2^32 pages, and page 2^32's ever after. */
  lemma CurrentCheckpointHoldsTheLastPage(commits: seq<Delivery>, collection: Key)
    ensures var pages := PagesOf(commits, collection);
            var current := CurrentAfter(commits, collection);
            var n := Numbered(|pages|);
            && (current.None? <==> pages == [])
            && (current.Some? ==>
                  && current.value.cursor == pages[n - 1].nextCursor
                  && current.value.generation == n - 1
                  && (current.value.baselineCommitted <==> SomeCloses(pages[..n])))
  {
    hide CheckpointsOf, PagesOf, AllMatch, OfCollection, SomeCloses;
    CheckpointsMatch(commits, collection);
    var own := OfCollection(CheckpointsOf(commits), collection);
    var pages := PagesOf(commits, collection);
    MatchLengths(own, collection, pages);
    if own != [] {
      MatchAt(own, collection, pages, Numbered(|own|) - 1);
    }
  }

  lemma MatchLengths(own: seq<Checkpoint>, collection: Key, pages: seq<DeltaPage>)
    requires AllMatch(own, collection, pages)
    ensures |own| == |pages|
  {
  }

  /** A baseline is in force only after a page of the collection has closed a round. */
  lemma BaselineNeedsAClosedRound(commits: seq<Delivery>, collection: Key)
    ensures Baseline(CurrentAfter(commits, collection)) ==> SomeCloses(PagesOf(commits, collection))
    ensures |PagesOf(commits, collection)| <= GENERATIONS ==>
              (Baseline(CurrentAfter(commits, collection)) <==> SomeCloses(PagesOf(commits, collection)))
  {
    CurrentCheckpointHoldsTheLastPage(commits, collection);
    var pages := PagesOf(commits, collection);
    var n := Numbered(|pages|);
    if SomeCloses(pages[..n]) {
      var i :| 0 <= i < n && pages[..n][i].closesRound;
      assert pages[i].closesRound;
    }
    assert pages[..|pages|] == pages;
  }

  /** Only an item outside the backfill, so only after a baseline, is ever analysed on its own. */
  lemma AnalyzeOnceNeedsABaseline(item: DeltaPageItem, baseline: bool)
    ensures ClassifyEligibility(Normalised(item, baseline)) == AnalyzeOnce ==> baseline && !item.inBackfillBatch
  {
  }
}
