/** A step keeps the protocol exactly when the callers' discipline allows it. */
module LedgerDiscipline {
  import opened Wrappers
  import opened Bytes
  import opened DurableRows
  import opened OperationLedger
  import opened LedgerRuns

  /** What can be seen of one operation's rows while the protocol is kept. */
  ghost predicate KeepsProtocol(h: seq<LedgerRecord>) {
    && (forall i :: 0 <= i < |h| ==> h[i].key == h[0].key && h[i].generation == i && RowCarries(h[i]))
    && (forall i :: 0 <= i < |h| - 1 ==> !IsFinal(h[i].state))
    && (h != [] ==> Summary(h))
  }

  lemma ChainsKeepProtocol(h: seq<LedgerRecord>)
    requires IsChain(h)
    ensures KeepsProtocol(h)
  {
    hide IsChain, Attempts, RowCarries;
    ChainRows(h);
    if h != [] {
      ChainSummary(h);
    }
    forall i | 0 <= i < |h| ensures RowCarries(h[i]) {
      ChainCarries(h, i);
    }
  }

  /** A row written after one that is not the last repeats a generation. */
  lemma AfterTheLast(h: seq<LedgerRecord>, r: LedgerRecord, next: LedgerRecord)
    requires IsChain(h) && r in h && next.generation == NextGeneration(r)
    requires KeepsProtocol(h + [next])
    ensures r == h[|h| - 1] && !IsFinal(r.state) && Summary(h)
    ensures Attempts(h + [next]) == Attempts(h) + if next.state == AttemptStarted then 1 else 0
  {
    hide IsChain, Attempts, RowCarries, Follows;
    ChainSummary(h);
    ChainRows(h);
    AttemptsOneMore(h, next);
    var k: nat :| k < |h| && h[k] == r;
    assert (h + [next])[|h|] == next;
    assert (h + [next])[|h| - 1] == h[|h| - 1];
  }

  lemma AttemptsOneMore(h: seq<LedgerRecord>, next: LedgerRecord)
    ensures Attempts(h + [next]) == Attempts(h) + if next.state == AttemptStarted then 1 else 0
  {
    assert (h + [next])[..|h|] == h;
  }

  lemma AppendKeepsProtocol(h: seq<LedgerRecord>, next: LedgerRecord)
    requires IsChain(h) && Continues(h, next)
    ensures KeepsProtocol(h + [next])
  {
    hide IsChain, Continues, Attempts, KeepsProtocol;
    AppendKeepsChain(h, next);
    ChainsKeepProtocol(h + [next]);
  }

  /** A first row belongs where there is none yet. */
  lemma FirstRowIff(h: seq<LedgerRecord>, operation: OperationId, key: Key)
    requires IsChain(h)
    ensures KeepsProtocol(h + [FirstRow(operation, key)]) <==> h == []
  {
    hide IsChain, Attempts, RowCarries;
    if h == [] {
      AppendKeepsProtocol(h, FirstRow(operation, key));
    } else {
      assert (h + [FirstRow(operation, key)])[|h|].generation == 0;
    }
  }

  /** Only the last row can be started from, and only while it is pending. */
  lemma StartIff(h: seq<LedgerRecord>, r: LedgerRecord)
    requires IsChain(h) && r in h
    ensures KeepsProtocol(h + [Started(r)]) <==> r == h[|h| - 1] && r.state == Pending
  {
    hide IsChain, Attempts, KeepsProtocol;
    if r == h[|h| - 1] && r.state == Pending {
      AppendKeepsProtocol(h, Started(r));
    }
    if KeepsProtocol(h + [Started(r)]) {
      AfterTheLast(h, r, Started(r));
      LastRow(h, Started(r));
      ChainsKeepProtocol(h);
      CarriedInHistory(h, |h| - 1);
    }
  }

  /** Only the last row can be classified, and only while its request is under way. */
  lemma ClassifyIff(h: seq<LedgerRecord>, r: LedgerRecord, outcome: AdapterOutcome, hint: FailureCode)
    requires IsChain(h) && r in h
    ensures KeepsProtocol(h + [Classified(r, outcome, hint)]) <==> r == h[|h| - 1] && r.state == AttemptStarted
  {
    hide IsChain, Attempts, KeepsProtocol, RowCarries;
    var next := Classified(r, outcome, hint);
    if r == h[|h| - 1] && r.state == AttemptStarted {
      AppendKeepsProtocol(h, next);
    }
    if KeepsProtocol(h + [next]) {
      AfterTheLast(h, r, next);
      LastRow(h, next);
    }
  }

  /** Of the rows that could be retried, only the last one can. */
  lemma RetryIff(h: seq<LedgerRecord>, r: LedgerRecord)
    requires IsChain(h) && r in h && EligibleRetry(r).Ok?
    ensures KeepsProtocol(h + [EligibleRetry(r).value]) <==> r == h[|h| - 1]
  {
    hide IsChain, Attempts, KeepsProtocol, RowCarries;
    if r == h[|h| - 1] {
      AppendKeepsProtocol(h, EligibleRetry(r).value);
    }
    if KeepsProtocol(h + [EligibleRetry(r).value]) {
      AfterTheLast(h, r, EligibleRetry(r).value);
    }
  }

  lemma CarriedInHistory(h: seq<LedgerRecord>, i: nat)
    requires KeepsProtocol(h) && i < |h|
    ensures RowCarries(h[i])
  {
  }

  lemma LastRow(h: seq<LedgerRecord>, next: LedgerRecord)
    requires KeepsProtocol(h + [next])
    ensures RowCarries(next)
    ensures |h| + 1 == 2 * Attempts(h + [next]) + if next.state == AttemptStarted then 0 else 1
  {
    hide Attempts, RowCarries;
    assert (h + [next])[|h|] == next;
  }

  // ---- any step

  function RowWritten(a: Action): Option<LedgerRecord> {
    match a
    case Begin(operation, key, found, written) =>
      var r := BeginOrReplay(found, operation, key);
      if written && r.Ok? && r.value.FreshPending? then Some(r.value.record) else None
    case Retry(current, written) =>
      var r := EligibleRetry(current);
      if written && r.Ok? then Some(r.value) else None
    case Mark(current, written) => if written then Some(Started(current)) else None
    case Classify(current, outcome, hint, written) => if written then Some(Classified(current, outcome, hint)) else None
    case SendRequest(_) => None
    case Crash => None
  }

  /** The step was given a row of the ledger, but any row of it. */
  predicate FromLedger(w: World, a: Action) {
    match a
    case Begin(_, _, _, _) => true
    case Retry(current, _) => current in w.ledger
    case Mark(current, _) => current in w.ledger
    case Classify(current, _, _, _) => current in w.ledger
    case SendRequest(_) => true
    case Crash => true
  }

  lemma OneRowPerStep(w: World, a: Action)
    ensures Apply(w, a).ledger == w.ledger + if RowWritten(a).Some? then [RowWritten(a).value] else []
  {
  }

  /** Being the latest row is being the last one. */
  lemma LatestIff(w: World, operation: OperationId, found: Option<LedgerRecord>)
    requires LawfulFor(w, operation)
    ensures IsLatest(w.ledger, operation, found) <==> found == Last(History(w.ledger, operation))
  {
    hide IsChain, History, IsLatest;
    ChainFacts(w.ledger, operation);
  }

  /**
   Every step that writes, given any row of the ledger: its operation still keeps the protocol
   exactly when the discipline allows the step.
   */
  lemma DisciplineIsExact(w: World, a: Action)
    requires Lawful(w) && FromLedger(w, a) && RowWritten(a).Some?
    ensures KeepsProtocol(History(Apply(w, a).ledger, RowWritten(a).value.operation)) <==> Enabled(w, a)
  {
    hide IsChain, History, IsLatest, KeepsProtocol, RequestsCovered;
    var next := RowWritten(a).value;
    var operation := next.operation;
    var h := History(w.ledger, operation);
    assert LawfulFor(w, operation);
    OneRowPerStep(w, a);
    HistoryGrows(w.ledger, next, operation);
    match a
    case Begin(o, key, _, _) =>
      LatestIff(w, operation, None);
      FirstRowIff(h, o, key);
    case Retry(current, _) =>
      LatestIff(w, operation, Some(current));
      RetryIff(h, current);
    case Mark(current, _) =>
      LatestIff(w, operation, Some(current));
      StartIff(h, current);
    case Classify(current, outcome, hint, _) =>
      LatestIff(w, operation, Some(current));
      ClassifyIff(h, current, outcome, hint);
    case SendRequest(_) =>
    case Crash =>
  }

  /** So in every run, of everything a caller could do next, just what the discipline allows keeps the protocol. */
  lemma EveryRunNeedsTheDiscipline(run: seq<World>, actions: seq<Action>, i: nat, a: Action)
    requires IsRun(run, actions) && i < |run|
    requires FromLedger(run[i], a) && RowWritten(a).Some?
    ensures KeepsProtocol(History(run[i].ledger, RowWritten(a).value.operation))
    ensures KeepsProtocol(History(Apply(run[i], a).ledger, RowWritten(a).value.operation)) <==> Enabled(run[i], a)
  {
    hide IsRun, IsChain, History, KeepsProtocol, RequestsCovered, Apply, Enabled;
    RunIsLawful(run, actions, i);
    assert LawfulFor(run[i], RowWritten(a).value.operation);
    ChainsKeepProtocol(History(run[i].ledger, RowWritten(a).value.operation));
    DisciplineIsExact(run[i], a);
  }
}
