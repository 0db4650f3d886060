/** Every run of the operation ledger by callers that keep its discipline. */
module LedgerRuns {
  import opened Wrappers
  import opened Bytes
  import opened DurableRows
  import opened OperationLedger

  /** ready: operations whose start is committed but whose request is not sent yet; lost in a crash. */
  datatype World = World(ledger: seq<LedgerRecord>, ready: set<OperationId>, requests: multiset<OperationId>)

  const START := World([], {}, multiset{})

  /** Operations interleave freely, may be invoked again, and may fail to write or crash at any point. */
  datatype Action =
    | Begin(operation: OperationId, key: Key, found: Option<LedgerRecord>, written: bool)
    | Retry(current: LedgerRecord, written: bool)
    | Mark(current: LedgerRecord, written: bool)
    | Classify(current: LedgerRecord, outcome: AdapterOutcome, hint: FailureCode, written: bool)
    | SendRequest(operation: OperationId)
    | Crash

  predicate Latest(w: World, r: LedgerRecord) {
    IsLatest(w.ledger, r.operation, Some(r))
  }

  /** The discipline: callers pass back the latest record, start a pending one and classify a started one. */
  predicate Enabled(w: World, a: Action) {
    match a
    case Begin(operation, _, found, _) => IsLatest(w.ledger, operation, found)
    case Retry(current, _) => Latest(w, current)
    case Mark(current, _) => Latest(w, current) && current.state == Pending
    case Classify(current, _, _, _) => Latest(w, current) && current.state == AttemptStarted
    case SendRequest(operation) => operation in w.ready
    case Crash => true
  }

  function Appended(w: World, r: LedgerRecord, written: bool): World {
    if written then w.(ledger := w.ledger + [r]) else w
  }

  function StartedBy(w: World, r: LedgerRecord, written: bool): World {
    if written then World(w.ledger + [r], w.ready + {r.operation}, w.requests) else w
  }

  function Apply(w: World, a: Action): World {
    match a
    case Begin(operation, key, found, written) =>
      var r := BeginOrReplay(found, operation, key);
      if r.Ok? && r.value.FreshPending? then Appended(w, r.value.record, written) else w
    case Retry(current, written) =>
      var r := EligibleRetry(current);
      if r.Ok? then StartedBy(w, r.value, written) else w
    case Mark(current, written) => StartedBy(w, Started(current), written)
    case Classify(current, outcome, hint, written) =>
      Appended(w, Classified(current, outcome, hint), written).(ready := w.ready - {current.operation})
    case SendRequest(operation) =>
      w.(ready := w.ready - {operation}, requests := w.requests + multiset{operation})
    case Crash => w.(ready := {})
  }

  predicate IsStep(run: seq<World>, actions: seq<Action>, i: nat)
    requires i < |actions| < |run|
  {
    Enabled(run[i], actions[i]) && run[i + 1] == Apply(run[i], actions[i])
  }

  ghost predicate IsRun(run: seq<World>, actions: seq<Action>) {
    && |run| == |actions| + 1
    && run[0] == START
    && forall i :: 0 <= i < |actions| ==> IsStep(run, actions, i)
  }

  // ---- one operation's rows

  function History(ledger: seq<LedgerRecord>, operation: OperationId): (h: seq<LedgerRecord>)
    ensures forall r :: r in h <==> r in ledger && r.operation == operation
  {
    if ledger == [] then []
    else
      var before := History(ledger[..|ledger| - 1], operation);
      var last := ledger[|ledger| - 1];
      assert ledger == ledger[..|ledger| - 1] + [last];
      if last.operation == operation then before + [last] else before
  }

  lemma HistoryGrows(ledger: seq<LedgerRecord>, r: LedgerRecord, operation: OperationId)
    ensures History(ledger + [r], operation) ==
              if r.operation == operation then History(ledger, operation) + [r] else History(ledger, operation)
  {
    assert (ledger + [r])[..|ledger|] == ledger;
  }

  /** The rows that announce a request. */
  function Attempts(h: seq<LedgerRecord>): nat {
    if h == [] then 0
    else Attempts(h[..|h| - 1]) + if h[|h| - 1].state == AttemptStarted then 1 else 0
  }

  predicate IsFinal(s: OperationState) {
    s in {Succeeded, DefinitiveFailed, Ambiguous}
  }

  ghost predicate Follows(prev: LedgerRecord, next: LedgerRecord) {
    || (prev.state == Pending && next == Started(prev))
    || EligibleRetry(prev) == Ok(next)
    || (prev.state == AttemptStarted && exists outcome, hint :: next == Classified(prev, outcome, hint))
  }

  /** Rows that one operation can have been through. */
  ghost predicate IsChain(h: seq<LedgerRecord>) {
    && (h != [] ==> h[0] == FirstRow(h[0].operation, h[0].key))
    && forall i :: 0 < i < |h| ==> Follows(h[i - 1], h[i])
  }

  function Last(h: seq<LedgerRecord>): Option<LedgerRecord> {
    if h == [] then None else Some(h[|h| - 1])
  }

  lemma FollowsSummary(prev: LedgerRecord, next: LedgerRecord)
    requires Follows(prev, next)
    ensures next.operation == prev.operation && next.key == prev.key && next.generation == NextGeneration(prev)
    ensures !IsFinal(prev.state)
    ensures next.state == AttemptStarted ==>
              && next.attemptCount == NextAttempt(prev)
              && (prev.state == Pending || (prev.state == KnownNoSendRetryable && prev.attemptCount < MAX_ATTEMPTS))
    ensures next.state != AttemptStarted ==>
              && prev.state == AttemptStarted && next.attemptCount == prev.attemptCount
              && (IsFinal(next.state) || (next.state == KnownNoSendRetryable && next.attemptCount < MAX_ATTEMPTS))
  {
  }

  /** What a chain's last row says about the whole chain. */
  ghost predicate Summary(h: seq<LedgerRecord>)
    requires h != []
  {
    var last := h[|h| - 1];
    && last.operation == h[0].operation && last.key == h[0].key
    && last.generation == |h| - 1
    && last.attemptCount == Attempts(h) <= MAX_ATTEMPTS
    && |h| == 2 * Attempts(h) + (if last.state == AttemptStarted then 0 else 1)
    && (last.state == Pending || last.state == AttemptStarted || last.state == KnownNoSendRetryable
        || IsFinal(last.state))
    && (last.state == Pending ==> last.attemptCount == 0)
    && (last.state == KnownNoSendRetryable ==> last.attemptCount < MAX_ATTEMPTS)
  }

  lemma {:induction false} ChainSummary(h: seq<LedgerRecord>)
    requires IsChain(h) && h != []
    ensures Summary(h)
  {
    hide Follows;
    if |h| == 1 {
      assert Attempts(h[..0]) == 0;
    } else {
      var before := h[..|h| - 1];
      ChainSummary(before);
      FollowsSummary(h[|h| - 2], h[|h| - 1]);
    }
  }

  /** What every operation keeps, whatever happens around it. */
  ghost predicate OperationFacts(ledger: seq<LedgerRecord>, operation: OperationId) {
    var h := History(ledger, operation);
    && (forall i :: 0 <= i < |h| ==> h[i].key == h[0].key && h[i].generation == i)
    && (forall i :: 0 <= i < |h| - 1 ==> !IsFinal(h[i].state))
    && (forall found :: IsLatest(ledger, operation, found) <==> found == Last(h))
    && Attempts(h) <= MAX_ATTEMPTS
    && |h| <= 7
    && (h != [] ==> Summary(h))
  }

  lemma ChainRows(h: seq<LedgerRecord>)
    requires IsChain(h)
    ensures forall i :: 0 <= i < |h| ==> h[i].key == h[0].key && h[i].generation == i
    ensures forall i :: 0 <= i < |h| - 1 ==> !IsFinal(h[i].state)
  {
    hide Follows, Attempts;
    forall i | 0 <= i < |h| ensures h[i].key == h[0].key && h[i].generation == i {
      ChainSummary(h[..i + 1]);
      assert h[..i + 1][0] == h[0];
    }
    forall i | 0 <= i < |h| - 1 ensures !IsFinal(h[i].state) {
      assert Follows(h[i + 1 - 1], h[i + 1]);
      FollowsSummary(h[i], h[i + 1]);
    }
  }

  lemma ChainFacts(ledger: seq<LedgerRecord>, operation: OperationId)
    requires IsChain(History(ledger, operation))
    ensures OperationFacts(ledger, operation)
  {
    hide Follows, IsChain, History, IsLatest;
    var h := History(ledger, operation);
    ChainRows(h);
    if h != [] {
      ChainSummary(h);
    }
    forall found ensures IsLatest(ledger, operation, found) <==> found == Last(h) {
      LatestIsLast(ledger, operation, found);
    }
  }

  lemma LatestIsLast(ledger: seq<LedgerRecord>, operation: OperationId, found: Option<LedgerRecord>)
    requires var h := History(ledger, operation); forall i :: 0 <= i < |h| ==> h[i].generation == i
    ensures IsLatest(ledger, operation, found) <==> found == Last(History(ledger, operation))
  {
    hide History;
    var h := History(ledger, operation);
    assert forall r :: r in ledger && r.operation == operation ==> r in h;
    if h != [] {
      assert h[|h| - 1] in h;
    }
  }

  /** What a row carries beside its state. */
  predicate RowCarries(r: LedgerRecord) {
    && r.retryAt == None
    && (r.state == Pending || r.state == AttemptStarted || r.state == Succeeded ==> r.failure == NoFailure)
    && (r.state == KnownNoSendRetryable ==> r.failure == TransportKnownNoSend)
    && (r.state != Succeeded ==> r.locator == [])
  }

  lemma {:induction false} ChainCarries(h: seq<LedgerRecord>, i: nat)
    requires IsChain(h) && i < |h|
    ensures RowCarries(h[i])
  {
    if i > 0 {
      ChainCarries(h, i - 1);
      assert Follows(h[i - 1], h[i]);
    }
  }

  // ---- the invariant

  /** Requests sent, plus the one still to be sent, never outnumber the committed starts. */
  predicate RequestsCovered(w: World, operation: OperationId) {
    var h := History(w.ledger, operation);
    && (operation in w.ready ==> h != [] && h[|h| - 1].state == AttemptStarted)
    && w.requests[operation] + (if operation in w.ready then 1 else 0) <= Attempts(h)
  }

  ghost predicate LawfulFor(w: World, operation: OperationId) {
    IsChain(History(w.ledger, operation)) && RequestsCovered(w, operation)
  }

  ghost predicate Lawful(w: World) {
    forall operation: OperationId :: LawfulFor(w, operation)
  }

  ghost predicate Continues(h: seq<LedgerRecord>, r: LedgerRecord) {
    if h == [] then r == FirstRow(r.operation, r.key) else Follows(h[|h| - 1], r)
  }

  lemma AppendKeepsChain(h: seq<LedgerRecord>, r: LedgerRecord)
    requires IsChain(h) && Continues(h, r)
    ensures IsChain(h + [r])
    ensures Attempts(h + [r]) == Attempts(h) + if r.state == AttemptStarted then 1 else 0
  {
    hide Follows;
    assert (h + [r])[..|h|] == h;
  }

  /** One appended row, with the operations ready afterwards. */
  lemma AppendIsLawful(w: World, r: LedgerRecord, ready: set<OperationId>, operation: OperationId)
    requires LawfulFor(w, operation)
    requires r.operation == operation ==> Continues(History(w.ledger, operation), r)
    requires r.operation == operation ==> (operation in ready ==> r.state == AttemptStarted)
    requires r.operation != operation ==> (operation in ready ==> operation in w.ready)
    ensures LawfulFor(World(w.ledger + [r], ready, w.requests), operation)
  {
    hide IsChain, History, Follows, Attempts;
    HistoryGrows(w.ledger, r, operation);
    var h := History(w.ledger, operation);
    if r.operation == operation {
      AppendKeepsChain(h, r);
      if h != [] {
        FollowsSummary(h[|h| - 1], r);
      }
    }
  }

  /** Under the discipline, a caller's record is the operation's last row. */
  lemma CallersHoldTheLast(w: World, operation: OperationId, found: Option<LedgerRecord>)
    requires LawfulFor(w, operation) && IsLatest(w.ledger, operation, found)
    ensures Last(History(w.ledger, operation)) == found
    ensures found.None? ==> operation !in w.ready
    ensures found.Some? ==> found.value.operation == operation && Summary(History(w.ledger, operation))
  {
    ChainFacts(w.ledger, operation);
  }

  /** A step that writes nothing: at most a request leaves the ready ones. */
  lemma QuietIsLawful(w: World, ready: set<OperationId>, sent: set<OperationId>, operation: OperationId)
    requires LawfulFor(w, operation) && ready <= w.ready && sent <= w.ready - ready
    ensures LawfulFor(World(w.ledger, ready, w.requests + multiset(sent)), operation)
  {
  }

  lemma StepIsLawful(w: World, a: Action, operation: OperationId)
    requires Lawful(w) && Enabled(w, a)
    ensures LawfulFor(Apply(w, a), operation)
  {
    hide LawfulFor, History, IsLatest, Summary;
    assert LawfulFor(w, operation);
    match a
    case Begin(o, key, found, written) =>
      assert LawfulFor(w, o);
      CallersHoldTheLast(w, o, found);
      if found.None? && written {
        AppendIsLawful(w, FirstRow(o, key), w.ready, operation);
      }
    case Retry(current, written) =>
      assert LawfulFor(w, current.operation);
      CallersHoldTheLast(w, current.operation, Some(current));
      if EligibleRetry(current).Ok? && written {
        AppendIsLawful(w, EligibleRetry(current).value, w.ready + {current.operation}, operation);
      }
    case Mark(current, written) =>
      assert LawfulFor(w, current.operation);
      CallersHoldTheLast(w, current.operation, Some(current));
      if written {
        AppendIsLawful(w, Started(current), w.ready + {current.operation}, operation);
      }
    case Classify(current, outcome, hint, written) =>
      assert LawfulFor(w, current.operation);
      CallersHoldTheLast(w, current.operation, Some(current));
      if written {
        AppendIsLawful(w, Classified(current, outcome, hint), w.ready - {current.operation}, operation);
      } else {
        QuietIsLawful(w, w.ready - {current.operation}, {}, operation);
        assert w.requests + multiset({}) == w.requests;
      }
    case SendRequest(o) =>
      QuietIsLawful(w, w.ready - {o}, {o}, operation);
      assert multiset({o}) == multiset{o};
    case Crash =>
      QuietIsLawful(w, {}, {}, operation);
      assert w.requests + multiset({}) == w.requests;
  }

  lemma {:induction false} RunIsLawful(run: seq<World>, actions: seq<Action>, i: nat)
    requires IsRun(run, actions) && i < |run|
    ensures Lawful(run[i])
  {
    if i > 0 {
      RunIsLawful(run, actions, i - 1);
      assert IsStep(run, actions, i - 1);
      forall operation: OperationId
        ensures LawfulFor(run[i], operation)
      {
        StepIsLawful(run[i - 1], actions[i - 1], operation);
      }
    }
  }

  // ---- which step wrote which row

  /** The step is what a row in this state comes from. */
  predicate WrittenBy(r: LedgerRecord, a: Action) {
    match r.state
    case Pending => a.Begin? && a.operation == r.operation && a.key == r.key
    case AttemptStarted =>
      (a.Retry? && a.current.state == KnownNoSendRetryable) || (a.Mark? && a.current.state == Pending)
    case Succeeded => a.Classify? && a.outcome == Delivered(r.locator)
    case Ambiguous => a.Classify? && a.outcome == Unclear && r.failure == a.hint
    case KnownNoSendRetryable => a.Classify? && a.outcome == KnownNoSend && r.attemptCount < 3
    case DefinitiveFailed =>
      && a.Classify?
      && ((a.outcome == Refused && r.failure == a.hint) || (a.outcome == KnownNoSend && r.attemptCount == 3))
    case _ => false
  }

  ghost predicate Accounted(run: seq<World>, actions: seq<Action>, i: nat, k: nat)
    requires i < |run| && |actions| + 1 == |run| && k < |run[i].ledger|
  {
    exists m :: 0 <= m < i && run[m + 1].ledger == run[m].ledger + [run[i].ledger[k]]
                && |run[m].ledger| == k && WrittenBy(run[i].ledger[k], actions[m])
  }

  lemma StepWrites(w: World, a: Action)
    requires Lawful(w) && Enabled(w, a)
    ensures var after := Apply(w, a).ledger;
            || after == w.ledger
            || (|after| == |w.ledger| + 1 && after[..|w.ledger|] == w.ledger && WrittenBy(after[|w.ledger|], a))
  {
    hide IsChain, History, IsLatest, Summary, Attempts;
    match a
    case Begin(o, key, found, written) =>
    case Retry(current, written) =>
    case Mark(current, written) =>
    case Classify(current, outcome, hint, written) =>
      assert LawfulFor(w, current.operation);
      CallersHoldTheLast(w, current.operation, Some(current));
      LastAttempts(History(w.ledger, current.operation));
      OutcomeSays(current, outcome, hint);
    case SendRequest(_) =>
    case Crash =>
  }

  lemma LastAttempts(h: seq<LedgerRecord>)
    requires h != [] && Summary(h)
    ensures h[|h| - 1].attemptCount <= 3
  {
  }

  /**
   Every row of every run was appended by the step its state names: pending by a begin, a start by
   a mark or a retry, and an ending by the classification of just that answer. So an operation is
   ambiguous exactly when an unclear answer was classified, and failed for good only when it was
   refused or known not sent at the third attempt.
   */
  lemma {:induction false} EveryRowSaysItsStep(run: seq<World>, actions: seq<Action>, i: nat, k: nat)
    requires IsRun(run, actions) && i < |run| && k < |run[i].ledger|
    ensures Accounted(run, actions, i, k)
  {
    hide IsRun, Lawful, WrittenBy, Apply, Enabled;
    RunShape(run, actions);
    if i > 0 {
      var before, after := run[i - 1], run[i];
      RunIsLawful(run, actions, i - 1);
      StepOf(run, actions, i - 1);
      StepWrites(before, actions[i - 1]);
      if k < |before.ledger| {
        EveryRowSaysItsStep(run, actions, i - 1, k);
        assert after.ledger[k] == before.ledger[k];
      } else {
        assert after.ledger == before.ledger + [after.ledger[k]];
      }
    }
  }

  lemma RunShape(run: seq<World>, actions: seq<Action>)
    requires IsRun(run, actions)
    ensures |run| == |actions| + 1 && run[0].ledger == []
  {
  }

  lemma StepOf(run: seq<World>, actions: seq<Action>, i: nat)
    requires IsRun(run, actions) && i < |actions|
    ensures |run| == |actions| + 1 && Enabled(run[i], actions[i]) && run[i + 1] == Apply(run[i], actions[i])
  {
    assert IsStep(run, actions, i);
  }

  // ---- what holds over every run

  /** One key, gapless generations in append order, at most three attempts and seven rows. */
  lemma EveryRunKeepsTheProtocol(run: seq<World>, actions: seq<Action>, i: nat, operation: OperationId)
    requires IsRun(run, actions) && i < |run|
    ensures OperationFacts(run[i].ledger, operation)
    ensures run[i].requests[operation] <= Attempts(History(run[i].ledger, operation))
  {
    RunIsLawful(run, actions, i);
    assert LawfulFor(run[i], operation);
    ChainFacts(run[i].ledger, operation);
  }

  /** No row schedules a retry, names a failure before there is one, or a destination before success. */
  lemma EveryRowIsConsistent(run: seq<World>, actions: seq<Action>, i: nat, r: LedgerRecord)
    requires IsRun(run, actions) && i < |run| && r in run[i].ledger
    ensures RowCarries(r)
  {
    hide IsRun, RowCarries, IsChain;
    RunIsLawful(run, actions, i);
    assert LawfulFor(run[i], r.operation);
    var h := History(run[i].ledger, r.operation);
    assert r in h;
    var k: nat :| k < |h| && h[k] == r;
    ChainCarries(h, k);
  }

  /** A request goes out only after its own start is committed and is still the latest row. */
  lemma DurableBeforeRequest(run: seq<World>, actions: seq<Action>, i: nat)
    requires IsRun(run, actions) && i < |actions| && actions[i].SendRequest?
    ensures var h := History(run[i].ledger, actions[i].operation);
            && h != [] && h[|h| - 1].state == AttemptStarted
            && run[i].requests[actions[i].operation] < h[|h| - 1].attemptCount <= MAX_ATTEMPTS
  {
    RunIsLawful(run, actions, i);
    assert IsStep(run, actions, i);
    var operation := actions[i].operation;
    assert LawfulFor(run[i], operation);
    ChainFacts(run[i].ledger, operation);
  }

  /** A retry is refused only for not being one: the attempt limit is never what stops it. */
  lemma AttemptsNeverExhausted(run: seq<World>, actions: seq<Action>, i: nat)
    requires IsRun(run, actions) && i < |actions| && actions[i].Retry?
    ensures EligibleRetry(actions[i].current).Ok? <==> actions[i].current.state == KnownNoSendRetryable
    ensures EligibleRetry(actions[i].current) != Err(AttemptsExhausted)
  {
    var current := actions[i].current;
    EveryRunKeepsTheProtocol(run, actions, i, current.operation);
    assert IsStep(run, actions, i);
    assert IsLatest(run[i].ledger, current.operation, Some(current));
  }

  /** A duplicate invocation answers with the latest row, writes nothing and sends nothing. */
  lemma ReplayIsFree(run: seq<World>, actions: seq<Action>, i: nat)
    requires IsRun(run, actions) && i < |actions| && actions[i].Begin?
    ensures var h := History(run[i].ledger, actions[i].operation);
            h != [] ==>
              && run[i + 1] == run[i]
              && BeginOrReplay(actions[i].found, actions[i].operation, actions[i].key) ==
                   if h[0].key == actions[i].key then Ok(Replayed(h[|h| - 1]))
                   else Err(Collision(h[0].key, actions[i].key))
  {
    EveryRunKeepsTheProtocol(run, actions, i, actions[i].operation);
    assert IsStep(run, actions, i);
    assert IsLatest(run[i].ledger, actions[i].operation, actions[i].found);
  }

  ghost predicate Finished(w: World, operation: OperationId) {
    var last := Last(History(w.ledger, operation));
    last.Some? && IsFinal(last.value.state)
  }

  lemma FinalStep(w: World, a: Action, operation: OperationId)
    requires Lawful(w) && Enabled(w, a) && Finished(w, operation)
    ensures History(Apply(w, a).ledger, operation) == History(w.ledger, operation)
    ensures Apply(w, a).requests[operation] == w.requests[operation]
  {
    hide IsChain, History, IsLatest, Summary, Attempts;
    assert LawfulFor(w, operation);
    match a
    case Begin(o, key, found, written) =>
      assert LawfulFor(w, o);
      CallersHoldTheLast(w, o, found);
      HistoryGrows(w.ledger, FirstRow(o, key), operation);
    case Retry(current, written) =>
      assert LawfulFor(w, current.operation);
      CallersHoldTheLast(w, current.operation, Some(current));
      if EligibleRetry(current).Ok? {
        HistoryGrows(w.ledger, EligibleRetry(current).value, operation);
      }
    case Mark(current, written) =>
      assert LawfulFor(w, current.operation);
      CallersHoldTheLast(w, current.operation, Some(current));
      HistoryGrows(w.ledger, Started(current), operation);
    case Classify(current, outcome, hint, written) =>
      assert LawfulFor(w, current.operation);
      CallersHoldTheLast(w, current.operation, Some(current));
      HistoryGrows(w.ledger, Classified(current, outcome, hint), operation);
    case SendRequest(_) =>
    case Crash =>
  }

  /** Once succeeded, failed for good or ambiguous, an operation gets no further row and no further request. */
  lemma {:induction false} FinishedStaysFinished(run: seq<World>, actions: seq<Action>, i: nat, j: nat,
                                                 operation: OperationId)
    requires IsRun(run, actions) && i <= j < |run|
    requires Finished(run[i], operation)
    ensures History(run[j].ledger, operation) == History(run[i].ledger, operation)
    ensures run[j].requests[operation] == run[i].requests[operation]
    decreases j
  {
    hide Apply, Enabled, History, IsFinal;
    if i < j {
      FinishedStaysFinished(run, actions, i, j - 1, operation);
      RunIsLawful(run, actions, j - 1);
      assert IsStep(run, actions, j - 1);
      FinalStep(run[j - 1], actions[j - 1], operation);
    }
  }

  /**
   The discipline matters: starting again from the pending record of an operation that has
   moved on writes a second row of generation 1 and a start no row counts.
   */
  lemma StaleStartBreaksTheLedger(run: seq<World>, actions: seq<Action>, i: nat, operation: OperationId)
    requires IsRun(run, actions) && i < |run|
    requires |History(run[i].ledger, operation)| >= 2
    ensures var h := History(run[i].ledger, operation);
            var h' := History(run[i].ledger + [Started(h[0])], operation);
            && !Enabled(run[i], Mark(h[0], true))
            && h' == h + [Started(h[0])]
            && h'[|h|].generation == h'[1].generation == 1
            && Attempts(h') == Attempts(h) + 1
            && forall k :: 0 <= k < |h'| ==> h'[k].attemptCount < Attempts(h')
  {
    hide IsRun, IsLatest, Started, History, Attempts, IsChain;
    EveryRunKeepsTheProtocol(run, actions, i, operation);
    RunIsLawful(run, actions, i);
    assert LawfulFor(run[i], operation);
    var h := History(run[i].ledger, operation);
    assert h[0] in h;
    assert h[0] != h[|h| - 1];
    StaleStart(h);
    HistoryGrows(run[i].ledger, Started(h[0]), operation);
  }

  lemma StaleStart(h: seq<LedgerRecord>)
    requires IsChain(h) && |h| >= 2
    ensures var h' := h + [Started(h[0])];
            && Started(h[0]).operation == h[0].operation
            && h'[|h|].generation == h'[1].generation == 1
            && Attempts(h') == Attempts(h) + 1
            && forall k :: 0 <= k < |h'| ==> h'[k].attemptCount < Attempts(h')
  {
    hide Follows, IsChain, Attempts;
    ChainRows(h);
    ChainStartsAtZero(h);
    StartCounts(h);
    NoRowCountsMore(h);
  }

  lemma NoRowCountsMore(h: seq<LedgerRecord>)
    requires IsChain(h) && |h| >= 2
    ensures Attempts(h) >= 1
    ensures forall k :: 0 <= k < |h| ==> h[k].attemptCount <= Attempts(h)
  {
    hide Follows, IsChain, Attempts;
    ChainSummary(h);
    forall k | 0 <= k < |h| ensures h[k].attemptCount <= Attempts(h) {
      EarlierAttempts(h, k);
    }
  }

  lemma ChainStartsAtZero(h: seq<LedgerRecord>)
    requires IsChain(h) && h != []
    ensures h[0].attemptCount == 0 && h[0].generation == 0
  {
  }

  lemma StartCounts(h: seq<LedgerRecord>)
    requires h != []
    ensures Attempts(h + [Started(h[0])]) == Attempts(h) + 1
  {
    assert (h + [Started(h[0])])[..|h|] == h;
  }

  lemma EarlierAttempts(h: seq<LedgerRecord>, k: nat)
    requires IsChain(h) && k < |h|
    ensures h[k].attemptCount <= Attempts(h)
  {
    hide Follows, IsChain, Attempts;
    var before := h[..k + 1];
    ChainPrefix(h, k + 1);
    ChainSummary(before);
    assert before[|before| - 1] == h[k];
    AttemptsGrow(h, k + 1);
  }

  lemma ChainPrefix(h: seq<LedgerRecord>, k: nat)
    requires IsChain(h) && k <= |h|
    ensures IsChain(h[..k])
  {
    hide Follows;
    forall i | 0 < i < k ensures Follows(h[..k][i - 1], h[..k][i]) {
      assert Follows(h[i - 1], h[i]);
    }
  }

  lemma {:induction false} AttemptsGrow(h: seq<LedgerRecord>, k: nat)
    requires k <= |h|
    ensures Attempts(h[..k]) <= Attempts(h)
  {
    if k == |h| {
      assert h[..k] == h;
    } else {
      AttemptsGrow(h[..|h| - 1], k);
      assert h[..|h| - 1][..k] == h[..k];
    }
  }
}
