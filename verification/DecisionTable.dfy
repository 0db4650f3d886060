/** One window's table of decisions: lookups, expiry, the cap and the reminder life cycle. */
module DecisionTable {
  import opened Wrappers
  import opened Bytes
  import opened Credentials
  import opened DecisionBlob

  const TERMINAL_EXPIRY_SECONDS: int := 180 * 86400

  predicate IsTerminal(d: Decision) { d in {Done, Dismissed, Moot} }

  /** Aged out: terminal, without a reminder, and untouched for long enough. A release build wraps the difference. */
  predicate Expired(r: Record, now: I64) {
    r.reminder.NoReminder? && IsTerminal(r.decision) && WrapI64(now - r.updated) >= TERMINAL_EXPIRY_SECONDS
  }

  function Blank(key: Key): Record { Record(key, Review, NoReminder, 0) }

  /** The index of the key's first record, or the table's length. */
  function IndexOf(records: seq<Record>, key: Key): (i: nat)
    ensures i <= |records|
    ensures forall j :: 0 <= j < i ==> records[j].key != key
    ensures i < |records| ==> records[i].key == key
  {
    if records == [] then 0 else if records[0].key == key then 0 else 1 + IndexOf(records[1..], key)
  }

  function Lookup(records: seq<Record>, key: Key): (r: Record)
    ensures r.key == key
    ensures (forall i :: 0 <= i < |records| ==> records[i].key != key) ==> r == Record(key, Review, NoReminder, 0)
  {
    var i := IndexOf(records, key);
    if i < |records| then records[i] else Blank(key)
  }

  function Retained(records: seq<Record>, now: I64): (kept: seq<Record>)
    ensures |kept| <= |records|
    ensures forall r :: r in kept <==> r in records && !Expired(r, now)
  {
    if records == [] then []
    else
      var last := records[|records| - 1];
      assert records == records[..|records| - 1] + [last];
      Retained(records[..|records| - 1], now) + if Expired(last, now) then [] else [last]
  }

  /** The table after an update, or None at the cap. */
  function UpdatedTable(records: seq<Record>, record: Record, now: I64): Option<seq<Record>> {
    var kept := Retained(records, now);
    var i := IndexOf(kept, record.key);
    if i < |kept| then Some(kept[i := record])
    else if |kept| >= CAP then None
    else Some(kept + [record])
  }

  lemma LookupIn(records: seq<Record>, r: Record)
    requires DistinctKeys(records) && r in records
    ensures Lookup(records, r.key) == r
  {
    var i :| 0 <= i < |records| && records[i] == r;
    var j := IndexOf(records, r.key);
    assert j <= i;
    assert !(j < i);
  }

  lemma LookupNotIn(records: seq<Record>, key: Key)
    requires forall r :: r in records ==> r.key != key
    ensures Lookup(records, key) == Blank(key)
  {
    var j := IndexOf(records, key);
    if j < |records| {
      assert records[j] in records;
    }
  }

  lemma LookupCases(records: seq<Record>, key: Key)
    ensures Lookup(records, key) in records
            || (Lookup(records, key) == Blank(key) && forall r :: r in records ==> r.key != key)
  {
  }

  lemma {:induction false} RetainedDistinct(records: seq<Record>, now: I64)
    requires DistinctKeys(records)
    ensures DistinctKeys(Retained(records, now))
  {
    if records != [] {
      var n := |records| - 1;
      var before := Retained(records[..n], now);
      RetainedDistinct(records[..n], now);
      forall i | 0 <= i < |before| ensures before[i].key != records[n].key {
        assert before[i] in before;
        var j :| 0 <= j < n && records[..n][j] == before[i];
        assert records[j].key != records[n].key;
      }
    }
  }

  lemma LookupRetained(records: seq<Record>, now: I64, key: Key)
    requires DistinctKeys(records)
    ensures Lookup(Retained(records, now), key) ==
              if Expired(Lookup(records, key), now) then Blank(key) else Lookup(records, key)
  {
    hide Expired, Lookup, Retained;
    var kept := Retained(records, now);
    var r := Lookup(records, key);
    RetainedDistinct(records, now);
    LookupCases(records, key);
    BlankStays(key, now);
    if r in records && !Expired(r, now) {
      LookupIn(kept, r);
    } else {
      forall s | s in kept ensures s.key != key {
        if s.key == key {
          LookupIn(records, s);
        }
      }
      LookupNotIn(kept, key);
    }
  }

  lemma BlankStays(key: Key, now: I64)
    ensures !Expired(Blank(key), now)
  {
  }

  lemma PutLookup(kept: seq<Record>, record: Record, key: Key)
    requires DistinctKeys(kept)
    ensures var i := IndexOf(kept, record.key);
            var after := if i < |kept| then kept[i := record] else kept + [record];
            && DistinctKeys(after)
            && Lookup(after, key) == if key == record.key then record else Lookup(kept, key)
  {
    hide Lookup, IndexOf;
    var i := IndexOf(kept, record.key);
    var after := if i < |kept| then kept[i := record] else kept + [record];
    assert DistinctKeys(after);
    assert record in after by {
      assert after[i] == record;
    }
    if key == record.key {
      LookupIn(after, record);
    } else {
      LookupCases(kept, key);
      var r := Lookup(kept, key);
      if r in kept {
        var j :| 0 <= j < |kept| && kept[j] == r;
        assert after[j] == r;
        LookupIn(after, r);
      } else {
        forall s | s in after ensures s.key != key {
          var j :| 0 <= j < |after| && after[j] == s;
          if j != i {
            assert kept[j] in kept;
          }
        }
        LookupNotIn(after, key);
      }
    }
  }

  /** An update sets its own key and changes no other, except that aged-out decisions go. */
  lemma UpdateSetsOneKey(records: seq<Record>, record: Record, now: I64, key: Key)
    requires DistinctKeys(records) && UpdatedTable(records, record, now).Some?
    ensures var after := UpdatedTable(records, record, now).value;
            && DistinctKeys(after)
            && (|records| <= CAP ==> |after| <= CAP)
            && Lookup(after, key) ==
                 if key == record.key then record
                 else if Expired(Lookup(records, key), now) then Blank(key)
                 else Lookup(records, key)
  {
    hide Expired, Lookup, IndexOf, Retained;
    RetainedDistinct(records, now);
    LookupRetained(records, now, key);
    PutLookup(Retained(records, now), record, key);
  }

  /**
   The cap turns away only a key the table does not hold, and only when nothing in a full table has
   aged out enough.
  */
  lemma CapOnlyRefusesNewKeys(records: seq<Record>, record: Record, now: I64)
    ensures UpdatedTable(records, record, now).None? <==>
              |Retained(records, now)| >= CAP && forall r :: r in Retained(records, now) ==> r.key != record.key
  {
    var kept := Retained(records, now);
    var i := IndexOf(kept, record.key);
    if i < |kept| {
      assert kept[i] in kept;
    }
  }

  /** A decision that still matters: it carries a reminder, or has not come to an end. */
  predicate IsLive(r: Record) {
    !r.reminder.NoReminder? || r.decision == Review || r.decision == Mine || r.decision == Watching
  }

  /**
   An update changes another key's answer exactly when that was done, dismissed or moot, carried no
   reminder and was last touched 180 days ago or more; it then answers as if never decided.
   */
  lemma OnlyAgedOutGo(records: seq<Record>, record: Record, now: I64, key: Key)
    requires DistinctKeys(records) && UpdatedTable(records, record, now).Some? && key != record.key
    requires -0x8000_0000_0000_0000 <= now - Lookup(records, key).updated < 0x8000_0000_0000_0000
    ensures var r, after := Lookup(records, key), Lookup(UpdatedTable(records, record, now).value, key);
            && (after != r <==>
                  && r.reminder == NoReminder && (r.decision == Done || r.decision == Dismissed || r.decision == Moot)
                  && now - r.updated >= 15_552_000)
            && (after != r ==> after == Record(key, Review, NoReminder, 0))
  {
    hide Lookup, UpdatedTable;
    UpdateSetsOneKey(records, record, now, key);
  }

  /** No update of another key loses a decision that carries a reminder or is open, followed or watched. */
  lemma LiveDecisionsSurvive(records: seq<Record>, record: Record, now: I64, key: Key)
    requires DistinctKeys(records) && UpdatedTable(records, record, now).Some? && key != record.key
    requires IsLive(Lookup(records, key))
    ensures Lookup(UpdatedTable(records, record, now).value, key) == Lookup(records, key)
  {
    hide Lookup, UpdatedTable;
    UpdateSetsOneKey(records, record, now, key);
  }

  // ---- what the application writes

  datatype CreateResult = TaskCreated(provider: MailProvider, listId: Text, taskId: Text) | NotCreated | Uncertain

  datatype Change =
    | Begin
    | Decide(decision: Decision)
    | CreateOutcome(result: CreateResult)
    | SyncOutcome(taskCompleted: bool)
    | Reconcile(taskExists: bool, fallback: MailProvider)
    | DispatchFailed

  /** The record a change would save for a key, or None where the application saves nothing. */
  function Changed(r: Record, change: Change, now: I64): Option<Record> {
    match change
    case Begin =>
      if (r.decision == Mine || r.decision == Watching) && r.reminder == NoReminder
      then Some(r.(reminder := Attempted, updated := now)) else None
    case Decide(decision) => Some(r.(decision := decision, updated := now))
    case CreateOutcome(result) =>
      var reminder := match result
        case TaskCreated(provider, listId, taskId) => Created(provider, listId, taskId)
        case NotCreated => NoReminder
        case Uncertain => r.reminder;
      Some(r.(reminder := reminder, updated := now))
    case SyncOutcome(taskCompleted) =>
      if taskCompleted && r.reminder.Created?
      then Some(r.(decision := Done, reminder := Completed(r.reminder.provider, r.reminder.listId, r.reminder.taskId),
                   updated := now))
      else None
    case Reconcile(taskExists, fallback) =>
      var provider := if HasIds(r.reminder) then r.reminder.provider else fallback;
      Some(r.(reminder := if taskExists then Created(provider, [], []) else NoReminder, updated := now))
    case DispatchFailed => Some(r.(reminder := NoReminder, updated := now))
  }

  /** The answers that say no task exists. */
  predicate SaysNoTask(change: Change) {
    || change == CreateOutcome(NotCreated)
    || (change.Reconcile? && !change.taskExists)
    || change == DispatchFailed
  }

  /** Only an answer that no task exists takes a reminder away. */
  lemma OnlyNoTaskClears(r: Record, change: Change, now: I64)
    requires Changed(r, change, now).Some? && !r.reminder.NoReminder?
    ensures Changed(r, change, now).value.key == r.key
    ensures Changed(r, change, now).value.reminder.NoReminder? <==> SaysNoTask(change)
  {
  }

  /** Nothing is saved for a begin on a card not followed or with a reminder, or a sync that completes no task. */
  lemma ChangeRefusedIff(r: Record, change: Change, now: I64)
    ensures Changed(r, change, now).None? <==>
              || (change.Begin? && (r.reminder != NoReminder || (r.decision != Mine && r.decision != Watching)))
              || (change.SyncOutcome? && (!change.taskCompleted || !r.reminder.Created?))
  {
  }

  /** Each change says what becomes of the decision and the reminder. */
  lemma ChangeSays(r: Record, change: Change, now: I64)
    requires Changed(r, change, now).Some?
    ensures var after := Changed(r, change, now).value;
            && (after.decision != r.decision ==>
                  change == Decide(after.decision) || (change.SyncOutcome? && after.decision == Done))
            && (change.Decide? ==> after.decision == change.decision)
            && (change.SyncOutcome? ==> after.decision == Done && after.reminder.Completed? && r.reminder.Created?)
            && (change.Begin? ==> after.reminder == Attempted)
            && (change.Decide? || change == CreateOutcome(Uncertain) ==> after.reminder == r.reminder)
            && (change.CreateOutcome? && change.result.TaskCreated? ==> after.reminder.Created?)
            && (change.Reconcile? && change.taskExists ==> after.reminder.Created?)
  {
  }

  /** A linked task is the one the change reports created, or was linked before; a reconciled one has no ids. */
  lemma TaskIdsAreReported(r: Record, change: Change, now: I64)
    requires Changed(r, change, now).Some? && HasIds(Changed(r, change, now).value.reminder)
    ensures var task := Changed(r, change, now).value.reminder;
            || change == CreateOutcome(TaskCreated(task.provider, task.listId, task.taskId))
            || (change.Reconcile? && task.listId == task.taskId == []
                && task.provider == if HasIds(r.reminder) then r.reminder.provider else change.fallback)
            || (HasIds(r.reminder) && task.provider == r.reminder.provider
                && task.listId == r.reminder.listId && task.taskId == r.reminder.taskId)
  {
  }

  /** A change sets the decision only when told to or when the task was completed, and renames no linked task. */
  lemma ChangeTouchesOnly(r: Record, change: Change, now: I64)
    requires Changed(r, change, now).Some?
    ensures var after := Changed(r, change, now).value;
            && after.key == r.key && after.updated == now
            && (after.decision != r.decision
                ==> (after.decision == Done && change.SyncOutcome?) || change == Decide(after.decision))
            && (HasIds(r.reminder) && HasIds(after.reminder) && !change.CreateOutcome? && !change.Reconcile? ==>
                  && after.reminder.provider == r.reminder.provider
                  && after.reminder.listId == r.reminder.listId && after.reminder.taskId == r.reminder.taskId)
            && (after.reminder.Attempted? && !r.reminder.Attempted? ==> change == Begin && r.reminder.NoReminder?)
            && (after.reminder.Completed? && !r.reminder.Completed? ==> r.reminder.Created? && after.decision == Done)
  {
  }
}
