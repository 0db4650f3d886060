/** Several windows over one stored blob. */
module DecisionWindows {
  import opened Wrappers
  import opened Bytes
  import opened Credentials
  import opened DecisionBlob
  import opened DecisionTable

  /** opening: loaded from an absent blob and not yet saved for the first time. */
  datatype Window = Window(secret: Key, records: seq<Record>, previous: Bytes, opening: bool, failed: bool)

  /** A new window's state, with the random secret it would start a fresh table with. */
  function Loaded(stored: Option<Bytes>, random: Key, readable: bool): Window {
    if !readable then Window(random, [], [], false, true)
    else match stored
      case None => Window(random, [], [], true, false)
      case Some(bytes) =>
        match Decode(bytes)
        case Some((secret, records)) => Window(secret, records, bytes, false, false)
        case None => Window(random, [], bytes, false, !(OLD_MAGIC <= bytes))
  }

  /**
   A save compares what is stored with what the window last saw, under a lock, and replaces it only
   when they agree. The blob it leaves behind, or None when it fails; `reachable` is whether lock
   and store answered.
   */
  function SavedBlob(secret: Key, records: seq<Record>, previous: Bytes, stored: Option<Bytes>,
                     reachable: bool): Option<Bytes> {
    var blob := Encode(secret, records);
    if blob.Some? && reachable && Held(stored) == previous then blob else None
  }

  datatype Saved = Saved(window: Window, stored: Option<Bytes>, ok: bool)

  function InitialSave(w: Window, stored: Option<Bytes>, reachable: bool): Saved {
    match SavedBlob(w.secret, w.records, w.previous, stored, reachable)
    case Some(blob) => Saved(w.(previous := blob, opening := false), Some(blob), true)
    case None => Saved(w.(opening := false, failed := true), stored, false)
  }

  function UpdateWindow(w: Window, stored: Option<Bytes>, record: Record, clock: I64, reachable: bool): Saved {
    if w.failed then Saved(w, stored, false)
    else match UpdatedTable(w.records, record, clock)
      case None => Saved(w, stored, false)
      case Some(table) =>
        match SavedBlob(w.secret, table, w.previous, stored, reachable)
        case Some(blob) => Saved(w.(records := table, previous := blob), Some(blob), true)
        case None => Saved(w.(failed := true), stored, false)
  }

  /** One change of one key: the record is computed from the window's own table. */
  function ChangeWindow(w: Window, stored: Option<Bytes>, key: Key, change: Change, now: I64, clock: I64,
                        reachable: bool): Saved {
    match Changed(Lookup(w.records, key), change, now)
    case None => Saved(w, stored, false)
    case Some(record) => UpdateWindow(w, stored, record, clock, reachable)
  }

  /**
   A refused change leaves a window as it was; one that could not be saved leaves its decisions as
   they were and fails it.
   */
  lemma WhatARefusalLeaves(w: Window, stored: Option<Bytes>, record: Record, clock: I64, reachable: bool)
    requires !UpdateWindow(w, stored, record, clock, reachable).ok
    ensures var s := UpdateWindow(w, stored, record, clock, reachable);
            && s.stored == stored && s.window == w.(failed := s.window.failed)
            && (s.window.failed <==> w.failed || UpdatedTable(w.records, record, clock).Some?)
  {
    hide Encode, UpdatedTable;
  }

  /**
   A change is saved exactly when lock and store answer, the window has not failed, what is stored is
   what it saw last, the change is allowed and the table it makes has room and fits into a blob.
   */
  lemma SavedIff(w: Window, stored: Option<Bytes>, key: Key, change: Change, now: I64, clock: I64, reachable: bool)
    ensures var s := ChangeWindow(w, stored, key, change, now, clock, reachable);
            var record := Changed(Lookup(w.records, key), change, now);
            && (s.ok <==>
                  && reachable && !w.failed && Held(stored) == w.previous
                  && record.Some? && UpdatedTable(w.records, record.value, clock).Some?
                  && Encode(w.secret, UpdatedTable(w.records, record.value, clock).value).Some?)
            && (s.ok ==>
                  && Some(s.window.records) == UpdatedTable(w.records, record.value, clock)
                  && s.stored == Encode(w.secret, s.window.records) == Some(s.window.previous))
  {
    hide Encode, UpdatedTable, Changed, Lookup;
  }

  /** The first save of a fresh table, too, needs lock and store and a credential as it was seen. */
  lemma FirstSaveIff(w: Window, stored: Option<Bytes>, reachable: bool)
    ensures var s := InitialSave(w, stored, reachable);
            && (s.ok <==> reachable && Held(stored) == w.previous && Encode(w.secret, w.records).Some?)
            && (s.ok ==> s.stored == Encode(w.secret, w.records) == Some(s.window.previous))
            && !s.window.opening && (s.window.failed <==> w.failed || !s.ok)
  {
    hide Encode;
  }

  /**
   A window opens failed only on a blob that could not be read or is neither a table nor one of
   the previous format; a blob of that format opens as an empty table under a new secret.
   */
  lemma OpensFailedIff(stored: Option<Bytes>, random: Key, readable: bool)
    ensures var w := Loaded(stored, random, readable);
            && (w.failed <==> !readable || (stored.Some? && Decode(stored.value).None? && !(OLD_MAGIC <= stored.value)))
            && (!w.failed ==> w.previous == Held(stored) && w.records == TableOf(stored))
            && (!w.failed && Decode(Held(stored)).None? ==> w.secret == random)
            && (w.opening <==> readable && stored.None?)
  {
    hide Decode;
    EmptyIsNoBlob();
  }

  // ---- what the stored blob says

  function TableOf(stored: Option<Bytes>): seq<Record> {
    var d := Decode(Held(stored));
    if d.Some? then d.value.1 else []
  }

  function SecretOf(stored: Option<Bytes>): Option<Key> {
    var d := Decode(Held(stored));
    if d.Some? then Some(d.value.0) else None
  }

  /** A window that has not failed holds exactly the table of the blob it last saw. */
  predicate InStep(w: Window) {
    !w.failed ==>
      && DistinctKeys(w.records)
      && match Decode(w.previous)
         case Some((secret, records)) => secret == w.secret && records == w.records
         case None => w.records == [] && (w.previous == [] || OLD_MAGIC <= w.previous)
  }

  lemma LoadedInStep(stored: Option<Bytes>, random: Key, readable: bool)
    ensures InStep(Loaded(stored, random, readable))
  {
    hide Encode;
    if stored.Some? && Decode(stored.value).Some? {
      EncodeInvertsDecode(stored.value);
    }
    EmptyIsNoBlob();
  }

  lemma EmptyIsNoBlob()
    ensures Decode([]).None? && DistinctKeys([])
  {
  }

  lemma InitialSaveInStep(w: Window, stored: Option<Bytes>, reachable: bool)
    requires InStep(w) && w.records == []
    ensures InStep(InitialSave(w, stored, reachable).window)
    ensures var s := InitialSave(w, stored, reachable);
            if s.ok then TableOf(s.stored) == [] && SecretOf(s.stored) == Some(w.secret) && Held(stored) == w.previous
            else s.stored == stored
  {
    hide Decode, Encode;
    EmptyIsNoBlob();
    if SavedBlob(w.secret, w.records, w.previous, stored, reachable).Some? {
      DecodeInvertsEncode(w.secret, w.records);
    }
  }

  /** A successful update is an update of exactly the table stored just before it. */
  lemma UpdateFollowsStored(w: Window, stored: Option<Bytes>, record: Record, clock: I64, reachable: bool)
    requires InStep(w)
    ensures InStep(UpdateWindow(w, stored, record, clock, reachable).window)
    ensures var s := UpdateWindow(w, stored, record, clock, reachable);
            if s.ok then
              && Held(stored) == w.previous
              && w.records == TableOf(stored) && DistinctKeys(TableOf(stored))
              && UpdatedTable(TableOf(stored), record, clock) == Some(TableOf(s.stored))
              && SecretOf(s.stored) == Some(w.secret)
              && (SecretOf(stored).Some? ==> SecretOf(stored) == SecretOf(s.stored))
              && s.stored == Encode(w.secret, TableOf(s.stored))
            else s.stored == stored
  {
    hide Decode, Encode, UpdatedTable;
    if UpdateWindow(w, stored, record, clock, reachable).ok {
      var table := UpdatedTable(w.records, record, clock).value;
      UpdateSetsOneKey(w.records, record, clock, record.key);
      DecodeInvertsEncode(w.secret, table);
    }
  }

  // ---- runs

  datatype World = World(stored: Option<Bytes>, windows: seq<Window>)

  datatype Action =
    | Open(random: Key, readable: bool)
    | FirstSave(window: nat, reachable: bool)
    | ChangeKey(window: nat, key: Key, change: Change, now: I64, clock: I64, reachable: bool)

  predicate Enabled(w: World, a: Action) {
    match a
    case Open(_, _) => true
    case FirstSave(i, _) => i < |w.windows| && w.windows[i].opening
    case ChangeKey(i, _, _, _, _, _) => i < |w.windows| && !w.windows[i].opening
  }

  function SavedBy(w: World, a: Action): Saved
    requires Enabled(w, a) && !a.Open?
  {
    match a
    case FirstSave(i, reachable) => InitialSave(w.windows[i], w.stored, reachable)
    case ChangeKey(i, key, change, now, clock, reachable) =>
      ChangeWindow(w.windows[i], w.stored, key, change, now, clock, reachable)
  }

  function Apply(w: World, a: Action): World
    requires Enabled(w, a)
  {
    if a.Open? then w.(windows := w.windows + [Loaded(w.stored, a.random, a.readable)])
    else
      var s := SavedBy(w, a);
      World(s.stored, w.windows[a.window := s.window])
  }

  predicate IsStep(run: seq<World>, actions: seq<Action>, i: nat)
    requires i < |actions| < |run|
  {
    Enabled(run[i], actions[i]) && run[i + 1] == Apply(run[i], actions[i])
  }

  /** A run starts with any stored blob, or none, and no windows. */
  ghost predicate IsRun(run: seq<World>, actions: seq<Action>) {
    && |run| == |actions| + 1
    && run[0].windows == []
    && forall i :: 0 <= i < |actions| ==> IsStep(run, actions, i)
  }

  predicate Succeeds(w: World, a: Action) {
    !a.Open? && Enabled(w, a) && SavedBy(w, a).ok
  }

  predicate WindowsInStep(w: World) {
    forall i :: 0 <= i < |w.windows| ==>
      InStep(w.windows[i]) && (w.windows[i].opening ==> w.windows[i].records == [] && w.windows[i].previous == [])
  }

  lemma ChangeFollowsStored(w: Window, stored: Option<Bytes>, key: Key, change: Change, now: I64, clock: I64,
                            reachable: bool)
    requires InStep(w)
    ensures InStep(ChangeWindow(w, stored, key, change, now, clock, reachable).window)
    ensures ChangeWindow(w, stored, key, change, now, clock, reachable).window.opening == w.opening
    ensures var s := ChangeWindow(w, stored, key, change, now, clock, reachable);
            if s.ok then
              && Held(stored) == w.previous && DistinctKeys(TableOf(stored))
              && var record := Changed(Lookup(TableOf(stored), key), change, now);
              && record.Some? && record.value.key == key
              && UpdatedTable(TableOf(stored), record.value, clock) == Some(TableOf(s.stored))
              && SecretOf(s.stored) == Some(w.secret)
              && (SecretOf(stored).Some? ==> SecretOf(stored) == SecretOf(s.stored))
            else s.stored == stored
  {
    hide InStep, TableOf, SecretOf, UpdatedTable, Encode, Lookup;
    var record := Changed(Lookup(w.records, key), change, now);
    if record.Some? {
      UpdateFollowsStored(w, stored, record.value, clock, reachable);
    }
  }

  lemma StepKeepsInStep(w: World, a: Action)
    requires WindowsInStep(w) && Enabled(w, a)
    ensures WindowsInStep(Apply(w, a))
  {
    hide InStep, ChangeWindow, TableOf, SecretOf, Encode, Decode;
    match a
    case Open(random, readable) => LoadedInStep(w.stored, random, readable);
    case FirstSave(i, reachable) => InitialSaveInStep(w.windows[i], w.stored, reachable);
    case ChangeKey(i, key, change, now, clock, reachable) =>
      ChangeFollowsStored(w.windows[i], w.stored, key, change, now, clock, reachable);
  }

  lemma {:induction false} RunsStayInStep(run: seq<World>, actions: seq<Action>, i: nat)
    requires IsRun(run, actions) && i < |run|
    ensures WindowsInStep(run[i])
  {
    hide WindowsInStep, Apply, Enabled;
    if i == 0 {
      NoWindowsInStep(run[0]);
    } else {
      RunsStayInStep(run, actions, i - 1);
      assert IsStep(run, actions, i - 1);
      StepKeepsInStep(run[i - 1], actions[i - 1]);
    }
  }

  lemma NoWindowsInStep(w: World)
    requires w.windows == []
    ensures WindowsInStep(w)
  {
  }

  /** What one step may do to the stored blob. */
  ghost predicate FollowsOn(before: Option<Bytes>, a: Action, succeeds: bool, after: Option<Bytes>) {
    if !succeeds then after == before
    else if a.FirstSave? then Held(before) == [] && TableOf(after) == [] && SecretOf(after).Some?
    else
      && a.ChangeKey? && DistinctKeys(TableOf(before))
      && (SecretOf(before).Some? ==> SecretOf(after) == SecretOf(before)) && SecretOf(after).Some?
      && var record := Changed(Lookup(TableOf(before), a.key), a.change, a.now);
      && record.Some? && record.value.key == a.key
      && UpdatedTable(TableOf(before), record.value, a.clock) == Some(TableOf(after))
  }

  /**
   In every interleaving, a save that succeeds stores the change applied to exactly the
   table stored just before it, under the same secret; any other step leaves the blob alone.
   */
  lemma EveryBlobFollowsThePrevious(run: seq<World>, actions: seq<Action>, i: nat)
    requires IsRun(run, actions) && i < |actions|
    ensures FollowsOn(run[i].stored, actions[i], Succeeds(run[i], actions[i]), run[i + 1].stored)
  {
    hide InStep, ChangeWindow, InitialSave, TableOf, SecretOf, Lookup, UpdatedTable;
    RunsStayInStep(run, actions, i);
    var w, a := run[i], actions[i];
    assert IsStep(run, actions, i);
    match a
    case Open(_, _) =>
    case FirstSave(k, reachable) => InitialSaveInStep(w.windows[k], w.stored, reachable);
    case ChangeKey(k, key, change, now, clock, reachable) =>
      ChangeFollowsStored(w.windows[k], w.stored, key, change, now, clock, reachable);
  }

  /** The step shows window k the stored blob: it opens the window, or is a save of its that succeeds. */
  predicate Shows(w: World, a: Action, k: nat) {
    if a.Open? then a.readable && k == |w.windows| else Succeeds(w, a) && a.window == k
  }

  predicate Sees(w: World, k: nat, blob: Bytes) {
    k < |w.windows| && w.windows[k].previous == blob
  }

  lemma ShownIsSeen(w: World, a: Action, k: nat)
    requires Enabled(w, a) && Shows(w, a, k)
    ensures Sees(Apply(w, a), k, Held(Apply(w, a).stored))
  {
    hide Encode, Lookup, UpdatedTable, Changed, Decode;
  }

  lemma UnshownStaysSeen(w: World, a: Action, k: nat, blob: Bytes)
    requires Enabled(w, a) && Sees(w, k, blob) && !Shows(w, a, k)
    ensures Sees(Apply(w, a), k, blob)
  {
    hide Encode, Lookup, UpdatedTable, Changed, Decode;
  }

  /** A window goes on seeing what it was last shown. */
  lemma {:induction false} SightStays(run: seq<World>, actions: seq<Action>, i: nat, j: nat, k: nat, blob: Bytes)
    requires IsRun(run, actions) && i <= j < |run|
    requires Sees(run[i], k, blob)
    requires forall m :: i <= m < j ==> !Shows(run[m], actions[m], k)
    ensures Sees(run[j], k, blob)
    decreases j
  {
    hide Sees, Shows, Apply, Enabled;
    if i < j {
      SightStays(run, actions, i, j - 1, k, blob);
      assert IsStep(run, actions, j - 1);
      UnshownStaysSeen(run[j - 1], actions[j - 1], k, blob);
    }
  }

  lemma UnseenIsNotReplaced(w: World, a: Action)
    requires Enabled(w, a) && !a.Open? && !Sees(w, a.window, Held(w.stored))
    ensures !Succeeds(w, a) && Apply(w, a).stored == w.stored
    ensures GetsToSave(w, a) ==> Apply(w, a).windows[a.window].failed
  {
    hide Encode, Lookup, UpdatedTable, Changed, Decode;
  }

  /** The step has something to save: it is a first save, or its change is allowed and the table has room. */
  predicate GetsToSave(w: World, a: Action)
    requires Enabled(w, a)
  {
    match a
    case Open(_, _) => false
    case FirstSave(_, _) => true
    case ChangeKey(k, key, change, now, clock, _) =>
      var record := Changed(Lookup(w.windows[k].records, key), change, now);
      record.Some? && UpdatedTable(w.windows[k].records, record.value, clock).Some?
  }

  /**
   Over all windows: once the blob is no longer what a window was last shown, when it opened or
   saved, its next save changes nothing and leaves the window failed.
   */
  lemma StaleWindowFails(run: seq<World>, actions: seq<Action>, i: nat, j: nat, k: nat)
    requires IsRun(run, actions) && i < j < |actions|
    requires Shows(run[i], actions[i], k) && forall m :: i < m < j ==> !Shows(run[m], actions[m], k)
    requires !actions[j].Open? && actions[j].window == k
    requires Held(run[j].stored) != Held(run[i + 1].stored)
    ensures !Succeeds(run[j], actions[j]) && run[j + 1].stored == run[j].stored
    ensures Enabled(run[j], actions[j])
    ensures GetsToSave(run[j], actions[j]) ==> k < |run[j + 1].windows| && run[j + 1].windows[k].failed
  {
    hide Shows, Sees, Apply, Succeeds, GetsToSave, Enabled;
    assert IsStep(run, actions, i) && IsStep(run, actions, j);
    ShownIsSeen(run[i], actions[i], k);
    SightStays(run, actions, i + 1, j, k, Held(run[i + 1].stored));
    SeesOne(run[j], k, Held(run[i + 1].stored), Held(run[j].stored));
    UnseenIsNotReplaced(run[j], actions[j]);
    KeepsWindows(run[j], actions[j]);
  }

  lemma SeesOne(w: World, k: nat, seen: Bytes, other: Bytes)
    requires Sees(w, k, seen) && other != seen
    ensures !Sees(w, k, other)
  {
  }

  lemma KeepsWindows(w: World, a: Action)
    requires Enabled(w, a) && !a.Open?
    ensures a.window < |w.windows| == |Apply(w, a).windows|
  {
    hide ChangeWindow, InitialSave;
  }

  /** A failed window stays failed and never writes again. */
  lemma {:induction false} FailedWindowNeverWrites(run: seq<World>, actions: seq<Action>, i: nat, j: nat, k: nat)
    requires IsRun(run, actions) && i <= j < |run|
    requires k < |run[i].windows| && run[i].windows[k].failed && !run[i].windows[k].opening
    ensures k < |run[j].windows| && run[j].windows[k].failed && !run[j].windows[k].opening
    ensures j < |actions| && !actions[j].Open? && actions[j].window == k ==>
              !Succeeds(run[j], actions[j]) && run[j + 1].stored == run[j].stored
    decreases j
  {
    hide Encode, Lookup, UpdatedTable, Changed, Decode;
    if i < j {
      FailedWindowNeverWrites(run, actions, i, j - 1, k);
      assert IsStep(run, actions, j - 1);
    }
    if j < |actions| {
      assert IsStep(run, actions, j);
    }
  }

  /** Once a readable blob is stored, its secret never changes. */
  lemma {:induction false} SecretIsForever(run: seq<World>, actions: seq<Action>, i: nat, j: nat)
    requires IsRun(run, actions) && i <= j < |run| && SecretOf(run[i].stored).Some?
    ensures SecretOf(run[j].stored) == SecretOf(run[i].stored)
    decreases j
  {
    hide Succeeds, Lookup, UpdatedTable, Changed, Decode, Apply, Enabled, TableOf;
    if i < j {
      SecretIsForever(run, actions, i, j - 1);
      EveryBlobFollowsThePrevious(run, actions, j - 1);
      EmptyIsNoBlob();
    }
  }

  predicate Changes(w: World, a: Action, key: Key) {
    a.ChangeKey? && a.key == key && Succeeds(w, a)
  }

  /** A decision that carries a reminder or is still open is lost to no other window's, or other key's, update. */
  lemma {:induction false} NoDecisionIsLost(run: seq<World>, actions: seq<Action>, i: nat, j: nat, key: Key)
    requires IsRun(run, actions) && i <= j < |run|
    requires IsLive(Lookup(TableOf(run[i].stored), key))
    requires forall m :: i <= m < j ==> !Changes(run[m], actions[m], key)
    ensures Lookup(TableOf(run[j].stored), key) == Lookup(TableOf(run[i].stored), key)
    decreases j
  {
    hide Succeeds, Lookup, UpdatedTable, Changed, Decode;
    if i < j {
      NoDecisionIsLost(run, actions, i, j - 1, key);
      OneStepLosesNothing(run, actions, j - 1, key);
    }
  }

  lemma OneStepLosesNothing(run: seq<World>, actions: seq<Action>, i: nat, key: Key)
    requires IsRun(run, actions) && i < |actions|
    requires IsLive(Lookup(TableOf(run[i].stored), key))
    requires !Changes(run[i], actions[i], key)
    ensures Lookup(TableOf(run[i + 1].stored), key) == Lookup(TableOf(run[i].stored), key)
  {
    hide Succeeds, Lookup, UpdatedTable, Changed, Decode;
    EveryBlobFollowsThePrevious(run, actions, i);
    EmptyIsNoBlob();
    if Succeeds(run[i], actions[i]) && actions[i].ChangeKey? {
      var a := actions[i];
      var record := Changed(Lookup(TableOf(run[i].stored), a.key), a.change, a.now).value;
      LiveDecisionsSurvive(TableOf(run[i].stored), record, a.clock, key);
    }
  }

  // ---- reminders

  function ReminderOf(w: World, key: Key): Reminder {
    Lookup(TableOf(w.stored), key).reminder
  }

  predicate Clears(w: World, a: Action, key: Key) {
    Changes(w, a, key) && SaysNoTask(a.change)
  }

  lemma BeginNeedsNoReminder(run: seq<World>, actions: seq<Action>, i: nat, key: Key)
    requires IsRun(run, actions) && i < |actions|
    requires Changes(run[i], actions[i], key) && actions[i].change.Begin?
    ensures ReminderOf(run[i], key) == NoReminder && ReminderOf(run[i + 1], key) == Attempted
  {
    hide Succeeds, Lookup, UpdatedTable, Decode;
    EveryBlobFollowsThePrevious(run, actions, i);
    AfterChange(run, actions, i, key);
  }

  lemma AfterChange(run: seq<World>, actions: seq<Action>, i: nat, key: Key)
    requires IsRun(run, actions) && i < |actions|
    requires Changes(run[i], actions[i], key)
    ensures Changed(Lookup(TableOf(run[i].stored), key), actions[i].change, actions[i].now)
            == Some(Lookup(TableOf(run[i + 1].stored), key))
  {
    hide Succeeds, Lookup, UpdatedTable, Changed, Decode;
    EveryBlobFollowsThePrevious(run, actions, i);
    var a := actions[i];
    var record := Changed(Lookup(TableOf(run[i].stored), key), a.change, a.now).value;
    UpdateSetsOneKey(TableOf(run[i].stored), record, a.clock, key);
  }

  lemma ReminderStep(run: seq<World>, actions: seq<Action>, i: nat, key: Key)
    requires IsRun(run, actions) && i < |actions|
    requires !ReminderOf(run[i], key).NoReminder? && !Clears(run[i], actions[i], key)
    ensures !ReminderOf(run[i + 1], key).NoReminder?
  {
    hide Lookup, UpdatedTable, Changed, Decode, SaysNoTask, TableOf, Succeeds, Apply, Enabled;
    if Changes(run[i], actions[i], key) {
      AfterChange(run, actions, i, key);
      OnlyNoTaskClears(Lookup(TableOf(run[i].stored), key), actions[i].change, actions[i].now);
    } else {
      OneStepLosesNothing(run, actions, i, key);
    }
  }

  /** Some step before j saved this as the key's linked task. */
  ghost predicate TaskReported(run: seq<World>, actions: seq<Action>, j: nat, key: Key, task: Reminder)
    requires HasIds(task) && j <= |actions| < |run|
  {
    exists m :: 0 <= m < j && Changes(run[m], actions[m], key)
                && (actions[m].change == CreateOutcome(TaskCreated(task.provider, task.listId, task.taskId))
                    || (actions[m].change.Reconcile? && task.listId == task.taskId == []))
  }

  predicate SameTask(a: Reminder, b: Reminder) {
    HasIds(a) && HasIds(b) && a.provider == b.provider && a.listId == b.listId && a.taskId == b.taskId
  }

  /**
   Over every run: the task a decision is linked to is the one it was linked to at the start, or
   one that a saved outcome reported created, under just these ids, or one found by reconciling.
   */
  lemma {:induction false} LinkedTaskWasReported(run: seq<World>, actions: seq<Action>, j: nat, key: Key)
    requires IsRun(run, actions) && j < |run| && HasIds(ReminderOf(run[j], key))
    ensures SameTask(ReminderOf(run[j], key), ReminderOf(run[0], key))
            || TaskReported(run, actions, j, key, ReminderOf(run[j], key))
    decreases j
  {
    hide Lookup, UpdatedTable, Decode, Succeeds, Apply, Enabled, TableOf, Changed;
    if j > 0 {
      var i := j - 1;
      if Changes(run[i], actions[i], key) {
        AfterChange(run, actions, i, key);
        TaskIdsAreReported(Lookup(TableOf(run[i].stored), key), actions[i].change, actions[i].now);
        if SameTask(ReminderOf(run[j], key), ReminderOf(run[i], key)) {
          LinkedTaskWasReported(run, actions, i, key);
        }
      } else {
        OneStepChangesNoTask(run, actions, i, key);
        LinkedTaskWasReported(run, actions, i, key);
      }
    }
  }

  lemma OneStepChangesNoTask(run: seq<World>, actions: seq<Action>, i: nat, key: Key)
    requires IsRun(run, actions) && i < |actions| && !Changes(run[i], actions[i], key)
    requires HasIds(ReminderOf(run[i + 1], key))
    ensures ReminderOf(run[i + 1], key) == ReminderOf(run[i], key)
  {
    hide UpdatedTable, Changed, Decode, Succeeds, Lookup;
    EveryBlobFollowsThePrevious(run, actions, i);
    EmptyIsNoBlob();
    if Succeeds(run[i], actions[i]) {
      if actions[i].ChangeKey? {
        var a := actions[i];
        var record := Changed(Lookup(TableOf(run[i].stored), a.key), a.change, a.now).value;
        UpdateSetsOneKey(TableOf(run[i].stored), record, a.clock, key);
      } else {
        LookupNotIn([], key);
      }
    }
  }

  lemma {:induction false} ReminderStays(run: seq<World>, actions: seq<Action>, i: nat, j: nat, key: Key)
    requires IsRun(run, actions) && i <= j < |run|
    requires !ReminderOf(run[i], key).NoReminder?
    requires forall m :: i <= m < j ==> !Clears(run[m], actions[m], key)
    ensures !ReminderOf(run[j], key).NoReminder?
    decreases j
  {
    hide ReminderOf, Clears, Apply, Enabled;
    if i < j {
      ReminderStays(run, actions, i, j - 1, key);
      ReminderStep(run, actions, j - 1, key);
    }
  }

  /**
   At most one live attempt, over all windows: once a begin has succeeded for a key, no
   begin for it succeeds until an answer that no task exists has been saved for it.
   */
  lemma AtMostOneLiveReminder(run: seq<World>, actions: seq<Action>, i: nat, j: nat, key: Key)
    requires IsRun(run, actions) && i < j < |actions|
    requires Changes(run[i], actions[i], key) && actions[i].change.Begin?
    requires forall m :: i < m < j ==> !Clears(run[m], actions[m], key)
    ensures !(Changes(run[j], actions[j], key) && actions[j].change.Begin?)
  {
    hide Lookup, UpdatedTable, Changed, Decode, SaysNoTask, TableOf;
    BeginNeedsNoReminder(run, actions, i, key);
    ReminderStays(run, actions, i + 1, j, key);
    if Changes(run[j], actions[j], key) && actions[j].change.Begin? {
      BeginNeedsNoReminder(run, actions, j, key);
      assert false;
    }
  }
}
