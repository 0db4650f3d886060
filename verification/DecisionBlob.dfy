/** The saved decisions and the one bounded blob they are stored in. */
module DecisionBlob {
  import opened Wrappers
  import opened Bytes
  import opened Credentials

  datatype Decision = Review | Mine | Done | Dismissed | Watching | Moot

  datatype Reminder =
    | NoReminder
    | Attempted
    | Created(provider: MailProvider, listId: Text, taskId: Text)
    | Completed(provider: MailProvider, listId: Text, taskId: Text)

  datatype Record = Record(key: Key, decision: Decision, reminder: Reminder, updated: I64)

  /** "OLDecisions" and a version byte. */
  const NAME: Bytes := [79, 76, 68, 101, 99, 105, 115, 105, 111, 110, 115]

  const MAGIC: Bytes := NAME + [2]

  const OLD_MAGIC: Bytes := NAME + [1]

  const CAP: Byte := 55

  const DECISIONS := [Review, Mine, Done, Dismissed, Watching, Moot]

  function DecisionTag(d: Decision): (t: Byte)
    ensures t < |DECISIONS| && DECISIONS[t] == d
  {
    match d case Review => 0 case Mine => 1 case Done => 2 case Dismissed => 3 case Watching => 4 case Moot => 5
  }

  function ReminderTag(r: Reminder): Byte {
    match r
    case NoReminder => 0
    case Attempted => 1
    case Created(provider, _, _) => if provider == Microsoft then 2 else 4
    case Completed(provider, _, _) => if provider == Microsoft then 3 else 5
  }

  predicate HasIds(r: Reminder) { r.Created? || r.Completed? }

  predicate IdsFit(r: Reminder) { HasIds(r) ==> |r.listId| <= 255 && |r.taskId| <= 255 }

  // ---- printing

  function EncodeId(id: Bytes): Bytes
    requires |id| <= 255
  {
    [|id|] + id
  }

  function EncodeIds(r: Reminder): Bytes
    requires IdsFit(r)
  {
    if HasIds(r) then EncodeId(r.listId) + EncodeId(r.taskId) else []
  }

  function EncodeRow(r: Record): (b: Bytes)
    requires IdsFit(r.reminder)
    ensures |b| == 42 + |EncodeIds(r.reminder)|
  {
    r.key + ([DecisionTag(r.decision)] + ([ReminderTag(r.reminder)] + (I64LE(r.updated) + EncodeIds(r.reminder))))
  }

  predicate AllIdsFit(records: seq<Record>) {
    forall i :: 0 <= i < |records| ==> IdsFit(records[i].reminder)
  }

  function EncodeRows(records: seq<Record>): Bytes
    requires AllIdsFit(records)
  {
    if records == [] then [] else EncodeRow(records[0]) + EncodeRows(records[1..])
  }

  function BlobOf(secret: Key, records: seq<Record>): Bytes
    requires |records| <= CAP && AllIdsFit(records)
  {
    MAGIC + (secret + ([|records|] + EncodeRows(records)))
  }

  /** None when there are too many records, an id is too long or the blob would be. */
  function Encode(secret: Key, records: seq<Record>): Option<Bytes> {
    if |records| <= CAP && AllIdsFit(records) && |BlobOf(secret, records)| <= BLOB_LIMIT
    then Some(BlobOf(secret, records)) else None
  }

  // ---- parsing

  function ParseId(s: Bytes): Option<(Text, Bytes)> {
    if s == [] || |s| - 1 < s[0] then None
    else
      var id := s[1..][..s[0]];
      if IsUtf8(id) then Some((id, s[1..][s[0]..])) else None
  }

  function ParseReminder(tag: Byte, s: Bytes): Option<(Reminder, Bytes)> {
    if tag == 0 then Some((NoReminder, s))
    else if tag == 1 then Some((Attempted, s))
    else if tag <= 5 then
      var first := ParseId(s);
      if first.None? then None else
      var second := ParseId(first.value.1);
      if second.None? then None else
      var provider := if tag <= 3 then Microsoft else Google;
      var reminder := if tag == 2 || tag == 4 then Created(provider, first.value.0, second.value.0)
                      else Completed(provider, first.value.0, second.value.0);
      Some((reminder, second.value.1))
    else None
  }

  function ParseRow(s: Bytes): Option<(Record, Bytes)> {
    if |s| < 42 || s[32] >= 6 then None
    else
      var reminder := ParseReminder(s[33], s[42..]);
      if reminder.None? then None
      else Some((Record(s[..32], DECISIONS[s[32]], reminder.value.0, FromI64LE(s[34..42])), reminder.value.1))
  }

  predicate HasKey(records: seq<Record>, key: Key) {
    exists i :: 0 <= i < |records| && records[i].key == key
  }

  /** `count` further rows, none with a key already seen. */
  function ParseRows(s: Bytes, count: nat, seen: seq<Record>): Option<(seq<Record>, Bytes)>
    decreases count
  {
    if count == 0 then Some((seen, s))
    else
      var row := ParseRow(s);
      if row.None? || HasKey(seen, row.value.0.key) then None
      else ParseRows(row.value.1, count - 1, seen + [row.value.0])
  }

  function Decode(s: Bytes): Option<(Key, seq<Record>)> {
    if !(MAGIC <= s) || |s| < 45 || s[44] > CAP then None
    else
      var rows := ParseRows(s[45..], s[44], []);
      if rows.None? || rows.value.1 != [] then None else Some((s[12..44], rows.value.0))
  }

  predicate DistinctKeys(records: seq<Record>) {
    forall i, j :: 0 <= i < j < |records| ==> records[i].key != records[j].key
  }

  // ---- one row

  lemma IdParses(id: Text, rest: Bytes)
    requires |id| <= 255
    ensures ParseId(EncodeId(id) + rest) == Some((id, rest))
  {
    var s := EncodeId(id) + rest;
    assert s[1..] == id + rest;
    assert s[1..][..|id|] == id && s[1..][|id|..] == rest;
  }

  lemma IdExact(s: Bytes)
    ensures ParseId(s).Some? ==>
              var (id, rest) := ParseId(s).value; |id| <= 255 && s == EncodeId(id) + rest
  {
  }

  lemma ReminderParses(r: Reminder, rest: Bytes)
    requires IdsFit(r)
    ensures ParseReminder(ReminderTag(r), EncodeIds(r) + rest) == Some((r, rest))
  {
    hide ParseId, EncodeId;
    if HasIds(r) {
      IdParses(r.listId, EncodeId(r.taskId) + rest);
      IdParses(r.taskId, rest);
      assert EncodeIds(r) + rest == EncodeId(r.listId) + (EncodeId(r.taskId) + rest);
    } else {
      assert [] + rest == rest;
    }
  }

  lemma ReminderExact(tag: Byte, s: Bytes)
    ensures ParseReminder(tag, s).Some? ==>
              var (r, rest) := ParseReminder(tag, s).value;
              IdsFit(r) && tag == ReminderTag(r) && s == EncodeIds(r) + rest
  {
    hide ParseId, EncodeId;
    if ParseReminder(tag, s).Some? && 2 <= tag {
      IdExact(s);
      var (first, s1) := ParseId(s).value;
      IdExact(s1);
      var (second, s2) := ParseId(s1).value;
      assert s == EncodeId(first) + EncodeId(second) + s2;
    } else {
      assert [] + s == s;
    }
  }

  lemma RowParses(r: Record, rest: Bytes)
    requires IdsFit(r.reminder)
    ensures ParseRow(EncodeRow(r) + rest) == Some((r, rest))
  {
    hide ParseReminder, EncodeIds, I64LE, FromI64LE;
    var s := EncodeRow(r) + rest;
    assert s[..32] == r.key;
    assert s[34..42] == I64LE(r.updated);
    assert s[42..] == EncodeIds(r.reminder) + rest;
    assert s[32] == DecisionTag(r.decision) && s[33] == ReminderTag(r.reminder);
    I64RoundTrips(r.updated);
    ReminderParses(r.reminder, rest);
  }

  lemma RowExact(s: Bytes)
    ensures ParseRow(s).Some? ==>
              var (r, rest) := ParseRow(s).value; IdsFit(r.reminder) && s == EncodeRow(r) + rest
  {
    hide ParseReminder, EncodeIds, I64LE, FromI64LE;
    if ParseRow(s).Some? {
      var (r, rest) := ParseRow(s).value;
      ReminderExact(s[33], s[42..]);
      I64Unique(s[34..42]);
      DecisionTagExact(s[32]);
      assert s == s[..32] + [s[32]] + [s[33]] + s[34..42] + s[42..];
    }
  }

  lemma DecisionTagExact(tag: Byte)
    requires tag < 6
    ensures DecisionTag(DECISIONS[tag]) == tag
  {
  }

  // ---- all the rows

  lemma {:induction false} RowsParse(records: seq<Record>, seen: seq<Record>, rest: Bytes)
    requires AllIdsFit(records) && DistinctKeys(seen + records)
    ensures ParseRows(EncodeRows(records) + rest, |records|, seen) == Some((seen + records, rest))
    decreases |records|
  {
    hide ParseRow, EncodeRow, IdsFit;
    if records == [] {
      assert seen + records == seen && EncodeRows(records) + rest == rest;
    } else {
      var tail := EncodeRows(records[1..]) + rest;
      assert EncodeRows(records) + rest == EncodeRow(records[0]) + tail;
      RowParses(records[0], tail);
      FirstIsNew(records, seen);
      assert seen + [records[0]] + records[1..] == seen + records;
      RowsParse(records[1..], seen + [records[0]], rest);
    }
  }

  lemma FirstIsNew(records: seq<Record>, seen: seq<Record>)
    requires records != [] && DistinctKeys(seen + records)
    ensures !HasKey(seen, records[0].key)
  {
    var all := seen + records;
    assert all[|seen|] == records[0];
    forall i | 0 <= i < |seen| ensures seen[i].key != records[0].key {
      assert all[i] == seen[i];
    }
  }

  lemma SeenGrows(seen: seq<Record>, r: Record)
    requires DistinctKeys(seen) && !HasKey(seen, r.key)
    ensures DistinctKeys(seen + [r])
  {
  }

  lemma RowsCons(r: Record, records: seq<Record>, rest: Bytes)
    requires IdsFit(r.reminder) && AllIdsFit(records)
    ensures AllIdsFit([r] + records)
    ensures EncodeRows([r] + records) + rest == EncodeRow(r) + (EncodeRows(records) + rest)
  {
    hide IdsFit;
    assert ([r] + records)[1..] == records;
  }

  lemma {:induction false} RowsExact(s: Bytes, count: nat, seen: seq<Record>) returns (own: seq<Record>)
    requires DistinctKeys(seen) && ParseRows(s, count, seen).Some?
    ensures var (all, rest) := ParseRows(s, count, seen).value;
            && |own| == count && all == seen + own && DistinctKeys(all)
            && AllIdsFit(own) && s == EncodeRows(own) + rest
    decreases count
  {
    hide ParseRow, EncodeRow, EncodeRows, IdsFit, DistinctKeys, HasKey, AllIdsFit;
    if count == 0 {
      own := [];
      NoRows(s, seen);
    } else {
      RowExact(s);
      var (r, tail) := ParseRow(s).value;
      SeenGrows(seen, r);
      var others := RowsExact(tail, count - 1, seen + [r]);
      own := [r] + others;
      assert seen + [r] + others == seen + own;
      RowsCons(r, others, ParseRows(s, count, seen).value.1);
    }
  }

  lemma NoRows(s: Bytes, seen: seq<Record>)
    ensures AllIdsFit([]) && EncodeRows([]) + s == s && seen + [] == seen
  {
  }

  // ---- the blob

  lemma DecodeOfBlob(secret: Key, records: seq<Record>)
    requires |records| <= CAP && AllIdsFit(records) && DistinctKeys(records)
    ensures Decode(BlobOf(secret, records)) == Some((secret, records))
  {
    hide EncodeRows, ParseRows;
    var s := BlobOf(secret, records);
    assert s[..12] == MAGIC && s[12..44] == secret && s[44] == |records| && s[45..] == EncodeRows(records);
    RowsParse(records, [], []);
    assert EncodeRows(records) + [] == EncodeRows(records) && [] + records == records;
  }

  /** What is saved is what is read back. */
  lemma DecodeInvertsEncode(secret: Key, records: seq<Record>)
    requires DistinctKeys(records) && Encode(secret, records).Some?
    ensures Decode(Encode(secret, records).value) == Some((secret, records))
  {
    DecodeOfBlob(secret, records);
  }

  lemma NoneSeen()
    ensures DistinctKeys([])
  {
  }

  lemma DecodedIsBlob(s: Bytes)
    requires Decode(s).Some?
    ensures var (secret, records) := Decode(s).value;
            |records| <= CAP && AllIdsFit(records) && DistinctKeys(records) && s == BlobOf(secret, records)
  {
    hide EncodeRows, ParseRows, AllIdsFit, DistinctKeys;
    NoneSeen();
    var own := RowsExact(s[45..], s[44], []);
    assert [] + own == own && EncodeRows(own) + [] == EncodeRows(own);
    assert s == s[..12] + s[12..44] + [s[44]] + s[45..];
  }

  /** Any accepted blob is the encoding of what it decodes to, unless it is over the limit only encoding checks. */
  lemma EncodeInvertsDecode(s: Bytes)
    requires Decode(s).Some?
    ensures var (secret, records) := Decode(s).value;
            DistinctKeys(records) && Encode(secret, records) == if |s| <= 2560 then Some(s) else None
  {
    DecodedIsBlob(s);
  }

  /** Encoding fails only for too many records, too long an id, or too long a blob. */
  lemma EncodeSucceedsIff(secret: Key, records: seq<Record>)
    ensures Encode(secret, records).Some? <==>
              |records| <= CAP && AllIdsFit(records) && 45 + RowsLength(records) <= 2560
  {
    if |records| <= CAP && AllIdsFit(records) {
      RowsLengthIs(records);
    }
  }

  function RowLength(r: Record): nat {
    42 + if HasIds(r.reminder) then 2 + |r.reminder.listId| + |r.reminder.taskId| else 0
  }

  function RowsLength(records: seq<Record>): nat {
    if records == [] then 0 else RowLength(records[0]) + RowsLength(records[1..])
  }

  lemma {:induction false} RowsLengthIs(records: seq<Record>)
    requires AllIdsFit(records)
    ensures |EncodeRows(records)| == RowsLength(records)
  {
    if records != [] {
      RowsLengthIs(records[1..]);
    }
  }

  lemma {:induction false} IdlessLength(records: seq<Record>)
    requires forall i :: 0 <= i < |records| ==> !HasIds(records[i].reminder)
    ensures RowsLength(records) == 42 * |records|
  {
    if records != [] {
      IdlessLength(records[1..]);
    }
  }

  /** A full table without provider ids always fits: 2,355 bytes. */
  lemma FullTableWithoutIdsFits(secret: Key, records: seq<Record>)
    requires |records| <= CAP
    requires forall i :: 0 <= i < |records| ==> !HasIds(records[i].reminder)
    ensures Encode(secret, records).Some?
    ensures |records| == CAP ==> |Encode(secret, records).value| == 2355
  {
    IdlessLength(records);
    RowsLengthIs(records);
    EncodeSucceedsIff(secret, records);
  }

  /** The bytes of a blob's head: the format's name, its version, the secret and the number of rows. */
  lemma HeadLayout(secret: Key, records: seq<Record>)
    requires |records| <= CAP && AllIdsFit(records)
    ensures var s := BlobOf(secret, records);
            && |s| >= 45 && (forall i :: 0 <= i < 11 ==> s[i] == "OLDecisions"[i] as int) && s[11] == 2
            && s[12..44] == secret && s[44] == |records|
    ensures |OLD_MAGIC| == 12 && OLD_MAGIC[..11] == MAGIC[..11] && OLD_MAGIC[11] == 1
  {
    hide EncodeRows;
  }

  /** The bytes of a row: its key, one byte for the decision and one for the reminder, the time, and a task's ids. */
  lemma RowLayout(r: Record)
    requires IdsFit(r.reminder)
    ensures var b := EncodeRow(r);
            && b[..32] == r.key && b[34..42] == I64LE(r.updated)
            && (b[32] == 0 <==> r.decision == Review) && (b[32] == 1 <==> r.decision == Mine)
            && (b[32] == 2 <==> r.decision == Done) && (b[32] == 3 <==> r.decision == Dismissed)
            && (b[32] == 4 <==> r.decision == Watching) && (b[32] == 5 <==> r.decision == Moot)
    ensures var b, task := EncodeRow(r), r.reminder;
            && (b[33] == 0 <==> task.NoReminder?) && (b[33] == 1 <==> task.Attempted?)
            && (b[33] == 2 <==> task.Created? && task.provider == Microsoft)
            && (b[33] == 3 <==> task.Completed? && task.provider == Microsoft)
            && (b[33] == 4 <==> task.Created? && task.provider == Google)
            && (b[33] == 5 <==> task.Completed? && task.provider == Google)
            && (HasIds(task) ==> b[42..] == [|task.listId|] + task.listId + ([|task.taskId|] + task.taskId))
  {
    hide I64LE, EncodeIds;
    var b := EncodeRow(r);
    assert b[..32] == r.key && b[34..42] == I64LE(r.updated) && b[42..] == EncodeIds(r.reminder);
    assert b[32] == DecisionTag(r.decision) && b[33] == ReminderTag(r.reminder);
    if HasIds(r.reminder) {
      IdsLayout(r.reminder);
    }
  }

  lemma IdsLayout(r: Reminder)
    requires IdsFit(r) && HasIds(r)
    ensures EncodeIds(r) == [|r.listId|] + r.listId + ([|r.taskId|] + r.taskId)
  {
  }

  // ---- a blob that reading accepts and writing refuses

  /** A decision with a task whose two ids are both this one. */
  function TaskRecord(n: Byte, id: Text): (r: Record)
    ensures r.key[0] == n && r.reminder == Created(Microsoft, id, id)
  {
    var key: Bytes := seq(32, _ => n);
    Record(key, Mine, Created(Microsoft, id, id), 0)
  }

  function TaskRecords(n: Byte, id: Text): (r: seq<Record>)
    ensures |r| == n && forall i :: 0 <= i < n ==> r[i] == TaskRecord(n - i, id)
  {
    if n == 0 then [] else [TaskRecord(n, id)] + TaskRecords(n - 1, id)
  }

  lemma TaskRecordsDiffer(n: Byte, id: Text)
    ensures DistinctKeys(TaskRecords(n, id))
  {
    hide TaskRecords, TaskRecord;
    var r := TaskRecords(n, id);
    forall i, j | 0 <= i < j < n ensures r[i].key != r[j].key {
      assert TaskRecord(n - i, id).key[0] == n - i && TaskRecord(n - j, id).key[0] == n - j;
    }
  }

  lemma {:induction false} TaskRecordsLength(n: Byte, id: Text)
    requires |id| <= 255
    ensures AllIdsFit(TaskRecords(n, id)) && RowsLength(TaskRecords(n, id)) == (44 + 2 * |id|) * n
  {
    hide TaskRecord;
    if n > 0 {
      TaskRecordsLength(n - 1, id);
      assert TaskRecords(n, id)[1..] == TaskRecords(n - 1, id);
    }
  }

  /** Five tasks with the longest ids make 2,815 bytes, which reading would accept and writing refuses. */
  lemma OversizedBlobIsReadable(secret: Key, n: Byte, id: Text)
    requires n <= CAP && |id| == 255
    ensures var records := TaskRecords(n, id);
            && AllIdsFit(records) && |BlobOf(secret, records)| == 45 + 554 * n
            && Decode(BlobOf(secret, records)) == Some((secret, records))
            && (Encode(secret, records) == None <==> n >= 5)
  {
    hide TaskRecords, TaskRecord, DistinctKeys, Decode, RowsLength, AllIdsFit;
    TaskRecordsLength(n, id);
    TaskRecordsDiffer(n, id);
    RowsLengthIs(TaskRecords(n, id));
    DecodeOfBlob(secret, TaskRecords(n, id));
  }

  // ---- strict prefixes

  lemma {:induction false} ParseRowsLonger(s: Bytes, more: Bytes, count: nat, seen: seq<Record>)
    ensures ParseRows(s, count, seen).Some? ==>
              ParseRows(s + more, count, seen)
                == Some((ParseRows(s, count, seen).value.0, ParseRows(s, count, seen).value.1 + more))
    decreases count
  {
    hide ParseRow, EncodeRow, IdsFit;
    if count > 0 && ParseRows(s, count, seen).Some? {
      RowExact(s);
      var (r, rest) := ParseRow(s).value;
      assert s + more == EncodeRow(r) + (rest + more);
      RowParses(r, rest + more);
      ParseRowsLonger(rest, more, count - 1, seen + [r]);
    }
  }

  /** Cutting an accepted blob short anywhere makes it unreadable. */
  lemma StrictPrefixesAreRejected(s: Bytes, n: nat)
    requires Decode(s).Some? && n < |s|
    ensures Decode(s[..n]).None?
  {
    hide ParseRows;
    var p := s[..n];
    if n >= 45 {
      ParseRowsLonger(p[45..], s[n..], s[44], []);
      assert p[45..] + s[n..] == s[45..];
      assert |s[n..]| > 0;
    }
  }
}
