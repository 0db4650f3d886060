/** The decision store as one window runs it, over the credential all windows share. */
module Decisions {
  import opened Wrappers
  import opened Bytes
  import opened Credentials
  import opened DecisionBlob
  import opened DecisionTable
  import opened DecisionWindows

  lemma IdsFitTail(a: seq<Record>)
    requires AllIdsFit(a) && a != []
    ensures IdsFit(a[0].reminder) && AllIdsFit(a[1..])
  {
  }

  lemma {:induction false} EncodeRowsAppend(a: seq<Record>, r: Record)
    requires AllIdsFit(a) && IdsFit(r.reminder)
    ensures AllIdsFit(a + [r]) && EncodeRows(a + [r]) == EncodeRows(a) + EncodeRow(r)
  {
    hide EncodeRow, EncodeRows, IdsFit, AllIdsFit;
    NoRows([], []);
    if a == [] {
      RowsCons(r, [], []);
      assert a + [r] == [r] + [] && EncodeRow(r) + [] == EncodeRow(r) == [] + EncodeRow(r);
    } else {
      var first, rest := a[0], a[1..];
      IdsFitTail(a);
      EncodeRowsAppend(rest, r);
      RowsCons(first, rest, EncodeRow(r));
      RowsCons(first, rest + [r], []);
      assert [first] + rest == a && [first] + (rest + [r]) == a + [r];
      assert EncodeRows(a + [r]) + [] == EncodeRows(a + [r]);
      assert EncodeRows(rest + [r]) + [] == EncodeRows(rest + [r]);
    }
  }

  lemma NothingEncoded(header: Bytes, records: seq<Record>)
    ensures AllIdsFit(records[..0]) && header + EncodeRows(records[..0]) == header
  {
    assert records[..0] == [];
  }

  lemma OneMoreEncoded(header: Bytes, records: seq<Record>, i: nat)
    requires i < |records| && AllIdsFit(records[..i]) && IdsFit(records[i].reminder)
    ensures AllIdsFit(records[..i + 1])
    ensures header + EncodeRows(records[..i + 1]) == header + EncodeRows(records[..i]) + EncodeRow(records[i])
  {
    hide EncodeRows, EncodeRow, AllIdsFit, IdsFit;
    EncodeRowsAppend(records[..i], records[i]);
    assert records[..i + 1] == records[..i] + [records[i]];
  }

  lemma CannotEncode(secret: Key, records: seq<Record>, i: nat)
    requires |records| > CAP || (i < |records| && !IdsFit(records[i].reminder))
    ensures Encode(secret, records).None?
  {
  }

  lemma AllEncoded(secret: Key, records: seq<Record>)
    requires |records| <= CAP && AllIdsFit(records[..|records|])
    ensures var bytes := MAGIC + secret + [|records|] + EncodeRows(records[..|records|]);
            Encode(secret, records) == if |bytes| > BLOB_LIMIT then None else Some(bytes)
  {
    hide EncodeRows, AllIdsFit;
    assert records[..|records|] == records;
    var rows := EncodeRows(records);
    Flat(MAGIC, secret, [|records|], rows);
  }

  lemma Flat(a: Bytes, b: Bytes, c: Bytes, d: Bytes)
    ensures a + b + c + d == a + (b + (c + d))
  {
  }

  /** Builds the blob row by row, giving up on an id that is too long. */
  method EncodeBlob(secret: Key, records: seq<Record>) returns (r: Option<Bytes>)
    ensures r == Encode(secret, records)
  {
    hide EncodeRows, EncodeRow, AllIdsFit, IdsFit, Encode;
    if |records| > CAP {
      CannotEncode(secret, records, 0);
      return None;
    }
    var bytes := MAGIC + secret + [|records|];
    ghost var header := bytes;
    var i := 0;
    NothingEncoded(header, records);
    while i < |records|
      invariant 0 <= i <= |records|
      invariant AllIdsFit(records[..i])
      invariant bytes == header + EncodeRows(records[..i])
    {
      if !IdsFit(records[i].reminder) {
        CannotEncode(secret, records, i);
        return None;
      }
      OneMoreEncoded(header, records, i);
      bytes := bytes + EncodeRow(records[i]);
      i := i + 1;
    }
    AllEncoded(secret, records);
    r := if |bytes| > BLOB_LIMIT then None else Some(bytes);
  }

  lemma OneMoreParsed(s: Bytes, count: nat, seen: seq<Record>)
    requires count > 0
    ensures var row := ParseRow(s);
            ParseRows(s, count, seen) ==
              if row.None? || HasKey(seen, row.value.0.key) then None
              else ParseRows(row.value.1, count - 1, seen + [row.value.0])
  {
  }

  lemma AllParsed(s: Bytes, seen: seq<Record>)
    ensures ParseRows(s, 0, seen) == Some((seen, s))
  {
  }

  /** Reads the blob row by row, refusing a key it has already seen and anything left over. */
  method DecodeBlob(bytes: Bytes) returns (r: Option<(Key, seq<Record>)>)
    ensures r == Decode(bytes)
  {
    hide ParseRow, ParseRows, HasKey;
    if !(MAGIC <= bytes) || |bytes| < 45 || bytes[44] > CAP {
      return None;
    }
    var count, rest, records: seq<Record> := bytes[44], bytes[45..], [];
    ghost var parsed := ParseRows(rest, count, []);
    var i := 0;
    while i < count
      invariant 0 <= i <= count
      invariant parsed == ParseRows(rest, count - i, records)
    {
      OneMoreParsed(rest, count - i, records);
      var row := ParseRow(rest);
      if row.None? || HasKey(records, row.value.0.key) {
        return None;
      }
      records := records + [row.value.0];
      rest := row.value.1;
      i := i + 1;
    }
    AllParsed(rest, records);
    r := if rest != [] then None else Some((bytes[12..44], records));
  }

  class Decisions {
    var secret: Key
    var records: seq<Record>
    const entry: Credential
    var previous: Bytes
    var failed: bool
    ghost var opening: bool

    ghost function View(): Window
      reads this
    {
      Window(secret, records, previous, opening, failed)
    }

    /** Loads what is stored; an absent blob still has to be saved for the first time. */
    constructor (entry: Credential, random: Key, readable: bool)
      ensures this.entry == entry && entry.blob == old(entry.blob)
      ensures View() == Loaded(entry.blob, random, readable)
    {
      this.entry := entry;
      secret, records, previous, failed := random, [], [], false;
      opening := false;
      new;
      if !readable {
        failed := true;
      } else if entry.blob.None? {
        opening := true;
      } else {
        previous := entry.blob.value;
        var decoded := DecodeBlob(previous);
        match decoded {
          case Some((stored, table)) => secret, records := stored, table;
          case None => failed := !(OLD_MAGIC <= previous);
        }
      }
    }

    /** Stores the table if the credential still holds what this window last saw. */
    method Save(reachable: bool) returns (ok: bool)
      modifies this`previous, entry
      ensures var blob := SavedBlob(secret, records, old(previous), old(entry.blob), reachable);
              && ok == blob.Some?
              && entry.blob == (if ok then blob else old(entry.blob))
              && previous == if ok then blob.value else old(previous)
    {
      var bytes := EncodeBlob(secret, records);
      if bytes.None? || !reachable {
        return false;
      }
      var current := if entry.blob.Some? then entry.blob.value else [];
      if current != previous {
        return false;
      }
      entry.blob := bytes;
      previous := bytes.value;
      ok := true;
    }

    method FirstSave(reachable: bool)
      requires opening
      modifies this, entry
      ensures var s := InitialSave(old(View()), old(entry.blob), reachable);
              View() == s.window && entry.blob == s.stored
    {
      hide Encode;
      opening := false;
      var ok := Save(reachable);
      if !ok {
        failed := true;
      }
    }

    method Get(key: Key) returns (r: Record)
      ensures r == Lookup(records, key)
    {
      var i := FindKey(records, key);
      r := if i < |records| then records[i] else Blank(key);
    }

    /** Drops what has aged out, then replaces or adds the record; nothing changes when the save fails. */
    method Update(record: Record, clock: I64, reachable: bool) returns (ok: bool)
      modifies this, entry
      ensures var s := UpdateWindow(old(View()), old(entry.blob), record, clock, reachable);
              View() == s.window && entry.blob == s.stored && ok == s.ok
    {
      hide SavedBlob, Retained, IndexOf;
      if failed {
        return false;
      }
      var before := records;
      var kept := RetainFresh(records, clock);
      var i := FindKey(kept, record.key);
      if i < |kept| {
        records := kept[i := record];
      } else if |kept| >= CAP {
        return false;
      } else {
        records := kept + [record];
      }
      ok := Save(reachable);
      if !ok {
        records := before;
        failed := true;
      }
    }

    method BeginReminder(key: Key, now: I64, clock: I64, reachable: bool) returns (ok: bool)
      modifies this, entry
      ensures var s := ChangeWindow(old(View()), old(entry.blob), key, Begin, now, clock, reachable);
              View() == s.window && entry.blob == s.stored && ok == s.ok
    {
      hide UpdateWindow;
      var record := Get(key);
      if (record.decision != Mine && record.decision != Watching) || record.reminder != NoReminder {
        return false;
      }
      ok := Update(record.(reminder := Attempted, updated := now), clock, reachable);
    }

    /** Any other change the application makes to one key. */
    method Apply(key: Key, change: Change, now: I64, clock: I64, reachable: bool) returns (ok: bool)
      modifies this, entry
      ensures var s := ChangeWindow(old(View()), old(entry.blob), key, change, now, clock, reachable);
              View() == s.window && entry.blob == s.stored && ok == s.ok
    {
      hide UpdateWindow, Changed;
      var record := Get(key);
      var changed := Changed(record, change, now);
      if changed.None? {
        return false;
      }
      ok := Update(changed.value, clock, reachable);
    }
  }

  method FindKey(records: seq<Record>, key: Key) returns (i: nat)
    ensures i == IndexOf(records, key)
  {
    i := 0;
    while i < |records|
      invariant 0 <= i <= |records|
      invariant IndexOf(records, key) == i + IndexOf(records[i..], key)
    {
      if records[i].key == key {
        return;
      }
      assert records[i..][1..] == records[i + 1..];
      i := i + 1;
    }
  }

  method RetainFresh(records: seq<Record>, clock: I64) returns (kept: seq<Record>)
    ensures kept == Retained(records, clock)
  {
    hide Expired;
    kept := [];
    var i := 0;
    while i < |records|
      invariant 0 <= i <= |records|
      invariant kept == Retained(records[..i], clock)
    {
      assert records[..i + 1][..i] == records[..i];
      if !Expired(records[i], clock) {
        kept := kept + [records[i]];
      }
      i := i + 1;
    }
    assert records[..|records|] == records;
  }
}
