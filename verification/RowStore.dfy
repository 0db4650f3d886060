/**
 One account's rows: a table that only grows, by whole batches, and can only be read
 as a whole. A read promises no order.
 */
module RowStore {
  import opened Wrappers
  import opened Bytes
  import opened Codec

  datatype RecordKind = SyncCheckpoint | MessageObservation | OperationLedger | OtherKind

  /** A row once opened: what it is and its plaintext. */
  datatype Row = Row(kind: RecordKind, plaintext: Bytes)

  datatype ScanError = ReadFailed | Undecodable(error: CodecError)

  /** The records of one kind, in row order; an undecodable row fails the whole scan. */
  function Records<T>(rows: seq<Row>, kind: RecordKind, decode: Bytes -> Result<T, CodecError>)
    : Result<seq<T>, CodecError>
  {
    if rows == [] then Ok([])
    else
      var before :- Records(rows[..|rows| - 1], kind, decode);
      var last := rows[|rows| - 1];
      if last.kind != kind then Ok(before)
      else
        var record :- decode(last.plaintext);
        Ok(before + [record])
  }

  lemma {:induction false} RecordsConcat<T>(a: seq<Row>, b: seq<Row>, kind: RecordKind,
                                            decode: Bytes -> Result<T, CodecError>)
    ensures Records(a + b, kind, decode).Ok? <==> Records(a, kind, decode).Ok? && Records(b, kind, decode).Ok?
    ensures Records(a + b, kind, decode).Ok? ==>
              Records(a + b, kind, decode).value == Records(a, kind, decode).value + Records(b, kind, decode).value
  {
    if b == [] {
      assert a + b == a;
    } else {
      var b' := b[..|b| - 1];
      RecordsConcat(a, b', kind, decode);
      assert (a + b)[..|a + b| - 1] == a + b';
    }
  }

  lemma RecordsOfNone<T>(kind: RecordKind, decode: Bytes -> Result<T, CodecError>)
    ensures Records([], kind, decode) == Ok([])
  {
  }

  lemma RecordsOfOne<T>(row: Row, kind: RecordKind, decode: Bytes -> Result<T, CodecError>)
    ensures row.kind != kind ==> Records([row], kind, decode) == Ok([])
    ensures row.kind == kind && decode(row.plaintext).Ok? ==>
              Records([row], kind, decode) == Ok([decode(row.plaintext).value])
    ensures row.kind == kind && decode(row.plaintext).Err? ==> Records([row], kind, decode).Err?
  {
    var s := [row];
    assert s[..|s| - 1] == [];
    if row.kind == kind && decode(row.plaintext).Ok? {
      var record := decode(row.plaintext).value;
      assert [] + [record] == [record];
    }
  }

  /** A scan fails on any one row of its kind that does not decode, and on nothing else. */
  lemma {:induction false} ScanFailsIff<T>(rows: seq<Row>, kind: RecordKind, decode: Bytes -> Result<T, CodecError>)
    ensures Records(rows, kind, decode).Err? <==>
              exists row :: row in rows && row.kind == kind && decode(row.plaintext).Err?
  {
    if rows != [] {
      var before := rows[..|rows| - 1];
      ScanFailsIff(before, kind, decode);
      assert rows == before + [rows[|rows| - 1]];
    }
  }

  /** Taking one row out of the middle takes at most its own record out. */
  lemma RecordsWithout<T>(rows: seq<Row>, k: nat, kind: RecordKind, decode: Bytes -> Result<T, CodecError>)
    requires k < |rows|
    ensures var rest := rows[..k] + rows[k + 1..];
            && (Records(rows, kind, decode).Ok? <==>
                  Records(rest, kind, decode).Ok? && Records([rows[k]], kind, decode).Ok?)
            && (Records(rows, kind, decode).Ok? ==>
                  multiset(Records(rows, kind, decode).value)
                  == multiset(Records(rest, kind, decode).value) + multiset(Records([rows[k]], kind, decode).value))
  {
    RecordsConcat(rows[..k], rows[k + 1..], kind, decode);
    RecordsConcat(rows[..k], [rows[k]], kind, decode);
    RecordsConcat(rows[..k] + [rows[k]], rows[k + 1..], kind, decode);
    assert rows == rows[..k] + [rows[k]] + rows[k + 1..];
  }

  lemma Without<T>(s: seq<T>, k: nat)
    requires k < |s|
    ensures multiset(s[..k] + s[k + 1..]) == multiset(s) - multiset{s[k]}
  {
    assert s == s[..k] + [s[k]] + s[k + 1..];
  }

  lemma SameWithout<T>(a: seq<Row>, b: seq<Row>, k: nat, kind: RecordKind, decode: Bytes -> Result<T, CodecError>)
    requires a != [] && k < |b| && a[0] == b[k]
    requires var (a', b') := (a[..0] + a[1..], b[..k] + b[k + 1..]);
             && (Records(a', kind, decode).Ok? <==> Records(b', kind, decode).Ok?)
             && (Records(a', kind, decode).Ok? ==>
                   multiset(Records(a', kind, decode).value) == multiset(Records(b', kind, decode).value))
    ensures Records(a, kind, decode).Ok? <==> Records(b, kind, decode).Ok?
    ensures Records(a, kind, decode).Ok? ==>
              multiset(Records(a, kind, decode).value) == multiset(Records(b, kind, decode).value)
  {
    hide Records;
    RecordsWithout(a, 0, kind, decode);
    RecordsWithout(b, k, kind, decode);
  }

  /** A scan sees the same records whatever order the rows come in. */
  lemma {:induction false} RecordsInAnyOrder<T>(a: seq<Row>, b: seq<Row>, kind: RecordKind,
                                                decode: Bytes -> Result<T, CodecError>)
    requires multiset(a) == multiset(b)
    ensures Records(a, kind, decode).Ok? <==> Records(b, kind, decode).Ok?
    ensures Records(a, kind, decode).Ok? ==>
              multiset(Records(a, kind, decode).value) == multiset(Records(b, kind, decode).value)
  {
    hide Records;
    if a == [] {
      assert |multiset(b)| == 0;
      assert b == a;
    } else {
      assert a[0] in multiset(b);
      var k: nat :| k < |b| && b[k] == a[0];
      Without(a, 0);
      Without(b, k);
      RecordsInAnyOrder(a[..0] + a[1..], b[..k] + b[k + 1..], kind, decode);
      SameWithout(a, b, k, kind, decode);
    }
  }

  class Store {
    var rows: seq<Row>

    constructor ()
      ensures rows == []
    {
      rows := [];
    }

    /** Every row, in no promised order. */
    method ReadAll() returns (r: Result<seq<Row>, ScanError>)
      ensures r.Ok? ==> multiset(r.value) == multiset(rows)
      ensures r.Err? ==> r.error == ReadFailed
    {
      var readable := *;
      r := if readable then Ok(rows) else Err(ReadFailed);
    }

    /** All of a batch or none of it. */
    method WriteTransaction(batch: seq<Row>) returns (ok: bool)
      modifies this
      ensures rows == if ok then old(rows) + batch else old(rows)
    {
      ok := *;
      if ok {
        rows := rows + batch;
      }
    }

    method ScanRecords<T>(kind: RecordKind, decode: Bytes -> Result<T, CodecError>)
      returns (r: Result<seq<T>, ScanError>)
      ensures r.Ok? ==>
                Records(rows, kind, decode).Ok? && multiset(r.value) == multiset(Records(rows, kind, decode).value)
      ensures r.Err? && r.error.Undecodable? ==> Records(rows, kind, decode).Err?
    {
      var all :- ReadAll();
      var out: seq<T> := [];
      var i := 0;
      while i < |all|
        invariant 0 <= i <= |all|
        invariant Records(all[..i], kind, decode) == Ok(out)
      {
        assert all[..i + 1] == all[..i] + [all[i]];
        RecordsConcat(all[..i], [all[i]], kind, decode);
        RecordsOfOne(all[i], kind, decode);
        if all[i].kind == kind {
          match decode(all[i].plaintext) {
            case Ok(record) => out := out + [record];
            case Err(e) =>
              assert all == all[..i + 1] + all[i + 1..];
              RecordsConcat(all[..i + 1], all[i + 1..], kind, decode);
              RecordsInAnyOrder(all, rows, kind, decode);
              return Err(Undecodable(e));
          }
        }
        i := i + 1;
      }
      assert all[..|all|] == all;
      RecordsInAnyOrder(all, rows, kind, decode);
      r := Ok(out);
    }
  }
}
