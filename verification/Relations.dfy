/** The link store as one window runs it, over the credential all windows share. */
module Relations {
  import opened Wrappers
  import opened Bytes
  import opened Credentials
  import opened LinkTable

  method EncodeBlob(links: seq<Link>) returns (r: Option<Bytes>)
    ensures r == Encode(links)
  {
    hide EncodeLink;
    if |links| > CAP {
      return None;
    }
    var bytes := MAGIC + [|links|];
    ghost var header := bytes;
    var i := 0;
    while i < |links|
      invariant 0 <= i <= |links|
      invariant bytes == header + EncodeLinks(links[..i])
    {
      assert links[..i + 1] == links[..i] + [links[i]];
      EncodeOneMore(links[..i], links[i]);
      bytes := bytes + EncodeLink(links[i]);
      i := i + 1;
    }
    assert links[..|links|] == links;
    r := None;
    if |bytes| <= BLOB_LIMIT {
      r := Some(bytes);
    }
  }

  lemma ParseStep(s: Bytes, count: nat, seen: seq<Link>)
    requires count > 0
    ensures |s| < ROW ==> ParseLinks(s, count, seen) == None
    ensures |s| >= ROW ==>
              var link := ParseLink(s[..ROW]);
              ParseLinks(s, count, seen) ==
                if link.None? || !Less(link.value.a, link.value.b)
                   || IndexOf(seen, (link.value.a, link.value.b)) < |seen| then None
                else ParseLinks(s[ROW..], count - 1, seen + [link.value])
  {
  }

  method DecodeBlob(bytes: Bytes) returns (r: Option<seq<Link>>)
    ensures r == Decode(bytes)
  {
    hide ParseLinks, ParseLink, Less, IndexOf;
    if bytes == [] {
      return Some([]);
    }
    if |bytes| > BLOB_LIMIT || !(MAGIC <= bytes) || |bytes| < 13 || bytes[12] > CAP {
      return None;
    }
    var count, rest, links: seq<Link> := bytes[12], bytes[13..], [];
    ghost var parsed := ParseLinks(rest, count, []);
    var i := 0;
    while i < count
      invariant 0 <= i <= count
      invariant parsed == ParseLinks(rest, count - i, links)
    {
      ParseStep(rest, count - i, links);
      if |rest| < ROW {
        return None;
      }
      var link := ParseLink(rest[..ROW]);
      if link.None? || !Less(link.value.a, link.value.b) {
        return None;
      }
      var at := IndexOf(links, (link.value.a, link.value.b));
      if at < |links| {
        return None;
      }
      links := links + [link.value];
      rest := rest[ROW..];
      i := i + 1;
    }
    NothingLeft(rest, links);
    r := if rest != [] then None else Some(links);
  }

  class Relations {
    var links: seq<Link>
    const entry: Credential
    var previous: Bytes
    var failed: bool

    ghost function View(): Window
      reads this
    {
      Window(links, failed)
    }

    ghost predicate Valid()
      reads this
    {
      Lawful(links)
    }

    /** An absent blob is saved at once as an empty table; an unreadable one is kept and nothing may be changed. */
    constructor (entry: Credential, readable: bool, writable: bool)
      modifies entry
      ensures this.entry == entry && Valid()
      ensures match old(entry.blob)
              case Some(bytes) =>
                && entry.blob == old(entry.blob) && previous == (if readable then bytes else [])
                && (failed <==> !readable || Decode(bytes).None?)
                && links == if failed then [] else Decode(bytes).value
              case None =>
                && links == [] && (failed <==> !readable || !writable)
                && entry.blob == if failed then None else Encode([])
    {
      this.entry := entry;
      links, previous, failed := [], [], false;
      new;
      if !readable {
        failed := true;
      } else if entry.blob.None? {
        LawfulTablesRoundTrip([]);
        var ok := Save([], writable);
        failed := !ok;
      } else {
        previous := entry.blob.value;
        var decoded := DecodeBlob(previous);
        if decoded.Some? {
          DecodedTablesAreLawful(previous);
          links := decoded.value;
        } else {
          failed := true;
        }
      }
    }

    /** Stores the table if the credential still holds what this window last saw; otherwise changes nothing. */
    method Save(table: seq<Link>, reachable: bool) returns (ok: bool)
      modifies this`previous, entry
      ensures ok <==> reachable && Encode(table).Some? && Held(old(entry.blob)) == old(previous)
      ensures ok ==> entry.blob == Encode(table) && previous == entry.blob.value
      ensures !ok ==> entry.blob == old(entry.blob) && previous == old(previous)
    {
      var bytes := EncodeBlob(table);
      if bytes.None? || !reachable {
        return false;
      }
      var current := if entry.blob.Some? then entry.blob.value else [];
      if current != previous {
        return false;
      }
      entry.blob := bytes;
      previous := bytes.value;
      ok := true;
    }

    /** Links a pair, in place if it is already linked; linking a key to itself removes. */
    method Set(kind: LinkKind, a: Key, b: Key, updated: I64, reachable: bool) returns (ok: bool)
      requires Valid()
      modifies this, entry
      ensures Valid()
      ensures var saved := reachable && Held(old(entry.blob)) == old(previous);
              var call := Call(Op.Set(kind, a, b, updated), saved);
              View() == Step(old(View()), call) && ok == Succeeds(old(View()), call)
      ensures entry.blob == if ok then Encode(links) else old(entry.blob)
    {
      hide Less, Lawful, Encode, Without, IndexOf;
      if failed {
        return false;
      }
      if a == b {
        ok := Remove(a, b, reachable);
        return;
      }
      var p := Canonical(a, b);
      var before := links;
      ChangeRefinesMap(links, Op.Set(kind, a, b, updated), a, b);
      var i := FindPair(links, p);
      if i < |links| {
        links := links[i := Link(kind, p.0, p.1, updated)];
      } else if |links| >= CAP {
        return false;
      } else {
        links := links + [Link(kind, p.0, p.1, updated)];
      }
      LawfulTablesRoundTrip(links);
      ok := Save(links, reachable);
      if !ok {
        links := before;
        failed := true;
      }
    }

    method Remove(a: Key, b: Key, reachable: bool) returns (ok: bool)
      requires Valid()
      modifies this, entry
      ensures Valid()
      ensures var saved := reachable && Held(old(entry.blob)) == old(previous);
              var call := Call(Op.Remove(a, b), saved);
              View() == Step(old(View()), call) && ok == Succeeds(old(View()), call)
      ensures entry.blob == if ok then Encode(links) else old(entry.blob)
    {
      hide Less, Lawful, Encode, Without, IndexOf;
      if failed {
        return false;
      }
      var before := links;
      ChangeRefinesMap(links, Op.Remove(a, b), a, b);
      links := RetainOthers(links, Canonical(a, b));
      LawfulTablesRoundTrip(links);
      ok := Save(links, reachable);
      if !ok {
        links := before;
        failed := true;
      }
    }

    method KindOf(a: Key, b: Key) returns (kind: Option<LinkKind>)
      ensures kind == Get(links, a, b)
    {
      var i := FindPair(links, Canonical(a, b));
      kind := if i < |links| then Some(links[i].kind) else None;
    }
  }

  method FindPair(links: seq<Link>, p: (Key, Key)) returns (i: nat)
    ensures i == IndexOf(links, p)
  {
    i := 0;
    while i < |links|
      invariant 0 <= i <= |links|
      invariant IndexOf(links, p) == i + IndexOf(links[i..], p)
    {
      if IsOn(links[i], p) {
        return;
      }
      assert links[i..][1..] == links[i + 1..];
      i := i + 1;
    }
  }

  method RetainOthers(links: seq<Link>, p: (Key, Key)) returns (kept: seq<Link>)
    ensures kept == Without(links, p)
  {
    kept := [];
    var i := 0;
    while i < |links|
      invariant 0 <= i <= |links|
      invariant kept == Without(links[..i], p)
    {
      assert links[..i + 1][..i] == links[..i];
      if !IsOn(links[i], p) {
        kept := kept + [links[i]];
      }
      i := i + 1;
    }
    assert links[..|links|] == links;
  }
}
