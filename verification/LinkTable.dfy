/** Taught links between keys: a bounded table of unordered pairs and its blob. */
module LinkTable {
  import opened Wrappers
  import opened Bytes
  import opened Credentials

  datatype LinkKind = SameLoop | NotSameLoop | SameThread | NotSameThread

  datatype Link = Link(kind: LinkKind, a: Key, b: Key, updated: I64)

  const CAP: Byte := 34

  const ROW: nat := 73

  /** "OLRelations" and a version byte. */
  const MAGIC: Bytes := [79, 76, 82, 101, 108, 97, 116, 105, 111, 110, 115, 1]

  const KINDS := [SameLoop, NotSameLoop, SameThread, NotSameThread]

  function KindTag(k: LinkKind): (t: Byte)
    ensures t < |KINDS| && KINDS[t] == k
  {
    match k case SameLoop => 0 case NotSameLoop => 1 case SameThread => 2 case NotSameThread => 3
  }

  // ---- unordered pairs

  /** Byte strings in dictionary order. */
  predicate Less(a: Bytes, b: Bytes) {
    if a == [] || b == [] then a == [] && b != []
    else a[0] < b[0] || (a[0] == b[0] && Less(a[1..], b[1..]))
  }

  lemma {:induction false} LessIsTotal(a: Bytes, b: Bytes)
    ensures a == b || Less(a, b) || Less(b, a)
    ensures !(Less(a, b) && Less(b, a))
    ensures !Less(a, a)
  {
    if a != [] {
      LessIsTotal(a[1..], if b == [] then [] else b[1..]);
      if b != [] && a[0] == b[0] && a[1..] == b[1..] {
        assert a == [a[0]] + a[1..] && b == [b[0]] + b[1..];
      }
    }
  }

  /** The pair with its smaller key first. */
  function Canonical(a: Key, b: Key): (Key, Key) {
    if Less(a, b) then (a, b) else (b, a)
  }

  predicate SamePair(a: Key, b: Key, x: Key, y: Key) {
    (a == x && b == y) || (a == y && b == x)
  }

  lemma CanonicalPairs(a: Key, b: Key, x: Key, y: Key)
    ensures Canonical(a, b) == Canonical(x, y) <==> SamePair(a, b, x, y)
    ensures a != b ==> Less(Canonical(a, b).0, Canonical(a, b).1)
  {
    hide Less;
    LessIsTotal(a, b);
    LessIsTotal(x, y);
  }

  // ---- the table

  predicate IsOn(l: Link, p: (Key, Key)) { l.a == p.0 && l.b == p.1 }

  function IndexOf(links: seq<Link>, p: (Key, Key)): (i: nat)
    ensures i <= |links|
    ensures forall j :: 0 <= j < i ==> !IsOn(links[j], p)
    ensures i < |links| ==> IsOn(links[i], p)
  {
    if links == [] then 0 else if IsOn(links[0], p) then 0 else 1 + IndexOf(links[1..], p)
  }

  function Get(links: seq<Link>, x: Key, y: Key): Option<LinkKind> {
    var i := IndexOf(links, Canonical(x, y));
    if i < |links| then Some(links[i].kind) else None
  }

  function Without(links: seq<Link>, p: (Key, Key)): (r: seq<Link>)
    ensures |r| <= |links|
    ensures forall l :: l in r <==> l in links && !IsOn(l, p)
  {
    if links == [] then []
    else
      var last := links[|links| - 1];
      assert links == links[..|links| - 1] + [last];
      Without(links[..|links| - 1], p) + if IsOn(last, p) then [] else [last]
  }

  /** Replaces the pair's link, or adds it at the end. */
  function Put(links: seq<Link>, link: Link): seq<Link> {
    var i := IndexOf(links, (link.a, link.b));
    if i < |links| then links[i := link] else links + [link]
  }

  datatype Op = Set(kind: LinkKind, a: Key, b: Key, updated: I64) | Remove(a: Key, b: Key)

  /** The table a call would save, or None at the cap. Linking a key to itself removes. */
  function Changed(links: seq<Link>, op: Op): Option<seq<Link>> {
    var p := Canonical(op.a, op.b);
    if op.Remove? || op.a == op.b then Some(Without(links, p))
    else
      if IndexOf(links, p) == |links| && |links| >= CAP then None
      else Some(Put(links, Link(op.kind, p.0, p.1, op.updated)))
  }

  /** Ordered pairs, no pair twice, within the cap. */
  predicate Lawful(links: seq<Link>) {
    && |links| <= CAP
    && (forall i :: 0 <= i < |links| ==> Less(links[i].a, links[i].b))
    && (forall i, j :: 0 <= i < j < |links| ==> !IsOn(links[j], (links[i].a, links[i].b)))
  }

  lemma LawfulPrefix(links: seq<Link>, k: nat)
    requires Lawful(links) && k <= |links|
    ensures Lawful(links[..k])
  {
    hide Less;
  }

  lemma SeenStaysLawful(seen: seq<Link>, link: Link)
    requires Lawful(seen) && |seen| < CAP && Less(link.a, link.b)
    requires IndexOf(seen, (link.a, link.b)) == |seen|
    ensures Lawful(seen + [link])
  {
    hide Less;
  }

  lemma LastIsNew(links: seq<Link>, l: Link)
    requires Lawful(links) && links != []
    requires l in links[..|links| - 1]
    ensures var last := links[|links| - 1]; Less(last.a, last.b) && !IsOn(l, (last.a, last.b))
  {
    hide Less;
    var n := |links| - 1;
    var j :| 0 <= j < n && links[j] == l;
    assert !IsOn(links[n], (links[j].a, links[j].b));
  }

  lemma LastIsOrdered(links: seq<Link>)
    requires Lawful(links) && links != []
    ensures var last := links[|links| - 1]; Less(last.a, last.b)
    ensures |links| <= CAP
  {
    hide Less;
  }

  lemma {:induction false} WithoutIsLawful(links: seq<Link>, p: (Key, Key))
    requires Lawful(links)
    ensures Lawful(Without(links, p))
  {
    hide Less, Lawful;
    if links != [] {
      var n := |links| - 1;
      var before, last := Without(links[..n], p), links[n];
      LawfulPrefix(links, n);
      WithoutIsLawful(links[..n], p);
      LastIsOrdered(links);
      if !IsOn(last, p) {
        var i := IndexOf(before, (last.a, last.b));
        if i < |before| {
          assert before[i] in before;
          LastIsNew(links, before[i]);
        }
        SeenStaysLawful(before, last);
      } else {
        assert before + [] == before;
      }
    }
  }

  lemma GetIff(links: seq<Link>, x: Key, y: Key, kind: LinkKind)
    requires Lawful(links)
    ensures Get(links, x, y) == Some(kind) <==> exists l :: l in links && IsOn(l, Canonical(x, y)) && l.kind == kind
  {
    hide Less;
    var p := Canonical(x, y);
    var i := IndexOf(links, p);
    forall l | l in links && IsOn(l, p) ensures i < |links| && l == links[i] {
      var j :| 0 <= j < |links| && links[j] == l;
      assert !(j < i);
      assert IsOn(links[j], (links[i].a, links[i].b));
      assert !(i < j);
    }
  }

  lemma WithoutGet(links: seq<Link>, p: (Key, Key), x: Key, y: Key)
    requires Lawful(links)
    ensures Get(Without(links, p), x, y) == if Canonical(x, y) == p then None else Get(links, x, y)
  {
    hide Less, Get, Lawful, Canonical, IndexOf;
    WithoutIsLawful(links, p);
    forall kind ensures Get(Without(links, p), x, y) == Some(kind) <==>
                          Canonical(x, y) != p && Get(links, x, y) == Some(kind)
    {
      GetIff(links, x, y, kind);
      GetIff(Without(links, p), x, y, kind);
    }
    assert forall o: Option<LinkKind> :: o == None || o == Some(o.value);
  }

  lemma PutIsLawful(links: seq<Link>, link: Link)
    requires Lawful(links) && Less(link.a, link.b)
    requires IndexOf(links, (link.a, link.b)) < |links| || |links| < CAP
    ensures Lawful(Put(links, link))
  {
    hide Less;
  }

  lemma PutMembers(links: seq<Link>, link: Link, l: Link)
    requires Lawful(links)
    ensures l in Put(links, link) <==> l == link || (l in links && !IsOn(l, (link.a, link.b)))
  {
    hide Less;
    var i := IndexOf(links, (link.a, link.b));
    var after := Put(links, link);
    assert after[i] == link;
    if l in links {
      var j :| 0 <= j < |links| && links[j] == l;
      if j != i {
        assert after[j] == l;
        assert i < j && i < |links| ==> !IsOn(links[j], (links[i].a, links[i].b));
      }
    }
    if l in after && l != link {
      var j :| 0 <= j < |after| && after[j] == l;
      assert j != i && links[j] == l;
      assert i < |links| && i < j ==> !IsOn(links[j], (links[i].a, links[i].b));
    }
  }

  lemma PutGet(links: seq<Link>, link: Link, x: Key, y: Key)
    requires Lawful(links) && Less(link.a, link.b)
    requires IndexOf(links, (link.a, link.b)) < |links| || |links| < CAP
    ensures Get(Put(links, link), x, y) ==
              if Canonical(x, y) == (link.a, link.b) then Some(link.kind) else Get(links, x, y)
  {
    hide Less, Canonical, Lawful, Get, Put, IndexOf;
    var after := Put(links, link);
    PutIsLawful(links, link);
    forall kind
      ensures Get(after, x, y) == Some(kind) <==>
                if Canonical(x, y) == (link.a, link.b) then kind == link.kind else Get(links, x, y) == Some(kind)
    {
      GetIff(after, x, y, kind);
      GetIff(links, x, y, kind);
      forall l ensures l in after <==> l == link || (l in links && !IsOn(l, (link.a, link.b))) {
        PutMembers(links, link, l);
      }
    }
  }

  /** A table behaves as a map on unordered pairs, and every call keeps it lawful. */
  lemma ChangeRefinesMap(links: seq<Link>, op: Op, x: Key, y: Key)
    requires Lawful(links)
    ensures var after := Changed(links, op);
            if after.None? then op.Set? && op.a != op.b && |links| == CAP && Get(links, op.a, op.b) == None
            else
              && Lawful(after.value)
              && Get(after.value, x, y) ==
                   if SamePair(op.a, op.b, x, y) then (if op.Set? && op.a != op.b then Some(op.kind) else None)
                   else Get(links, x, y)
  {
    hide Less, Lawful, Without, IndexOf;
    CanonicalPairs(op.a, op.b, x, y);
    var p := Canonical(op.a, op.b);
    if op.Remove? || op.a == op.b {
      WithoutIsLawful(links, p);
      WithoutGet(links, p, x, y);
    } else {
      LawfulSize(links);
      if IndexOf(links, p) < |links| || |links| < CAP {
        PutIsLawful(links, Link(op.kind, p.0, p.1, op.updated));
        PutGet(links, Link(op.kind, p.0, p.1, op.updated), x, y);
      }
    }
  }

  lemma LawfulSize(links: seq<Link>)
    requires Lawful(links)
    ensures |links| <= CAP
  {
  }

  /** The order in which a pair is asked about does not matter. */
  lemma GetIsSymmetric(links: seq<Link>, x: Key, y: Key)
    ensures Get(links, x, y) == Get(links, y, x)
  {
    CanonicalPairs(x, y, y, x);
  }

  // ---- the blob

  function EncodeLink(l: Link): (b: Bytes)
    ensures |b| == ROW
  {
    [KindTag(l.kind)] + l.a + l.b + I64LE(l.updated)
  }

  function EncodeLinks(links: seq<Link>): (b: Bytes)
    ensures |b| == ROW * |links|
  {
    if links == [] then [] else EncodeLinks(links[..|links| - 1]) + EncodeLink(links[|links| - 1])
  }

  function BlobOf(links: seq<Link>): Bytes
    requires |links| <= CAP
  {
    MAGIC + [|links|] + EncodeLinks(links)
  }

  function Encode(links: seq<Link>): Option<Bytes> {
    if |links| <= CAP && |BlobOf(links)| <= BLOB_LIMIT then Some(BlobOf(links)) else None
  }

  function ParseLink(row: Bytes): Option<Link>
    requires |row| == ROW
  {
    if row[0] >= |KINDS| then None
    else Some(Link(KINDS[row[0]], row[1..33], row[33..65], FromI64LE(row[65..73])))
  }

  /** Reads `count` rows; each must be ordered and on a pair not yet seen. */
  function ParseLinks(s: Bytes, count: nat, seen: seq<Link>): Option<(seq<Link>, Bytes)>
    decreases count
  {
    if count == 0 then Some((seen, s))
    else if |s| < ROW then None
    else
      var link := ParseLink(s[..ROW]);
      if link.None? || !Less(link.value.a, link.value.b)
         || IndexOf(seen, (link.value.a, link.value.b)) < |seen| then None
      else ParseLinks(s[ROW..], count - 1, seen + [link.value])
  }

  function Decode(s: Bytes): Option<seq<Link>> {
    if s == [] then Some([])
    else if |s| > BLOB_LIMIT || !(MAGIC <= s) || |s| < 13 || s[12] > CAP then None
    else
      var rows := ParseLinks(s[13..], s[12], []);
      if rows.None? || rows.value.1 != [] then None else Some(rows.value.0)
  }

  lemma LinkParses(l: Link)
    ensures ParseLink(EncodeLink(l)) == Some(l)
  {
    hide I64LE, FromI64LE;
    var row := EncodeLink(l);
    I64RoundTrips(l.updated);
    assert row[1..33] == l.a && row[33..65] == l.b && row[65..73] == I64LE(l.updated);
  }

  lemma LinkExact(row: Bytes)
    requires |row| == ROW && ParseLink(row).Some?
    ensures EncodeLink(ParseLink(row).value) == row
  {
    hide I64LE, FromI64LE;
    I64Unique(row[65..73]);
    KindTagExact(row[0]);
    assert row == [row[0]] + row[1..33] + row[33..65] + row[65..73];
  }

  lemma KindTagExact(t: Byte)
    requires t < |KINDS|
    ensures KindTag(KINDS[t]) == t
  {
  }

  lemma OneMoreRow(s: Bytes, link: Link, count: nat, seen: seq<Link>)
    requires count > 0 && Lawful(seen + [link])
    ensures ParseLinks(EncodeLink(link) + s, count, seen) == ParseLinks(s, count - 1, seen + [link])
  {
    hide EncodeLink, ParseLink, Less;
    LinkParses(link);
    var all := EncodeLink(link) + s;
    assert all[..ROW] == EncodeLink(link) && all[ROW..] == s;
    assert (seen + [link])[|seen|] == link;
    NotSeen(seen, link);
  }

  lemma NotSeen(seen: seq<Link>, link: Link)
    requires Lawful(seen + [link])
    ensures IndexOf(seen, (link.a, link.b)) == |seen|
  {
    hide Less;
    var i := IndexOf(seen, (link.a, link.b));
    if i < |seen| {
      assert (seen + [link])[i] == seen[i] && (seen + [link])[|seen|] == link;
    }
  }

  lemma {:induction false} LinksParse(links: seq<Link>, k: nat)
    requires Lawful(links) && k <= |links|
    ensures ParseLinks(EncodeLinks(links), |links|, []) ==
              ParseLinks(EncodeLinks(links)[ROW * k..], |links| - k, links[..k])
  {
    hide Lawful, EncodeLink, ParseLinks;
    if k == 0 {
      assert EncodeLinks(links)[0..] == EncodeLinks(links) && links[..0] == [];
    } else {
      LinksParse(links, k - 1);
      RowAt(links, k - 1);
      LawfulPrefix(links, k);
      var rest := EncodeLinks(links)[ROW * k..];
      assert EncodeLinks(links)[ROW * (k - 1)..] == EncodeLink(links[k - 1]) + rest;
      assert links[..k - 1] + [links[k - 1]] == links[..k];
      OneMoreRow(rest, links[k - 1], |links| - k + 1, links[..k - 1]);
    }
  }

  lemma {:induction false} RowAt(links: seq<Link>, k: nat)
    requires k < |links|
    ensures EncodeLinks(links)[ROW * k..ROW * (k + 1)] == EncodeLink(links[k])
  {
    hide EncodeLink;
    var n := |links| - 1;
    if k < n {
      RowAt(links[..n], k);
      assert EncodeLinks(links)[ROW * k..ROW * (k + 1)] == EncodeLinks(links[..n])[ROW * k..ROW * (k + 1)];
    }
  }

  /** Every lawful table can be saved, and is read back as it was. */
  lemma LawfulTablesRoundTrip(links: seq<Link>)
    requires Lawful(links)
    ensures Encode(links).Some? && Decode(Encode(links).value) == Some(links)
  {
    hide EncodeLinks, ParseLinks, Less;
    var rows := EncodeLinks(links);
    LinksParse(links, |links|);
    assert rows[ROW * |links|..] == [] && links[..|links|] == links;
    NothingLeft([], links);
    var s := Encode(links).value;
    assert s[13..] == rows && s[12] == |links| && s[..12] == MAGIC;
  }

  lemma NothingLeft(s: Bytes, seen: seq<Link>)
    ensures ParseLinks(s, 0, seen) == Some((seen, s))
  {
  }

  lemma {:induction false} ParsedIsLawful(s: Bytes, count: nat, seen: seq<Link>)
    requires Lawful(seen) && |seen| + count <= CAP
    ensures ParseLinks(s, count, seen).Some? ==>
              var (all, rest) := ParseLinks(s, count, seen).value;
              && Lawful(all) && |all| == |seen| + count
              && EncodeLinks(seen) + s == EncodeLinks(all) + rest
    decreases count
  {
    hide Lawful, EncodeLink, ParseLink, Less, EncodeLinks;
    if count > 0 && ParseLinks(s, count, seen).Some? {
      var link := ParseLink(s[..ROW]).value;
      LinkExact(s[..ROW]);
      SeenStaysLawful(seen, link);
      ParsedIsLawful(s[ROW..], count - 1, seen + [link]);
      EncodeOneMore(seen, link);
      assert EncodeLinks(seen) + s == EncodeLinks(seen) + s[..ROW] + s[ROW..];
    }
  }

  lemma EncodeOneMore(links: seq<Link>, link: Link)
    ensures EncodeLinks(links + [link]) == EncodeLinks(links) + EncodeLink(link)
  {
    assert (links + [link])[..|links|] == links;
  }

  /** Whatever is read back is a lawful table, and except for an empty blob it re-encodes to the same bytes. */
  lemma DecodedTablesAreLawful(s: Bytes)
    requires Decode(s).Some?
    ensures Lawful(Decode(s).value)
    ensures s != [] ==> Encode(Decode(s).value) == Some(s)
  {
    hide EncodeLinks, ParseLinks, Less;
    if s != [] {
      ParsedIsLawful(s[13..], s[12], []);
      var (all, rest) := ParseLinks(s[13..], s[12], []).value;
      NoRows();
      assert [] + s[13..] == s[13..] && EncodeLinks(all) + [] == EncodeLinks(all);
      assert s[13..] == EncodeLinks(all);
      assert s == s[..12] + [s[12]] + s[13..];
      assert s[..12] == MAGIC;
      assert s == BlobOf(all);
    }
  }

  lemma NoRows()
    ensures EncodeLinks([]) == []
  {
  }

  /** The cap is the largest the blob limit leaves room for. */
  lemma CapIsTheLargestThatFits(n: nat)
    ensures |MAGIC| + 1 + ROW * n == 13 + 73 * n
    ensures 13 + 73 * n <= 2560 <==> n <= CAP
  {
  }

  // ---- linked keys

  function LinkedTo(links: seq<Link>, key: Key, kind: LinkKind): seq<Key> {
    if links == [] then []
    else
      var l := links[|links| - 1];
      LinkedTo(links[..|links| - 1], key, kind)
      + if l.kind == kind && (l.a == key || l.b == key) then [if l.a == key then l.b else l.a] else []
  }

  lemma {:induction false} LinkedToIff(links: seq<Link>, key: Key, kind: LinkKind, other: Key)
    ensures other in LinkedTo(links, key, kind) <==>
              exists l :: l in links && l.kind == kind
                          && ((l.a == key && l.b == other) || (l.a != key && l.b == key && l.a == other))
  {
    if links != [] {
      var n := |links| - 1;
      LinkedToIff(links[..n], key, kind, other);
      assert forall l :: l in links <==> l in links[..n] || l == links[n];
    }
  }

  /** The keys listed for a key are exactly those its pairs with which are of that kind. */
  lemma LinkedToAgreesWithGet(links: seq<Link>, key: Key, kind: LinkKind, other: Key)
    requires Lawful(links)
    ensures other in LinkedTo(links, key, kind) <==> Get(links, key, other) == Some(kind)
  {
    hide Less, Get, IndexOf, LinkedTo;
    LinkedToIff(links, key, kind, other);
    GetIff(links, key, other, kind);
    forall l | l in links
      ensures IsOn(l, Canonical(key, other)) <==>
                (l.a == key && l.b == other) || (l.a != key && l.b == key && l.a == other)
    {
      LawfulOrder(links, l);
      LessIsTotal(key, other);
      LessIsTotal(l.a, l.b);
    }
  }

  lemma LawfulOrder(links: seq<Link>, l: Link)
    requires Lawful(links) && l in links
    ensures Less(l.a, l.b)
  {
    hide Less;
  }

  // ---- runs

  /** A window's table; after a failed save it accepts no further change. */
  datatype Window = Window(links: seq<Link>, failed: bool)

  /** One call and whether its save, if it gets that far, succeeds. */
  datatype Call = Call(op: Op, saved: bool)

  predicate Succeeds(w: Window, c: Call) {
    !w.failed && c.saved && Changed(w.links, c.op).Some?
  }

  function Step(w: Window, c: Call): Window {
    if w.failed then w
    else match Changed(w.links, c.op)
      case None => w
      case Some(links) => if c.saved then Window(links, false) else w.(failed := true)
  }

  function Run(w: Window, calls: seq<Call>): Window {
    if calls == [] then w else Step(Run(w, calls[..|calls| - 1]), calls[|calls| - 1])
  }

  /** What the successful calls have last said about a pair. */
  function LastSaid(w: Window, calls: seq<Call>, x: Key, y: Key): Option<LinkKind> {
    if calls == [] then Get(w.links, x, y)
    else
      var before, c := calls[..|calls| - 1], calls[|calls| - 1];
      if Succeeds(Run(w, before), c) && SamePair(c.op.a, c.op.b, x, y) then
        if c.op.Set? && c.op.a != c.op.b then Some(c.op.kind) else None
      else LastSaid(w, before, x, y)
  }

  /**
   Over every run the table stays lawful, answers each pair in either order with what was
   last saved about it, and is untouched by calls that fail.
   */
  lemma {:induction false} RunsRefineMap(w: Window, calls: seq<Call>, x: Key, y: Key)
    requires Lawful(w.links)
    ensures Lawful(Run(w, calls).links)
    ensures Get(Run(w, calls).links, x, y) == LastSaid(w, calls, x, y) == Get(Run(w, calls).links, y, x)
    ensures forall c :: !Succeeds(Run(w, calls), c) ==> Step(Run(w, calls), c).links == Run(w, calls).links
  {
    hide Lawful, Get, Changed;
    GetIsSymmetric(Run(w, calls).links, x, y);
    if calls != [] {
      var before, c := calls[..|calls| - 1], calls[|calls| - 1];
      RunsRefineMap(w, before, x, y);
      ChangeRefinesMap(Run(w, before).links, c.op, x, y);
    }
  }

  /** Some call of the run had something to save and its save failed. */
  ghost predicate SaveFailed(w: Window, calls: seq<Call>) {
    exists i :: 0 <= i < |calls| && !calls[i].saved && Changed(Run(w, calls[..i]).links, calls[i].op).Some?
  }

  /** A run leaves a window failed exactly when a save failed, and a failed window changes no more. */
  lemma {:induction false} RunFailsIff(w: Window, calls: seq<Call>)
    ensures Run(w, calls).failed <==> w.failed || SaveFailed(w, calls)
    ensures w.failed ==> Run(w, calls) == w
  {
    hide Changed;
    if calls != [] {
      var n := |calls| - 1;
      RunFailsIff(w, calls[..n]);
      forall i | 0 <= i < n ensures calls[..n][..i] == calls[..i] {
      }
      if SaveFailed(w, calls[..n]) {
        var i :| 0 <= i < n && !calls[..n][i].saved
                 && Changed(Run(w, calls[..n][..i]).links, calls[..n][i].op).Some?;
        assert calls[..n][i] == calls[i];
        assert SaveFailed(w, calls);
      }
      if SaveFailed(w, calls) {
        var i :| 0 <= i < |calls| && !calls[i].saved && Changed(Run(w, calls[..i]).links, calls[i].op).Some?;
        assert i < n ==> calls[..n][i] == calls[i];
      }
    }
  }

  /** Every table a run reaches can be saved and is read back unchanged. */
  lemma ReachableTablesRoundTrip(s: Bytes, calls: seq<Call>)
    requires Decode(s).Some?
    ensures var links := Run(Window(Decode(s).value, false), calls).links;
            Encode(links).Some? && Decode(Encode(links).value) == Some(links)
  {
    hide Lawful, Get, Changed, Decode, Encode, Step;
    DecodedTablesAreLawful(s);
    var w := Window(Decode(s).value, false);
    var k: Key := seq(32, _ => 0);
    RunsRefineMap(w, calls, k, k);
    LawfulTablesRoundTrip(Run(w, calls).links);
  }
}
