/** What leaves the machine for each piece of a text. */
module EncodedPieces {
  import opened Wrappers
  import opened Chars
  import opened Lexicon
  import opened NameMatching
  import opened NameCipher
  import opened NamePool
  import opened CipherRoundTrip
  import opened AddressFinding
  import opened NameFinding

  /**
   A text is cut into addresses, names and single characters; the encoding is what each piece is
   replaced with, one after the other.
   */
  datatype PieceKind = Address(address: string) | Name(person: nat, part: MatchKind) | Other

  datatype Piece = Piece(start: nat, end: nat, kind: PieceKind)

  ghost predicate AddressStands(text: string, start: nat, end: nat, address: string)
    requires start <= |text|
  {
    FreshStart(text, start) && (exists at, rest :: IsAddress(text, start, at, end, rest))
    && address == Lower(text[start..end])
  }

  ghost predicate NoAddress(text: string, start: nat)
    requires start <= |text|
  {
    forall end: nat, address :: !AddressStands(text, start, end, address)
  }

  /** A known name stands there, and beats every other that does. */
  ghost predicate NameWins(c: Cipher, text: string, start: nat, m: Match)
    requires start <= |text|
  {
    && NameStands(c.lexicon, c.people, text, start, m)
    && forall other :: NameStands(c.lexicon, c.people, text, start, other) ==>
         other == m || IsBetterMatch(m, Some(other))
  }

  /** An address stands there, else a name, else it is one character of neither. */
  ghost predicate Stands(c: Cipher, text: string, p: Piece) {
    && p.start < p.end <= |text|
    && match p.kind
       case Address(address) => AddressStands(text, p.start, p.end, address)
       case Name(person, part) => NoAddress(text, p.start) && NameWins(c, text, p.start, Match(p.end, person, part))
       case Other =>
         && NoAddress(text, p.start) && (forall m :: !NameStands(c.lexicon, c.people, text, p.start, m))
         && p.end == p.start + 1
  }

  /** The same, as the encoder looks it up. */
  predicate Found(c: Cipher, text: string, p: Piece) {
    && p.start < p.end <= |text|
    && match p.kind
       case Address(address) => EmailAt(text, p.start) == Some((p.end, address))
       case Name(person, part) =>
         EmailAt(text, p.start).None? && BestName(c, text, p.start) == Some(Match(p.end, person, part))
       case Other => EmailAt(text, p.start).None? && BestName(c, text, p.start).None? && p.end == p.start + 1
  }

  lemma AddressFound(text: string, start: nat)
    requires start <= |text|
    ensures forall end: nat, address :: EmailAt(text, start) == Some((end, address)) <==>
                                   AddressStands(text, start, end, address)
    ensures EmailAt(text, start).None? <==> NoAddress(text, start)
  {
    hide EmailAt, IsAddress, FreshStart;
    forall end: nat, address
      ensures EmailAt(text, start) == Some((end, address)) <==> AddressStands(text, start, end, address)
    {
      EmailAtIff(text, start, end, address);
    }
    if EmailAt(text, start).Some? {
      var (end, address) := EmailAt(text, start).value;
      assert AddressStands(text, start, end, address);
    }
  }

  lemma NameFound(c: Cipher, text: string, start: nat)
    requires start <= |text|
    ensures forall m :: BestName(c, text, start) == Some(m) <==> NameWins(c, text, start, m)
    ensures BestName(c, text, start).None? <==> forall m :: !NameStands(c.lexicon, c.people, text, start, m)
  {
    hide NameStands, IsBetterMatch, BestIn, AllLookups;
    forall m ensures BestName(c, text, start) == Some(m) <==> NameWins(c, text, start, m) {
      TakenNameWins(c.lexicon, c.people, text, start, m);
    }
    TakenNameWins(c.lexicon, c.people, text, start, Match(0, 0, Full));
  }

  lemma StandsIff(c: Cipher, text: string, p: Piece)
    ensures Stands(c, text, p) <==> Found(c, text, p)
  {
    hide AddressStands, NoAddress, NameWins, NameStands, EmailAt, BestName;
    if p.start < |text| {
      AddressFound(text, p.start);
      NameFound(c, text, p.start);
    }
  }

  /** The text from `from` on, cut without gap or overlap. */
  ghost predicate IsCut(c: Cipher, text: string, from: nat, pieces: seq<Piece>) {
    && (if pieces == [] then from == |text| else pieces[0].start == from && pieces[|pieces| - 1].end == |text|)
    && (forall i :: 0 < i < |pieces| ==> pieces[i].start == pieces[i - 1].end)
    && (forall i :: 0 <= i < |pieces| ==> Stands(c, text, pieces[i]))
  }

  /**
   What a piece may be replaced with. A known address becomes its person's pseudonym address, a
   protected one stays, any other is blotted out; a name becomes the same part of its person's
   pseudonym, a family name the given one where there is no other.
   */
  predicate Hides(c: Cipher, fin: Assignment, text: string, p: Piece, image: string)
    requires p.start <= p.end <= |text|
  {
    match p.kind
    case Address(address) =>
      && (address in c.byAddress ==>
            var person := c.byAddress[address];
            person in fin.persons && image == fin.persons[person].pseudonym.address)
      && (address !in c.byAddress && address in c.protectedAddresses ==> image == text[p.start..p.end])
      && (address !in c.byAddress && address !in c.protectedAddresses ==> image == "address" + c.lexicon.domain)
    case Name(person, part) =>
      && person in fin.persons
      && var pseudonym := fin.persons[person].pseudonym;
         && (part == Full ==> image == pseudonym.full)
         && (part == Given || (pseudonym.family.None? && part == Family) ==> image == pseudonym.given)
         && (part == Family && pseudonym.family.Some? ==> image == pseudonym.family.value)
    case Other => image == text[p.start..p.end]
  }

  function Concat(parts: seq<string>): string {
    if parts == [] then "" else parts[0] + Concat(parts[1..])
  }

  /** The output is the images of the pieces, in order. */
  ghost predicate EncodesAs(c: Cipher, fin: Assignment, text: string, pieces: seq<Piece>, output: string)
    requires forall i :: 0 <= i < |pieces| ==> pieces[i].start <= pieces[i].end <= |text|
  {
    exists images: seq<string> ::
      && |images| == |pieces| && output == Concat(images)
      && forall i :: 0 <= i < |pieces| ==> Hides(c, fin, text, pieces[i], images[i])
  }

  lemma CutRest(c: Cipher, text: string, from: nat, pieces: seq<Piece>)
    requires IsCut(c, text, from, pieces) && pieces != []
    ensures from < pieces[0].end && pieces[0].start == from && Stands(c, text, pieces[0])
    ensures IsCut(c, text, pieces[0].end, pieces[1..])
  {
    hide Stands;
    assert Stands(c, text, pieces[0]);
    StandsInside(c, text, pieces[0]);
    forall i | 0 < i < |pieces[1..]| ensures pieces[1..][i].start == pieces[1..][i - 1].end {
      assert pieces[i + 1].start == pieces[i + 1 - 1].end;
    }
    assert |pieces| > 1 ==> pieces[1].start == pieces[1 - 1].end;
  }

  lemma StandsInside(c: Cipher, text: string, p: Piece)
    requires Stands(c, text, p)
    ensures p.start < p.end <= |text|
  {
  }

  lemma PiecesInside(c: Cipher, text: string, from: nat, pieces: seq<Piece>)
    requires IsCut(c, text, from, pieces)
    ensures forall i :: 0 <= i < |pieces| ==> pieces[i].start <= pieces[i].end <= |text|
  {
    hide Stands;
    forall i | 0 <= i < |pieces| ensures pieces[i].start <= pieces[i].end <= |text| {
      assert Stands(c, text, pieces[i]);
      StandsInside(c, text, pieces[i]);
    }
  }

  lemma EncodesCons(c: Cipher, fin: Assignment, text: string, pieces: seq<Piece>, image: string, rest: string)
    requires pieces != [] && forall i :: 0 <= i < |pieces| ==> pieces[i].start <= pieces[i].end <= |text|
    requires Hides(c, fin, text, pieces[0], image) && EncodesAs(c, fin, text, pieces[1..], rest)
    ensures EncodesAs(c, fin, text, pieces, image + rest)
  {
    hide Hides;
    var tail := pieces[1..];
    var images: seq<string> :|
      && |images| == |tail| && rest == Concat(images)
      && forall i :: 0 <= i < |tail| ==> Hides(c, fin, text, tail[i], images[i]);
    var all := [image] + images;
    assert all[1..] == images;
    forall i | 0 <= i < |pieces| ensures Hides(c, fin, text, pieces[i], all[i]) {
      if i > 0 {
        assert tail[i - 1] == pieces[i] && all[i] == images[i - 1];
      }
    }
  }

  /** What one piece is replaced with, and the assignment after it. */
  lemma FirstPiece(c: Cipher, a: Assignment, text: string, p: Piece) returns (image: string, a': Assignment)
    requires ValidCipher(c) && a.nextPoolIndex <= PoolSize(c.lexicon) && Stands(c, text, p)
    ensures a'.nextPoolIndex <= PoolSize(c.lexicon)
    ensures EncodeFrom(c, a, text, p.start).0 == image + EncodeFrom(c, a', text, p.end).0
    ensures EncodeFrom(c, a, text, p.start).1 == EncodeFrom(c, a', text, p.end).1
    ensures forall fin :: Extends(a', fin) ==> Hides(c, fin, text, p, image)
  {
    hide BestName, EmailAt, Assign, Stands;
    StandsIff(c, text, p);
    match p.kind
    case Address(address) =>
      if address in c.byAddress {
        var person := c.byAddress[address];
        a' := Assign(c, a, person);
        assert person in a'.persons.Keys;
        image := a'.persons[person].pseudonym.address;
      } else {
        a' := a;
        image := if address in c.protectedAddresses then text[p.start..p.end] else "address" + c.lexicon.domain;
      }
    case Name(person, part) =>
      a' := Assign(c, a, person);
      assert person in a'.persons.Keys;
      image := NameReplacement(a'.persons[person].pseudonym, part);
    case Other =>
      a' := a;
      image := text[p.start..p.end];
      assert text[p.start..p.end] == [text[p.start]];
  }

  /** Every text, whatever stands in it, is encoded piece by piece. */
  lemma {:induction false} EncodedPieceByPiece(c: Cipher, a: Assignment, text: string, from: nat, pieces: seq<Piece>,
                                               fin: Assignment)
    requires ValidCipher(c) && from <= |text| && a.nextPoolIndex <= PoolSize(c.lexicon)
    requires IsCut(c, text, from, pieces) && Extends(EncodeFrom(c, a, text, from).1, fin)
    ensures forall i :: 0 <= i < |pieces| ==> pieces[i].start <= pieces[i].end <= |text|
    ensures EncodesAs(c, fin, text, pieces, EncodeFrom(c, a, text, from).0)
    decreases |pieces|
  {
    hide IsCut, Hides, EncodeFrom, Stands, EncodesAs, Extends;
    PiecesInside(c, text, from, pieces);
    if pieces == [] {
      NothingLeft(c, a, text, from, pieces, fin);
    } else {
      CutRest(c, text, from, pieces);
      StandsInside(c, text, pieces[0]);
      var image, a' := FirstPiece(c, a, text, pieces[0]);
      var end := pieces[0].end;
      EncodeExtends(c, a', text, end);
      ExtendsThrough(a', EncodeFrom(c, a', text, end).1, fin);
      EncodedPieceByPiece(c, a', text, end, pieces[1..], fin);
      EncodesCons(c, fin, text, pieces, image, EncodeFrom(c, a', text, end).0);
    }
  }

  lemma NothingLeft(c: Cipher, a: Assignment, text: string, from: nat, pieces: seq<Piece>, fin: Assignment)
    requires ValidCipher(c) && from <= |text| && a.nextPoolIndex <= PoolSize(c.lexicon)
    requires IsCut(c, text, from, pieces) && pieces == []
    ensures EncodesAs(c, fin, text, pieces, EncodeFrom(c, a, text, from).0)
  {
    var none: seq<string> := [];
    assert Concat(none) == EncodeFrom(c, a, text, from).0;
  }

  lemma ExtendsThrough(a: Assignment, b: Assignment, d: Assignment)
    requires Extends(a, b) && Extends(b, d)
    ensures Extends(a, d)
  {
  }

  /** There is just one way to cut a text. */
  lemma {:induction false} CutIsUnique(c: Cipher, text: string, from: nat, p: seq<Piece>, q: seq<Piece>)
    requires IsCut(c, text, from, p) && IsCut(c, text, from, q)
    ensures p == q
    decreases |p|
  {
    hide IsCut;
    if p == [] || q == [] {
      CutEnds(c, text, from, p);
      CutEnds(c, text, from, q);
    } else {
      CutRest(c, text, from, p);
      CutRest(c, text, from, q);
      hide Stands, BestName, EmailAt;
      StandsIff(c, text, p[0]);
      StandsIff(c, text, q[0]);
      assert p[0] == q[0];
      CutIsUnique(c, text, p[0].end, p[1..], q[1..]);
    }
  }

  lemma CutEnds(c: Cipher, text: string, from: nat, pieces: seq<Piece>)
    requires IsCut(c, text, from, pieces)
    ensures pieces == [] <==> from >= |text|
  {
    if pieces != [] {
      assert Stands(c, text, pieces[0]);
    }
  }

  /** And every text can be cut. */
  lemma {:induction false} CutExists(c: Cipher, text: string, from: nat) returns (pieces: seq<Piece>)
    requires from <= |text|
    ensures IsCut(c, text, from, pieces)
    decreases |text| - from
  {
    hide BestName, EmailAt, Stands, IsCut;
    pieces := [];
    CutOfNothing(c, text);
    if from < |text| {
      var first;
      match EmailAt(text, from) {
        case Some((end, address)) => first := Piece(from, end, Address(address));
        case None =>
          match BestName(c, text, from) {
            case Some(m) => first := Piece(from, m.end, Name(m.person, m.kind));
            case None => first := Piece(from, from + 1, Other);
          }
      }
      StandsIff(c, text, first);
      var rest := CutExists(c, text, first.end);
      pieces := [first] + rest;
      CutCons(c, text, first, rest);
    }
  }

  lemma CutOfNothing(c: Cipher, text: string)
    ensures IsCut(c, text, |text|, [])
  {
  }

  lemma CutCons(c: Cipher, text: string, first: Piece, rest: seq<Piece>)
    requires Stands(c, text, first) && IsCut(c, text, first.end, rest)
    ensures IsCut(c, text, first.start, [first] + rest)
  {
    hide Stands;
    var pieces := [first] + rest;
    forall i | 0 < i < |pieces| ensures pieces[i].start == pieces[i - 1].end {
      assert i > 1 ==> rest[i - 1].start == rest[i - 1 - 1].end;
    }
  }

  /** Every text of a request goes out piece by piece, under the one assignment the request ends with. */
  lemma {:induction false} RequestGoesOutHidden(c: Cipher, a: Assignment, texts: seq<string>, i: nat,
                                                pieces: seq<Piece>)
    requires ValidCipher(c) && a.nextPoolIndex <= PoolSize(c.lexicon) && i < |texts|
    requires IsCut(c, texts[i], 0, pieces)
    ensures forall k :: 0 <= k < |pieces| ==> pieces[k].start <= pieces[k].end <= |texts[i]|
    ensures var (outs, fin) := EncodeAll(c, a, texts);
            EncodesAs(c, fin, texts[i], pieces, outs[i])
    decreases i
  {
    hide IsCut, EncodesAs, EncodeFrom;
    PiecesInside(c, texts[i], 0, pieces);
    var a' := EncodeFrom(c, a, texts[0], 0).1;
    if i == 0 {
      EncodeAllKeeps(c, a', texts[1..]);
      EncodedPieceByPiece(c, a, texts[0], 0, pieces, EncodeAll(c, a, texts).1);
    } else {
      RequestGoesOutHidden(c, a', texts[1..], i - 1, pieces);
    }
  }

  /** With the program's words: an address nobody knows goes out as address@example.invalid, whatever it was. */
  lemma StrangersAreBlottedOut(letters: Letters, c: Cipher, fin: Assignment, text: string, p: Piece, image: string)
    requires c.lexicon == ProgramLexicon(letters)
    requires p.start <= p.end <= |text| && p.kind.Address? && Hides(c, fin, text, p, image)
    requires p.kind.address !in c.byAddress && p.kind.address !in c.protectedAddresses
    ensures image == "address@example.invalid"
  {
    assert "address" + "@example.invalid" == "address@example.invalid";
  }
}
