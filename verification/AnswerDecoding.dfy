/** A pseudonym's address in an answer becomes the real address of just the person it stands for. */
module AnswerDecoding {
  import opened Wrappers
  import opened Chars
  import opened Lexicon
  import opened NamePool
  import opened NameMatching
  import opened NameCipher
  import opened CipherRoundTrip
  import opened AddressFinding
  import opened PseudonymForms

  const DOMAIN := "@example.invalid"

  predicate LowerWord(w: string) {
    w != "" && forall i :: 0 <= i < |w| ==> IsAsciiLower(w[i]) || IsAsciiDigit(w[i])
  }

  /** The part of an address before the '@'. */
  function LocalPart(x: Lexicon, o: Origin): string {
    match o
    case Entry(k) => if k < |x.given| && k < |x.family| then Lower(x.given[k]) + "." + Lower(x.family[k]) else ""
    case Number(n) => "person" + Decimal(n)
  }

  lemma LowerOfPlain(w: string)
    requires PlainWord(w)
    ensures LowerWord(Lower(w))
  {
  }

  lemma {:induction false} DecimalIsLower(n: nat)
    ensures LowerWord(Decimal(n))
  {
    if n >= 10 {
      DecimalIsLower(n / 10);
    }
  }

  lemma LocalPartIsLower(letters: Letters, skippedTokens: set<string>, p: Pseudonym, o: Origin)
    requires ComesFrom(ProgramLexicon(letters), skippedTokens, p, o)
    ensures var local := LocalPart(ProgramLexicon(letters), o);
            && local != "" && p.address == local + DOMAIN
            && forall i :: 0 <= i < |local| ==> IsAsciiLower(local[i]) || IsAsciiDigit(local[i]) || local[i] == '.'
  {
    hide Lower, Decimal, PlainWord, ProgramLexicon;
    var x := ProgramLexicon(letters);
    ProgramLexiconIsValid(letters);
    PoolShape(letters);
    match o
    case Entry(k) =>
      LowerOfPlain(x.given[k]);
      LowerOfPlain(x.family[k]);
    case Number(n) =>
      DecimalIsLower(n);
      var local := "person" + Decimal(n);
      assert forall i :: 0 <= i < 6 ==> IsAsciiLower("person"[i]);
      assert forall i :: 6 <= i < |local| ==> local[i] == Decimal(n)[i - 6];
  }

  /** A local part of small letters, digits and dots at the reserved domain is an address, and its own lower case. */
  lemma LocalAtDomain(local: string)
    requires local != ""
    requires forall i :: 0 <= i < |local| ==> IsAsciiLower(local[i]) || IsAsciiDigit(local[i]) || local[i] == '.'
    ensures var address := local + DOMAIN;
            Lower(address) == address && EmailAt(address, 0) == Some((|address|, address))
  {
    hide EmailAt;
    var address, at := local + DOMAIN, |local|;
    assert forall i :: at <= i < |address| ==> address[i] == DOMAIN[i - at];
    assert forall i :: 0 <= i < |DOMAIN| ==> LowerChar(DOMAIN[i]) == DOMAIN[i];
    assert forall i :: 1 <= i < |DOMAIN| ==> DomainChar(DOMAIN[i]);
    assert address[at + 8] == '.';
    assert IsAddress(address, 0, at, |address|, |address|);
    assert address[0..|address|] == address;
    EmailAtIff(address, 0, |address|, Lower(address));
  }

  /** Different origins have different addresses. */
  lemma LocalPartsDiffer(letters: Letters, m: Origin, n: Origin)
    requires m != n
    requires m.Entry? ==> m.index < POOL_SIZE
    requires n.Entry? ==> n.index < POOL_SIZE
    ensures LocalPart(ProgramLexicon(letters), m) != LocalPart(ProgramLexicon(letters), n)
  {
    hide Lower, Decimal, PlainWord, ProgramLexicon;
    var x := ProgramLexicon(letters);
    ProgramLexiconIsValid(letters);
    PoolShape(letters);
    match (m, n) {
      case (Entry(j), Entry(k)) =>
        if j < k {
          PoolWordsDifferInLower(letters, j, k);
        } else {
          PoolWordsDifferInLower(letters, k, j);
        }
        LowerOfPlain(x.given[j]);
        LowerOfPlain(x.given[k]);
        DottedDiffer(Lower(x.given[j]), Lower(x.family[j]), Lower(x.given[k]), Lower(x.family[k]));
      case (Number(j), Number(k)) =>
        if "person" + Decimal(j) == "person" + Decimal(k) {
          assert ("person" + Decimal(j))[6..] == Decimal(j) && ("person" + Decimal(k))[6..] == Decimal(k);
          DecimalTellsApart(j, k);
        }
      case (Entry(j), Number(k)) => DotInWord(Lower(x.given[j]), Lower(x.family[j]), k);
      case (Number(j), Entry(k)) => DotInWord(Lower(x.given[k]), Lower(x.family[k]), j);
    }
  }

  lemma DottedDiffer(g: string, f: string, g': string, f': string)
    requires LowerWord(g) && LowerWord(g') && g != g'
    ensures g + "." + f != g' + "." + f'
  {
    var s, t := g + "." + f, g' + "." + f';
    assert s[|g|] == '.' && t[|g'|] == '.' && s[..|g|] == g && t[..|g'|] == g';
    assert |g| < |g'| ==> t[|g|] == g'[|g|];
    assert |g'| < |g| ==> s[|g'|] == g[|g'|];
  }

  lemma DotInWord(g: string, f: string, n: nat)
    ensures g + "." + f != "person" + Decimal(n)
  {
    hide Decimal;
    DecimalIsLower(n);
    var s, t := g + "." + f, "person" + Decimal(n);
    assert s[|g|] == '.';
    assert |g| < 6 ==> t[|g|] == "person"[|g|];
    assert 6 <= |g| < |t| ==> t[|g|] == Decimal(n)[|g| - 6];
  }

  lemma OriginInPool(letters: Letters, skippedTokens: set<string>, p: Pseudonym, o: Origin)
    requires ComesFrom(ProgramLexicon(letters), skippedTokens, p, o)
    ensures o.Entry? ==> o.index < POOL_SIZE
  {
    hide Lower, Decimal, ProgramLexicon;
    PoolShape(letters);
  }

  /** Nobody's words hold an '@'. */
  lemma WordsHoldNoAt(letters: Letters, skippedTokens: set<string>, p: Pseudonym, o: Origin)
    requires ComesFrom(ProgramLexicon(letters), skippedTokens, p, o)
    ensures '@' !in p.full && '@' !in p.given && (p.family.Some? ==> '@' !in p.family.value)
  {
    hide Lower, Decimal, ProgramLexicon;
    ProgramLexiconIsValid(letters);
    PoolShape(letters);
    if o.Number? {
      DecimalIsLower(o.number);
    }
  }

  /** What the table may hold at a place where an address stands. */
  lemma OnlyItsAddressFits(c: Cipher, fin: Assignment, origin: map<nat, Origin>, letters: Letters, text: string,
                           cursor: nat, p: nat, q: nat, f: DecodeForm)
    requires c.lexicon == ProgramLexicon(letters) && Placed(c, fin, origin)
    requires p in fin.persons && q in fin.persons && f in FormsOf(fin.persons[q])
    requires cursor <= |text| && ExactEmailAt(text, cursor, fin.persons[p].pseudonym.address)
    requires FormMatches(letters, text, cursor, f) && |f.pseudo| >= |fin.persons[p].pseudonym.address|
    ensures p == q && f.original == fin.persons[p].realAddress && f.pseudo == fin.persons[p].pseudonym.address
  {
    hide Lower, EmailAt, ProgramLexicon, ComesFrom, ExactEmailAt, WholeWordAt, LocalPart, Placed;
    var v, w := fin.persons[p].pseudonym, fin.persons[q].pseudonym;
    PlacedForm(c, fin, origin, p);
    PlacedForm(c, fin, origin, q);
    if p != q {
      PlacedApart(c, fin, origin, p, q);
    }
    LocalPartIsLower(letters, fin.skippedTokens, v, origin[p]);
    LocalPartIsLower(letters, fin.skippedTokens, w, origin[q]);
    var at := |LocalPart(c.lexicon, origin[p])|;
    LocalAtDomain(LocalPart(c.lexicon, origin[p]));
    AddressSpan(text, cursor, v.address, at);
    if f.pseudo == w.address {
      AddressAgain(letters, text, cursor, v.address, w.address, LocalPart(c.lexicon, origin[q]));
      assert v.address[..|v.address| - |DOMAIN|] == LocalPart(c.lexicon, origin[p]);
      assert w.address[..|w.address| - |DOMAIN|] == LocalPart(c.lexicon, origin[q]);
      if p != q {
        OriginInPool(letters, fin.skippedTokens, v, origin[p]);
        OriginInPool(letters, fin.skippedTokens, w, origin[q]);
        LocalPartsDiffer(letters, origin[p], origin[q]);
      }
      AddressForms(letters, fin.skippedTokens, fin.persons[q], origin[q], f);
    } else {
      WordsHoldNoAt(letters, fin.skippedTokens, w, origin[q]);
      WordDoesNotFit(letters, text, cursor, f, at, |v.address|);
    }
  }

  lemma PlacedApart(c: Cipher, fin: Assignment, origin: map<nat, Origin>, p: nat, q: nat)
    requires Placed(c, fin, origin) && p in fin.persons && q in fin.persons && p != q
    ensures p in origin && q in origin && origin[p] != origin[q]
  {
    hide ComesFrom;
    assert p in origin && q in origin;
  }

  lemma AddressForms(letters: Letters, skippedTokens: set<string>, person: AssignedPerson, o: Origin, f: DecodeForm)
    requires ComesFrom(ProgramLexicon(letters), skippedTokens, person.pseudonym, o)
    requires f in FormsOf(person) && f.pseudo == person.pseudonym.address
    ensures f.original == person.realAddress
  {
    hide ComesFrom, ProgramLexicon;
    WordsHoldNoAt(letters, skippedTokens, person.pseudonym, o);
    LocalPartIsLower(letters, skippedTokens, person.pseudonym, o);
    assert person.pseudonym.address[|LocalPart(ProgramLexicon(letters), o)|] == '@';
  }

  /** The '@' of a recognised address stands in the text. */
  lemma AddressSpan(text: string, cursor: nat, address: string, at: nat)
    requires cursor <= |text| && ExactEmailAt(text, cursor, address) && at < |address| && address[at] == '@'
    ensures cursor + |address| <= |text| && text[cursor + at] == '@'
  {
    SameShape(text, cursor, address);
    assert SameKind(text[cursor + at], address[at]);
  }

  lemma WordDoesNotFit(u: Letters, text: string, cursor: nat, f: DecodeForm, at: nat, length: nat)
    requires cursor <= |text| && '@' !in f.pseudo && at < length <= |f.pseudo|
    requires cursor + length <= |text| && text[cursor + at] == '@'
    ensures !FormMatches(u, text, cursor, f)
  {
    if cursor + |f.pseudo| <= |text| {
      assert text[cursor..cursor + |f.pseudo|][at] == text[cursor + at];
    }
  }

  lemma AddressAgain(u: Letters, text: string, cursor: nat, v: string, w: string, local: string)
    requires cursor <= |text| && ExactEmailAt(text, cursor, v) && Lower(v) == v && EmailAt(v, 0) == Some((|v|, v))
    requires w == local + DOMAIN && local != ""
    requires forall i :: 0 <= i < |local| ==> IsAsciiLower(local[i]) || IsAsciiDigit(local[i]) || local[i] == '.'
    requires '@' in w ==> ExactEmailAt(text, cursor, w)
    ensures v == w
  {
    hide EmailAt, Lower, ExactEmailAt;
    assert w[|local|] == '@';
    LocalAtDomain(local);
    RecognisedIff(text, cursor, v);
    RecognisedIff(text, cursor, w);
  }

  /** The first form of the table that fits there is that address. */
  lemma AddressComesFirst(c: Cipher, fin: Assignment, origin: map<nat, Origin>, letters: Letters,
                          forms: seq<DecodeForm>, text: string, cursor: nat, p: nat)
    requires c.lexicon == ProgramLexicon(letters) && Placed(c, fin, origin) && IsDecodeTable(fin, forms)
    requires p in fin.persons && cursor <= |text| && ExactEmailAt(text, cursor, fin.persons[p].pseudonym.address)
    ensures var f := FirstForm(letters, forms, text, cursor);
            f.Some? && f.value.original == fin.persons[p].realAddress
            && f.value.pseudo == fin.persons[p].pseudonym.address
  {
    hide Lower, EmailAt, ProgramLexicon, ComesFrom, FormMatches, ExactEmailAt, Placed, IsSorted, FirstForm, LocalPart;
    var person := fin.persons[p];
    PlacedForm(c, fin, origin, p);
    LocalPartIsLower(letters, fin.skippedTokens, person.pseudonym, origin[p]);
    var own := DecodeForm(person.pseudonym.address, person.realAddress, 4);
    assert FormsOf(person)[0] == own;
    OwnAddressMatches(letters, text, cursor, own, |LocalPart(c.lexicon, origin[p])|);
    FirstIsLongest(letters, forms, text, cursor, own);
    var f := FirstForm(letters, forms, text, cursor).value;
    var q :| q in fin.persons && f in FormsOf(fin.persons[q]);
    OnlyItsAddressFits(c, fin, origin, letters, text, cursor, p, q, f);
  }

  lemma PlacedForm(c: Cipher, fin: Assignment, origin: map<nat, Origin>, p: nat)
    requires Placed(c, fin, origin) && p in fin.persons
    ensures p in origin && ComesFrom(c.lexicon, fin.skippedTokens, fin.persons[p].pseudonym, origin[p])
    ensures p < |c.people|
    ensures fin.persons[p].realAddress == (if c.people[p].addresses == [] then "" else c.people[p].addresses[0])
  {
    hide ComesFrom;
  }

  /**
   Where a pseudonym's address stands whole in an answer, decoding puts the real address of the
   person it was given to, whatever else the table holds, and goes on right after it.
   */
  lemma AddressIsRestored(c: Cipher, fin: Assignment, origin: map<nat, Origin>, letters: Letters,
                          forms: seq<DecodeForm>, text: string, cursor: nat, p: nat)
    requires c.lexicon == ProgramLexicon(letters) && Placed(c, fin, origin) && IsDecodeTable(fin, forms)
    requires p in fin.persons && cursor <= |text| && ExactEmailAt(text, cursor, fin.persons[p].pseudonym.address)
    ensures p < |c.people| && cursor + |fin.persons[p].pseudonym.address| <= |text|
    ensures ReplaceFrom(letters, forms, text, cursor) ==
              (if c.people[p].addresses == [] then "" else c.people[p].addresses[0])
              + ReplaceFrom(letters, forms, text, cursor + |fin.persons[p].pseudonym.address|)
  {
    hide Lower, EmailAt, ProgramLexicon, ComesFrom, FormMatches, Placed, IsDecodeTable, FirstForm;
    PlacedForm(c, fin, origin, p);
    AddressComesFirst(c, fin, origin, letters, forms, text, cursor, p);
  }

  lemma OwnAddressMatches(u: Letters, text: string, cursor: nat, own: DecodeForm, at: nat)
    requires cursor <= |text| && ExactEmailAt(text, cursor, own.pseudo) && at < |own.pseudo| && own.pseudo[at] == '@'
    ensures FormMatches(u, text, cursor, own) && cursor + |own.pseudo| <= |text|
  {
    assert '@' in own.pseudo;
  }
}
