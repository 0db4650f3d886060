/** Who gets which pseudonym: a pool entry free in the request, or a number once the pool has run out. */
module PseudonymForms {
  import opened Wrappers
  import opened Chars
  import opened Lexicon
  import opened NameMatching
  import opened NameCipher
  import opened CipherRoundTrip

  datatype Origin = Entry(index: nat) | Number(number: nat)

  /** What a pseudonym of this origin looks like. */
  ghost predicate ComesFrom(x: Lexicon, skippedTokens: set<string>, p: Pseudonym, o: Origin) {
    match o
    case Entry(k) =>
      && k < |x.given| && k < |x.family|
      && Lower(x.given[k]) !in skippedTokens && Lower(x.family[k]) !in skippedTokens
      && p.given == x.given[k] && p.family == Some(x.family[k]) && p.full == x.given[k] + " " + x.family[k]
      && p.address == Lower(x.given[k]) + "." + Lower(x.family[k]) + x.domain
    case Number(n) =>
      && n >= 25
      && p.given == p.full == "Person " + Decimal(n) && p.family == None
      && p.address == "person" + Decimal(n) + x.domain
  }

  /** The person carries their own first name and address, and a pseudonym of this origin. */
  ghost predicate Carries(c: Cipher, a: Assignment, p: nat, o: Origin)
    requires p in a.persons
  {
    && p < |c.people| && c.people[p].names != [] && a.persons[p].realName == c.people[p].names[0]
    && a.persons[p].realAddress == (if c.people[p].addresses == [] then "" else c.people[p].addresses[0])
    && ComesFrom(c.lexicon, a.skippedTokens, a.persons[p].pseudonym, o)
    && UsedUp(a, o)
  }

  /** Everyone carries their own, and nobody the origin of another; the numbers used run from 25 without a gap. */
  ghost predicate Placed(c: Cipher, a: Assignment, origin: map<nat, Origin>) {
    && a.nextPoolIndex <= PoolSize(c.lexicon) && a.overflowIndex >= FIRST_OVERFLOW
    && origin.Keys == a.persons.Keys
    && (forall p :: p in a.persons ==> Carries(c, a, p, origin[p]))
    && (forall p, q :: p in origin && q in origin && p != q ==> origin[p] != origin[q])
    && (forall n :: 25 <= n < a.overflowIndex ==> Given(origin, n))
  }

  ghost predicate Given(origin: map<nat, Origin>, n: nat) {
    exists p :: p in origin && origin[p] == Number(n)
  }

  lemma NumbersStayGiven(origin: map<nat, Origin>, p: nat, o: Origin, n: nat)
    requires p !in origin && (o == Number(n) || Given(origin, n))
    ensures Given(origin[p := o], n)
  {
    var after := origin[p := o];
    if o == Number(n) {
      assert after[p] == Number(n);
    } else {
      var q :| q in origin && origin[q] == Number(n);
      assert after[q] == Number(n);
    }
  }

  predicate UsedUp(a: Assignment, o: Origin) {
    match o case Entry(k) => k < a.nextPoolIndex case Number(n) => n < a.overflowIndex
  }

  lemma {:induction false} DigitsStay(n: nat)
    ensures AsciiAlnumOnly(Decimal(n)) == Decimal(n) && Lower(Decimal(n)) == Decimal(n)
  {
    if n >= 10 {
      DigitsStay(n / 10);
      AlnumConcat(Decimal(n / 10), [Digit(n % 10)]);
      LowerConcat(Decimal(n / 10), [Digit(n % 10)]);
    }
    assert AsciiAlnumOnly([Digit(n % 10)]) == [Digit(n % 10)] by {
      assert [Digit(n % 10)][1..] == "";
    }
  }

  lemma AlnumStep(s: string)
    ensures AsciiAlnumOnly(s) ==
              if s == "" then "" else (if IsAsciiAlnum(s[0]) then [s[0]] else "") + AsciiAlnumOnly(s[1..])
  {
  }

  lemma {:induction false} AlnumConcat(s: string, t: string)
    ensures AsciiAlnumOnly(s + t) == AsciiAlnumOnly(s) + AsciiAlnumOnly(t)
  {
    hide IsAsciiAlnum, AsciiAlnumOnly;
    AlnumStep(s);
    AlnumStep(s + t);
    if s == "" {
      assert s + t == t && "" + AsciiAlnumOnly(t) == AsciiAlnumOnly(t);
    } else {
      assert (s + t)[1..] == s[1..] + t;
      AlnumConcat(s[1..], t);
      var head := if IsAsciiAlnum(s[0]) then [s[0]] else "";
      assert head + (AsciiAlnumOnly(s[1..]) + AsciiAlnumOnly(t)) == head + AsciiAlnumOnly(s[1..]) + AsciiAlnumOnly(t);
    }
  }

  lemma LowerConcat(s: string, t: string)
    ensures Lower(s + t) == Lower(s) + Lower(t)
  {
  }

  lemma {:induction false} WordsStay(s: string)
    requires forall i :: 0 <= i < |s| ==> IsAsciiAlnum(s[i])
    ensures AsciiAlnumOnly(s) == s
  {
    if s != "" {
      WordsStay(s[1..]);
    }
  }

  lemma PersonWord()
    ensures AsciiAlnumOnly("Person ") == "Person" && Lower("Person") == "person"
  {
    WordsStay("Person");
    SpaceGoes();
    AlnumConcat("Person", " ");
    assert "Person " == "Person" + " ";
    PersonLower();
  }

  lemma SpaceGoes()
    ensures AsciiAlnumOnly(" ") == ""
  {
    assert " "[1..] == "";
  }

  lemma PersonLower()
    ensures Lower("Person") == "person"
  {
    var s, t := Lower("Person"), "person";
    assert s[0] == t[0] && s[1] == t[1] && s[2] == t[2] && s[3] == t[3] && s[4] == t[4] && s[5] == t[5];
  }

  lemma NumberedForm(n: nat, domain: string)
    ensures NewPseudonym("Person " + Decimal(n), None, domain) ==
              Pseudonym("Person " + Decimal(n), None, "Person " + Decimal(n), "person" + Decimal(n) + domain)
  {
    hide AsciiAlnumOnly, Lower, Decimal;
    AlnumConcat("Person ", Decimal(n));
    PersonWord();
    DigitsStay(n);
    LowerConcat("Person", Decimal(n));
  }

  lemma NextComesFrom(x: Lexicon, a: Assignment) returns (o: Origin)
    requires a.nextPoolIndex <= PoolSize(x) && a.overflowIndex >= FIRST_OVERFLOW
    ensures var (p, b) := NextPseudonym(x, a);
            && ComesFrom(x, a.skippedTokens, p, o) && UsedUp(b, o) && !UsedUp(a, o)
            && b.nextPoolIndex <= PoolSize(x) && b.nextPoolIndex >= a.nextPoolIndex
            && b.overflowIndex >= a.overflowIndex
            && (forall n :: a.overflowIndex <= n < b.overflowIndex ==> o == Number(n))
            && b.skippedTokens == a.skippedTokens && b.persons == a.persons
  {
    hide Lower, Decimal, AsciiAlnumOnly;
    var k := NextFree(x, a.skippedTokens, a.nextPoolIndex);
    if k < PoolSize(x) {
      o := Entry(k);
    } else {
      o := Number(a.overflowIndex);
      NumberedForm(a.overflowIndex, x.domain);
    }
  }

  lemma AssignShape(c: Cipher, a: Assignment, p: nat)
    requires ValidCipher(c) && p < |c.people| && a.nextPoolIndex <= PoolSize(c.lexicon)
    ensures var b, (pseudonym, next) := Assign(c, a, p), NextPseudonym(c.lexicon, a);
            if p in a.persons then b == a
            else
              && b == next.(persons := b.persons) && b.persons.Keys == a.persons.Keys + {p}
              && (forall q :: q in a.persons ==> b.persons[q] == a.persons[q])
              && b.persons[p] == AssignedPerson(pseudonym, c.people[p].names[0],
                                                if c.people[p].addresses == [] then "" else c.people[p].addresses[0])
  {
    hide NextPseudonym, PoolSize;
  }

  lemma CarriesOn(c: Cipher, a: Assignment, b: Assignment, q: nat, o: Origin)
    requires q in a.persons && q in b.persons && b.persons[q] == a.persons[q] && Carries(c, a, q, o)
    requires b.skippedTokens == a.skippedTokens
    requires a.nextPoolIndex <= b.nextPoolIndex && b.overflowIndex >= a.overflowIndex
    ensures UsedUp(a, o) && Carries(c, b, q, o)
  {
    hide ComesFrom;
  }

  lemma CarriesFirst(c: Cipher, b: Assignment, p: nat, o: Origin)
    requires ValidCipher(c) && p < |c.people| && p in b.persons
    requires ComesFrom(c.lexicon, b.skippedTokens, b.persons[p].pseudonym, o) && UsedUp(b, o)
    requires b.persons[p].realName == c.people[p].names[0]
    requires b.persons[p].realAddress == (if c.people[p].addresses == [] then "" else c.people[p].addresses[0])
    ensures Carries(c, b, p, o)
  {
    hide ComesFrom;
  }

  lemma NewcomerPlaced(c: Cipher, a: Assignment, b: Assignment, p: nat, origin: map<nat, Origin>, o: Origin)
    requires Placed(c, a, origin) && ValidCipher(c) && p < |c.people| && p !in a.persons
    requires b.persons.Keys == a.persons.Keys + {p} && forall q :: q in a.persons ==> b.persons[q] == a.persons[q]
    requires b.skippedTokens == a.skippedTokens
    requires a.nextPoolIndex <= b.nextPoolIndex <= PoolSize(c.lexicon) && b.overflowIndex >= a.overflowIndex
    requires ComesFrom(c.lexicon, a.skippedTokens, b.persons[p].pseudonym, o) && UsedUp(b, o) && !UsedUp(a, o)
    requires forall n :: a.overflowIndex <= n < b.overflowIndex ==> o == Number(n)
    requires b.persons[p].realName == c.people[p].names[0]
    requires b.persons[p].realAddress == (if c.people[p].addresses == [] then "" else c.people[p].addresses[0])
    ensures Placed(c, b, origin[p := o])
  {
    hide ComesFrom, PoolSize, Given, Carries, UsedUp;
    var after := origin[p := o];
    forall q | q in a.persons ensures UsedUp(a, origin[q]) && Carries(c, b, q, after[q]) {
      CarriesOn(c, a, b, q, origin[q]);
    }
    assert forall q :: q in origin ==> q in a.persons && origin[q] != o;
    CarriesFirst(c, b, p, o);
    forall n | 25 <= n < b.overflowIndex ensures Given(after, n) {
      NumbersStayGiven(origin, p, o, n);
    }
  }

  lemma AssignPlaces(c: Cipher, a: Assignment, p: nat, origin: map<nat, Origin>) returns (after: map<nat, Origin>)
    requires ValidCipher(c) && p < |c.people| && Placed(c, a, origin)
    ensures Placed(c, Assign(c, a, p), after)
  {
    hide NextPseudonym, ComesFrom, PoolSize, Given, Placed, Assign;
    PlacedIndex(c, a, origin);
    AssignShape(c, a, p);
    after := origin;
    if p !in a.persons {
      var o := NextComesFrom(c.lexicon, a);
      after := origin[p := o];
      NewcomerPlaced(c, a, Assign(c, a, p), p, origin, o);
    }
  }

  lemma {:induction false} EncodePlaces(c: Cipher, a: Assignment, text: string, cursor: nat, origin: map<nat, Origin>)
    returns (after: map<nat, Origin>)
    requires ValidCipher(c) && cursor <= |text| && Placed(c, a, origin)
    ensures a.nextPoolIndex <= PoolSize(c.lexicon)
    ensures Placed(c, EncodeFrom(c, a, text, cursor).1, after)
    decreases |text| - cursor
  {
    hide Placed, BestName, EmailAt;
    PlacedIndex(c, a, origin);
    if cursor == |text| {
      after := origin;
    } else {
      match EmailAt(text, cursor)
      case Some((end, address)) =>
        if address in c.byAddress {
          var placed := AssignPlaces(c, a, c.byAddress[address], origin);
          after := EncodePlaces(c, Assign(c, a, c.byAddress[address]), text, end, placed);
        } else {
          after := EncodePlaces(c, a, text, end, origin);
        }
      case None =>
        match BestName(c, text, cursor)
        case Some(m) =>
          var placed := AssignPlaces(c, a, m.person, origin);
          after := EncodePlaces(c, Assign(c, a, m.person), text, m.end, placed);
        case None =>
          after := EncodePlaces(c, a, text, cursor + 1, origin);
    }
  }

  lemma PlacedIndex(c: Cipher, a: Assignment, origin: map<nat, Origin>)
    requires Placed(c, a, origin)
    ensures a.nextPoolIndex <= PoolSize(c.lexicon) && a.overflowIndex >= FIRST_OVERFLOW
  {
  }

  lemma {:induction false} AllPlaced(c: Cipher, a: Assignment, texts: seq<string>, origin: map<nat, Origin>)
    returns (after: map<nat, Origin>)
    requires ValidCipher(c) && Placed(c, a, origin)
    ensures a.nextPoolIndex <= PoolSize(c.lexicon)
    ensures Placed(c, EncodeAll(c, a, texts).1, after)
    decreases |texts|
  {
    hide Placed, EncodeFrom;
    PlacedIndex(c, a, origin);
    after := origin;
    if texts != [] {
      var first := EncodePlaces(c, a, texts[0], 0, origin);
      after := AllPlaced(c, EncodeFrom(c, a, texts[0], 0).1, texts[1..], first);
    }
  }

  /**
   After any request everyone mentioned has their own pseudonym: a pool entry whose words do not
   occur in the request, or a number from 25 on.
   */
  lemma EveryoneIsPlaced(c: Cipher, texts: seq<string>) returns (origin: map<nat, Origin>)
    requires ValidCipher(c)
    ensures Placed(c, EncodeAll(c, FreshAssignment(c.lexicon.letters, texts), texts).1, origin)
  {
    origin := AllPlaced(c, FreshAssignment(c.lexicon.letters, texts), texts, map[]);
  }

  lemma {:induction false} DecimalTellsApart(m: nat, n: nat)
    requires Decimal(m) == Decimal(n)
    ensures m == n
  {
    if m >= 10 && n >= 10 {
      assert Decimal(m)[..|Decimal(m)| - 1] == Decimal(m / 10) && Decimal(n)[..|Decimal(n)| - 1] == Decimal(n / 10);
      DecimalTellsApart(m / 10, n / 10);
      assert Decimal(m)[|Decimal(m)| - 1] == Digit(m % 10) && Decimal(n)[|Decimal(n)| - 1] == Digit(n % 10);
    } else if m >= 10 {
      DecimalNotEmpty(m / 10);
    } else if n >= 10 {
      DecimalNotEmpty(n / 10);
    }
  }

  lemma DecimalNotEmpty(n: nat)
    ensures Decimal(n) != "" && IsAsciiDigit(Decimal(n)[|Decimal(n)| - 1])
  {
  }

  /** So no two people share a full pseudonym, even after the pool has run out. */
  lemma FullNamesDiffer(c: Cipher, a: Assignment, origin: map<nat, Origin>, p: nat, q: nat)
    requires ValidLexicon(c.lexicon) && Placed(c, a, origin) && p in a.persons && q in a.persons && p != q
    ensures a.persons[p].pseudonym.full != a.persons[q].pseudonym.full
  {
    hide Decimal;
    var x, m, n := c.lexicon, origin[p], origin[q];
    var v, w := a.persons[p].pseudonym, a.persons[q].pseudonym;
    assert p in origin && q in origin;
    if m.Entry? && n.Entry? {
      SplitName(x.given[m.index], x.family[m.index], x.given[n.index], x.family[n.index]);
    } else if m.Number? && n.Number? {
      if v.full == w.full {
        assert v.full[7..] == Decimal(m.number) && w.full[7..] == Decimal(n.number);
        DecimalTellsApart(m.number, n.number);
      }
    } else if m.Entry? {
      LettersEnd(x.given[m.index], x.family[m.index], n.number);
    } else {
      LettersEnd(x.given[n.index], x.family[n.index], m.number);
    }
  }

  lemma SplitName(g: string, f: string, g': string, f': string)
    requires PlainWord(g) && PlainWord(f) && PlainWord(g') && PlainWord(f') && g != g'
    ensures g + " " + f != g' + " " + f'
  {
    var s, t := g + " " + f, g' + " " + f';
    assert s[|g|] == ' ' && t[|g'|] == ' ' && s[..|g|] == g && t[..|g'|] == g';
    assert |g| < |g'| ==> t[|g|] == g'[|g|];
    assert |g'| < |g| ==> s[|g'|] == g[|g'|];
  }

  lemma LettersEnd(g: string, f: string, n: nat)
    requires PlainWord(f)
    ensures g + " " + f != "Person " + Decimal(n)
  {
    hide Decimal;
    DecimalNotEmpty(n);
    var s, t := g + " " + f, "Person " + Decimal(n);
    assert s[|s| - 1] == f[|f| - 1];
    assert t[|t| - 1] == Decimal(n)[|Decimal(n)| - 1];
  }
}
