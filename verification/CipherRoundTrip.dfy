/**
 Decoding an encoded request gives back every text that holds no address. The words of a pool
 pseudonym do not occur in the request, no two people share one, and a replacement stands
 between the same word boundaries as the name it replaced. So wherever decoding looks, it finds
 the form that encoding put there, or none at all.
 */
module CipherRoundTrip {
  import opened Wrappers
  import opened Chars
  import opened Lexicon
  import opened NameMatching
  import opened NameCipher

  // ---- the setting

  /** One name, "Given" or "Given Family", whose only full form is the name itself. */
  ghost predicate PlainName(u: Letters, n: PersonName) {
    && n.given != "" && IsWordChar(u, n.given[0])
    && (n.family.Some? ==> n.family.value != "" && IsWordChar(u, n.family.value[0]))
    && n.canonicalFull == (if n.family.Some? then n.given + " " + n.family.value else n.given)
    && n.fullForms == [n.canonicalFull]
  }

  ghost predicate PlainPeople(c: Cipher) {
    forall p :: 0 <= p < |c.people| ==> |c.people[p].names| == 1 && PlainName(c.lexicon.letters, c.people[p].names[0])
  }

  /** A pseudonym from the pool whose words do not occur in the request. */
  ghost predicate PoolPseudonym(p: Pseudonym, skippedTokens: set<string>) {
    && p.family.Some? && PlainWord(p.given) && PlainWord(p.family.value)
    && p.full == p.given + " " + p.family.value && '@' in p.address
    && Lower(p.given) !in skippedTokens && Lower(p.family.value) !in skippedTokens
  }

  ghost predicate WordsApart(p: Pseudonym, q: Pseudonym) {
    p.given != q.given && p.family != q.family
  }

  /** Everyone assigned carries their own name and pool words nobody else has. */
  ghost predicate Sound(c: Cipher, a: Assignment) {
    && (forall p :: p in a.persons ==>
          && p < |c.people| && c.people[p].names != [] && a.persons[p].realName == c.people[p].names[0]
          && PoolPseudonym(a.persons[p].pseudonym, a.skippedTokens))
    && (forall p, q :: p in a.persons && q in a.persons && p != q ==>
          WordsApart(a.persons[p].pseudonym, a.persons[q].pseudonym))
    && (forall p, q :: p in a.persons && q in a.persons ==>
          a.persons[p].pseudonym.family != Some(a.persons[q].pseudonym.given))
  }

  ghost predicate FromEntry(x: Lexicon, p: Pseudonym, k: nat) {
    k < PoolSize(x) && p.given == x.given[k] && p.family == Some(x.family[k])
  }

  /** Sound, and only pool entries before the next one are taken. */
  ghost predicate Good(c: Cipher, a: Assignment) {
    && a.nextPoolIndex <= PoolSize(c.lexicon)
    && Sound(c, a)
    && PoolBelow(c.lexicon, a)
  }

  ghost predicate Extends(a: Assignment, b: Assignment) {
    && a.skippedTokens == b.skippedTokens
    && a.overflowIndex <= b.overflowIndex
    && (forall p :: p in a.persons ==> p in b.persons && b.persons[p] == a.persons[p])
  }

  lemma AssignExtends(c: Cipher, a: Assignment, p: nat)
    requires ValidCipher(c) && p < |c.people| && a.nextPoolIndex <= PoolSize(c.lexicon)
    ensures Extends(a, Assign(c, a, p))
  {
  }

  lemma EntriesApart(x: Lexicon, p: Pseudonym, j: nat, q: Pseudonym, k: nat)
    requires ValidLexicon(x) && FromEntry(x, p, j) && FromEntry(x, q, k)
    ensures j != k ==> WordsApart(p, q)
    ensures p.family != Some(q.given)
  {
  }

  lemma NewcomerApart(c: Cipher, a: Assignment, p: nat, q: nat)
    requires ValidCipher(c) && ValidLexicon(c.lexicon) && p < |c.people| && Good(c, a)
    requires Assign(c, a, p).overflowIndex == a.overflowIndex
    requires p !in a.persons && q in a.persons
    ensures var newcomer, other := Assign(c, a, p).persons[p].pseudonym, a.persons[q].pseudonym;
            && WordsApart(newcomer, other) && WordsApart(other, newcomer)
            && newcomer.family != Some(other.given) && other.family != Some(newcomer.given)
  {
    var newcomer, other := Assign(c, a, p).persons[p].pseudonym, a.persons[q].pseudonym;
    var j: nat :| j < a.nextPoolIndex && FromEntry(c.lexicon, other, j);
    var k := NextFree(c.lexicon, a.skippedTokens, a.nextPoolIndex);
    EntriesApart(c.lexicon, newcomer, k, other, j);
    EntriesApart(c.lexicon, other, j, newcomer, k);
  }

  lemma NewcomerFromPool(c: Cipher, a: Assignment, p: nat)
    requires ValidCipher(c) && ValidLexicon(c.lexicon) && p < |c.people| && a.nextPoolIndex <= PoolSize(c.lexicon)
    requires Assign(c, a, p).overflowIndex == a.overflowIndex && p !in a.persons
    ensures var newcomer, k := Assign(c, a, p).persons[p].pseudonym,
              NextFree(c.lexicon, a.skippedTokens, a.nextPoolIndex);
            && k < Assign(c, a, p).nextPoolIndex && FromEntry(c.lexicon, newcomer, k)
            && newcomer.family != Some(newcomer.given)
            && PoolPseudonym(newcomer, a.skippedTokens)
  {
    var x, k := c.lexicon, NextFree(c.lexicon, a.skippedTokens, a.nextPoolIndex);
    DomainInAddress(x, Lower(x.given[k]) + "." + Lower(x.family[k]));
  }

  lemma DomainInAddress(x: Lexicon, local: string)
    requires '@' in x.domain
    ensures '@' in local + x.domain
  {
    var i :| 0 <= i < |x.domain| && x.domain[i] == '@';
    assert (local + x.domain)[|local| + i] == '@';
  }

  lemma AssignGrows(c: Cipher, a: Assignment, p: nat)
    requires ValidCipher(c) && p < |c.people| && a.nextPoolIndex <= PoolSize(c.lexicon) && p !in a.persons
    ensures var b := Assign(c, a, p);
            && a.nextPoolIndex <= b.nextPoolIndex && b.persons == a.persons[p := b.persons[p]]
            && b.skippedTokens == a.skippedTokens && b.persons[p].realName == c.people[p].names[0]
  {
  }

  lemma AddedStaysSound(c: Cipher, a: Assignment, b: Assignment, p: nat)
    requires Sound(c, a) && p !in a.persons && p < |c.people| && c.people[p].names != []
    requires p in b.persons && b.persons == a.persons[p := b.persons[p]] && b.skippedTokens == a.skippedTokens
    requires b.persons[p].realName == c.people[p].names[0] && PoolPseudonym(b.persons[p].pseudonym, a.skippedTokens)
    requires b.persons[p].pseudonym.family != Some(b.persons[p].pseudonym.given)
    requires forall q :: q in a.persons ==>
               && WordsApart(b.persons[p].pseudonym, a.persons[q].pseudonym)
               && WordsApart(a.persons[q].pseudonym, b.persons[p].pseudonym)
               && b.persons[p].pseudonym.family != Some(a.persons[q].pseudonym.given)
               && a.persons[q].pseudonym.family != Some(b.persons[p].pseudonym.given)
    ensures Sound(c, b)
  {
    hide PoolPseudonym;
    hide WordsApart;
  }

  ghost predicate PoolBelow(x: Lexicon, a: Assignment) {
    forall p :: p in a.persons ==> exists k: nat :: k < a.nextPoolIndex && FromEntry(x, a.persons[p].pseudonym, k)
  }

  lemma AddedStaysBelow(x: Lexicon, a: Assignment, b: Assignment, p: nat, k: nat)
    requires PoolBelow(x, a) && a.nextPoolIndex <= b.nextPoolIndex
    requires p in b.persons && b.persons == a.persons[p := b.persons[p]]
    requires k < b.nextPoolIndex && FromEntry(x, b.persons[p].pseudonym, k)
    ensures PoolBelow(x, b)
  {
    hide FromEntry;
    forall q | q in b.persons
      ensures exists j: nat :: j < b.nextPoolIndex && FromEntry(x, b.persons[q].pseudonym, j)
    {
      if q != p {
        var j: nat :| j < a.nextPoolIndex && FromEntry(x, a.persons[q].pseudonym, j);
        assert j < b.nextPoolIndex && FromEntry(x, b.persons[q].pseudonym, j);
      }
    }
  }

  lemma AssignKeepsGood(c: Cipher, a: Assignment, p: nat)
    requires ValidCipher(c) && ValidLexicon(c.lexicon) && p < |c.people| && Good(c, a)
    requires Assign(c, a, p).overflowIndex == a.overflowIndex
    ensures Good(c, Assign(c, a, p))
  {
    var b := Assign(c, a, p);
    if p !in a.persons {
      NewcomerFromPool(c, a, p);
      AssignGrows(c, a, p);
      hide FromEntry;
      hide PoolPseudonym;
      hide ValidLexicon;
      hide Assign;
      hide Sound;
      hide PoolBelow;
      AddedStaysBelow(c.lexicon, a, b, p, NextFree(c.lexicon, a.skippedTokens, a.nextPoolIndex));
      forall q | q in a.persons
        ensures WordsApart(b.persons[p].pseudonym, a.persons[q].pseudonym)
        ensures WordsApart(a.persons[q].pseudonym, b.persons[p].pseudonym)
        ensures b.persons[p].pseudonym.family != Some(a.persons[q].pseudonym.given)
        ensures a.persons[q].pseudonym.family != Some(b.persons[p].pseudonym.given)
      {
        NewcomerApart(c, a, p, q);
      }
      hide WordsApart;
      AddedStaysSound(c, a, b, p);
    }
  }

  lemma {:induction false} EncodeExtends(c: Cipher, a: Assignment, text: string, cursor: nat)
    requires ValidCipher(c) && cursor <= |text| && a.nextPoolIndex <= PoolSize(c.lexicon)
    ensures Extends(a, EncodeFrom(c, a, text, cursor).1)
    decreases |text| - cursor
  {
    hide BestName;
    hide EmailAt;
    if cursor < |text| {
      match EmailAt(text, cursor)
      case Some((end, address)) =>
        if address in c.byAddress {
          AssignExtends(c, a, c.byAddress[address]);
          EncodeExtends(c, Assign(c, a, c.byAddress[address]), text, end);
        } else {
          EncodeExtends(c, a, text, end);
        }
      case None =>
        match BestName(c, text, cursor)
        case Some(m) =>
          AssignExtends(c, a, m.person);
          EncodeExtends(c, Assign(c, a, m.person), text, m.end);
        case None =>
          EncodeExtends(c, a, text, cursor + 1);
    }
  }

  lemma {:induction false} EncodeKeepsGood(c: Cipher, a: Assignment, text: string, cursor: nat)
    requires ValidCipher(c) && ValidLexicon(c.lexicon) && cursor <= |text| && Good(c, a)
    requires EncodeFrom(c, a, text, cursor).1.overflowIndex == a.overflowIndex
    ensures Good(c, EncodeFrom(c, a, text, cursor).1)
    decreases |text| - cursor, 0
  {
    hide BestName;
    hide Good;
    hide EmailAt;
    if cursor < |text| {
      match EmailAt(text, cursor)
      case Some((end, address)) =>
        if address in c.byAddress {
          AssignThenEncode(c, a, c.byAddress[address], text, end);
        } else {
          EncodeKeepsGood(c, a, text, end);
        }
      case None =>
        match BestName(c, text, cursor)
        case Some(m) =>
          AssignThenEncode(c, a, m.person, text, m.end);
        case None =>
          EncodeKeepsGood(c, a, text, cursor + 1);
    }
  }

  lemma {:induction false} AssignThenEncode(c: Cipher, a: Assignment, p: nat, text: string, cursor: nat)
    requires ValidCipher(c) && ValidLexicon(c.lexicon) && p < |c.people| && cursor <= |text| && Good(c, a)
    requires EncodeFrom(c, Assign(c, a, p), text, cursor).1.overflowIndex == a.overflowIndex
    ensures Good(c, EncodeFrom(c, Assign(c, a, p), text, cursor).1)
    decreases |text| - cursor, 1
  {
    hide Assign;
    hide EncodeFrom;
    AssignExtends(c, a, p);
    EncodeExtends(c, Assign(c, a, p), text, cursor);
    AssignKeepsGood(c, a, p);
    EncodeKeepsGood(c, Assign(c, a, p), text, cursor);
  }

  // ---- encoding with the assignment already fixed

  function Replacement(fin: Assignment, m: Match): string {
    if m.person in fin.persons then NameReplacement(fin.persons[m.person].pseudonym, m.kind) else ""
  }

  /** The encoded rest of an address-free text, under the request's final assignment. */
  function Enc(c: Cipher, fin: Assignment, text: string, cursor: nat): string
    requires cursor <= |text|
    decreases |text| - cursor
  {
    if cursor == |text| then ""
    else match BestName(c, text, cursor)
      case Some(m) => Replacement(fin, m) + Enc(c, fin, text, m.end)
      case None => [text[cursor]] + Enc(c, fin, text, cursor + 1)
  }

  /** Everyone the scan from the cursor on matches has a pseudonym. */
  ghost predicate Covers(c: Cipher, fin: Assignment, text: string, cursor: nat)
    requires cursor <= |text|
    decreases |text| - cursor
  {
    cursor < |text| ==>
      match BestName(c, text, cursor)
      case Some(m) => m.person in fin.persons && Covers(c, fin, text, m.end)
      case None => Covers(c, fin, text, cursor + 1)
  }

  lemma {:induction false} EncodeIsEnc(c: Cipher, a: Assignment, text: string, cursor: nat, fin: Assignment)
    requires ValidCipher(c) && cursor <= |text| && a.nextPoolIndex <= PoolSize(c.lexicon)
    requires '@' !in text
    requires Extends(EncodeFrom(c, a, text, cursor).1, fin)
    ensures EncodeFrom(c, a, text, cursor).0 == Enc(c, fin, text, cursor)
    ensures Covers(c, fin, text, cursor)
    decreases |text| - cursor
  {
    hide BestName;
    if cursor < |text| {
      match BestName(c, text, cursor)
      case Some(m) =>
        var a' := Assign(c, a, m.person);
        EncodeExtends(c, a', text, m.end);
        EncodeIsEnc(c, a', text, m.end, fin);
      case None =>
        EncodeIsEnc(c, a, text, cursor + 1, fin);
    }
  }

  // ---- pool words in a text

  /** Where the run of word characters at i ends. */
  function RunEnd(u: Letters, text: string, i: nat): (end: nat)
    requires i <= |text|
    ensures i <= end <= |text| && forall j :: i <= j < end ==> IsWordChar(u, text[j])
    ensures end == |text| || !IsWordChar(u, text[end])
    decreases |text| - i
  {
    if i < |text| && IsWordChar(u, text[i]) then RunEnd(u, text, i + 1) else i
  }

  lemma {:induction false} WordEndsRun(u: Letters, text: string, i: nat, end: nat)
    requires i <= end <= |text|
    requires forall j :: i <= j < end ==> IsWordChar(u, text[j])
    requires end == |text| || !IsWordChar(u, text[end])
    ensures RunEnd(u, text, i) == end
    decreases end - i
  {
    if i < end {
      WordEndsRun(u, text, i + 1, end);
    }
  }

  lemma OneWordAt(u: Letters, text: string, p: nat, v: string, w: string)
    requires p <= |text| && WholeWordAt(u, text, p, v) && WholeWordAt(u, text, p, w)
    requires PlainWord(v) && PlainWord(w)
    ensures v == w
  {
    WordSpan(u, text, p, v);
    WordSpan(u, text, p, w);
  }

  lemma WordSpan(u: Letters, text: string, p: nat, w: string)
    requires p <= |text| && WholeWordAt(u, text, p, w) && PlainWord(w)
    ensures w == text[p..p + |w|] && RunEnd(u, text, p) == p + |w|
  {
    assert forall j :: p <= j < p + |w| ==> text[j] == w[j - p];
    WordEndsRun(u, text, p, p + |w|);
  }

  lemma WordOfFull(u: Letters, text: string, p: nat, given: string, family: string)
    requires p <= |text| && PlainWord(given) && WholeWordAt(u, text, p, given + " " + family)
    ensures WholeWordAt(u, text, p, given)
  {
    var full := given + " " + family;
    assert text[p..p + |full|][|given|] == full[|given|] == ' ';
    assert text[p..p + |given|] == text[p..p + |full|][..|given|];
  }

  lemma AddressNeedsAt(o: string, p: nat, address: string)
    requires p <= |o| && '@' in address && ExactEmailAt(o, p, address)
    ensures '@' in o
  {
    var i :| 0 <= i < |address| && address[i] == '@';
    assert Lower(address)[i] == '@' == Lower(o[p..p + |address|])[i] == LowerChar(o[p + i]);
    assert o[p + i] == '@';
  }

  /** Which pool word of this person stands where one of their forms matches. */
  ghost predicate WordStands(u: Letters, person: AssignedPerson, o: string, p: nat, f: DecodeForm)
    requires p <= |o| && person.pseudonym.family.Some?
  {
    || (WholeWordAt(u, o, p, person.pseudonym.given) && (f == OwnForm(person, Full) || f == OwnForm(person, Given)))
    || (WholeWordAt(u, o, p, person.pseudonym.family.value) && f == OwnForm(person, Family))
  }

  lemma PersonForm(u: Letters, person: AssignedPerson, skippedTokens: set<string>, o: string, p: nat, f: DecodeForm)
    requires PoolPseudonym(person.pseudonym, skippedTokens)
    requires p <= |o| && f in FormsOf(person) && FormMatches(u, o, p, f)
    ensures '@' in o || WordStands(u, person, o, p, f)
  {
    var given, family := person.pseudonym.given, person.pseudonym.family.value;
    if f == FormsOf(person)[0] {
      AddressNeedsAt(o, p, f.pseudo);
    } else {
      assert '@' !in f.pseudo;
      if f == OwnForm(person, Full) {
        WordOfFull(u, o, p, given, family);
      }
    }
  }

  /** The decode form for one kind of match of this person. */
  function OwnForm(person: AssignedPerson, kind: MatchKind): DecodeForm {
    var (p, n) := (person.pseudonym, person.realName);
    match kind
    case Full => DecodeForm(p.full, n.canonicalFull, 3)
    case Given => DecodeForm(p.given, n.given, 1)
    case Family => DecodeForm(NameReplacement(p, Family), SpanText(n, Family), 2)
  }

  // ---- the tokens of a text

  lemma {:induction false} RunIsToken(u: Letters, text: string, i: nat, run: string, w: string)
    requires i <= |text| && w <= text[i..] && run + w != ""
    requires forall j :: 0 <= j < |w| ==> IsAlnum(u, w[j])
    requires i + |w| == |text| || !IsAlnum(u, text[i + |w|])
    ensures Lower(run + w) in TokensFrom(u, text, i, run)
    decreases |w|
  {
    if w == "" {
      assert run + w == run;
    } else {
      assert text[i] == text[i..][0] == w[0];
      assert text[i + 1..] == text[i..][1..];
      assert w[1..] <= text[i + 1..];
      assert (run + [w[0]]) + w[1..] == run + w;
      RunIsToken(u, text, i + 1, run + [w[0]], w[1..]);
    }
  }

  lemma {:induction false} LaterTokens(u: Letters, text: string, i: nat, run: string, j: nat)
    requires i < j <= |text| && !IsAlnum(u, text[j - 1])
    ensures TokensFrom(u, text, j, "") <= TokensFrom(u, text, i, run)
    decreases |text| - i
  {
    if i + 1 < j {
      LaterTokens(u, text, i + 1, if IsAlnum(u, text[i]) then run + [text[i]] else "", j);
    }
  }

  /** A whole word of plain letters is one of the text's tokens. */
  lemma WordIsToken(u: Letters, text: string, cursor: nat, w: string)
    requires cursor <= |text| && PlainWord(w) && WholeWordAt(u, text, cursor, w)
    ensures Lower(w) in TokensFrom(u, text, 0, "")
  {
    assert w <= text[cursor..];
    assert "" + w == w;
    RunIsToken(u, text, cursor, "", w);
    if cursor > 0 {
      LaterTokens(u, text, 0, "", cursor);
    }
  }

  // ---- what the scan does at one position

  function SpanText(n: PersonName, kind: MatchKind): string {
    match kind
    case Full => n.canonicalFull
    case Given => n.given
    case Family => if n.family.Some? then n.family.value else n.given
  }

  lemma MatchedLookup(c: Cipher, text: string, cursor: nat, m: Match) returns (l: NameLookup)
    requires PlainPeople(c) && cursor <= |text| && BestName(c, text, cursor) == Some(m)
    ensures Eligible(c.lexicon, c.people, text, cursor, l) && MatchOf(c.people, cursor, l) == m
    ensures l.person == m.person && l.name == 0 && KindOf(l.part) == m.kind
    ensures forall l' :: Eligible(c.lexicon, c.people, text, cursor, l') ==>
                           !IsBetterMatch(MatchOf(c.people, cursor, l'), Some(m))
  {
    var all := AllLookups(c.people);
    BestInIsBest(c.lexicon, c.people, all, text, cursor);
    l :| l in all && Eligible(c.lexicon, c.people, text, cursor, l) && MatchOf(c.people, cursor, l) == m;
    forall l' | Eligible(c.lexicon, c.people, text, cursor, l')
      ensures !IsBetterMatch(MatchOf(c.people, cursor, l'), Some(m))
    {
      AllLookupsMembers(c.people, l');
      BetterIsTotalOrder(m, MatchOf(c.people, cursor, l'), m);
    }
  }

  lemma LookupForm(c: Cipher, l: NameLookup)
    requires PlainPeople(c) && Valid(c.people, l)
    ensures l.name == 0 && Form(c.people, l) == SpanText(c.people[l.person].names[0], KindOf(l.part))
    ensures l.part.FamilyPart? ==> c.people[l.person].names[0].family.Some?
    ensures Form(c.people, l) != "" && IsWordChar(c.lexicon.letters, Form(c.people, l)[0])
  {
    assert PlainName(c.lexicon.letters, c.people[l.person].names[0]);
  }

  /** A match covers exactly one part of the person's name, and a given name only if no full name starts there. */
  lemma SpanIsName(c: Cipher, text: string, cursor: nat, m: Match)
    requires PlainPeople(c) && cursor <= |text| && BestName(c, text, cursor) == Some(m)
    ensures var n := c.people[m.person].names[0];
            && WholeWordAt(c.lexicon.letters, text, cursor, SpanText(n, m.kind))
            && m.end == cursor + |SpanText(n, m.kind)|
            && text[cursor..m.end] == SpanText(n, m.kind)
            && IsWordChar(c.lexicon.letters, text[cursor])
            && (m.kind.Family? ==> n.family.Some?)
  {
    var l := MatchedLookup(c, text, cursor, m);
    LookupForm(c, l);
    assert text[cursor] == text[cursor..m.end][0];
  }

  lemma GivenMeansNoFull(c: Cipher, text: string, cursor: nat, m: Match)
    requires PlainPeople(c) && cursor <= |text| && BestName(c, text, cursor) == Some(m) && m.kind.Given?
    ensures !WholeWordAt(c.lexicon.letters, text, cursor, c.people[m.person].names[0].canonicalFull)
  {
    var l := MatchedLookup(c, text, cursor, m);
    LookupForm(c, l);
    assert PlainName(c.lexicon.letters, c.people[m.person].names[0]);
    var full := NameLookup(m.person, 0, FullForm(0));
    LookupForm(c, full);
    assert IsBetterMatch(MatchOf(c.people, cursor, full), Some(m));
    assert !Eligible(c.lexicon, c.people, text, cursor, full);
  }

  lemma NonWordIsCopied(c: Cipher, text: string, i: nat)
    requires PlainPeople(c) && i < |text|
    requires !IsWordChar(c.lexicon.letters, text[i]) || (i > 0 && IsWordChar(c.lexicon.letters, text[i - 1]))
    ensures BestName(c, text, i).None?
  {
    hide BestName;
    hide PlainPeople;
    if BestName(c, text, i).Some? {
      SpanIsName(c, text, i, BestName(c, text, i).value);
    }
  }

  /** Before a word character, both texts agree on whether a word is already running. */
  ghost predicate Aligned(u: Letters, o: string, p: nat, text: string, cursor: nat)
    requires p <= |o| && cursor <= |text|
  {
    cursor < |text| && IsWordChar(u, text[cursor]) ==>
      ((p == 0 || !IsWordChar(u, o[p - 1])) <==> (cursor == 0 || !IsWordChar(u, text[cursor - 1])))
  }

  /** Position p of the encoded text o is where the scan of text stands at cursor. */
  ghost predicate InStep(c: Cipher, fin: Assignment, text: string, cursor: nat, o: string, p: nat) {
    && cursor <= |text| && p <= |o|
    && PlainPeople(c) && Sound(c, fin)
    && TokensFrom(c.lexicon.letters, text, 0, "") <= fin.skippedTokens
    && Covers(c, fin, text, cursor)
    && o[p..] == Enc(c, fin, text, cursor)
    && Aligned(c.lexicon.letters, o, p, text, cursor)
  }

  lemma ReplacementWord(c: Cipher, fin: Assignment, m: Match)
    requires Sound(c, fin) && m.person in fin.persons
    ensures var p := fin.persons[m.person].pseudonym;
            && PlainWord(p.given) && p.family.Some? && PlainWord(p.family.value)
            && Replacement(fin, m) == (match m.kind case Full => p.given + " " + p.family.value
                                       case Given => p.given case Family => p.family.value)
  {
    assert PoolPseudonym(fin.persons[m.person].pseudonym, fin.skippedTokens);
  }

  lemma EncStart(c: Cipher, fin: Assignment, text: string, cursor: nat)
    requires PlainPeople(c) && Sound(c, fin) && cursor <= |text| && Covers(c, fin, text, cursor)
    ensures Enc(c, fin, text, cursor) == "" <==> cursor == |text|
    ensures cursor < |text| && BestName(c, text, cursor).None? ==> Enc(c, fin, text, cursor)[0] == text[cursor]
  {
    hide BestName;
    hide PlainPeople;
    if cursor < |text| && BestName(c, text, cursor).Some? {
      ReplacementWord(c, fin, BestName(c, text, cursor).value);
    }
  }

  /** A replaced span stands as whole words in the encoded text, and the scan goes on behind it. */
  lemma SpanStands(c: Cipher, fin: Assignment, text: string, cursor: nat, o: string, p: nat, m: Match)
    requires InStep(c, fin, text, cursor, o, p) && cursor < |text| && BestName(c, text, cursor) == Some(m)
    ensures m.person in fin.persons
    ensures WholeWordAt(c.lexicon.letters, o, p, Replacement(fin, m))
    ensures InStep(c, fin, text, m.end, o, p + |Replacement(fin, m)|)
  {
    hide PlainWord;
    hide BestName;
    hide PlainPeople;
    hide TokensFrom;
    hide Sound;
    var r := Replacement(fin, m);
    SpanIsName(c, text, cursor, m);
    ReplacementWord(c, fin, m);
    SliceHead(o, p, r, Enc(c, fin, text, m.end));
    BoundaryBehind(c, fin, text, m.end, o, p + |r|);
  }

  lemma BoundaryBehind(c: Cipher, fin: Assignment, text: string, end: nat, o: string, p: nat)
    requires PlainPeople(c) && Sound(c, fin) && end <= |text| && p <= |o| && Covers(c, fin, text, end)
    requires o[p..] == Enc(c, fin, text, end)
    requires end < |text| ==> !IsWordChar(c.lexicon.letters, text[end])
    ensures p == |o| || !IsWordChar(c.lexicon.letters, o[p])
  {
    hide BestName;
    hide PlainPeople;
    hide Sound;
    EncStart(c, fin, text, end);
    if end < |text| {
      NonWordIsCopied(c, text, end);
      assert o[p] == o[p..][0];
    }
  }

  lemma CopyStands(c: Cipher, fin: Assignment, text: string, cursor: nat, o: string, p: nat)
    requires InStep(c, fin, text, cursor, o, p) && cursor < |text| && BestName(c, text, cursor).None?
    ensures p < |o| && o[p] == text[cursor]
    ensures InStep(c, fin, text, cursor + 1, o, p + 1)
  {
    hide BestName;
    hide PlainPeople;
    hide TokensFrom;
    assert o[p] == o[p..][0] == text[cursor];
    assert o[p + 1..] == o[p..][1..] == Enc(c, fin, text, cursor + 1);
  }

  // ---- no pseudonym appears by accident

  lemma ConsSlice(text: string, i: nat, j: nat, rest: string)
    requires i < j <= |text|
    ensures [text[i]] + (text[i + 1..j] + rest) == text[i..j] + rest
  {
    assert text[i..j] == [text[i]] + text[i + 1..j];
  }

  lemma SliceHead(o: string, p: nat, run: string, rest: string)
    requires p <= |o| && o[p..] == run + rest
    ensures p + |run| <= |o| && o[p..p + |run|] == run && o[p + |run|..] == rest
  {
    assert o[p..p + |run|] == o[p..][..|run|];
    assert o[p + |run|..] == o[p..][|run|..];
  }

  /** A run of word characters that starts in copied text is copied to its end. */
  lemma {:induction false} CopiedRun(c: Cipher, fin: Assignment, text: string, cursor: nat)
    requires PlainPeople(c) && cursor < |text| && BestName(c, text, cursor).None?
    requires IsWordChar(c.lexicon.letters, text[cursor])
    ensures var end := RunEnd(c.lexicon.letters, text, cursor);
            Enc(c, fin, text, cursor) == text[cursor..end] + Enc(c, fin, text, end)
    decreases |text| - cursor
  {
    hide BestName;
    hide PlainPeople;
    var end := RunEnd(c.lexicon.letters, text, cursor);
    if cursor + 1 < end {
      NonWordIsCopied(c, text, cursor + 1);
      CopiedRun(c, fin, text, cursor + 1);
      ConsSlice(text, cursor, end, Enc(c, fin, text, end));
    }
  }

  /** A pool word that stands in the encoded text where the original is copied stands in the original. */
  lemma CopiedWord(c: Cipher, fin: Assignment, text: string, cursor: nat, o: string, p: nat, w: string)
    requires InStep(c, fin, text, cursor, o, p) && cursor < |text| && BestName(c, text, cursor).None?
    requires PlainWord(w) && WholeWordAt(c.lexicon.letters, o, p, w)
    ensures WholeWordAt(c.lexicon.letters, text, cursor, w)
  {
    hide BestName;
    hide PlainPeople;
    hide TokensFrom;
    hide Sound;
    hide Enc;
    hide Covers;
    CopyStands(c, fin, text, cursor, o, p);
    assert IsWordChar(c.lexicon.letters, text[cursor]) by {
      assert o[p] == o[p..p + |w|][0] == w[0];
    }
    CopiedRun(c, fin, text, cursor);
    var end := RunEnd(c.lexicon.letters, text, cursor);
    CopiedRunEnd(c, fin, text, end, o, p, text[cursor..end]);
    WordSpan(c.lexicon.letters, o, p, w);
    SameRun(c.lexicon.letters, o, p, text, cursor, w, Enc(c, fin, text, end));
  }

  lemma SameRun(u: Letters, o: string, p: nat, text: string, cursor: nat, w: string, rest: string)
    requires p <= |o| && WholeWordAt(u, o, p, w) && IsWordChar(u, w[0])
    requires cursor + |w| <= |text| && (cursor + |w| == |text| || !IsWordChar(u, text[cursor + |w|]))
    requires o[p..] == text[cursor..cursor + |w|] + rest
    requires Aligned(u, o, p, text, cursor)
    ensures WholeWordAt(u, text, cursor, w)
  {
    SliceHead(o, p, text[cursor..cursor + |w|], rest);
    assert w[0] == text[cursor..cursor + |w|][0];
  }

  lemma CopiedRunEnd(c: Cipher, fin: Assignment, text: string, end: nat, o: string, p: nat, run: string)
    requires PlainPeople(c) && end <= |text| && p <= |o| && o[p..] == run + Enc(c, fin, text, end)
    requires forall j :: 0 <= j < |run| ==> IsWordChar(c.lexicon.letters, run[j])
    requires end < |text| ==> !IsWordChar(c.lexicon.letters, text[end])
    ensures RunEnd(c.lexicon.letters, o, p) == p + |run|
  {
    hide BestName;
    hide PlainPeople;
    SliceHead(o, p, run, Enc(c, fin, text, end));
    assert forall j :: p <= j < p + |run| ==> o[j] == run[j - p];
    if end < |text| {
      NonWordIsCopied(c, text, end);
      assert o[p + |run|] == o[p + |run|..][0] == text[end];
    }
    WordEndsRun(c.lexicon.letters, o, p, p + |run|);
  }

  lemma NoPoolWord(c: Cipher, fin: Assignment, text: string, cursor: nat, o: string, p: nat, w: string)
    requires InStep(c, fin, text, cursor, o, p) && cursor < |text| && BestName(c, text, cursor).None?
    requires PlainWord(w) && Lower(w) !in fin.skippedTokens
    ensures !WholeWordAt(c.lexicon.letters, o, p, w)
  {
    hide BestName;
    hide PlainPeople;
    hide TokensFrom;
    hide Sound;
    hide Enc;
    hide Covers;
    if WholeWordAt(c.lexicon.letters, o, p, w) {
      CopiedWord(c, fin, text, cursor, o, p, w);
      WordIsToken(c.lexicon.letters, text, cursor, w);
    }
  }

  // ---- decoding one position

  lemma OwnerOf(c: Cipher, fin: Assignment, forms: seq<DecodeForm>, o: string, p: nat, f: DecodeForm) returns (r: nat)
    requires Sound(c, fin) && IsDecodeTable(fin, forms) && p <= |o| && '@' !in o
    requires f in forms && FormMatches(c.lexicon.letters, o, p, f)
    ensures r in fin.persons && WordStands(c.lexicon.letters, fin.persons[r], o, p, f)
  {
    r :| r in fin.persons && f in FormsOf(fin.persons[r]);
    PersonForm(c.lexicon.letters, fin.persons[r], fin.skippedTokens, o, p, f);
  }

  /** The word that stands where a match of this kind was replaced. */
  function MainWord(p: Pseudonym, family: bool): string {
    if family && p.family.Some? then p.family.value else p.given
  }

  /** The form decoding picks belongs to the one person whose pool word stands there. */
  lemma PickedForm(c: Cipher, fin: Assignment, o: string, p: nat, f: DecodeForm, r: nat, q: nat, family: bool)
    requires Sound(c, fin) && p <= |o| && q in fin.persons && r in fin.persons
    requires WordStands(c.lexicon.letters, fin.persons[r], o, p, f)
    requires WholeWordAt(c.lexicon.letters, o, p, MainWord(fin.persons[q].pseudonym, family))
    ensures var person := fin.persons[q];
            if family then f == OwnForm(person, Family) else f == OwnForm(person, Full) || f == OwnForm(person, Given)
  {
    var u, mine, theirs := c.lexicon.letters, fin.persons[q].pseudonym, fin.persons[r].pseudonym;
    assert PoolPseudonym(mine, fin.skippedTokens) && PoolPseudonym(theirs, fin.skippedTokens);
    assert r != q ==> WordsApart(mine, theirs);
    if WholeWordAt(u, o, p, theirs.given) {
      OneWordAt(u, o, p, MainWord(mine, family), theirs.given);
    }
    if WholeWordAt(u, o, p, theirs.family.value) {
      OneWordAt(u, o, p, MainWord(mine, family), theirs.family.value);
    }
  }

  lemma SplitFull(u: Letters, o: string, p: nat, given: string, family: string)
    requires p <= |o| && family != "" && WholeWordAt(u, o, p, given + " " + family)
    ensures p + |given| + 1 < |o| && o[p + |given|] == ' ' && WholeWordAt(u, o, p + |given| + 1, family)
  {
    var full, at := given + " " + family, p + |given| + 1;
    assert o[p..p + |full|][|given|] == full[|given|] == ' ';
    assert o[at..at + |family|] == o[p..p + |full|][|given| + 1..] == full[|given| + 1..] == family;
  }

  lemma JoinFull(u: Letters, text: string, cursor: nat, given: string, family: string)
    requires cursor <= |text| && WholeWordAt(u, text, cursor, given)
    requires cursor + |given| < |text| && text[cursor + |given|] == ' '
    requires WholeWordAt(u, text, cursor + |given| + 1, family)
    ensures WholeWordAt(u, text, cursor, given + " " + family)
  {
    var end := cursor + |given| + 1 + |family|;
    assert text[cursor..end]
      == text[cursor..cursor + |given|] + [text[cursor + |given|]] + text[cursor + |given| + 1..end];
  }

  /** The replacement that shows a person's pool family name is that person's family name. */
  lemma FamilyStands(c: Cipher, fin: Assignment, o: string, p: nat, m: Match, q: nat)
    requires Sound(c, fin) && p <= |o| && m.person in fin.persons && q in fin.persons
    requires WholeWordAt(c.lexicon.letters, o, p, Replacement(fin, m))
    requires WholeWordAt(c.lexicon.letters, o, p, MainWord(fin.persons[q].pseudonym, true))
    ensures m.person == q && m.kind == Family
  {
    var theirs, mine := fin.persons[m.person].pseudonym, fin.persons[q].pseudonym;
    ReplacementWord(c, fin, m);
    assert PoolPseudonym(mine, fin.skippedTokens);
    assert m.person != q ==> WordsApart(mine, theirs);
    OwnWordStands(c, fin, o, p, m);
    OneWordAt(c.lexicon.letters, o, p, MainWord(mine, true), MainWord(theirs, m.kind == Family));
  }

  lemma OwnWordStands(c: Cipher, fin: Assignment, o: string, p: nat, m: Match)
    requires Sound(c, fin) && m.person in fin.persons && p <= |o|
    requires WholeWordAt(c.lexicon.letters, o, p, Replacement(fin, m))
    ensures WholeWordAt(c.lexicon.letters, o, p, MainWord(fin.persons[m.person].pseudonym, m.kind == Family))
  {
    var theirs := fin.persons[m.person].pseudonym;
    ReplacementWord(c, fin, m);
    if m.kind == Full {
      WordOfFull(c.lexicon.letters, o, p, theirs.given, theirs.family.value);
    }
  }

  /** Were it followed by that family name, the space between them would come from the original. */
  lemma SpaceFollows(c: Cipher, fin: Assignment, text: string, cursor: nat, o: string, at: nat, family: string)
    requires InStep(c, fin, text, cursor, o, at)
    requires cursor < |text| ==> !IsWordChar(c.lexicon.letters, text[cursor])
    requires at + 1 < |o| && o[at] == ' '
    ensures cursor + 1 < |text| && text[cursor] == ' '
    ensures InStep(c, fin, text, cursor + 1, o, at + 1)
  {
    hide BestName;
    hide PlainPeople;
    hide TokensFrom;
    EncStart(c, fin, text, cursor);
    NonWordIsCopied(c, text, cursor);
    CopyStands(c, fin, text, cursor, o, at);
    EncStart(c, fin, text, cursor + 1);
  }

  /** The same person's family name cannot stand one space behind their given name. */
  lemma NoFamilyBehind(c: Cipher, fin: Assignment, text: string, cursor: nat, m: Match, o: string, at: nat)
    requires PlainPeople(c) && cursor <= |text| && BestName(c, text, cursor) == Some(m) && m.kind == Given
    requires m.person in fin.persons && m.end + 1 < |text| && text[m.end] == ' '
    requires InStep(c, fin, text, m.end + 1, o, at)
    ensures !WholeWordAt(c.lexicon.letters, o, at, MainWord(fin.persons[m.person].pseudonym, true))
  {
    hide BestName;
    hide PlainPeople;
    hide TokensFrom;
    hide Enc;
    hide Covers;
    var mine := fin.persons[m.person].pseudonym;
    assert PoolPseudonym(mine, fin.skippedTokens);
    match BestName(c, text, m.end + 1)
    case None =>
      NoPoolWord(c, fin, text, m.end + 1, o, at, mine.family.value);
    case Some(m') =>
      SpanStands(c, fin, text, m.end + 1, o, at, m');
      if WholeWordAt(c.lexicon.letters, o, at, mine.family.value) {
        FamilyStands(c, fin, o, at, m', m.person);
        FullStood(c, text, cursor, m, m');
        GivenMeansNoFull(c, text, cursor, m);
      }
  }

  lemma FullStood(c: Cipher, text: string, cursor: nat, m: Match, m': Match)
    requires PlainPeople(c) && cursor <= |text| && BestName(c, text, cursor) == Some(m) && m.kind == Given
    requires m.end + 1 < |text| && text[m.end] == ' '
    requires BestName(c, text, m.end + 1) == Some(m') && m'.person == m.person && m'.kind == Family
    ensures WholeWordAt(c.lexicon.letters, text, cursor, c.people[m.person].names[0].canonicalFull)
  {
    hide BestName;
    SpanIsName(c, text, cursor, m);
    SpanIsName(c, text, m.end + 1, m');
    var n := c.people[m.person].names[0];
    assert PlainName(c.lexicon.letters, n);
    JoinFull(c.lexicon.letters, text, cursor, n.given, n.family.value);
  }

  /** A replaced given name is never followed by the same person's pool family name. */
  lemma NoFullByAccident(c: Cipher, fin: Assignment, text: string, cursor: nat, o: string, p: nat, m: Match)
    requires InStep(c, fin, text, cursor, o, p) && cursor < |text| && BestName(c, text, cursor) == Some(m)
    requires m.kind == Given
    ensures !WholeWordAt(c.lexicon.letters, o, p, fin.persons[m.person].pseudonym.full)
  {
    hide BestName;
    hide PlainPeople;
    hide TokensFrom;
    hide Enc;
    hide Covers;
    hide Aligned;
    SpanStands(c, fin, text, cursor, o, p, m);
    ReplacementWord(c, fin, m);
    var given, family := fin.persons[m.person].pseudonym.given, fin.persons[m.person].pseudonym.family.value;
    SpanIsName(c, text, cursor, m);
    if WholeWordAt(c.lexicon.letters, o, p, given + " " + family) {
      SplitFull(c.lexicon.letters, o, p, given, family);
      SpaceFollows(c, fin, text, m.end, o, p + |given|, family);
      NoFamilyBehind(c, fin, text, cursor, m, o, p + |given| + 1);
    }
  }

  lemma {:induction false} FirstIsLongest(u: Letters, forms: seq<DecodeForm>, o: string, p: nat, g: DecodeForm)
    requires p <= |o| && IsSorted(forms) && g in forms && FormMatches(u, o, p, g)
    ensures FirstForm(u, forms, o, p).Some? && |FirstForm(u, forms, o, p).value.pseudo| >= |g.pseudo|
  {
    if !FormMatches(u, o, p, forms[0]) {
      FirstIsLongest(u, forms[1..], o, p, g);
    }
  }

  lemma OwnFormMatches(c: Cipher, fin: Assignment, forms: seq<DecodeForm>, text: string, cursor: nat, o: string,
                       p: nat, m: Match)
    requires InStep(c, fin, text, cursor, o, p) && cursor < |text| && BestName(c, text, cursor) == Some(m)
    requires IsDecodeTable(fin, forms)
    ensures m.person in fin.persons
    ensures var own := OwnForm(fin.persons[m.person], m.kind);
            && own in forms && FormMatches(c.lexicon.letters, o, p, own)
            && own.pseudo == Replacement(fin, m) && own.original == text[cursor..m.end]
  {
    hide BestName;
    hide PlainPeople;
    hide TokensFrom;
    hide Enc;
    hide Covers;
    hide Aligned;
    SpanStands(c, fin, text, cursor, o, p, m);
    var person := fin.persons[m.person];
    SpanIsName(c, text, cursor, m);
    ReplacementWord(c, fin, m);
    assert OwnForm(person, m.kind) == FormsOf(person)[if m.kind == Full then 1 else if m.kind == Given then 2 else 3];
    assert '@' !in OwnForm(person, m.kind).pseudo;
  }

  /** Where a span was replaced, decoding replaces exactly the replacement, by exactly the span. */
  lemma SpanDecodes(c: Cipher, fin: Assignment, forms: seq<DecodeForm>, text: string, cursor: nat, o: string, p: nat,
                    m: Match)
    requires InStep(c, fin, text, cursor, o, p) && cursor < |text| && BestName(c, text, cursor) == Some(m)
    requires IsDecodeTable(fin, forms) && '@' !in o
    ensures m.person in fin.persons
    ensures FirstForm(c.lexicon.letters, forms, o, p) == Some(OwnForm(fin.persons[m.person], m.kind))
  {
    hide BestName;
    hide PlainPeople;
    hide TokensFrom;
    hide Enc;
    hide Covers;
    hide Aligned;
    hide OwnForm;
    hide Replacement;
    hide WholeWordAt;
    SpanStands(c, fin, text, cursor, o, p, m);
    OwnFormMatches(c, fin, forms, text, cursor, o, p, m);
    var own := OwnForm(fin.persons[m.person], m.kind);
    FirstIsLongest(c.lexicon.letters, forms, o, p, own);
    var f := FirstForm(c.lexicon.letters, forms, o, p).value;
    var r := OwnerOf(c, fin, forms, o, p, f);
    OwnWordStands(c, fin, o, p, m);
    PickedForm(c, fin, o, p, f, r, m.person, m.kind == Family);
    if m.kind == Given {
      NoFullByAccident(c, fin, text, cursor, o, p, m);
    }
    OnlyOwnForm(c.lexicon.letters, fin.persons[m.person], fin.skippedTokens, o, p, f, m.kind);
  }

  /** Of a person's forms with the same first word, length and the text behind it leave one. */
  lemma OnlyOwnForm(u: Letters, person: AssignedPerson, skippedTokens: set<string>, o: string, p: nat, f: DecodeForm,
                    kind: MatchKind)
    requires PoolPseudonym(person.pseudonym, skippedTokens) && p <= |o|
    requires if kind == Family then f == OwnForm(person, Family)
               else f == OwnForm(person, Full) || f == OwnForm(person, Given)
    requires |f.pseudo| >= |OwnForm(person, kind).pseudo| && FormMatches(u, o, p, f)
    requires kind == Given ==> !WholeWordAt(u, o, p, person.pseudonym.full)
    ensures f == OwnForm(person, kind)
  {
    assert '@' !in person.pseudonym.full;
  }

  /** Where a character was copied, decoding finds nothing to replace. */
  lemma CopyDecodes(c: Cipher, fin: Assignment, forms: seq<DecodeForm>, text: string, cursor: nat, o: string, p: nat)
    requires InStep(c, fin, text, cursor, o, p) && cursor < |text| && BestName(c, text, cursor).None?
    requires IsDecodeTable(fin, forms) && '@' !in o
    ensures FirstForm(c.lexicon.letters, forms, o, p).None?
  {
    hide BestName;
    hide PlainPeople;
    hide TokensFrom;
    hide Enc;
    hide Covers;
    hide Aligned;
    var found := FirstForm(c.lexicon.letters, forms, o, p);
    if found.Some? {
      var r := OwnerOf(c, fin, forms, o, p, found.value);
      var theirs := fin.persons[r].pseudonym;
      assert PoolPseudonym(theirs, fin.skippedTokens);
      NoPoolWord(c, fin, text, cursor, o, p, theirs.given);
      NoPoolWord(c, fin, text, cursor, o, p, theirs.family.value);
    }
  }

  lemma SplitAt(text: string, i: nat, j: nat)
    requires i <= j <= |text|
    ensures text[i..] == text[i..j] + text[j..]
  {
  }

  lemma {:induction false} Decodes(c: Cipher, fin: Assignment, forms: seq<DecodeForm>, text: string, cursor: nat,
                                   o: string, p: nat)
    requires InStep(c, fin, text, cursor, o, p)
    requires IsDecodeTable(fin, forms) && '@' !in o
    ensures ReplaceFrom(c.lexicon.letters, forms, o, p) == text[cursor..]
    decreases |text| - cursor
  {
    hide BestName;
    hide PlainPeople;
    hide TokensFrom;
    hide Enc;
    hide Sound;
    hide IsDecodeTable;
    hide Covers;
    hide Aligned;
    hide Replacement;
    hide OwnForm;
    EncStart(c, fin, text, cursor);
    if cursor < |text| {
      match BestName(c, text, cursor)
      case Some(m) =>
        SpanStands(c, fin, text, cursor, o, p, m);
        SpanDecodes(c, fin, forms, text, cursor, o, p, m);
        OwnFormMatches(c, fin, forms, text, cursor, o, p, m);
        Decodes(c, fin, forms, text, m.end, o, p + |Replacement(fin, m)|);
        SplitAt(text, cursor, m.end);
      case None =>
        CopyStands(c, fin, text, cursor, o, p);
        CopyDecodes(c, fin, forms, text, cursor, o, p);
        Decodes(c, fin, forms, text, cursor + 1, o, p + 1);
    }
  }

  // ---- whole requests

  lemma {:induction false} EncHasNoAt(c: Cipher, fin: Assignment, text: string, cursor: nat)
    requires PlainPeople(c) && Sound(c, fin) && cursor <= |text| && Covers(c, fin, text, cursor)
    requires '@' !in text
    ensures '@' !in Enc(c, fin, text, cursor)
    decreases |text| - cursor
  {
    hide BestName;
    hide PlainPeople;
    hide Sound;
    if cursor < |text| {
      match BestName(c, text, cursor)
      case Some(m) =>
        EncHasNoAt(c, fin, text, m.end);
        ReplacementWord(c, fin, m);
      case None =>
        EncHasNoAt(c, fin, text, cursor + 1);
    }
  }

  lemma {:induction false} EncodeAllKeeps(c: Cipher, a: Assignment, texts: seq<string>)
    requires ValidCipher(c) && a.nextPoolIndex <= PoolSize(c.lexicon)
    ensures Extends(a, EncodeAll(c, a, texts).1)
    ensures ValidLexicon(c.lexicon) && Good(c, a) && EncodeAll(c, a, texts).1.overflowIndex == a.overflowIndex
            ==> Good(c, EncodeAll(c, a, texts).1)
    decreases |texts|
  {
    hide Good;
    if texts != [] {
      var a' := EncodeFrom(c, a, texts[0], 0).1;
      EncodeExtends(c, a, texts[0], 0);
      EncodeAllKeeps(c, a', texts[1..]);
      if ValidLexicon(c.lexicon) && Good(c, a) && EncodeAll(c, a, texts).1.overflowIndex == a.overflowIndex {
        EncodeKeepsGood(c, a, texts[0], 0);
      }
    }
  }

  /** Text i of a request is encoded under an assignment that the final one extends. */
  lemma {:induction false} EncodedText(c: Cipher, a: Assignment, texts: seq<string>, i: nat)
    requires ValidCipher(c) && a.nextPoolIndex <= PoolSize(c.lexicon)
    requires i < |texts| && '@' !in texts[i]
    ensures var (outs, fin) := EncodeAll(c, a, texts);
            outs[i] == Enc(c, fin, texts[i], 0) && Covers(c, fin, texts[i], 0)
    decreases i
  {
    var a' := EncodeFrom(c, a, texts[0], 0).1;
    if i == 0 {
      EncodeAllKeeps(c, a', texts[1..]);
      EncodeIsEnc(c, a, texts[0], 0, EncodeAll(c, a, texts).1);
    } else {
      EncodedText(c, a', texts[1..], i - 1);
    }
  }

  lemma {:induction false} TokensOfRequest(u: Letters, texts: seq<string>, i: nat)
    requires i < |texts|
    ensures TokensFrom(u, texts[i], 0, "") <= RequestTokens(u, texts)
  {
    if i > 0 {
      TokensOfRequest(u, texts[1..], i - 1);
    }
  }

  /**
   Every address-free text of a request comes back exactly, whoever else is mentioned in
   the request, as long as everyone has one plain name and the pool did not run out.
   */
  lemma RoundTrip(c: Cipher, texts: seq<string>, i: nat, forms: seq<DecodeForm>)
    requires ValidCipher(c) && ValidLexicon(c.lexicon) && PlainPeople(c)
    requires i < |texts| && '@' !in texts[i]
    requires var fin := EncodeAll(c, FreshAssignment(c.lexicon.letters, texts), texts).1;
             fin.overflowIndex == FIRST_OVERFLOW && IsDecodeTable(fin, forms)
    ensures var outs := EncodeAll(c, FreshAssignment(c.lexicon.letters, texts), texts).0;
            ReplaceFrom(c.lexicon.letters, forms, outs[i], 0) == texts[i]
  {
    var a := FreshAssignment(c.lexicon.letters, texts);
    var (outs, fin) := EncodeAll(c, a, texts);
    EncodeAllKeeps(c, a, texts);
    EncodedText(c, a, texts, i);
    TokensOfRequest(c.lexicon.letters, texts, i);
    EncHasNoAt(c, fin, texts[i], 0);
    assert outs[i][0..] == outs[i];
    Decodes(c, fin, forms, texts[i], 0, outs[i], 0);
    assert texts[i][0..] == texts[i];
  }
}
