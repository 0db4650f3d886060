/**
 Rewriting real names and addresses into pseudonyms before a request leaves the
 machine, and rewriting an answer's pseudonyms back.
 */
module NameCipher {
  import opened Wrappers
  import opened Chars
  import opened Lexicon
  import opened NameMatching

  datatype Pseudonym = Pseudonym(given: string, family: Option<string>, full: string, address: string)

  datatype AssignedPerson = AssignedPerson(pseudonym: Pseudonym, realName: PersonName, realAddress: string)

  /** The state of one request: who has which pseudonym, and how far the pool is used up. */
  datatype Assignment = Assignment(
    persons: map<nat, AssignedPerson>, skippedTokens: set<string>, nextPoolIndex: nat, overflowIndex: nat)

  const FIRST_OVERFLOW := 25

  datatype Cipher = Cipher(
    lexicon: Lexicon, people: seq<Person>, byAddress: map<string, nat>, protectedAddresses: set<string>)

  /** Every known person has a parsed name, and known addresses lead to known people. */
  ghost predicate ValidCipher(c: Cipher) {
    && (forall p :: 0 <= p < |c.people| ==> c.people[p].names != [])
    && (forall a :: a in c.byAddress ==> c.byAddress[a] < |c.people|)
  }

  // ---- pseudonyms

  function AsciiAlnumOnly(s: string): string {
    if s == "" then ""
    else (if IsAsciiAlnum(s[0]) then [s[0]] else "") + AsciiAlnumOnly(s[1..])
  }

  function NewPseudonym(given: string, family: Option<string>, domain: string): Pseudonym {
    match family
    case None => Pseudonym(given, None, given, Lower(AsciiAlnumOnly(given)) + domain)
    case Some(f) => Pseudonym(given, family, given + " " + f, Lower(given) + "." + Lower(f) + domain)
  }

  function PoolSize(x: Lexicon): nat {
    if |x.given| <= |x.family| then |x.given| else |x.family|
  }

  predicate Skipped(x: Lexicon, skippedTokens: set<string>, k: nat)
    requires k < PoolSize(x)
  {
    Lower(x.given[k]) in skippedTokens || Lower(x.family[k]) in skippedTokens
  }

  /** The first pool entry at or after i whose words do not occur in the request. */
  function NextFree(x: Lexicon, skippedTokens: set<string>, i: nat): (r: nat)
    requires i <= PoolSize(x)
    ensures i <= r <= PoolSize(x)
    ensures r < PoolSize(x) ==> !Skipped(x, skippedTokens, r)
    ensures forall k :: i <= k < r ==> Skipped(x, skippedTokens, k)
    decreases PoolSize(x) - i
  {
    if i == PoolSize(x) || !Skipped(x, skippedTokens, i) then i else NextFree(x, skippedTokens, i + 1)
  }

  function NextPseudonym(x: Lexicon, a: Assignment): (Pseudonym, Assignment)
    requires a.nextPoolIndex <= PoolSize(x)
  {
    var k := NextFree(x, a.skippedTokens, a.nextPoolIndex);
    if k < PoolSize(x)
      then (NewPseudonym(x.given[k], Some(x.family[k]), x.domain), a.(nextPoolIndex := k + 1))
    else (NewPseudonym("Person " + Decimal(a.overflowIndex), None, x.domain),
          a.(nextPoolIndex := PoolSize(x), overflowIndex := a.overflowIndex + 1))
  }

  /** Person p has a pseudonym in the result; everyone else keeps what they have. */
  function Assign(c: Cipher, a: Assignment, p: nat): (r: Assignment)
    requires p < |c.people| && c.people[p].names != []
    requires a.nextPoolIndex <= PoolSize(c.lexicon)
    ensures r.nextPoolIndex <= PoolSize(c.lexicon) && r.persons.Keys == a.persons.Keys + {p}
  {
    if p in a.persons then a
    else
      var (pseudonym, a') := NextPseudonym(c.lexicon, a);
      var address := if c.people[p].addresses == [] then "" else c.people[p].addresses[0];
      a'.(persons := a.persons[p := AssignedPerson(pseudonym, c.people[p].names[0], address)])
  }

  // ---- e-mail addresses in a text

  predicate IsEmailChar(c: char) { IsAsciiAlnum(c) || c in "._%+-@" }

  function LocalEnd(text: string, i: nat): (r: nat)
    requires i <= |text|
    ensures i <= r <= |text|
    decreases |text| - i
  {
    if i < |text| && (IsAsciiAlnum(text[i]) || text[i] in "._%+-") then LocalEnd(text, i + 1) else i
  }

  function DomainEnd(text: string, i: nat): (r: nat)
    requires i <= |text|
    ensures i <= r <= |text|
    decreases |text| - i
  {
    if i < |text| && (IsAsciiAlnum(text[i]) || text[i] in ".-") then DomainEnd(text, i + 1) else i
  }

  function TrimDomain(text: string, start: nat, i: nat): (r: nat)
    requires start <= i <= |text|
    ensures start <= r <= i
  {
    if i > start && text[i - 1] in ".-" then TrimDomain(text, start, i - 1) else i
  }

  /** The address that starts at the cursor: its end and its lower-case form. */
  function EmailAt(text: string, cursor: nat): (r: Option<(nat, string)>)
    requires cursor <= |text|
    ensures r.Some? ==> cursor < r.value.0 <= |text| && '@' in text
  {
    if cursor > 0 && IsEmailChar(text[cursor - 1]) then None else
    var at := LocalEnd(text, cursor);
    if at == cursor || at == |text| || text[at] != '@' then None else
    var end := TrimDomain(text, at + 1, DomainEnd(text, at + 1));
    var domain := text[at + 1..end];
    if '.' !in domain || domain[0] == '.' || domain[|domain| - 1] == '.' then None
    else if end < |text| && (IsAsciiAlnum(text[end]) || text[end] in "_%+@") then None
    else Some((end, Lower(text[cursor..end])))
  }

  predicate ExactEmailAt(text: string, cursor: nat, address: string)
    requires cursor <= |text|
  {
    && cursor + |address| <= |text|
    && Lower(text[cursor..cursor + |address|]) == Lower(address)
    && (cursor == 0 || !IsEmailChar(text[cursor - 1]))
    && (cursor + |address| == |text| || !IsEmailChar(text[cursor + |address|]))
  }

  // ---- encoding

  function BestName(c: Cipher, text: string, cursor: nat): (r: Option<Match>)
    requires cursor <= |text|
    ensures r.Some? ==> cursor < r.value.end <= |text| && r.value.person < |c.people|
  {
    BestIn(c.lexicon, c.people, AllLookups(c.people), text, cursor)
  }

  function NameReplacement(pseudonym: Pseudonym, kind: MatchKind): string {
    match kind
    case Full => pseudonym.full
    case Given => pseudonym.given
    case Family => if pseudonym.family.Some? then pseudonym.family.value else pseudonym.given
  }

  function EncodeFrom(c: Cipher, a: Assignment, text: string, cursor: nat): (r: (string, Assignment))
    requires ValidCipher(c) && cursor <= |text| && a.nextPoolIndex <= PoolSize(c.lexicon)
    ensures r.1.nextPoolIndex <= PoolSize(c.lexicon)
    decreases |text| - cursor
  {
    if cursor == |text| then ("", a)
    else match EmailAt(text, cursor)
      case Some((end, address)) =>
        if address in c.byAddress then
          var p := c.byAddress[address];
          var a' := Assign(c, a, p);
          var (rest, a'') := EncodeFrom(c, a', text, end);
          (a'.persons[p].pseudonym.address + rest, a'')
        else
          var (rest, a') := EncodeFrom(c, a, text, end);
          ((if address in c.protectedAddresses then text[cursor..end] else "address" + c.lexicon.domain) + rest, a')
      case None =>
        match BestName(c, text, cursor)
        case Some(m) =>
          var a' := Assign(c, a, m.person);
          var (rest, a'') := EncodeFrom(c, a', text, m.end);
          (NameReplacement(a'.persons[m.person].pseudonym, m.kind) + rest, a'')
        case None =>
          var (rest, a') := EncodeFrom(c, a, text, cursor + 1);
          ([text[cursor]] + rest, a')
  }

  function EncodeAll(c: Cipher, a: Assignment, texts: seq<string>): (r: (seq<string>, Assignment))
    requires ValidCipher(c) && a.nextPoolIndex <= PoolSize(c.lexicon)
    ensures |r.0| == |texts| && r.1.nextPoolIndex <= PoolSize(c.lexicon)
    decreases |texts|
  {
    if texts == [] then ([], a)
    else
      var (first, a') := EncodeFrom(c, a, texts[0], 0);
      var (rest, a'') := EncodeAll(c, a', texts[1..]);
      ([first] + rest, a'')
  }

  /** The lower-case alphanumeric runs of text from i on; run is the one being read. */
  function TokensFrom(u: Letters, text: string, i: nat, run: string): set<string>
    requires i <= |text|
    decreases |text| - i
  {
    var done := if run == "" then {} else {Lower(run)};
    if i == |text| then done
    else if IsAlnum(u, text[i]) then TokensFrom(u, text, i + 1, run + [text[i]])
    else done + TokensFrom(u, text, i + 1, "")
  }

  function RequestTokens(u: Letters, texts: seq<string>): set<string> {
    if texts == [] then {} else TokensFrom(u, texts[0], 0, "") + RequestTokens(u, texts[1..])
  }

  function FreshAssignment(u: Letters, texts: seq<string>): Assignment {
    Assignment(map[], RequestTokens(u, texts), 0, FIRST_OVERFLOW)
  }

  // ---- decoding

  datatype DecodeForm = DecodeForm(pseudo: string, original: string, priority: nat)

  function FormsOf(person: AssignedPerson): seq<DecodeForm> {
    var p := person.pseudonym;
    [DecodeForm(p.address, person.realAddress, 4),
     DecodeForm(p.full, person.realName.canonicalFull, 3),
     DecodeForm(p.given, person.realName.given, 1)]
    + (if p.family.Some? && person.realName.family.Some?
        then [DecodeForm(p.family.value, person.realName.family.value, 2)] else [])
  }

  /** Longer pseudonyms first, then the higher priority. */
  predicate SortsBefore(a: DecodeForm, b: DecodeForm) {
    |a.pseudo| > |b.pseudo| || (|a.pseudo| == |b.pseudo| && a.priority >= b.priority)
  }

  ghost predicate IsSorted(forms: seq<DecodeForm>) {
    forall i, j :: 0 <= i < j < |forms| ==> SortsBefore(forms[i], forms[j])
  }

  /** What decoding searches: all forms of everyone assigned, longest first. */
  ghost predicate IsDecodeTable(a: Assignment, forms: seq<DecodeForm>) {
    && IsSorted(forms)
    && (forall f :: f in forms ==> exists p :: p in a.persons && f in FormsOf(a.persons[p]))
    && (forall p, f :: p in a.persons && f in FormsOf(a.persons[p]) ==> f in forms)
  }

  predicate FormMatches(u: Letters, text: string, cursor: nat, f: DecodeForm)
    requires cursor <= |text|
  {
    if '@' in f.pseudo then ExactEmailAt(text, cursor, f.pseudo) else WholeWordAt(u, text, cursor, f.pseudo)
  }

  function FirstForm(u: Letters, forms: seq<DecodeForm>, text: string, cursor: nat): (r: Option<DecodeForm>)
    requires cursor <= |text|
    ensures r.Some? ==> r.value in forms && FormMatches(u, text, cursor, r.value)
    ensures r.Some? ==> 0 < |r.value.pseudo| <= |text| - cursor
    ensures r.None? ==> forall f :: f in forms ==> !FormMatches(u, text, cursor, f)
  {
    if forms == [] then None
    else if FormMatches(u, text, cursor, forms[0]) then Some(forms[0])
    else FirstForm(u, forms[1..], text, cursor)
  }

  /** Of the forms that stand at the cursor the longest is replaced, a full name before a part of the same length. */
  lemma {:induction false} LongestFormIsReplaced(u: Letters, forms: seq<DecodeForm>, text: string, cursor: nat,
                                                 f: DecodeForm)
    requires cursor <= |text| && IsSorted(forms)
    requires f in forms && FormMatches(u, text, cursor, f)
    ensures var first := FirstForm(u, forms, text, cursor);
            && first.Some?
            && (|first.value.pseudo| > |f.pseudo|
                || (|first.value.pseudo| == |f.pseudo| && first.value.priority >= f.priority))
  {
    hide FormMatches;
    if !FormMatches(u, text, cursor, forms[0]) {
      LongestFormIsReplaced(u, forms[1..], text, cursor, f);
    }
  }

  function ReplaceFrom(u: Letters, forms: seq<DecodeForm>, text: string, cursor: nat): string
    requires cursor <= |text|
    decreases |text| - cursor
  {
    if cursor == |text| then ""
    else match FirstForm(u, forms, text, cursor)
      case Some(f) => f.original + ReplaceFrom(u, forms, text, cursor + |f.pseudo|)
      case None => [text[cursor]] + ReplaceFrom(u, forms, text, cursor + 1)
  }
}
