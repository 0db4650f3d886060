/**
 Finding the real name that starts at a position of a text. People are looked up
 through an index keyed by the first character of each form of their names; the
 reference is a scan of every form of every person.
 */
module NameMatching {
  import opened Wrappers
  import opened Chars
  import opened Lexicon

  datatype PersonName = PersonName(canonicalFull: string, fullForms: seq<string>, given: string, family: Option<string>)

  /** addresses are in the order of the source's ordered set. */
  datatype Person = Person(addresses: seq<string>, names: seq<PersonName>)

  datatype NamePart = FullForm(index: nat) | FamilyPart | GivenPart

  datatype NameLookup = NameLookup(person: nat, name: nat, part: NamePart)

  datatype MatchKind = Full | Family | Given

  datatype Match = Match(end: nat, person: nat, kind: MatchKind)

  function KindOf(part: NamePart): MatchKind {
    match part
    case FullForm(_) => Full
    case FamilyPart => Family
    case GivenPart => Given
  }

  predicate Valid(people: seq<Person>, l: NameLookup) {
    && l.person < |people|
    && l.name < |people[l.person].names|
    && var name := people[l.person].names[l.name];
       match l.part
       case FullForm(i) => i < |name.fullForms|
       case FamilyPart => name.family.Some?
       case GivenPart => true
  }

  function Form(people: seq<Person>, l: NameLookup): string
    requires Valid(people, l)
  {
    var name := people[l.person].names[l.name];
    match l.part
    case FullForm(i) => name.fullForms[i]
    case FamilyPart => name.family.value
    case GivenPart => name.given
  }

  /** The forms worth indexing: full forms unless empty, single words from two characters on. */
  predicate Indexable(people: seq<Person>, l: NameLookup) {
    Valid(people, l) && |Form(people, l)| >= (if l.part.FullForm? then 1 else 2)
  }

  predicate WholeWordAt(u: Letters, text: string, cursor: nat, term: string)
    requires cursor <= |text|
  {
    && term != ""
    && cursor + |term| <= |text| && text[cursor..cursor + |term|] == term
    && (cursor == 0 || !IsWordChar(u, text[cursor - 1]))
    && (cursor + |term| == |text| || !IsWordChar(u, text[cursor + |term|]))
  }

  predicate StartsSentence(text: string, cursor: nat)
    requires cursor <= |text|
  {
    cursor == 0 ||
    var c := text[cursor - 1];
    if c == '\n' || c == '\r' then true
    else if IsSpace(c) || c in ")]}'\"\U{201D}\U{2019}\U{BB}" || c in "([{'\"\U{201C}\U{2018}\U{AB}\U{2014}\U{2013}"
      then StartsSentence(text, cursor - 1)
    else c in ".!?:"
  }

  /** An English word that is also a given name is not matched where a sentence starts. */
  predicate Eligible(x: Lexicon, people: seq<Person>, text: string, cursor: nat, l: NameLookup)
    requires cursor <= |text|
  {
    && Indexable(people, l)
    && WholeWordAt(x.letters, text, cursor, Form(people, l))
    && !(l.part.GivenPart? && Lower(people[l.person].names[l.name].given) in x.english
         && StartsSentence(text, cursor))
  }

  function MatchOf(people: seq<Person>, cursor: nat, l: NameLookup): Match
    requires Valid(people, l)
  {
    Match(cursor + |Form(people, l)|, l.person, KindOf(l.part))
  }

  predicate IsBetterMatch(candidate: Match, current: Option<Match>) {
    match current
    case None => true
    case Some(best) =>
      candidate.end > best.end
      || (candidate.end == best.end &&
          match (candidate.kind, best.kind)
          case (Full, Family) => true
          case (Full, Given) => true
          case (Family, Given) => true
          case (Family, Full) => false
          case (Given, _) => best.kind.Given? && candidate.person < best.person
          case (_, _) => candidate.person < best.person)
  }

  /** The best match among the lookups in ls, scanned in their order. */
  function BestIn(x: Lexicon, people: seq<Person>, ls: seq<NameLookup>, text: string, cursor: nat): (r: Option<Match>)
    requires cursor <= |text|
    ensures r.Some? ==> cursor < r.value.end <= |text| && r.value.person < |people|
  {
    if ls == [] then None
    else
      var best := BestIn(x, people, ls[..|ls| - 1], text, cursor);
      var l := ls[|ls| - 1];
      if Eligible(x, people, text, cursor, l) && IsBetterMatch(MatchOf(people, cursor, l), best)
        then Some(MatchOf(people, cursor, l)) else best
  }

  /** r is what a match search over exactly these eligible lookups must answer. */
  ghost predicate IsBest(x: Lexicon, people: seq<Person>, ls: seq<NameLookup>, text: string, cursor: nat,
                         r: Option<Match>)
    requires cursor <= |text|
  {
    && (r.None? ==> forall l :: l in ls ==> !Eligible(x, people, text, cursor, l))
    && (r.Some? ==> exists l :: l in ls && Eligible(x, people, text, cursor, l)
                         && MatchOf(people, cursor, l) == r.value)
    && (r.Some? ==> forall l :: l in ls && Eligible(x, people, text, cursor, l) ==>
                      MatchOf(people, cursor, l) == r.value || IsBetterMatch(r.value, Some(MatchOf(people, cursor, l))))
  }

  /** Longer first, then the kind, then the earlier person: a strict total order on matches. */
  lemma BetterIsTotalOrder(a: Match, b: Match, c: Match)
    ensures a == b || IsBetterMatch(a, Some(b)) || IsBetterMatch(b, Some(a))
    ensures IsBetterMatch(a, Some(b)) && IsBetterMatch(b, Some(c)) ==> IsBetterMatch(a, Some(c))
    ensures !(IsBetterMatch(a, Some(b)) && IsBetterMatch(b, Some(a)))
  {
  }

  lemma {:induction false} BestInIsBest(x: Lexicon, people: seq<Person>, ls: seq<NameLookup>, text: string, cursor: nat)
    requires cursor <= |text|
    ensures IsBest(x, people, ls, text, cursor, BestIn(x, people, ls, text, cursor))
  {
    if ls != [] {
      var init, last := ls[..|ls| - 1], ls[|ls| - 1];
      BestInIsBest(x, people, init, text, cursor);
      var before := BestIn(x, people, init, text, cursor);
      var r := BestIn(x, people, ls, text, cursor);
      assert last in ls && forall l :: l in init ==> l in ls;
      forall l | l in ls && Eligible(x, people, text, cursor, l)
        ensures r.Some?
        ensures MatchOf(people, cursor, l) == r.value || IsBetterMatch(r.value, Some(MatchOf(people, cursor, l)))
      {
        assert l in init || l == last;
        if before.Some? {
          BetterIsTotalOrder(r.value, before.value, MatchOf(people, cursor, l));
        }
      }
    }
  }

  /** The order of the lookups, and lookups that cannot match, make no difference. */
  lemma BestIgnoresOrder(x: Lexicon, people: seq<Person>, ls: seq<NameLookup>, ls': seq<NameLookup>, text: string,
                         cursor: nat)
    requires cursor <= |text|
    requires forall l :: Eligible(x, people, text, cursor, l) ==> (l in ls <==> l in ls')
    ensures BestIn(x, people, ls, text, cursor) == BestIn(x, people, ls', text, cursor)
  {
    BestInIsBest(x, people, ls, text, cursor);
    BestInIsBest(x, people, ls', text, cursor);
  }

  // ---- every lookup of every person, in the order the index is built

  function FullLookups(person: nat, name: nat, forms: seq<string>): seq<NameLookup> {
    if forms == [] then []
    else
      var i := |forms| - 1;
      FullLookups(person, name, forms[..i]) + (if forms[i] == "" then [] else [NameLookup(person, name, FullForm(i))])
  }

  function NameLookups(person: nat, name: nat, n: PersonName): seq<NameLookup> {
    FullLookups(person, name, n.fullForms)
    + (if n.family.Some? && |n.family.value| >= 2 then [NameLookup(person, name, FamilyPart)] else [])
    + (if |n.given| >= 2 then [NameLookup(person, name, GivenPart)] else [])
  }

  function PersonLookups(person: nat, names: seq<PersonName>): seq<NameLookup> {
    if names == [] then []
    else
      var i := |names| - 1;
      PersonLookups(person, names[..i]) + NameLookups(person, i, names[i])
  }

  function AllLookups(people: seq<Person>): seq<NameLookup> {
    if people == [] then []
    else
      var i := |people| - 1;
      AllLookups(people[..i]) + PersonLookups(i, people[i].names)
  }

  lemma {:induction false} FullLookupsMembers(person: nat, name: nat, forms: seq<string>, l: NameLookup)
    ensures l in FullLookups(person, name, forms) <==>
            l.person == person && l.name == name && l.part.FullForm? && l.part.index < |forms|
              && forms[l.part.index] != ""
  {
    if forms != [] {
      FullLookupsMembers(person, name, forms[..|forms| - 1], l);
    }
  }

  lemma {:induction false} PersonLookupsMembers(person: nat, names: seq<PersonName>, l: NameLookup)
    ensures l in PersonLookups(person, names) <==>
            l.person == person && l.name < |names| && l in NameLookups(person, l.name, names[l.name])
  {
    if names != [] {
      var i := |names| - 1;
      PersonLookupsMembers(person, names[..i], l);
      FullLookupsMembers(person, i, names[i].fullForms, l);
    }
  }

  lemma NameLookupsMembers(people: seq<Person>, l: NameLookup)
    requires l.person < |people| && l.name < |people[l.person].names|
    ensures l in NameLookups(l.person, l.name, people[l.person].names[l.name]) <==> Indexable(people, l)
  {
    FullLookupsMembers(l.person, l.name, people[l.person].names[l.name].fullForms, l);
  }

  lemma {:induction false} AllLookupsMembers(people: seq<Person>, l: NameLookup)
    ensures l in AllLookups(people) <==> Indexable(people, l)
  {
    if people != [] {
      var i := |people| - 1;
      AllLookupsMembers(people[..i], l);
      PersonLookupsMembers(i, people[i].names, l);
      if l.person < i {
        assert people[..i][l.person] == people[l.person];
      } else if l.person == i && l.name < |people[i].names| {
        NameLookupsMembers(people, l);
      }
    }
  }

  // ---- the first-character index

  type NameIndex = map<char, seq<NameLookup>>

  function Bucket(index: NameIndex, c: char): seq<NameLookup> {
    if c in index then index[c] else []
  }

  function Push(index: NameIndex, c: char, l: NameLookup): NameIndex {
    index[c := Bucket(index, c) + [l]]
  }

  ghost predicate IsIndexOf(people: seq<Person>, index: NameIndex, ls: seq<NameLookup>) {
    && (forall l :: l in ls ==> Indexable(people, l))
    && (forall c, l :: l in Bucket(index, c) <==> l in ls && Form(people, l)[0] == c)
  }

  lemma PushKeepsIndex(people: seq<Person>, index: NameIndex, ls: seq<NameLookup>, l: NameLookup)
    requires IsIndexOf(people, index, ls) && Indexable(people, l)
    ensures IsIndexOf(people, Push(index, Form(people, l)[0], l), ls + [l])
  {
    var c0 := Form(people, l)[0];
    var index' := Push(index, c0, l);
    forall c, m
      ensures m in Bucket(index', c) <==> m in ls + [l] && Indexable(people, m) && Form(people, m)[0] == c
    {
      if c != c0 {
        assert Bucket(index', c) == Bucket(index, c);
      }
      assert m in ls + [l] <==> m in ls || m == l;
    }
  }

  /**
   Looking only in the bucket of the character at the cursor answers the same as
   scanning every form of every person.
   */
  lemma IndexAgreesWithScan(x: Lexicon, people: seq<Person>, index: NameIndex, text: string, cursor: nat)
    requires IsIndexOf(people, index, AllLookups(people))
    requires cursor < |text|
    ensures BestIn(x, people, Bucket(index, text[cursor]), text, cursor)
              == BestIn(x, people, AllLookups(people), text, cursor)
  {
    var bucket := Bucket(index, text[cursor]);
    forall l | Eligible(x, people, text, cursor, l)
      ensures l in bucket <==> l in AllLookups(people)
    {
      AllLookupsMembers(people, l);
      assert text[cursor] == text[cursor..cursor + |Form(people, l)|][0];
    }
    BestIgnoresOrder(x, people, bucket, AllLookups(people), text, cursor);
  }

  /** The people a cipher knows and the index over their names. */
  class KnownNames {
    const lexicon: Lexicon
    var people: seq<Person>
    var byAddress: map<string, nat>
    var protectedAddresses: set<string>
    var nameForms: NameIndex

    constructor (lexicon: Lexicon, people: seq<Person>, byAddress: map<string, nat>, protectedAddresses: set<string>)
      ensures this.lexicon == lexicon && this.people == people
      ensures this.byAddress == byAddress && this.protectedAddresses == protectedAddresses
      ensures IsIndexOf(people, nameForms, AllLookups(people))
    {
      this.lexicon := lexicon;
      this.people := people;
      this.byAddress := byAddress;
      this.protectedAddresses := protectedAddresses;
      this.nameForms := map[];
      new;
      RebuildNameForms();
    }

    method RebuildNameForms()
      modifies this`nameForms
      ensures IsIndexOf(people, nameForms, AllLookups(people))
    {
      nameForms := map[];
      ghost var done: seq<NameLookup> := [];
      for p := 0 to |people|
        invariant done == AllLookups(people[..p])
        invariant IsIndexOf(people, nameForms, done)
      {
        assert people[..p + 1][..p] == people[..p];
        hide PersonLookups;
        done := IndexPerson(p, done);
      }
      assert people[..|people|] == people;
    }

    method IndexPerson(p: nat, ghost done: seq<NameLookup>) returns (ghost now: seq<NameLookup>)
      requires p < |people|
      requires IsIndexOf(people, nameForms, done)
      modifies this`nameForms
      ensures now == done + PersonLookups(p, people[p].names)
      ensures IsIndexOf(people, nameForms, now)
    {
      hide IsIndexOf;
      hide NameLookups;
      var names := people[p].names;
      now := done;
      for n := 0 to |names|
        invariant now == done + PersonLookups(p, names[..n])
        invariant IsIndexOf(people, nameForms, now)
      {
        assert names[..n + 1][..n] == names[..n];
        now := IndexName(p, n, now);
      }
      assert names[..|names|] == names;
    }

    method IndexName(p: nat, n: nat, ghost done: seq<NameLookup>) returns (ghost now: seq<NameLookup>)
      requires p < |people| && n < |people[p].names|
      requires IsIndexOf(people, nameForms, done)
      modifies this`nameForms
      ensures now == done + NameLookups(p, n, people[p].names[n])
      ensures IsIndexOf(people, nameForms, now)
    {
      hide IsIndexOf;
      var name := people[p].names[n];
      now := done;
      for f := 0 to |name.fullForms|
        invariant now == done + FullLookups(p, n, name.fullForms[..f])
        invariant IsIndexOf(people, nameForms, now)
      {
        assert name.fullForms[..f + 1][..f] == name.fullForms[..f];
        if name.fullForms[f] != "" {
          now := PushForm(NameLookup(p, n, FullForm(f)), now);
        }
      }
      assert name.fullForms[..|name.fullForms|] == name.fullForms;
      if name.family.Some? && |name.family.value| >= 2 {
        now := PushForm(NameLookup(p, n, FamilyPart), now);
      }
      if |name.given| >= 2 {
        now := PushForm(NameLookup(p, n, GivenPart), now);
      }
    }

    method PushForm(l: NameLookup, ghost done: seq<NameLookup>) returns (ghost now: seq<NameLookup>)
      requires Indexable(people, l)
      requires IsIndexOf(people, nameForms, done)
      modifies this`nameForms
      ensures now == done + [l]
      ensures IsIndexOf(people, nameForms, now)
    {
      PushKeepsIndex(people, nameForms, done, l);
      nameForms := Push(nameForms, Form(people, l)[0], l);
      now := done + [l];
    }

    method BestNameMatch(text: string, cursor: nat) returns (best: Option<Match>)
      requires cursor <= |text|
      requires IsIndexOf(people, nameForms, AllLookups(people))
      ensures best == if cursor == |text| then None else BestIn(lexicon, people, AllLookups(people), text, cursor)
    {
      best := None;
      if cursor == |text| {
        return;
      }
      var bucket := Bucket(nameForms, text[cursor]);
      for i := 0 to |bucket|
        invariant best == BestIn(lexicon, people, bucket[..i], text, cursor)
      {
        assert bucket[..i + 1][..i] == bucket[..i];
        var l := bucket[i];
        if Eligible(lexicon, people, text, cursor, l) {
          var candidate := MatchOf(people, cursor, l);
          if IsBetterMatch(candidate, best) {
            best := Some(candidate);
          }
        }
      }
      assert bucket[..|bucket|] == bucket;
      IndexAgreesWithScan(lexicon, people, nameForms, text, cursor);
    }
  }
}
