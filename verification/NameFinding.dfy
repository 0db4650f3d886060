/** Which name is taken at a position of a text: which stand there, and which of those wins. */
module NameFinding {
  import opened Wrappers
  import opened Chars
  import opened Lexicon
  import opened NameMatching

  function Weight(kind: MatchKind): nat {
    match kind case Full => 2 case Family => 1 case Given => 0
  }

  /** Longest first; then a full name before a family name before a given name; then whoever is known longer. */
  lemma BetterIsLexicographic(a: Match, b: Match)
    ensures IsBetterMatch(a, Some(b)) <==>
              || a.end > b.end
              || (a.end == b.end && Weight(a.kind) > Weight(b.kind))
              || (a.end == b.end && a.kind == b.kind && a.person < b.person)
  {
  }

  /** Spaces, quotes and brackets may stand between the start of a sentence and its first word. */
  predicate MayStandBetween(c: char) {
    (IsSpace(c) && c !in "\n\r") || c in "()[]{}'\"\U{201C}\U{201D}\U{2018}\U{2019}\U{AB}\U{BB}\U{2014}\U{2013}"
  }

  /** From i on nothing but spaces, quotes and brackets, and a sentence can start at i. */
  ghost predicate SentenceFrom(text: string, i: nat, cursor: nat)
    requires cursor <= |text|
  {
    && i <= cursor && (forall j :: i <= j < cursor ==> MayStandBetween(text[j]))
    && (i == 0 || text[i - 1] in "\n\r.!?:")
  }

  /** A sentence starts at the start of a text or line, or after a full stop, exclamation or question mark, or colon. */
  lemma {:induction false} StartsSentenceIff(text: string, cursor: nat)
    requires cursor <= |text|
    ensures StartsSentence(text, cursor) <==> exists i :: SentenceFrom(text, i, cursor)
  {
    hide MayStandBetween;
    if cursor == 0 {
      assert SentenceFrom(text, 0, cursor);
    } else {
      var c := text[cursor - 1];
      MarksDoNotStandBetween(c);
      SentenceStep(text, cursor);
      StartsSentenceIff(text, cursor - 1);
      if c in "\n\r.!?:" {
        assert SentenceFrom(text, cursor, cursor);
      } else if StartsSentence(text, cursor) {
        var i :| SentenceFrom(text, i, cursor - 1);
        assert SentenceFrom(text, i, cursor);
      }
      forall i | SentenceFrom(text, i, cursor) ensures c in "\n\r.!?:" || SentenceFrom(text, i, cursor - 1) {
      }
    }
  }

  lemma SentenceStep(text: string, cursor: nat)
    requires 0 < cursor <= |text|
    ensures var c := text[cursor - 1];
            StartsSentence(text, cursor) <==>
              c in "\n\r.!?:" || (MayStandBetween(c) && StartsSentence(text, cursor - 1))
  {
    SkippedIff(text[cursor - 1]);
  }

  lemma MarksDoNotStandBetween(c: char)
    ensures c in "\n\r.!?:" ==> !MayStandBetween(c)
  {
  }

  lemma SkippedIff(c: char)
    ensures MayStandBetween(c) <==>
              && c != '\n' && c != '\r'
              && (IsSpace(c)
                  || c in ")]}'\"\U{201D}\U{2019}\U{BB}" || c in "([{'\"\U{201C}\U{2018}\U{AB}\U{2014}\U{2013}")
  {
  }

  /** A letter, digit or underscore; beyond ASCII whatever the table of letters says. */
  predicate Touches(u: Letters, c: char) {
    || 'A' <= c <= 'Z' || 'a' <= c <= 'z' || '0' <= c <= '9' || c == '_'
    || (c >= '\U{80}' && u(c))
  }

  /** The word stands there on its own: no letter, digit or underscore touches it. */
  ghost predicate StandsAlone(u: Letters, text: string, cursor: nat, end: nat, word: string) {
    && cursor < end <= |text| && text[cursor..end] == word
    && (cursor > 0 ==> !Touches(u, text[cursor - 1])) && (end < |text| ==> !Touches(u, text[end]))
  }

  /** The name stands there, in this kind; an English word that is also a given name not where a sentence starts. */
  ghost predicate StandsAs(x: Lexicon, name: PersonName, text: string, cursor: nat, end: nat, kind: MatchKind)
    requires cursor <= |text|
  {
    match kind
    case Full => exists f :: f in name.fullForms && StandsAlone(x.letters, text, cursor, end, f)
    case Family =>
      && name.family.Some? && |name.family.value| >= 2
      && StandsAlone(x.letters, text, cursor, end, name.family.value)
    case Given =>
      && |name.given| >= 2 && StandsAlone(x.letters, text, cursor, end, name.given)
      && !(Lower(name.given) in x.english && StartsSentence(text, cursor))
  }

  ghost predicate NameStands(x: Lexicon, people: seq<Person>, text: string, cursor: nat, m: Match)
    requires cursor <= |text|
  {
    && m.person < |people|
    && exists n :: 0 <= n < |people[m.person].names|
                   && StandsAs(x, people[m.person].names[n], text, cursor, m.end, m.kind)
  }

  lemma LookupStands(x: Lexicon, people: seq<Person>, text: string, cursor: nat, l: NameLookup)
    requires cursor <= |text| && Eligible(x, people, text, cursor, l)
    ensures NameStands(x, people, text, cursor, MatchOf(people, cursor, l))
  {
    hide StartsSentence, Lower;
    var name := people[l.person].names[l.name];
    if l.part.FullForm? {
      assert name.fullForms[l.part.index] in name.fullForms;
    }
    var m := MatchOf(people, cursor, l);
    assert StandsAs(x, name, text, cursor, m.end, m.kind);
  }

  lemma StandingHasLookup(x: Lexicon, people: seq<Person>, text: string, cursor: nat, m: Match) returns (l: NameLookup)
    requires cursor <= |text| && NameStands(x, people, text, cursor, m)
    ensures Eligible(x, people, text, cursor, l) && MatchOf(people, cursor, l) == m
  {
    hide StartsSentence, Lower;
    var n :| 0 <= n < |people[m.person].names| && StandsAs(x, people[m.person].names[n], text, cursor, m.end, m.kind);
    var name := people[m.person].names[n];
    match m.kind
    case Full =>
      var f :| f in name.fullForms && StandsAlone(x.letters, text, cursor, m.end, f);
      var i :| 0 <= i < |name.fullForms| && name.fullForms[i] == f;
      l := NameLookup(m.person, n, FullForm(i));
    case Family => l := NameLookup(m.person, n, FamilyPart);
    case Given => l := NameLookup(m.person, n, GivenPart);
  }

  /** The name taken is one that stands there and beats every other that does; none is taken only if none stands. */
  lemma TakenNameWins(x: Lexicon, people: seq<Person>, text: string, cursor: nat, m: Match)
    requires cursor <= |text|
    ensures BestIn(x, people, AllLookups(people), text, cursor) == Some(m) <==>
              && NameStands(x, people, text, cursor, m)
              && forall other :: NameStands(x, people, text, cursor, other) ==>
                   other == m || IsBetterMatch(m, Some(other))
    ensures BestIn(x, people, AllLookups(people), text, cursor).None? <==>
              forall other :: !NameStands(x, people, text, cursor, other)
  {
    hide NameStands, Eligible, IsBetterMatch, AllLookups;
    var best := BestIn(x, people, AllLookups(people), text, cursor);
    BestInIsBest(x, people, AllLookups(people), text, cursor);
    forall other | NameStands(x, people, text, cursor, other)
      ensures best.Some? && (other == best.value || IsBetterMatch(best.value, Some(other)))
    {
      var l := StandingHasLookup(x, people, text, cursor, other);
      EligibleIsListed(x, people, text, cursor, l);
    }
    if best.Some? {
      TakenStands(x, people, text, cursor, best.value);
      if NameStands(x, people, text, cursor, m) && IsBetterMatch(m, Some(best.value)) {
        BetterIsTotalOrder(m, best.value, m);
      }
    }
  }

  lemma TakenStands(x: Lexicon, people: seq<Person>, text: string, cursor: nat, m: Match)
    requires cursor <= |text| && BestIn(x, people, AllLookups(people), text, cursor) == Some(m)
    ensures NameStands(x, people, text, cursor, m)
  {
    hide NameStands, AllLookups, BestIn, WholeWordAt, StartsSentence, Lower;
    BestInIsBest(x, people, AllLookups(people), text, cursor);
    var l :| l in AllLookups(people) && Eligible(x, people, text, cursor, l) && MatchOf(people, cursor, l) == m;
    LookupStands(x, people, text, cursor, l);
  }

  lemma EligibleIsListed(x: Lexicon, people: seq<Person>, text: string, cursor: nat, l: NameLookup)
    requires cursor <= |text| && Eligible(x, people, text, cursor, l)
    ensures l in AllLookups(people)
  {
    hide AllLookups;
    AllLookupsMembers(people, l);
  }
}
