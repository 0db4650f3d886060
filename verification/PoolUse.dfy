/** How a request uses up the pool of pseudonyms, and when the pool runs out. */
module PoolUse {
  import opened Chars
  import opened Lexicon
  import opened NameCipher
  import opened CipherRoundTrip

  /** How many pool entries from i on may be used in a request with these tokens. */
  function Usable(x: Lexicon, skippedTokens: set<string>, i: nat): nat
    requires i <= PoolSize(x)
    decreases PoolSize(x) - i
  {
    if i == PoolSize(x) then 0
    else (if Skipped(x, skippedTokens, i) then 0 else 1) + Usable(x, skippedTokens, i + 1)
  }

  lemma {:induction false} UsableFromNextFree(x: Lexicon, skippedTokens: set<string>, i: nat)
    requires i <= PoolSize(x)
    ensures var k := NextFree(x, skippedTokens, i);
            Usable(x, skippedTokens, i) == if k < PoolSize(x) then 1 + Usable(x, skippedTokens, k + 1) else 0
    ensures Usable(x, skippedTokens, PoolSize(x)) == 0
    decreases PoolSize(x) - i
  {
    if i < PoolSize(x) && Skipped(x, skippedTokens, i) {
      UsableFromNextFree(x, skippedTokens, i + 1);
    }
  }

  /** The entries from i on neither of whose words the request contains. */
  function FreeEntries(x: Lexicon, tokens: set<string>, i: nat): set<nat> {
    set k | i <= k < |x.given| && k < |x.family| && Lower(x.given[k]) !in tokens && Lower(x.family[k]) !in tokens
  }

  lemma {:induction false} UsableAreFree(x: Lexicon, tokens: set<string>, i: nat)
    requires i <= PoolSize(x)
    ensures Usable(x, tokens, i) == |FreeEntries(x, tokens, i)|
    decreases PoolSize(x) - i
  {
    hide Lower;
    if i == PoolSize(x) {
      assert FreeEntries(x, tokens, i) == {};
    } else {
      UsableAreFree(x, tokens, i + 1);
      assert FreeEntries(x, tokens, i)
          == FreeEntries(x, tokens, i + 1) + if Skipped(x, tokens, i) then {} else {i};
    }
  }

  /** Pool entries used up, plus overflow names given out, make up the people assigned. */
  ghost predicate Counted(c: Cipher, a: Assignment) {
    && a.nextPoolIndex <= PoolSize(c.lexicon) && a.overflowIndex >= FIRST_OVERFLOW
    && (forall p :: p in a.persons ==> p < |c.people|)
    && |a.persons.Keys| + Usable(c.lexicon, a.skippedTokens, a.nextPoolIndex)
       == Usable(c.lexicon, a.skippedTokens, 0) + (a.overflowIndex - FIRST_OVERFLOW)
    && (a.overflowIndex > FIRST_OVERFLOW ==> Usable(c.lexicon, a.skippedTokens, a.nextPoolIndex) == 0)
  }

  lemma AssignCounts(c: Cipher, a: Assignment, p: nat)
    requires ValidCipher(c) && p < |c.people| && a.nextPoolIndex <= PoolSize(c.lexicon) && p !in a.persons
    ensures var b, k := Assign(c, a, p), NextFree(c.lexicon, a.skippedTokens, a.nextPoolIndex);
            && b.persons.Keys == a.persons.Keys + {p} && |b.persons.Keys| == |a.persons.Keys| + 1
            && b.skippedTokens == a.skippedTokens
            && b.nextPoolIndex == (if k < PoolSize(c.lexicon) then k + 1 else k)
            && b.overflowIndex == a.overflowIndex + (if k < PoolSize(c.lexicon) then 0 else 1)
  {
    hide NewPseudonym;
  }

  lemma AssignAgain(c: Cipher, a: Assignment, p: nat)
    requires ValidCipher(c) && p < |c.people| && a.nextPoolIndex <= PoolSize(c.lexicon) && p in a.persons
    ensures Assign(c, a, p) == a
  {
  }

  lemma NewcomerKeepsCount(c: Cipher, a: Assignment, b: Assignment, p: nat, k: nat)
    requires Counted(c, a) && p < |c.people| && a.nextPoolIndex <= k <= PoolSize(c.lexicon)
    requires |b.persons.Keys| == |a.persons.Keys| + 1 && forall q :: q in b.persons <==> q == p || q in a.persons
    requires b.skippedTokens == a.skippedTokens
    requires if k < PoolSize(c.lexicon) then b.nextPoolIndex == k + 1 && b.overflowIndex == a.overflowIndex
             else b.nextPoolIndex == k && b.overflowIndex == a.overflowIndex + 1
    requires Usable(c.lexicon, a.skippedTokens, a.nextPoolIndex)
          == if k < PoolSize(c.lexicon) then 1 + Usable(c.lexicon, a.skippedTokens, k + 1) else 0
    requires Usable(c.lexicon, a.skippedTokens, PoolSize(c.lexicon)) == 0
    ensures Counted(c, b)
  {
    hide Usable, PoolSize, Skipped;
  }

  lemma AssignKeepsCount(c: Cipher, a: Assignment, p: nat)
    requires ValidCipher(c) && p < |c.people| && Counted(c, a)
    ensures Counted(c, Assign(c, a, p))
  {
    hide Assign, NextFree, Usable, Skipped, PoolSize;
    if p in a.persons {
      AssignAgain(c, a, p);
    } else {
      AssignCounts(c, a, p);
      UsableFromNextFree(c.lexicon, a.skippedTokens, a.nextPoolIndex);
      var b := Assign(c, a, p);
      assert forall q :: q in b.persons <==> q in b.persons.Keys;
      NewcomerKeepsCount(c, a, Assign(c, a, p), p, NextFree(c.lexicon, a.skippedTokens, a.nextPoolIndex));
    }
  }

  lemma {:induction false} EncodeKeepsCount(c: Cipher, a: Assignment, text: string, cursor: nat)
    requires ValidCipher(c) && cursor <= |text| && Counted(c, a)
    ensures Counted(c, EncodeFrom(c, a, text, cursor).1)
    decreases |text| - cursor
  {
    hide Counted;
    hide BestName;
    assert a.nextPoolIndex <= PoolSize(c.lexicon) by { CountedIndex(c, a); }
    if cursor < |text| {
      match EmailAt(text, cursor)
      case Some((end, address)) =>
        if address in c.byAddress {
          AssignKeepsCount(c, a, c.byAddress[address]);
          EncodeKeepsCount(c, Assign(c, a, c.byAddress[address]), text, end);
        } else {
          EncodeKeepsCount(c, a, text, end);
        }
      case None =>
        match BestName(c, text, cursor)
        case Some(m) =>
          AssignKeepsCount(c, a, m.person);
          EncodeKeepsCount(c, Assign(c, a, m.person), text, m.end);
        case None =>
          EncodeKeepsCount(c, a, text, cursor + 1);
    }
  }

  lemma CountedIndex(c: Cipher, a: Assignment)
    requires Counted(c, a)
    ensures a.nextPoolIndex <= PoolSize(c.lexicon)
  {
  }

  lemma {:induction false} EncodeAllKeepsCount(c: Cipher, a: Assignment, texts: seq<string>)
    requires ValidCipher(c) && Counted(c, a)
    ensures Counted(c, EncodeAll(c, a, texts).1)
    decreases |texts|
  {
    if texts != [] {
      EncodeKeepsCount(c, a, texts[0], 0);
      EncodeAllKeepsCount(c, EncodeFrom(c, a, texts[0], 0).1, texts[1..]);
    }
  }

  // ---- who is mentioned

  /** The people whose address or name is read in the text from the cursor on. */
  function MentionedFrom(c: Cipher, text: string, cursor: nat): set<nat>
    requires cursor <= |text|
    decreases |text| - cursor
  {
    if cursor == |text| then {}
    else match EmailAt(text, cursor)
      case Some((end, address)) =>
        (if address in c.byAddress then {c.byAddress[address]} else {}) + MentionedFrom(c, text, end)
      case None =>
        match BestName(c, text, cursor)
        case Some(m) => {m.person} + MentionedFrom(c, text, m.end)
        case None => MentionedFrom(c, text, cursor + 1)
  }

  function MentionedIn(c: Cipher, texts: seq<string>): set<nat> {
    if texts == [] then {} else MentionedFrom(c, texts[0], 0) + MentionedIn(c, texts[1..])
  }

  lemma {:induction false} EncodeAssignsMentioned(c: Cipher, a: Assignment, text: string, cursor: nat)
    requires ValidCipher(c) && cursor <= |text| && a.nextPoolIndex <= PoolSize(c.lexicon)
    ensures EncodeFrom(c, a, text, cursor).1.persons.Keys == a.persons.Keys + MentionedFrom(c, text, cursor)
    decreases |text| - cursor
  {
    hide BestName, Assign, EmailAt;
    if cursor < |text| {
      match EmailAt(text, cursor)
      case Some((end, address)) =>
        if address in c.byAddress {
          EncodeAssignsMentioned(c, Assign(c, a, c.byAddress[address]), text, end);
        } else {
          EncodeAssignsMentioned(c, a, text, end);
        }
      case None =>
        match BestName(c, text, cursor)
        case Some(m) => EncodeAssignsMentioned(c, Assign(c, a, m.person), text, m.end);
        case None => EncodeAssignsMentioned(c, a, text, cursor + 1);
    }
  }

  /** Exactly the people the texts mention end up with a pseudonym. */
  lemma {:induction false} AssignedAreMentioned(c: Cipher, a: Assignment, texts: seq<string>)
    requires ValidCipher(c) && a.nextPoolIndex <= PoolSize(c.lexicon)
    ensures EncodeAll(c, a, texts).1.persons.Keys == a.persons.Keys + MentionedIn(c, texts)
    decreases |texts|
  {
    hide EncodeFrom, MentionedFrom;
    if texts != [] {
      EncodeAssignsMentioned(c, a, texts[0], 0);
      AssignedAreMentioned(c, EncodeFrom(c, a, texts[0], 0).1, texts[1..]);
    }
  }

  // ---- when the pool runs out

  /** Before anything is encoded: the texts mention no more people than the pool has entries they leave free. */
  predicate PoolSuffices(c: Cipher, texts: seq<string>) {
    |MentionedIn(c, texts)| <= |FreeEntries(c.lexicon, RequestTokens(c.lexicon.letters, texts), 0)|
  }

  /** The pool runs out exactly when more people are mentioned than it has free entries. */
  lemma PoolRunsOutIff(c: Cipher, texts: seq<string>)
    requires ValidCipher(c)
    ensures EncodeAll(c, FreshAssignment(c.lexicon.letters, texts), texts).1.overflowIndex == FIRST_OVERFLOW
            <==> PoolSuffices(c, texts)
  {
    hide EncodeAll, MentionedIn, Usable, RequestTokens, FreeEntries;
    UsableAreFree(c.lexicon, RequestTokens(c.lexicon.letters, texts), 0);
    var a := FreshAssignment(c.lexicon.letters, texts);
    var fin := EncodeAll(c, a, texts).1;
    assert Counted(c, a);
    EncodeAllKeepsCount(c, a, texts);
    EncodeAllKeeps(c, a, texts);
    AssignedAreMentioned(c, a, texts);
    assert fin.persons.Keys == MentionedIn(c, texts);
  }

  /** So whether a request of plain names comes back can be told before it is encoded. */
  lemma RequestRoundTrips(c: Cipher, texts: seq<string>, i: nat, forms: seq<DecodeForm>)
    requires ValidCipher(c) && ValidLexicon(c.lexicon) && PlainPeople(c) && PoolSuffices(c, texts)
    requires i < |texts| && '@' !in texts[i]
    requires IsDecodeTable(EncodeAll(c, FreshAssignment(c.lexicon.letters, texts), texts).1, forms)
    ensures var outs := EncodeAll(c, FreshAssignment(c.lexicon.letters, texts), texts).0;
            ReplaceFrom(c.lexicon.letters, forms, outs[i], 0) == texts[i]
  {
    hide *;
    PoolRunsOutIff(c, texts);
    RoundTrip(c, texts, i, forms);
  }

  lemma {:induction false} AtMost(keys: set<nat>, n: nat)
    requires forall p :: p in keys ==> p < n
    ensures |keys| <= n
  {
    if n == 0 {
      assert keys == {};
    } else {
      AtMost(keys - {n - 1}, n - 1);
    }
  }

  lemma {:induction false} MentionedFromAreKnown(c: Cipher, text: string, cursor: nat, p: nat)
    requires ValidCipher(c) && cursor <= |text| && p in MentionedFrom(c, text, cursor)
    ensures p < |c.people|
    decreases |text| - cursor
  {
    hide BestName, EmailAt;
    match EmailAt(text, cursor)
    case Some((end, address)) =>
      if p in MentionedFrom(c, text, end) {
        MentionedFromAreKnown(c, text, end, p);
      }
    case None =>
      match BestName(c, text, cursor)
      case Some(m) =>
        if p in MentionedFrom(c, text, m.end) {
          MentionedFromAreKnown(c, text, m.end, p);
        }
      case None => MentionedFromAreKnown(c, text, cursor + 1, p);
  }

  lemma {:induction false} MentionedAreKnown(c: Cipher, texts: seq<string>, p: nat)
    requires ValidCipher(c) && p in MentionedIn(c, texts)
    ensures p < |c.people|
  {
    hide MentionedFrom;
    if p in MentionedFrom(c, texts[0], 0) {
      MentionedFromAreKnown(c, texts[0], 0, p);
    } else {
      MentionedAreKnown(c, texts[1..], p);
    }
  }

  /** In particular it never runs out when it has a free entry for everyone known. */
  lemma PoolLargeEnough(c: Cipher, texts: seq<string>)
    requires ValidCipher(c)
    requires |c.people| <= |FreeEntries(c.lexicon, RequestTokens(c.lexicon.letters, texts), 0)|
    ensures PoolSuffices(c, texts)
    ensures EncodeAll(c, FreshAssignment(c.lexicon.letters, texts), texts).1.overflowIndex == FIRST_OVERFLOW
  {
    hide EncodeAll, MentionedIn, FreeEntries, RequestTokens, ValidCipher;
    forall p | p in MentionedIn(c, texts) ensures p < |c.people| {
      MentionedAreKnown(c, texts, p);
    }
    AtMost(MentionedIn(c, texts), |c.people|);
    PoolRunsOutIff(c, texts);
  }
}
