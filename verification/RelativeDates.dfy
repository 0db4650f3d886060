/** Finding relative date phrases: collect, sort and mark, against a plain leftmost-longest scan. */
module RelativeDates {
  import opened Wrappers
  import opened Chars

  datatype Token = Token(word: string, start: nat, end: nat)

  /** A phrase of the table: at least one word. */
  datatype Pattern = Pattern(first: string, others: seq<string>, value: string)

  function WordsOf(p: Pattern): seq<string> { [p.first] + p.others }

  datatype PhraseMatch = PhraseMatch(start: nat, end: nat, value: string)

  // ---- tokens

  predicate IsToken(u: Letters, text: string, t: Token) {
    && t.start < t.end <= |text|
    && (forall i :: t.start <= i < t.end ==> IsWordChar(u, text[i]))
    && (t.start == 0 || !IsWordChar(u, text[t.start - 1]))
    && (t.end == |text| || !IsWordChar(u, text[t.end]))
    && t.word == Lower(text[t.start..t.end])
  }

  /** Every word character before n is in one of the tokens. */
  ghost predicate Covers(u: Letters, text: string, tokens: seq<Token>, n: nat)
    requires n <= |text|
  {
    forall i :: 0 <= i < n && IsWordChar(u, text[i]) ==>
      exists k :: 0 <= k < |tokens| && tokens[k].start <= i < tokens[k].end
  }

  /** Every maximal run of word characters, once, in text order. */
  ghost predicate IsTokenized(u: Letters, text: string, tokens: seq<Token>) {
    && (forall k :: 0 <= k < |tokens| ==> IsToken(u, text, tokens[k]))
    && (forall k :: 0 < k < |tokens| ==> tokens[k - 1].end < tokens[k].start)
    && Covers(u, text, tokens, |text|)
  }

  ghost predicate TokenizedTo(u: Letters, text: string, tokens: seq<Token>, open: Option<nat>, n: nat) {
    && n <= |text|
    && (forall k :: 0 <= k < |tokens| ==> IsToken(u, text, tokens[k]) && tokens[k].end < n)
    && (forall k :: 0 < k < |tokens| ==> tokens[k - 1].end < tokens[k].start)
    && (match open
        case None => n > 0 ==> !IsWordChar(u, text[n - 1])
        case Some(start) =>
          && start < n && (forall i :: start <= i < n ==> IsWordChar(u, text[i]))
          && (start == 0 || !IsWordChar(u, text[start - 1]))
          && (tokens != [] ==> tokens[|tokens| - 1].end < start))
    && Covers(u, text, tokens, if open.Some? then open.value else n)
  }

  method Tokenize(u: Letters, text: string) returns (tokens: seq<Token>)
    ensures IsTokenized(u, text, tokens)
  {
    hide Lower, IsWordChar, TokenizedTo, IsTokenized;
    tokens := [];
    var open: Option<nat> := None;
    var i := 0;
    NothingYet(u, text);
    while i < |text|
      invariant 0 <= i <= |text|
      invariant TokenizedTo(u, text, tokens, open, i)
      invariant open.Some? ==> open.value < i
    {
      if IsWordChar(u, text[i]) {
        OpenOrExtend(u, text, tokens, open, i);
        if open.None? {
          open := Some(i);
        }
      } else if open.Some? {
        var t := Token(Lower(text[open.value..i]), open.value, i);
        CloseToken(u, text, tokens, open.value, i, t);
        tokens, open := tokens + [t], None;
      } else {
        StayClosed(u, text, tokens, i);
      }
      i := i + 1;
    }
    if open.Some? {
      var t := Token(Lower(text[open.value..]), open.value, |text|);
      CloseLast(u, text, tokens, open.value, t);
      tokens := tokens + [t];
    } else {
      EndClosed(u, text, tokens);
    }
  }

  lemma NothingYet(u: Letters, text: string)
    ensures TokenizedTo(u, text, [], None, 0)
  {
  }

  lemma OpenOrExtend(u: Letters, text: string, tokens: seq<Token>, open: Option<nat>, n: nat)
    requires TokenizedTo(u, text, tokens, open, n) && n < |text| && IsWordChar(u, text[n])
    ensures TokenizedTo(u, text, tokens, if open.None? then Some(n) else open, n + 1)
  {
    hide Lower, IsWordChar, Covers, IsToken;
  }

  lemma StayClosed(u: Letters, text: string, tokens: seq<Token>, n: nat)
    requires TokenizedTo(u, text, tokens, None, n) && n < |text| && !IsWordChar(u, text[n])
    ensures TokenizedTo(u, text, tokens, None, n + 1)
  {
    hide Lower, IsWordChar, Covers, IsToken;
    SkipOther(u, text, tokens, n);
  }

  lemma EndClosed(u: Letters, text: string, tokens: seq<Token>)
    requires TokenizedTo(u, text, tokens, None, |text|)
    ensures IsTokenized(u, text, tokens)
  {
    hide Lower, IsWordChar, Covers, IsToken;
  }

  lemma SkipOther(u: Letters, text: string, tokens: seq<Token>, n: nat)
    requires n < |text| && !IsWordChar(u, text[n]) && Covers(u, text, tokens, n)
    ensures Covers(u, text, tokens, n + 1)
  {
    hide IsWordChar;
  }

  lemma CoverMore(u: Letters, text: string, tokens: seq<Token>, t: Token)
    requires t.start <= t.end <= |text| && Covers(u, text, tokens, t.start)
    ensures Covers(u, text, tokens + [t], t.end)
  {
    hide IsWordChar;
    var all := tokens + [t];
    assert all[|tokens|] == t;
    forall i | 0 <= i < t.end && IsWordChar(u, text[i])
      ensures exists k :: 0 <= k < |all| && all[k].start <= i < all[k].end
    {
      if i < t.start {
        var k :| 0 <= k < |tokens| && tokens[k].start <= i < tokens[k].end;
        assert all[k] == tokens[k];
      }
    }
  }

  lemma CloseToken(u: Letters, text: string, tokens: seq<Token>, start: nat, n: nat, t: Token)
    requires TokenizedTo(u, text, tokens, Some(start), n) && n < |text| && !IsWordChar(u, text[n])
    requires t == Token(Lower(text[start..n]), start, n)
    ensures TokenizedTo(u, text, tokens + [t], None, n + 1)
  {
    hide Lower, IsWordChar, Covers;
    CoverMore(u, text, tokens, t);
    SkipOther(u, text, tokens + [t], n);
    assert IsToken(u, text, t);
  }

  lemma CloseLast(u: Letters, text: string, tokens: seq<Token>, start: nat, t: Token)
    requires TokenizedTo(u, text, tokens, Some(start), |text|)
    requires t == Token(Lower(text[start..]), start, |text|)
    ensures IsTokenized(u, text, tokens + [t])
  {
    hide Lower, IsWordChar, Covers;
    assert text[start..] == text[start..|text|];
    CoverMore(u, text, tokens, t);
  }

  /** There is only one way to cut a text into tokens. */
  lemma {:induction false} TokensAreUnique(u: Letters, text: string, a: seq<Token>, b: seq<Token>, k: nat)
    requires IsTokenized(u, text, a) && IsTokenized(u, text, b) && k <= |a|
    ensures k <= |b| && a[..k] == b[..k]
  {
    hide IsTokenized;
    if k > 0 {
      TokensAreUnique(u, text, a, b, k - 1);
      var j := FoundAtOrAfter(u, text, a, b, k - 1);
      var i := FoundAtOrAfter(u, text, b, a, k - 1);
      InOrder(u, text, a, k - 1, i);
      InOrder(u, text, b, k - 1, j);
      assert a[..k] == a[..k - 1] + [a[k - 1]] && b[..k] == b[..k - 1] + [b[k - 1]];
    }
  }

  /** Where the first token not yet matched appears in the other cut. */
  lemma FoundAtOrAfter(u: Letters, text: string, a: seq<Token>, b: seq<Token>, k: nat) returns (j: nat)
    requires IsTokenized(u, text, a) && IsTokenized(u, text, b)
    requires k < |a| && k <= |b| && a[..k] == b[..k]
    ensures k <= j < |b| && b[j] == a[k]
  {
    hide Lower, IsWordChar;
    var t := a[k];
    assert IsToken(u, text, t) && IsWordChar(u, text[t.start]);
    j :| 0 <= j < |b| && b[j].start <= t.start < b[j].end;
    SameToken(u, text, t, b[j]);
    if j < k {
      assert a[j] == a[..k][j] == b[j];
      Ordered(u, text, a, k);
    }
  }

  lemma InOrder(u: Letters, text: string, tokens: seq<Token>, k: nat, j: nat)
    requires IsTokenized(u, text, tokens) && k <= j < |tokens|
    ensures tokens[k].start <= tokens[j].start
    ensures k < j ==> tokens[k].start < tokens[j].start
  {
    hide Lower, IsWordChar, Covers;
    assert IsToken(u, text, tokens[k]);
    Ordered(u, text, tokens, j);
  }

  lemma {:induction false} Ordered(u: Letters, text: string, tokens: seq<Token>, k: nat)
    requires IsTokenized(u, text, tokens) && k < |tokens|
    ensures forall j :: 0 <= j < k ==> tokens[j].end < tokens[k].start
  {
    hide Lower, IsWordChar;
    if k > 0 {
      Ordered(u, text, tokens, k - 1);
      assert IsToken(u, text, tokens[k - 1]);
    }
  }

  lemma SameToken(u: Letters, text: string, s: Token, t: Token)
    requires IsToken(u, text, s) && IsToken(u, text, t) && t.start <= s.start < t.end
    ensures s == t
  {
    hide Lower, IsWordChar;
    assert s.start == t.start;
    assert s.end == t.end;
  }

  // ---- candidates

  predicate WordsAt(tokens: seq<Token>, start: nat, words: seq<string>) {
    start + |words| <= |tokens| && forall i :: 0 <= i < |words| ==> tokens[start + i].word == words[i]
  }

  /** The phrases of the table that start at a token, in table order. */
  function PatternMatches(tokens: seq<Token>, start: nat, patterns: seq<Pattern>): (r: seq<PhraseMatch>)
    ensures forall m :: m in r ==> m.start == start && start < m.end <= |tokens|
  {
    if patterns == [] then []
    else
      var p := patterns[|patterns| - 1];
      PatternMatches(tokens, start, patterns[..|patterns| - 1])
      + if WordsAt(tokens, start, WordsOf(p)) then [PhraseMatch(start, start + |WordsOf(p)|, p.value)] else []
  }

  predicate IsMatchOf(tokens: seq<Token>, start: nat, p: Pattern, m: PhraseMatch) {
    WordsAt(tokens, start, WordsOf(p)) && m == PhraseMatch(start, start + |WordsOf(p)|, p.value)
  }

  lemma OneMorePattern(tokens: seq<Token>, start: nat, patterns: seq<Pattern>, m: PhraseMatch)
    requires patterns != []
    ensures var n := |patterns| - 1;
            m in PatternMatches(tokens, start, patterns) <==>
              m in PatternMatches(tokens, start, patterns[..n]) || IsMatchOf(tokens, start, patterns[n], m)
  {
    hide WordsAt, WordsOf;
  }

  lemma {:induction false} PatternMatchesIff(tokens: seq<Token>, start: nat, patterns: seq<Pattern>, m: PhraseMatch)
    ensures m in PatternMatches(tokens, start, patterns) <==>
              exists i :: 0 <= i < |patterns| && IsMatchOf(tokens, start, patterns[i], m)
  {
    hide IsMatchOf;
    if patterns != [] {
      var n := |patterns| - 1;
      PatternMatchesIff(tokens, start, patterns[..n], m);
      OneMorePattern(tokens, start, patterns, m);
      forall i | 0 <= i < n ensures patterns[..n][i] == patterns[i] {
      }
    }
  }

  const NUMBER_WORDS := [
    "one", "two", "three", "four", "five", "six", "seven",
    "eight", "nine", "ten", "eleven", "twelve", "thirteen", "fourteen"]

  function NumberWord(word: string, i: nat): Option<nat>
    requires i <= |NUMBER_WORDS|
    decreases |NUMBER_WORDS| - i
  {
    if i == |NUMBER_WORDS| then None
    else if NUMBER_WORDS[i] == word then Some(i + 1)
    else NumberWord(word, i + 1)
  }

  predicate AllDigits(word: string) { forall i :: 0 <= i < |word| ==> IsAsciiDigit(word[i]) }

  function DigitsValue(word: string): nat
    requires AllDigits(word)
  {
    if word == [] then 0
    else 10 * DigitsValue(word[..|word| - 1]) + (word[|word| - 1] as int - '0' as int)
  }

  /** A number word up to fourteen, or digits up to 3650. */
  function NumberValue(word: string): Option<nat> {
    var named := NumberWord(word, 0);
    if named.Some? then named
    else if word != [] && AllDigits(word) && DigitsValue(word) <= 3650 then Some(DigitsValue(word))
    else None
  }

  predicate HasWord(tokens: seq<Token>, i: nat, word: string) {
    i < |tokens| && tokens[i].word == word
  }

  /** "in 3 days", "within four business days". */
  function NumberMatches(tokens: seq<Token>, start: nat): (r: seq<PhraseMatch>)
    ensures forall m :: m in r ==> m.start == start && start < m.end <= |tokens|
  {
    if start + 2 >= |tokens| || NumberValue(tokens[start + 1].word).None? then []
    else
      var count := Decimal(NumberValue(tokens[start + 1].word).value);
      var inOrWithin := HasWord(tokens, start, "in") || HasWord(tokens, start, "within");
      if (HasWord(tokens, start + 2, "business") || HasWord(tokens, start + 2, "working"))
        && HasWord(tokens, start + 3, "days")
      then if inOrWithin then [PhraseMatch(start, start + 4, "in " + count + " business days")] else []
      else if HasWord(tokens, start + 2, "days")
      then if inOrWithin then [PhraseMatch(start, start + 3, "in " + count + " days")] else []
      else []
  }

  function MatchesAt(tokens: seq<Token>, patterns: seq<Pattern>, start: nat): (r: seq<PhraseMatch>)
    ensures forall m :: m in r ==> m.start == start && start < m.end <= |tokens|
  {
    PatternMatches(tokens, start, patterns) + NumberMatches(tokens, start)
  }

  function AllMatches(tokens: seq<Token>, patterns: seq<Pattern>, n: nat): seq<PhraseMatch> {
    if n == 0 then [] else AllMatches(tokens, patterns, n - 1) + MatchesAt(tokens, patterns, n - 1)
  }

  lemma {:induction false} AllMatchesFit(tokens: seq<Token>, patterns: seq<Pattern>, n: nat)
    ensures forall m :: m in AllMatches(tokens, patterns, n) ==> m.start < m.end <= |tokens|
  {
    hide MatchesAt;
    if n > 0 {
      AllMatchesFit(tokens, patterns, n - 1);
    }
  }

  // ---- the reference: a leftmost-longest scan

  /** The longest of the matches starting at s, the earliest of equals. */
  function BestIn(matches: seq<PhraseMatch>, s: nat): (r: Option<PhraseMatch>)
    ensures r.Some? ==> r.value in matches && r.value.start == s
    ensures r.None? ==> forall m :: m in matches ==> m.start != s
    ensures r.Some? ==> forall m :: m in matches && m.start == s ==> m.end <= r.value.end
  {
    if matches == [] then None
    else
      var before, m := BestIn(matches[..|matches| - 1], s), matches[|matches| - 1];
      assert matches == matches[..|matches| - 1] + [m];
      if m.start == s && (before.None? || m.end > before.value.end) then Some(m) else before
  }

  function BestAt(tokens: seq<Token>, patterns: seq<Pattern>, s: nat): Option<PhraseMatch> {
    BestIn(MatchesAt(tokens, patterns, s), s)
  }

  /** Take the longest phrase where there is one and go on after it; otherwise go on to the next word. */
  function Scan(tokens: seq<Token>, patterns: seq<Pattern>, from: nat): seq<PhraseMatch>
    decreases |tokens| - from
  {
    if from >= |tokens| then []
    else
      var best := BestAt(tokens, patterns, from);
      if best.Some? then [best.value] + Scan(tokens, patterns, best.value.end)
      else Scan(tokens, patterns, from + 1)
  }

  // ---- sorting and marking

  /** Earlier starts first, then longer phrases. */
  predicate Precedes(a: PhraseMatch, b: PhraseMatch) {
    a.start < b.start || (a.start == b.start && a.end > b.end)
  }

  /** Puts m before the first match it precedes, so after its equals. */
  function Insert(sorted: seq<PhraseMatch>, m: PhraseMatch): seq<PhraseMatch> {
    if sorted == [] then [m]
    else if Precedes(m, sorted[0]) then [m] + sorted
    else [sorted[0]] + Insert(sorted[1..], m)
  }

  function Sorted(matches: seq<PhraseMatch>): seq<PhraseMatch> {
    if matches == [] then [] else Insert(Sorted(matches[..|matches| - 1]), matches[|matches| - 1])
  }

  predicate IsSorted(matches: seq<PhraseMatch>) {
    forall i, j :: 0 <= i < j < |matches| ==> !Precedes(matches[j], matches[i])
  }

  /** The first of the matches starting at s. */
  function FirstAt(matches: seq<PhraseMatch>, s: nat): Option<PhraseMatch> {
    if matches == [] then None
    else if matches[0].start == s then Some(matches[0])
    else FirstAt(matches[1..], s)
  }

  lemma {:induction false} InsertKeepsSorted(sorted: seq<PhraseMatch>, m: PhraseMatch)
    requires IsSorted(sorted)
    ensures IsSorted(Insert(sorted, m))
    ensures forall x :: x in Insert(sorted, m) <==> x == m || x in sorted
  {
    if sorted != [] {
      var rest := Insert(sorted[1..], m);
      InsertKeepsSorted(sorted[1..], m);
      assert forall x :: x in sorted <==> x == sorted[0] || x in sorted[1..];
      assert forall j :: 0 <= j < |rest| ==> rest[j] in rest;
    }
  }

  lemma {:induction false} InsertFirstAt(sorted: seq<PhraseMatch>, m: PhraseMatch, s: nat)
    requires IsSorted(sorted)
    ensures FirstAt(Insert(sorted, m), s) ==
              if m.start == s && (FirstAt(sorted, s).None? || m.end > FirstAt(sorted, s).value.end) then Some(m)
              else FirstAt(sorted, s)
  {
    if sorted != [] {
      FirstIn(sorted, s);
      if Precedes(m, sorted[0]) {
        assert ([m] + sorted)[1..] == sorted;
      } else {
        InsertFirstAt(sorted[1..], m, s);
        assert Insert(sorted, m)[1..] == Insert(sorted[1..], m);
      }
    }
  }

  lemma {:induction false} FirstIn(matches: seq<PhraseMatch>, s: nat)
    ensures FirstAt(matches, s).Some? ==> exists i :: 0 <= i < |matches| && matches[i] == FirstAt(matches, s).value
                                                       && matches[i].start == s
  {
    if matches != [] && matches[0].start != s {
      FirstIn(matches[1..], s);
      if FirstAt(matches, s).Some? {
        var i :| 0 <= i < |matches[1..]| && matches[1..][i] == FirstAt(matches, s).value && matches[1..][i].start == s;
        assert matches[i + 1] == FirstAt(matches, s).value;
      }
    }
  }

  /** After a stable sort the first match at each start is the longest, and the earliest of equals. */
  lemma {:induction false} SortedFirstIsBest(matches: seq<PhraseMatch>, s: nat)
    ensures IsSorted(Sorted(matches))
    ensures forall x :: x in Sorted(matches) <==> x in matches
    ensures FirstAt(Sorted(matches), s) == BestIn(matches, s)
  {
    if matches != [] {
      var before, m := matches[..|matches| - 1], matches[|matches| - 1];
      SortedFirstIsBest(before, s);
      InsertKeepsSorted(Sorted(before), m);
      InsertFirstAt(Sorted(before), m, s);
      assert matches == before + [m];
    }
  }

  /** Take every match that starts at or after the end of the last one taken. */
  function Pick(sorted: seq<PhraseMatch>, limit: nat): seq<PhraseMatch> {
    if sorted == [] then []
    else if sorted[0].start < limit then Pick(sorted[1..], limit)
    else [sorted[0]] + Pick(sorted[1..], sorted[0].end)
  }

  lemma {:induction false} NothingToScan(tokens: seq<Token>, patterns: seq<Pattern>, from: nat, to: nat)
    requires from <= to
    requires forall s :: from <= s < to ==> BestAt(tokens, patterns, s).None?
    ensures Scan(tokens, patterns, from) == Scan(tokens, patterns, to)
    decreases (to - from) as int
  {
    hide BestAt;
    if from < to {
      NothingToScan(tokens, patterns, from + 1, to);
    }
  }

  lemma {:induction false} PickIsScan(tokens: seq<Token>, patterns: seq<Pattern>, sorted: seq<PhraseMatch>, limit: nat)
    requires IsSorted(sorted)
    requires forall m :: m in sorted ==> m.start < m.end <= |tokens|
    requires forall s :: limit <= s < |tokens| ==> FirstAt(sorted, s) == BestAt(tokens, patterns, s)
    ensures Pick(sorted, limit) == Scan(tokens, patterns, limit)
    decreases |sorted|
  {
    hide BestAt;
    if sorted == [] {
      if limit < |tokens| {
        NothingToScan(tokens, patterns, limit, |tokens|);
      }
    } else {
      var m, rest := sorted[0], sorted[1..];
      assert m in sorted;
      assert forall x :: x in rest ==> x in sorted;
      if m.start < limit {
        PickIsScan(tokens, patterns, rest, limit);
      } else {
        forall s | limit <= s < m.start ensures BestAt(tokens, patterns, s).None? {
          NothingBefore(sorted, s);
        }
        NothingToScan(tokens, patterns, limit, m.start);
        PickIsScan(tokens, patterns, rest, m.end);
      }
    }
  }

  lemma NothingBefore(sorted: seq<PhraseMatch>, s: nat)
    requires IsSorted(sorted) && sorted != [] && s < sorted[0].start
    ensures FirstAt(sorted, s).None?
  {
    FirstIn(sorted, s);
  }

  lemma {:induction false} BestOfAll(tokens: seq<Token>, patterns: seq<Pattern>, n: nat, s: nat)
    ensures BestIn(AllMatches(tokens, patterns, n), s) == if s < n then BestAt(tokens, patterns, s) else None
  {
    hide MatchesAt, BestIn;
    if n == 0 {
      NoBest(s);
    } else {
      BestOfAll(tokens, patterns, n - 1, s);
      BestOfConcat(AllMatches(tokens, patterns, n - 1), MatchesAt(tokens, patterns, n - 1), s);
    }
  }

  lemma NoBest(s: nat)
    ensures BestIn([], s) == None
  {
  }

  lemma BestOfAppend(a: seq<PhraseMatch>, m: PhraseMatch, s: nat)
    ensures BestIn(a + [m], s) ==
              if m.start == s && (BestIn(a, s).None? || m.end > BestIn(a, s).value.end) then Some(m) else BestIn(a, s)
  {
    assert (a + [m])[..|a|] == a;
  }

  lemma {:induction false} BestOfConcat(a: seq<PhraseMatch>, b: seq<PhraseMatch>, s: nat)
    ensures BestIn(b, s).None? ==> BestIn(a + b, s) == BestIn(a, s)
    ensures BestIn(a, s).None? ==> BestIn(a + b, s) == BestIn(b, s)
  {
    hide BestIn;
    if b == [] {
      NoBest(s);
      assert a + b == a;
    } else {
      var before, m := b[..|b| - 1], b[|b| - 1];
      BestOfConcat(a, before, s);
      BestOfAppend(a + before, m, s);
      BestOfAppend(before, m, s);
      assert a + before + [m] == a + b && before + [m] == b;
    }
  }

  /** Sorting every candidate and keeping those that overlap nothing kept so far is the leftmost-longest scan. */
  lemma SortAndPickIsScan(tokens: seq<Token>, patterns: seq<Pattern>)
    ensures Pick(Sorted(AllMatches(tokens, patterns, |tokens|)), 0) == Scan(tokens, patterns, 0)
  {
    hide MatchesAt, BestAt, AllMatches, Pick, Scan;
    var all := AllMatches(tokens, patterns, |tokens|);
    forall s: nat ensures FirstAt(Sorted(all), s) == if s < |tokens| then BestAt(tokens, patterns, s) else None {
      SortedFirstIsBest(all, s);
      BestOfAll(tokens, patterns, |tokens|, s);
    }
    SortedFirstIsBest(all, 0);
    AllMatchesFit(tokens, patterns, |tokens|);
    PickIsScan(tokens, patterns, Sorted(all), 0);
  }

  // ---- what the scan returns

  lemma BestAtIsLongest(tokens: seq<Token>, patterns: seq<Pattern>, s: nat)
    ensures var best := BestAt(tokens, patterns, s);
            best.Some? ==> IsChoice(tokens, patterns, s, best.value) && best.value.start == s
  {
  }

  /** A candidate no other at its start is longer than. */
  predicate IsChoice(tokens: seq<Token>, patterns: seq<Pattern>, from: nat, c: PhraseMatch) {
    && from <= c.start < c.end <= |tokens|
    && c in MatchesAt(tokens, patterns, c.start)
    && forall m :: m in MatchesAt(tokens, patterns, c.start) ==> m.end <= c.end
  }

  /** Candidates, none of which could be longer, in text order and without overlap. */
  predicate AreChoices(tokens: seq<Token>, patterns: seq<Pattern>, from: nat, r: seq<PhraseMatch>) {
    && (forall i :: 0 <= i < |r| ==> IsChoice(tokens, patterns, from, r[i]))
    && (forall i, j :: 0 <= i < j < |r| ==> r[i].end <= r[j].start)
  }

  lemma ChooseFirst(tokens: seq<Token>, patterns: seq<Pattern>, from: nat, c: PhraseMatch, rest: seq<PhraseMatch>)
    requires IsChoice(tokens, patterns, from, c) && AreChoices(tokens, patterns, c.end, rest)
    ensures AreChoices(tokens, patterns, from, [c] + rest)
  {
    hide MatchesAt;
    forall i | 0 <= i < |rest| ensures IsChoice(tokens, patterns, from, rest[i]) && c.end <= rest[i].start {
      assert IsChoice(tokens, patterns, c.end, rest[i]);
    }
  }

  lemma ChooseLater(tokens: seq<Token>, patterns: seq<Pattern>, from: nat, rest: seq<PhraseMatch>)
    requires AreChoices(tokens, patterns, from + 1, rest)
    ensures AreChoices(tokens, patterns, from, rest)
  {
    hide MatchesAt;
    forall i | 0 <= i < |rest| ensures IsChoice(tokens, patterns, from, rest[i]) {
      assert IsChoice(tokens, patterns, from + 1, rest[i]);
    }
  }

  /** Chosen phrases are candidates, none overlaps another, they are in text order, and none could be longer. */
  lemma {:induction false} ScanIsOrdered(tokens: seq<Token>, patterns: seq<Pattern>, from: nat)
    ensures AreChoices(tokens, patterns, from, Scan(tokens, patterns, from))
    decreases |tokens| - from
  {
    hide BestAt, IsChoice;
    if from < |tokens| {
      var best := BestAt(tokens, patterns, from);
      BestAtIsLongest(tokens, patterns, from);
      if best.Some? {
        ChoiceEnds(tokens, patterns, from, best.value);
        ScanIsOrdered(tokens, patterns, best.value.end);
        ChooseFirst(tokens, patterns, from, best.value, Scan(tokens, patterns, best.value.end));
      } else {
        ScanIsOrdered(tokens, patterns, from + 1);
        ChooseLater(tokens, patterns, from, Scan(tokens, patterns, from + 1));
      }
    }
  }

  lemma ChoiceEnds(tokens: seq<Token>, patterns: seq<Pattern>, from: nat, c: PhraseMatch)
    requires IsChoice(tokens, patterns, from, c)
    ensures from <= c.start < c.end <= |tokens|
  {
  }

  /** Every candidate is chosen or overlaps a chosen phrase that starts no later. */
  lemma {:induction false} ScanMissesNothing(tokens: seq<Token>, patterns: seq<Pattern>, from: nat, m: PhraseMatch)
    requires from <= m.start < |tokens| && m in MatchesAt(tokens, patterns, m.start)
    ensures exists c :: c in Scan(tokens, patterns, from) && c.start <= m.start < c.end
    decreases |tokens| - from
  {
    hide MatchesAt;
    var best := BestAt(tokens, patterns, from);
    if best.Some? && m.start < best.value.end {
      assert best.value in Scan(tokens, patterns, from);
    } else {
      var next := if best.Some? then best.value.end else from + 1;
      ScanMissesNothing(tokens, patterns, next, m);
      var c :| c in Scan(tokens, patterns, next) && c.start <= m.start < c.end;
      assert c in Scan(tokens, patterns, from);
    }
  }
}
