/** Counted phrases such as "in 3 days", and the text a found phrase is shown with. */
module DatePhrases {
  import opened Wrappers
  import opened Chars
  import opened RelativeDates
  import opened DateFinder

  // ---- numbers

  /** Tells the number words apart by their length and first letters. */
  function Ordinal(word: string): int {
    if |word| < 3 then -1
    else match |word|
      case 3 => if word[0] == 'o' then 0 else if word[0] == 's' then 5 else if word[1] == 'w' then 1 else 9
      case 4 => if word[0] == 'n' then 8 else if word[1] == 'o' then 3 else 4
      case 5 => if word[0] == 't' then 2 else if word[0] == 's' then 6 else 7
      case 6 => if word[0] == 'e' then 10 else 11
      case 8 => if word[0] == 't' then 12 else 13
      case _ => -1
  }

  lemma OrdinalOf(i: nat)
    requires i < 14
    ensures |NUMBER_WORDS| == 14 && Ordinal(NUMBER_WORDS[i]) == i
  {
  }

  /** One to fourteen may be spelled out. */
  lemma NumberWordsCount(i: nat)
    requires i < 14
    ensures |NUMBER_WORDS| == 14 && NumberValue(NUMBER_WORDS[i]) == Some(i + 1)
    ensures NUMBER_WORDS == ["one", "two", "three", "four", "five", "six", "seven", "eight", "nine", "ten", "eleven",
                             "twelve", "thirteen", "fourteen"]
  {
    hide Ordinal, NumberWord;
    OrdinalOf(i);
    forall j | 0 <= j < i ensures NUMBER_WORDS[j] != NUMBER_WORDS[i] {
      OrdinalOf(j);
    }
    NumberWordFrom(NUMBER_WORDS[i], 0, i + 1);
  }

  lemma {:induction false} NumberWordFrom(word: string, i: nat, n: nat)
    requires i < n <= |NUMBER_WORDS| && NUMBER_WORDS[n - 1] == word
    requires forall j :: i <= j < n - 1 ==> NUMBER_WORDS[j] != word
    ensures NumberWord(word, i) == Some(n)
    decreases n - i
  {
    if i < n - 1 {
      NumberWordFrom(word, i + 1, n);
    }
  }

  lemma {:induction false} NumberWordIsListed(word: string, i: nat)
    requires i <= |NUMBER_WORDS|
    ensures NumberWord(word, i).Some? <==> exists j :: i <= j < |NUMBER_WORDS| && NUMBER_WORDS[j] == word
    decreases |NUMBER_WORDS| - i
  {
    if i < |NUMBER_WORDS| {
      NumberWordIsListed(word, i + 1);
    }
  }

  lemma DigitsAreNoWord(word: string)
    requires word != "" && AllDigits(word)
    ensures NumberWord(word, 0).None?
  {
    NumberWordIsListed(word, 0);
    WordsHaveLetters();
    assert IsAsciiDigit(word[0]);
  }

  lemma WordsHaveLetters()
    ensures |NUMBER_WORDS| == 14
    ensures forall j :: 0 <= j < |NUMBER_WORDS| ==> NUMBER_WORDS[j] != "" && !IsAsciiDigit(NUMBER_WORDS[j][0])
  {
  }

  lemma {:induction false} PlainDecimal(n: nat)
    ensures Decimal(n) != "" && AllDigits(Decimal(n)) && DigitsValue(Decimal(n)) == n
  {
    if n >= 10 {
      PlainDecimal(n / 10);
      assert Decimal(n)[..|Decimal(n)| - 1] == Decimal(n / 10);
    } else {
      assert Decimal(n)[..0] == "";
    }
  }

  /** Any other count is a plain number of days, ten years at most. */
  lemma PlainNumbersCount(n: nat)
    ensures NumberValue(Decimal(n)) == if n <= 3650 then Some(n) else None
  {
    PlainDecimal(n);
    DigitsAreNoWord(Decimal(n));
  }

  /** And nothing but a listed word or a run of digits is a count. */
  lemma NothingElseCounts(word: string)
    ensures NumberValue(word).Some? ==> word in NUMBER_WORDS || (word != "" && AllDigits(word))
    ensures word != "" && AllDigits(word) ==>
              NumberValue(word) == if DigitsValue(word) <= 3650 then Some(DigitsValue(word)) else None
  {
    NumberWordIsListed(word, 0);
    if word != "" && AllDigits(word) {
      DigitsAreNoWord(word);
    }
  }

  predicate WordIs(tokens: seq<Token>, i: nat, word: string) { i < |tokens| && tokens[i].word == word }

  /** In or within a number of days, or of business or working days. */
  predicate CountsDays(tokens: seq<Token>, start: nat, m: PhraseMatch) {
    && (WordIs(tokens, start, "in") || WordIs(tokens, start, "within"))
    && start + 2 < |tokens| && NumberValue(tokens[start + 1].word).Some?
    && var n := Decimal(NumberValue(tokens[start + 1].word).value);
       if (WordIs(tokens, start + 2, "business") || WordIs(tokens, start + 2, "working"))
         && WordIs(tokens, start + 3, "days")
       then m == PhraseMatch(start, start + 4, "in " + n + " business days")
       else WordIs(tokens, start + 2, "days") && m == PhraseMatch(start, start + 3, "in " + n + " days")
  }

  lemma CountedPhraseIff(tokens: seq<Token>, start: nat, m: PhraseMatch)
    ensures |NumberMatches(tokens, start)| <= 1
    ensures m in NumberMatches(tokens, start) <==> CountsDays(tokens, start, m)
  {
    hide NumberValue, Decimal;
  }

  /** The words of the pattern stand there one after the other, and m is where, with what they mean. */
  predicate PatternStands(tokens: seq<Token>, start: nat, p: Pattern, m: PhraseMatch) {
    && m == PhraseMatch(start, start + 1 + |p.others|, p.value)
    && m.end <= |tokens| && tokens[start].word == p.first
    && forall k :: 0 <= k < |p.others| ==> tokens[start + 1 + k].word == p.others[k]
  }

  lemma PatternStandsIff(tokens: seq<Token>, start: nat, p: Pattern, m: PhraseMatch)
    ensures PatternStands(tokens, start, p, m) <==> IsMatchOf(tokens, start, p, m)
  {
    var words := WordsOf(p);
    assert words[0] == p.first && forall k :: 0 <= k < |p.others| ==> words[k + 1] == p.others[k];
    if WordsAt(tokens, start, words) {
      assert tokens[start + 0].word == words[0];
      forall k | 0 <= k < |p.others| ensures tokens[start + 1 + k].word == p.others[k] {
        assert tokens[start + (k + 1)].word == words[k + 1];
      }
    }
    if PatternStands(tokens, start, p, m) {
      forall i | 0 <= i < |words| ensures tokens[start + i].word == words[i] {
        assert i > 0 ==> tokens[start + 1 + (i - 1)].word == p.others[i - 1];
      }
    }
  }

  /** What can be found at a word: a pattern whose words stand there, or a counted phrase, and nothing else. */
  lemma CandidateIff(tokens: seq<Token>, patterns: seq<Pattern>, start: nat, m: PhraseMatch)
    ensures m in MatchesAt(tokens, patterns, start) <==>
              || (exists i :: 0 <= i < |patterns| && PatternStands(tokens, start, patterns[i], m))
              || CountsDays(tokens, start, m)
  {
    hide IsMatchOf, PatternStands, CountsDays, NumberMatches, PatternMatches;
    PatternMatchesIff(tokens, start, patterns, m);
    CountedPhraseIff(tokens, start, m);
    forall i | 0 <= i < |patterns|
      ensures PatternStands(tokens, start, patterns[i], m) <==> IsMatchOf(tokens, start, patterns[i], m)
    {
      PatternStandsIff(tokens, start, patterns[i], m);
    }
  }

  // ---- the text of a phrase

  predicate NoSpaces(s: string) { forall i :: 0 <= i < |s| ==> !IsSpace(s[i]) }

  /** Spaces stand singly, as blanks, and only inside. */
  predicate SingleSpaced(s: string) {
    forall i :: 0 <= i < |s| && IsSpace(s[i]) ==> s[i] == ' ' && 0 < i < |s| - 1 && !IsSpace(s[i + 1])
  }

  predicate AreWords(words: seq<string>) {
    forall i :: 0 <= i < |words| ==> words[i] != "" && NoSpaces(words[i])
  }

  function WordsIn(s: string): seq<string> { SplitSpaces(s, "") }

  lemma {:induction false} SplitBeforeSpace(a: string, b: string, word: string)
    requires b != "" && IsSpace(b[0])
    ensures SplitSpaces(a + b, word) == SplitSpaces(a, word) + SplitSpaces(b[1..], "")
    decreases |a|
  {
    hide IsSpace;
    if a == "" {
      assert a + b == b;
    } else {
      assert (a + b)[1..] == a[1..] + b;
      if IsSpace(a[0]) {
        SplitBeforeSpace(a[1..], b, "");
      } else {
        SplitBeforeSpace(a[1..], b, word + [a[0]]);
      }
    }
  }

  lemma {:induction false} OneWord(s: string, word: string)
    requires NoSpaces(s)
    ensures SplitSpaces(s, word) == if word + s == "" then [] else [word + s]
    decreases |s|
  {
    hide IsSpace;
    if s == "" {
      assert word + s == word;
    } else {
      OneWord(s[1..], word + [s[0]]);
      assert word + [s[0]] + s[1..] == word + s;
    }
  }

  /** A text is cut at every space, and nowhere else. */
  lemma WordsAreCutAtSpaces(a: string, space: char, b: string)
    requires IsSpace(space)
    ensures WordsIn(a + [space] + b) == WordsIn(a) + WordsIn(b)
    ensures NoSpaces(a) ==> WordsIn(a) == if a == "" then [] else [a]
  {
    hide IsSpace;
    SplitBeforeSpace(a, [space] + b, "");
    assert a + [space] + b == a + ([space] + b) && ([space] + b)[1..] == b;
    if NoSpaces(a) {
      OneWord(a, "");
      assert "" + a == a;
    }
  }

  lemma {:induction false} SplitAreWords(s: string, word: string)
    requires NoSpaces(word)
    ensures AreWords(SplitSpaces(s, word))
    decreases |s|
  {
    hide IsSpace;
    if s != "" {
      if IsSpace(s[0]) {
        SplitAreWords(s[1..], "");
      } else {
        SplitAreWords(s[1..], word + [s[0]]);
      }
    }
  }

  lemma BlankIsSpace()
    ensures IsSpace(' ')
  {
  }

  /** Joined words are single-spaced and cut into the same words again. */
  lemma {:induction false} JoinedWords(words: seq<string>)
    requires AreWords(words)
    ensures SingleSpaced(JoinWords(words)) && WordsIn(JoinWords(words)) == words
    ensures words != [] ==> JoinWords(words) != "" && !IsSpace(JoinWords(words)[0])
  {
    hide IsSpace;
    BlankIsSpace();
    if |words| == 1 {
      OneWord(words[0], "");
      assert "" + words[0] == words[0];
    } else if words != [] {
      var rest := JoinWords(words[1..]);
      JoinedWords(words[1..]);
      WordsAreCutAtSpaces(words[0], ' ', rest);
      assert [words[0]] + words[1..] == words;
      JoinedSpaces(words[0], rest);
      assert JoinWords(words) == words[0] + " " + rest;
    } else {
      OneWord("", "");
    }
  }

  lemma JoinedSpaces(word: string, rest: string)
    requires word != "" && NoSpaces(word) && rest != "" && !IsSpace(rest[0]) && SingleSpaced(rest)
    ensures SingleSpaced(word + " " + rest)
  {
    hide IsSpace;
    var s := word + " " + rest;
    assert s[|word| + 1] == rest[0];
    assert forall i :: 0 <= i < |word| ==> s[i] == word[i];
    forall i | 0 <= i < |s| && IsSpace(s[i]) ensures s[i] == ' ' && 0 < i < |s| - 1 && !IsSpace(s[i + 1]) {
      if i > |word| {
        assert s[i] == rest[i - |word| - 1];
        assert i + 1 < |s| ==> s[i + 1] == rest[i - |word|];
      }
    }
  }

  /**
   A phrase is shown under its canonical value with the words it has in the text, as written, from
   the start of its first to the end of its last, whatever space stood between them.
   */
  lemma PhraseIsShownAsWritten(text: string, tokens: seq<Token>, m: PhraseMatch)
    requires InRange(tokens, m) && SpansFit(text, tokens)
    ensures tokens[m.start].start <= tokens[m.end - 1].end <= |text|
    ensures var (value, shown) := Rendered(text, tokens, m);
            && value == m.value
            && WordsIn(shown) == WordsIn(text[tokens[m.start].start..tokens[m.end - 1].end])
            && SingleSpaced(shown)
  {
    hide SplitSpaces, JoinWords, SingleSpaced;
    var span := text[tokens[m.start].start..tokens[m.end - 1].end];
    SplitAreWords(span, "");
    JoinedWords(WordsIn(span));
  }
}
