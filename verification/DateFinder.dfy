/** The date finder as the program runs it: tokens, collected candidates, a stable sort and an array of used words. */
module DateFinder {
  import opened Chars
  import opened RelativeDates

  method CollectPatterns(tokens: seq<Token>, start: nat, patterns: seq<Pattern>) returns (matches: seq<PhraseMatch>)
    ensures matches == PatternMatches(tokens, start, patterns)
  {
    hide WordsAt, WordsOf;
    matches := [];
    for i := 0 to |patterns|
      invariant matches == PatternMatches(tokens, start, patterns[..i])
    {
      assert patterns[..i + 1][..i] == patterns[..i];
      var p := patterns[i];
      if WordsAt(tokens, start, WordsOf(p)) {
        matches := matches + [PhraseMatch(start, start + |WordsOf(p)|, p.value)];
      }
    }
    assert patterns[..|patterns|] == patterns;
  }

  method CollectMatches(tokens: seq<Token>, patterns: seq<Pattern>) returns (matches: seq<PhraseMatch>)
    ensures matches == AllMatches(tokens, patterns, |tokens|)
  {
    hide PatternMatches, NumberMatches;
    matches := [];
    for start := 0 to |tokens|
      invariant matches == AllMatches(tokens, patterns, start)
    {
      var found := CollectPatterns(tokens, start, patterns);
      matches := matches + (found + NumberMatches(tokens, start));
    }
  }

  method AnyUsed(used: array<bool>, from: nat, to: nat) returns (taken: bool)
    requires from <= to <= used.Length
    ensures taken <==> exists q :: from <= q < to && used[q]
  {
    taken := false;
    for p := from to to
      invariant taken <==> exists q :: from <= q < p && used[q]
    {
      taken := taken || used[p];
    }
  }

  lemma RestStartsLater(sorted: seq<PhraseMatch>, i: nat)
    requires IsSorted(sorted) && i < |sorted|
    ensures forall j :: i <= j < |sorted| ==> sorted[i].start <= sorted[j].start
  {
    assert forall j :: i < j < |sorted| ==> !Precedes(sorted[j], sorted[i]);
  }

  lemma PickStep(chosen: seq<PhraseMatch>, sorted: seq<PhraseMatch>, i: nat, limit: nat)
    requires i < |sorted|
    ensures var c := sorted[i];
            chosen + Pick(sorted[i..], limit) ==
              if c.start < limit then chosen + Pick(sorted[i + 1..], limit)
              else chosen + [c] + Pick(sorted[i + 1..], c.end)
  {
    assert sorted[i..][1..] == sorted[i + 1..];
    var c := sorted[i];
    assert chosen + ([c] + Pick(sorted[i + 1..], c.end)) == chosen + [c] + Pick(sorted[i + 1..], c.end);
  }

  /** Words already inside a kept phrase are marked; a candidate touching one is dropped. */
  method MarkUsed(n: nat, sorted: seq<PhraseMatch>) returns (chosen: seq<PhraseMatch>)
    requires IsSorted(sorted)
    requires forall i :: 0 <= i < |sorted| ==> sorted[i].start < sorted[i].end <= n
    ensures chosen == Pick(sorted, 0)
  {
    hide Pick, IsSorted;
    var used := new bool[n](_ => false);
    chosen := [];
    ghost var limit: nat, lastStart: nat := 0, 0;
    var i := 0;
    assert sorted[0..] == sorted && [] + Pick(sorted, 0) == Pick(sorted, 0);
    while i < |sorted|
      invariant 0 <= i <= |sorted|
      invariant Pick(sorted, 0) == chosen + Pick(sorted[i..], limit)
      invariant limit <= n
      invariant forall p :: limit <= p < n ==> !used[p]
      invariant forall p :: lastStart <= p < limit ==> used[p]
      invariant forall j :: i <= j < |sorted| ==> lastStart <= sorted[j].start
    {
      var c := sorted[i];
      PickStep(chosen, sorted, i, limit);
      RestStartsLater(sorted, i);
      var taken := AnyUsed(used, c.start, c.end);
      assert c.start < limit ==> used[c.start];
      assert taken <==> c.start < limit;
      if !taken {
        forall q | c.start <= q < c.end {
          used[q] := true;
        }
        chosen := chosen + [c];
        limit, lastStart := c.end, c.start;
      }
      i := i + 1;
    }
    assert sorted[|sorted|..] == [];
    NothingPicked(chosen, limit);
  }

  lemma NothingPicked(chosen: seq<PhraseMatch>, limit: nat)
    ensures chosen + Pick([], limit) == chosen
  {
  }

  // ---- the text of a phrase

  /** The runs of other characters between white space. */
  function SplitSpaces(s: string, word: string): seq<string>
    decreases |s|
  {
    if s == [] then if word == [] then [] else [word]
    else if IsSpace(s[0]) then (if word == [] then [] else [word]) + SplitSpaces(s[1..], [])
    else SplitSpaces(s[1..], word + [s[0]])
  }

  function JoinWords(words: seq<string>): string {
    if words == [] then ""
    else if |words| == 1 then words[0]
    else words[0] + " " + JoinWords(words[1..])
  }

  predicate InRange(tokens: seq<Token>, m: PhraseMatch) {
    m.start < m.end <= |tokens|
  }

  predicate SpansFit(text: string, tokens: seq<Token>) {
    && (forall k :: 0 <= k < |tokens| ==> tokens[k].start < tokens[k].end <= |text|)
    && (forall j, k :: 0 <= j < k < |tokens| ==> tokens[j].end < tokens[k].start)
  }

  /** The canonical value, and the words as they stand with single spaces between them. */
  function Rendered(text: string, tokens: seq<Token>, m: PhraseMatch): (string, string)
    requires InRange(tokens, m) && SpansFit(text, tokens)
  {
    (m.value, JoinWords(SplitSpaces(text[tokens[m.start].start..tokens[m.end - 1].end], [])))
  }

  function AllRendered(text: string, tokens: seq<Token>, chosen: seq<PhraseMatch>): (r: seq<(string, string)>)
    requires SpansFit(text, tokens) && forall i :: 0 <= i < |chosen| ==> InRange(tokens, chosen[i])
    ensures |r| == |chosen|
  {
    if chosen == [] then []
    else AllRendered(text, tokens, chosen[..|chosen| - 1]) + [Rendered(text, tokens, chosen[|chosen| - 1])]
  }

  lemma TokensFit(u: Letters, text: string, tokens: seq<Token>)
    requires IsTokenized(u, text, tokens)
    ensures SpansFit(text, tokens)
  {
    hide Lower, IsWordChar, Covers;
    forall k | 0 <= k < |tokens| ensures tokens[k].start < tokens[k].end <= |text| {
      assert IsToken(u, text, tokens[k]);
    }
    forall j, k | 0 <= j < k < |tokens| ensures tokens[j].end < tokens[k].start {
      Ordered(u, text, tokens, k);
    }
  }

  lemma ChosenInRange(tokens: seq<Token>, patterns: seq<Pattern>)
    ensures forall i :: 0 <= i < |Scan(tokens, patterns, 0)| ==> InRange(tokens, Scan(tokens, patterns, 0)[i])
  {
    hide MatchesAt, Scan;
    ScanIsOrdered(tokens, patterns, 0);
    forall i | 0 <= i < |Scan(tokens, patterns, 0)| ensures InRange(tokens, Scan(tokens, patterns, 0)[i]) {
      assert IsChoice(tokens, patterns, 0, Scan(tokens, patterns, 0)[i]);
    }
  }

  /** The phrases of a text are those of the leftmost-longest scan of its tokens. */
  method FindRelativeDatePhrases(u: Letters, text: string, patterns: seq<Pattern>)
    returns (phrases: seq<(string, string)>, tokens: seq<Token>)
    ensures IsTokenized(u, text, tokens) && SpansFit(text, tokens)
    ensures forall i :: 0 <= i < |Scan(tokens, patterns, 0)| ==> InRange(tokens, Scan(tokens, patterns, 0)[i])
    ensures phrases == AllRendered(text, tokens, Scan(tokens, patterns, 0))
  {
    hide IsTokenized, Scan, MatchesAt, Sorted, Rendered, InRange;
    tokens := Tokenize(u, text);
    TokensFit(u, text, tokens);
    ChosenInRange(tokens, patterns);
    var matches := CollectMatches(tokens, patterns);
    var sorted := Sorted(matches);
    SortedFirstIsBest(matches, 0);
    AllMatchesFit(tokens, patterns, |tokens|);
    assert forall i :: 0 <= i < |sorted| ==> sorted[i] in sorted;
    var chosen := MarkUsed(|tokens|, sorted);
    SortAndPickIsScan(tokens, patterns);
    phrases := [];
    var i := 0;
    while i < |chosen|
      invariant 0 <= i <= |chosen|
      invariant phrases == AllRendered(text, tokens, chosen[..i])
    {
      assert chosen[..i + 1][..i] == chosen[..i];
      phrases := phrases + [Rendered(text, tokens, chosen[i])];
      i := i + 1;
    }
    assert chosen[..|chosen|] == chosen;
  }
}
