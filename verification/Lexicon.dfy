/**
 What the cipher is told about words: the letters of the alphabet in use, the
 English words that are also given names, the pseudonym pool and the reserved
 domain of pseudonym addresses. NamePool holds the values the program is built with.
 */
module Lexicon {
  import opened Chars

  datatype Lexicon = Lexicon(
    letters: Letters, english: set<string>, given: seq<string>, family: seq<string>, domain: string)

  ghost predicate PlainWord(w: string) {
    |w| >= 2 && forall i :: 0 <= i < |w| ==> IsAsciiUpper(w[i]) || IsAsciiLower(w[i])
  }

  /** What decoding relies on: the pool's words are plain and pairwise different. */
  ghost predicate ValidLexicon(x: Lexicon) {
    && |x.given| == |x.family|
    && (forall k :: 0 <= k < |x.given| ==> PlainWord(x.given[k]) && PlainWord(x.family[k]))
    && (forall j, k :: 0 <= j < k < |x.given| ==> x.given[j] != x.given[k])
    && (forall j, k :: 0 <= j < k < |x.family| ==> x.family[j] != x.family[k])
    && (forall j, k :: 0 <= j < |x.given| && 0 <= k < |x.family| ==> x.given[j] != x.family[k])
    && '@' in x.domain
  }
}
