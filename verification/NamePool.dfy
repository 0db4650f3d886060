/**
 The word lists the program is built with. The 48 pool words are told apart by
 their length and first two letters: WordId is a left inverse of Word.
 */
module NamePool {
  import opened Chars
  import opened Lexicon

  const GIVEN_NAMES: seq<string> := [
    "Priya", "Tomas", "Amara", "Mateo", "Linnea", "Devon", "Soraya", "Kenji", "Ingrid", "Rafael",
    "Noor", "Callum", "Yesenia", "Anselm", "Talia", "Oskar", "Imani", "Lorcan", "Mireille",
    "Dashiell", "Saoirse", "Bartek", "Odalys", "Tobiah"
  ]

  const FAMILY_NAMES: seq<string> := [
    "Venkataraman", "Lindqvist", "Okafor", "Villanueva", "Bergstrom", "Fairchild", "Nwosu",
    "Takamura", "Halvorsen", "Quintero", "Abernathy", "Szymanski", "Ferreira", "Achterberg",
    "Castellanos", "Oyelaran", "Whitcombe", "Marchetti", "Kowalczyk", "Thorsby", "Ebbesen",
    "Arceneaux", "Lindgren", "Pemberton"
  ]

  const ENGLISH_GIVEN_NAMES: set<string> := {
    "will", "may", "mark", "bill", "grant", "hope", "june", "april", "august", "rose", "chase",
    "drew", "dawn", "art", "pat", "sue", "rob", "joy", "faith", "summer", "frank", "gene", "jack",
    "ray", "guy", "dean", "penny", "ruby", "grace", "holly", "iris", "hunter", "carter", "parker",
    "mason"
  }

  const POOL_SIZE := 24

  function ProgramLexicon(letters: Letters): Lexicon {
    Lexicon(letters, ENGLISH_GIVEN_NAMES, GIVEN_NAMES, FAMILY_NAMES, "@example.invalid")
  }

  /** Word j of the pool: the given names first, then the family names. */
  function Word(j: nat): string
    requires j < 2 * POOL_SIZE
  {
    if j < POOL_SIZE then GIVEN_NAMES[j] else FAMILY_NAMES[j - POOL_SIZE]
  }

  /** Recovers a pool word's position from its length and first two letters. */
  function WordId(w: string): int {
    if |w| < 2 then -1 else
    match |w| * 65536 + (w[0] as int) * 256 + (w[1] as int)
    case 348274 => 0
    case 349295 => 1
    case 344429 => 2
    case 347489 => 3
    case 412777 => 4
    case 345189 => 5
    case 414575 => 6
    case 346981 => 7
    case 412014 => 8
    case 414305 => 9
    case 282223 => 10
    case 410465 => 11
    case 481637 => 12
    case 409966 => 13
    case 349281 => 14
    case 348019 => 15
    case 346477 => 16
    case 412783 => 17
    case 544105 => 18
    case 541793 => 19
    case 480097 => 20
    case 410209 => 21
    case 413540 => 22
    case 414831 => 23
    case 808549 => 24
    case 609385 => 25
    case 413547 => 26
    case 677481 => 27
    case 606821 => 28
    case 607841 => 29
    case 347767 => 30
    case 545889 => 31
    case 608353 => 32
    case 545141 => 33
    case 606562 => 34
    case 611194 => 35
    case 542309 => 36
    case 672099 => 37
    case 738145 => 38
    case 544633 => 39
    case 612200 => 40
    case 609633 => 41
    case 609135 => 42
    case 480360 => 43
    case 476514 => 44
    case 606578 => 45
    case 543849 => 46
    case 610405 => 47
    case _ => -1
  }

  /** One capital letter, then small ones. */
  ghost predicate PoolWord(w: string) {
    |w| >= 2 && IsAsciiUpper(w[0]) && forall i :: 1 <= i < |w| ==> IsAsciiLower(w[i])
  }

  lemma Words0(j: nat)
    requires 0 <= j < 4
    ensures WordId(Word(j)) == j && PoolWord(Word(j))
  {
    if j == 0 { assert Word(j) == "Priya"; }
    if j == 1 { assert Word(j) == "Tomas"; }
    if j == 2 { assert Word(j) == "Amara"; }
    if j == 3 { assert Word(j) == "Mateo"; }
  }

  lemma Words1(j: nat)
    requires 4 <= j < 8
    ensures WordId(Word(j)) == j && PoolWord(Word(j))
  {
    if j == 4 { assert Word(j) == "Linnea"; }
    if j == 5 { assert Word(j) == "Devon"; }
    if j == 6 { assert Word(j) == "Soraya"; }
    if j == 7 { assert Word(j) == "Kenji"; }
  }

  lemma Words2(j: nat)
    requires 8 <= j < 12
    ensures WordId(Word(j)) == j && PoolWord(Word(j))
  {
    if j == 8 { assert Word(j) == "Ingrid"; }
    if j == 9 { assert Word(j) == "Rafael"; }
    if j == 10 { assert Word(j) == "Noor"; }
    if j == 11 { assert Word(j) == "Callum"; }
  }

  lemma Words3(j: nat)
    requires 12 <= j < 16
    ensures WordId(Word(j)) == j && PoolWord(Word(j))
  {
    if j == 12 { assert Word(j) == "Yesenia"; }
    if j == 13 { assert Word(j) == "Anselm"; }
    if j == 14 { assert Word(j) == "Talia"; }
    if j == 15 { assert Word(j) == "Oskar"; }
  }

  lemma Words4(j: nat)
    requires 16 <= j < 20
    ensures WordId(Word(j)) == j && PoolWord(Word(j))
  {
    if j == 16 { assert Word(j) == "Imani"; }
    if j == 17 { assert Word(j) == "Lorcan"; }
    if j == 18 { assert Word(j) == "Mireille"; }
    if j == 19 { assert Word(j) == "Dashiell"; }
  }

  lemma Words5(j: nat)
    requires 20 <= j < 24
    ensures WordId(Word(j)) == j && PoolWord(Word(j))
  {
    if j == 20 { assert Word(j) == "Saoirse"; }
    if j == 21 { assert Word(j) == "Bartek"; }
    if j == 22 { assert Word(j) == "Odalys"; }
    if j == 23 { assert Word(j) == "Tobiah"; }
  }

  lemma Words6(j: nat)
    requires 24 <= j < 28
    ensures WordId(Word(j)) == j && PoolWord(Word(j))
  {
    if j == 24 { assert Word(j) == "Venkataraman"; }
    if j == 25 { assert Word(j) == "Lindqvist"; }
    if j == 26 { assert Word(j) == "Okafor"; }
    if j == 27 { assert Word(j) == "Villanueva"; }
  }

  lemma Words7(j: nat)
    requires 28 <= j < 32
    ensures WordId(Word(j)) == j && PoolWord(Word(j))
  {
    if j == 28 { assert Word(j) == "Bergstrom"; }
    if j == 29 { assert Word(j) == "Fairchild"; }
    if j == 30 { assert Word(j) == "Nwosu"; }
    if j == 31 { assert Word(j) == "Takamura"; }
  }

  lemma Words8(j: nat)
    requires 32 <= j < 36
    ensures WordId(Word(j)) == j && PoolWord(Word(j))
  {
    if j == 32 { assert Word(j) == "Halvorsen"; }
    if j == 33 { assert Word(j) == "Quintero"; }
    if j == 34 { assert Word(j) == "Abernathy"; }
    if j == 35 { assert Word(j) == "Szymanski"; }
  }

  lemma Words9(j: nat)
    requires 36 <= j < 40
    ensures WordId(Word(j)) == j && PoolWord(Word(j))
  {
    if j == 36 { assert Word(j) == "Ferreira"; }
    if j == 37 { assert Word(j) == "Achterberg"; }
    if j == 38 { assert Word(j) == "Castellanos"; }
    if j == 39 { assert Word(j) == "Oyelaran"; }
  }

  lemma Words10(j: nat)
    requires 40 <= j < 44
    ensures WordId(Word(j)) == j && PoolWord(Word(j))
  {
    if j == 40 { assert Word(j) == "Whitcombe"; }
    if j == 41 { assert Word(j) == "Marchetti"; }
    if j == 42 { assert Word(j) == "Kowalczyk"; }
    if j == 43 { assert Word(j) == "Thorsby"; }
  }

  lemma Words11(j: nat)
    requires 44 <= j < 48
    ensures WordId(Word(j)) == j && PoolWord(Word(j))
  {
    if j == 44 { assert Word(j) == "Ebbesen"; }
    if j == 45 { assert Word(j) == "Arceneaux"; }
    if j == 46 { assert Word(j) == "Lindgren"; }
    if j == 47 { assert Word(j) == "Pemberton"; }
  }

  lemma WordsAreDistinct(j: nat)
    requires j < 2 * POOL_SIZE
    ensures WordId(Word(j)) == j && PoolWord(Word(j))
  {
    match j / 4 {
      case 0 => Words0(j);
      case 1 => Words1(j);
      case 2 => Words2(j);
      case 3 => Words3(j);
      case 4 => Words4(j);
      case 5 => Words5(j);
      case 6 => Words6(j);
      case 7 => Words7(j);
      case 8 => Words8(j);
      case 9 => Words9(j);
      case 10 => Words10(j);
      case 11 => Words11(j);
    }
  }

  lemma PoolShape(letters: Letters)
    ensures var x := ProgramLexicon(letters);
            |x.given| == |x.family| == POOL_SIZE && x.domain == "@example.invalid" && x.letters == letters
  {
  }

  lemma PoolWordsAt(letters: Letters, k: nat)
    requires k < POOL_SIZE
    ensures |ProgramLexicon(letters).given| == |ProgramLexicon(letters).family| == POOL_SIZE
    ensures var x := ProgramLexicon(letters);
            && PlainWord(x.given[k]) && WordId(x.given[k]) == k && PoolWord(x.given[k])
            && PlainWord(x.family[k]) && WordId(x.family[k]) == POOL_SIZE + k && PoolWord(x.family[k])
  {
    hide WordId, PlainWord, PoolWord, ProgramLexicon, Word;
    ListedWords(letters, k);
    WordsAreDistinct(k);
    WordsAreDistinct(POOL_SIZE + k);
    PoolWordIsPlain(Word(k));
    PoolWordIsPlain(Word(POOL_SIZE + k));
  }

  lemma ListedWords(letters: Letters, k: nat)
    requires k < POOL_SIZE
    ensures var x := ProgramLexicon(letters);
            |x.given| == |x.family| == POOL_SIZE && x.given[k] == Word(k) && x.family[k] == Word(POOL_SIZE + k)
  {
  }

  lemma PoolWordIsPlain(w: string)
    requires PoolWord(w)
    ensures PlainWord(w)
  {
  }

  /** The pool's words are plain ASCII letters, and no two of the 48 are the same. */
  lemma ProgramLexiconIsValid(letters: Letters)
    ensures ValidLexicon(ProgramLexicon(letters))
  {
    hide WordId, PlainWord, PoolWord, ProgramLexicon;
    var x := ProgramLexicon(letters);
    PoolShape(letters);
    forall k | 0 <= k < POOL_SIZE
      ensures PlainWord(x.given[k]) && WordId(x.given[k]) == k
      ensures PlainWord(x.family[k]) && WordId(x.family[k]) == POOL_SIZE + k
    {
      PoolWordsAt(letters, k);
    }
    assert '@' == x.domain[0];
  }

  lemma SameButForCase(v: string, w: string)
    requires PoolWord(v) && PoolWord(w) && Lower(v) == Lower(w)
    ensures WordId(v) == WordId(w)
  {
    assert Lower(v)[0] == Lower(w)[0] && Lower(v)[1] == Lower(w)[1];
    assert |Lower(v)| == |v| && |Lower(w)| == |w|;
  }

  /** Nor are two of them the same but for case. */
  lemma PoolWordsDifferInLower(letters: Letters, j: nat, k: nat)
    requires j < k < POOL_SIZE
    ensures |ProgramLexicon(letters).given| == |ProgramLexicon(letters).family| == POOL_SIZE
    ensures var x := ProgramLexicon(letters);
            Lower(x.given[j]) != Lower(x.given[k]) && Lower(x.family[j]) != Lower(x.family[k])
  {
    hide WordId, PlainWord, PoolWord, ProgramLexicon, Lower;
    var x := ProgramLexicon(letters);
    PoolWordsAt(letters, j);
    PoolWordsAt(letters, k);
    if Lower(x.given[j]) == Lower(x.given[k]) {
      SameButForCase(x.given[j], x.given[k]);
    }
    if Lower(x.family[j]) == Lower(x.family[k]) {
      SameButForCase(x.family[j], x.family[k]);
    }
  }
}
