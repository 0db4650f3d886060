/** What a string's bytes may be: characters encoded one after the other, as section 3 of RFC 3629 defines it. */
module Utf8 {
  import opened Bytes

  /** A Unicode scalar value: a code point that is no surrogate. */
  type Scalar = n: int | 0 <= n < 0xD800 || 0xE000 <= n < 0x11_0000

  /** Six bits a byte, the low ones last. */
  function Encoded(n: Scalar): Bytes {
    var m := n / 0x40;
    var l := m / 0x40;
    if n < 0x80 then [n]
    else if n < 0x800 then [0xC0 + m, 0x80 + n % 0x40]
    else if n < 0x1_0000 then [0xE0 + l, 0x80 + m % 0x40, 0x80 + n % 0x40]
    else [0xF0 + l / 0x40, 0x80 + l % 0x40, 0x80 + m % 0x40, 0x80 + n % 0x40]
  }

  function EncodedAll(characters: seq<Scalar>): Bytes {
    if characters == [] then [] else Encoded(characters[0]) + EncodedAll(characters[1..])
  }

  lemma EncodedHasWidth(n: Scalar, rest: Bytes)
    ensures CharWidth(Encoded(n) + rest) == |Encoded(n)| > 0
  {
  }

  lemma SixBits(high: int, low: int)
    requires 0 <= low < 0x40
    ensures (0x40 * high + low) / 0x40 == high && (0x40 * high + low) % 0x40 == low
  {
  }

  function Low(b: Byte): int { b as int - 0x80 }

  /** The character at the start of s. */
  function Leading(s: Bytes): int
    requires CharWidth(s) > 0
  {
    var a: int := s[0];
    match CharWidth(s)
    case 1 => a
    case 2 => 0x40 * (a - 0xC0) + Low(s[1])
    case 3 => 0x40 * (0x40 * (a - 0xE0) + Low(s[1])) + Low(s[2])
    case _ => 0x40 * (0x40 * (0x40 * (a - 0xF0) + Low(s[1])) + Low(s[2])) + Low(s[3])
  }

  lemma LeadingIsScalar(s: Bytes)
    requires CharWidth(s) > 0
    ensures 0 <= Leading(s) < 0xD800 || 0xE000 <= Leading(s) < 0x11_0000
  {
  }

  lemma LeadingIsEncoded(s: Bytes)
    requires CharWidth(s) > 0
    ensures 0 <= Leading(s) < 0xD800 || 0xE000 <= Leading(s) < 0x11_0000
    ensures Encoded(Leading(s)) == s[..CharWidth(s)]
  {
    LeadingIsScalar(s);
    var a: int := s[0];
    match CharWidth(s)
    case 1 =>
    case 2 => SixBits(a - 0xC0, Low(s[1]));
    case 3 =>
      SixBits(a - 0xE0, Low(s[1]));
      SixBits(0x40 * (a - 0xE0) + Low(s[1]), Low(s[2]));
    case _ =>
      var l := 0x40 * (a - 0xF0) + Low(s[1]);
      SixBits(a - 0xF0, Low(s[1]));
      SixBits(l, Low(s[2]));
      SixBits(0x40 * l + Low(s[2]), Low(s[3]));
  }

  lemma {:induction false} Utf8IsEncoded(s: Bytes) returns (characters: seq<Scalar>)
    requires IsUtf8(s)
    ensures EncodedAll(characters) == s
    decreases |s|
  {
    hide CharWidth, Encoded, Leading;
    if s == [] {
      characters := [];
    } else {
      LeadingIsEncoded(s);
      var first: Scalar := Leading(s);
      var others := Utf8IsEncoded(s[CharWidth(s)..]);
      characters := [first] + others;
      assert characters[1..] == others;
    }
  }

  lemma {:induction false} EncodedIsUtf8(characters: seq<Scalar>)
    ensures IsUtf8(EncodedAll(characters))
  {
    hide CharWidth, Encoded;
    if characters != [] {
      var first, rest := Encoded(characters[0]), EncodedAll(characters[1..]);
      EncodedIsUtf8(characters[1..]);
      EncodedHasWidth(characters[0], rest);
      assert (first + rest)[|first|..] == rest;
    }
  }

  /** A string of bytes is UTF-8 exactly when it is some characters encoded one after the other. */
  lemma IsUtf8Iff(s: Bytes)
    ensures IsUtf8(s) <==> exists characters :: EncodedAll(characters) == s
  {
    hide IsUtf8, EncodedAll;
    if IsUtf8(s) {
      var characters := Utf8IsEncoded(s);
    }
    forall characters | EncodedAll(characters) == s ensures IsUtf8(s) {
      EncodedIsUtf8(characters);
    }
  }
}
