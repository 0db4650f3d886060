/** Bytes, fixed-width integers and UTF-8. */
module Bytes {
  type Byte = b: int | 0 <= b < 256

  type Bytes = seq<Byte>

  /** A keyed fingerprint: 32 bytes. */
  type Key = k: Bytes | |k| == 32 witness seq(32, _ => 0)

  type U16 = n: int | 0 <= n < 0x1_0000

  type U32 = n: int | 0 <= n < 0x1_0000_0000

  type I64 = n: int | -0x8000_0000_0000_0000 <= n < 0x8000_0000_0000_0000

  /** 64-bit signed arithmetic as a release build does it: it wraps around. */
  function WrapI64(n: int): (r: I64)
    ensures (r - n) % 0x1_0000_0000_0000_0000 == 0
    ensures -0x8000_0000_0000_0000 <= n < 0x8000_0000_0000_0000 ==> r == n
  {
    var m := n % 0x1_0000_0000_0000_0000;
    if m < 0x8000_0000_0000_0000 then m else m - 0x1_0000_0000_0000_0000
  }

  function Pow256(n: nat): (r: nat)
    ensures r > 0
  {
    if n == 0 then 1 else 256 * Pow256(n - 1)
  }

  /** The n low bytes of v, most significant first. */
  function ToBE(v: nat, n: nat): (r: Bytes)
    ensures |r| == n
    decreases n
  {
    if n == 0 then [] else ToBE(v / 256, n - 1) + [v % 256]
  }

  function FromBE(s: Bytes): (v: nat)
    ensures v < Pow256(|s|)
  {
    if s == [] then 0 else 256 * FromBE(s[..|s| - 1]) + s[|s| - 1]
  }

  function ToLE(v: nat, n: nat): (r: Bytes)
    ensures |r| == n
    decreases n
  {
    if n == 0 then [] else [v % 256] + ToLE(v / 256, n - 1)
  }

  function FromLE(s: Bytes): (v: nat)
    ensures v < Pow256(|s|)
  {
    if s == [] then 0 else s[0] + 256 * FromLE(s[1..])
  }

  lemma {:induction false} BERoundTrip(v: nat, n: nat)
    requires v < Pow256(n)
    ensures FromBE(ToBE(v, n)) == v
    decreases n
  {
    if n > 0 {
      BERoundTrip(v / 256, n - 1);
      assert ToBE(v, n)[..n - 1] == ToBE(v / 256, n - 1);
    }
  }

  lemma {:induction false} BEUnique(s: Bytes)
    ensures ToBE(FromBE(s), |s|) == s
  {
    if s != [] {
      var init := s[..|s| - 1];
      BEUnique(init);
      assert FromBE(s) / 256 == FromBE(init) && FromBE(s) % 256 == s[|s| - 1];
    }
  }

  lemma {:induction false} LERoundTrip(v: nat, n: nat)
    requires v < Pow256(n)
    ensures FromLE(ToLE(v, n)) == v
    decreases n
  {
    if n > 0 {
      LERoundTrip(v / 256, n - 1);
      assert ToLE(v, n)[1..] == ToLE(v / 256, n - 1);
    }
  }

  lemma {:induction false} LEUnique(s: Bytes)
    ensures ToLE(FromLE(s), |s|) == s
  {
    if s != [] {
      LEUnique(s[1..]);
      assert FromLE(s) / 256 == FromLE(s[1..]) && FromLE(s) % 256 == s[0];
    }
  }

  lemma Powers()
    ensures Pow256(1) == 256 && Pow256(2) == 0x1_0000 && Pow256(4) == 0x1_0000_0000
    ensures Pow256(8) == 0x1_0000_0000_0000_0000
  {
    assert Pow256(3) == 0x100_0000;
    assert Pow256(5) == 0x100_0000_0000;
    assert Pow256(6) == 0x1_0000_0000_0000;
    assert Pow256(7) == 0x100_0000_0000_0000;
  }

  /** Two's complement. */
  function Unsigned(x: I64): nat {
    if x < 0 then x + 0x1_0000_0000_0000_0000 else x
  }

  function Signed(v: nat): I64
    requires v < Pow256(8)
  {
    Powers();
    if v < 0x8000_0000_0000_0000 then v else v - 0x1_0000_0000_0000_0000
  }

  function I64BE(x: I64): (r: Bytes)
    ensures |r| == 8
  {
    ToBE(Unsigned(x), 8)
  }

  function I64LE(x: I64): (r: Bytes)
    ensures |r| == 8
  {
    ToLE(Unsigned(x), 8)
  }

  function FromI64BE(s: Bytes): I64
    requires |s| == 8
  {
    Signed(FromBE(s))
  }

  function FromI64LE(s: Bytes): I64
    requires |s| == 8
  {
    Signed(FromLE(s))
  }

  lemma SignedRoundTrip(x: I64)
    ensures Unsigned(x) < Pow256(8) && Signed(Unsigned(x)) == x
  {
    Powers();
  }

  lemma UnsignedRoundTrip(v: nat)
    requires v < Pow256(8)
    ensures Unsigned(Signed(v)) == v
  {
    Powers();
  }

  lemma I64RoundTrips(x: I64)
    ensures FromI64BE(I64BE(x)) == x && FromI64LE(I64LE(x)) == x
  {
    SignedRoundTrip(x);
    BERoundTrip(Unsigned(x), 8);
    LERoundTrip(Unsigned(x), 8);
  }

  lemma I64Unique(s: Bytes)
    requires |s| == 8
    ensures I64BE(FromI64BE(s)) == s && I64LE(FromI64LE(s)) == s
  {
    UnsignedRoundTrip(FromBE(s));
    UnsignedRoundTrip(FromLE(s));
    BEUnique(s);
    LEUnique(s);
  }

  // ---- UTF-8

  predicate Continuation(b: Byte) { 0x80 <= b < 0xC0 }

  /** How many bytes the well-formed character at the start of s takes; 0 if there is none. */
  function CharWidth(s: Bytes): (n: nat)
    ensures n <= |s| && n <= 4
  {
    if s == [] then 0
    else if s[0] < 0x80 then 1
    else if 0xC2 <= s[0] < 0xE0 && |s| >= 2 && Continuation(s[1]) then 2
    else if 0xE0 <= s[0] < 0xF0 && |s| >= 3 && Continuation(s[1]) && Continuation(s[2])
            && (s[0] == 0xE0 ==> s[1] >= 0xA0) && (s[0] == 0xED ==> s[1] < 0xA0) then 3
    else if 0xF0 <= s[0] < 0xF5 && |s| >= 4 && Continuation(s[1]) && Continuation(s[2]) && Continuation(s[3])
            && (s[0] == 0xF0 ==> s[1] >= 0x90) && (s[0] == 0xF4 ==> s[1] < 0x90) then 4
    else 0
  }

  predicate IsUtf8(s: Bytes) {
    s == [] || (CharWidth(s) > 0 && IsUtf8(s[CharWidth(s)..]))
  }

  /** A string is its UTF-8 bytes. */
  type Text = s: Bytes | IsUtf8(s) witness []
}
