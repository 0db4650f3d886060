/**
 The fixed-width and length-prefixed fields the durable rows are written in. Each
 field parser accepts exactly what the field's printer writes.
 */
module Codec {
  import opened Wrappers
  import opened Bytes

  datatype CodecError = Truncated | TooLarge | TrailingBytes | UnknownTag(tag: Byte)

  /** A field's value and the bytes behind it. */
  type Parsed<T> = Result<(T, Bytes), CodecError>

  // ---- printing

  function EncU32(v: U32): Bytes { ToBE(v, 4) }

  function EncOptionI64(v: Option<I64>): Bytes {
    match v
    case Some(x) => [1] + I64BE(x)
    case None => [0]
  }

  predicate Prefixable(b: Bytes) { |b| < 0x1_0000_0000 }

  function EncBytes(b: Bytes): Bytes
    requires Prefixable(b)
  {
    EncU32(|b|) + b
  }

  // ---- parsing

  function Take(s: Bytes, n: nat): Parsed<Bytes> {
    if n <= |s| then Ok((s[..n], s[n..])) else Err(Truncated)
  }

  function ParseU8(s: Bytes): Parsed<Byte> {
    if s == [] then Err(Truncated) else Ok((s[0], s[1..]))
  }

  function ParseU32(s: Bytes): Parsed<U32> {
    var (b, rest) :- Take(s, 4);
    Powers();
    Ok((FromBE(b), rest))
  }

  function ParseI64(s: Bytes): Parsed<I64> {
    var (b, rest) :- Take(s, 8);
    Ok((FromI64BE(b), rest))
  }

  function ParseOptionI64(s: Bytes): Parsed<Option<I64>> {
    var (tag, rest) :- ParseU8(s);
    if tag == 0 then Ok((None, rest))
    else if tag == 1 then
      var (x, rest') :- ParseI64(rest);
      Ok((Some(x), rest'))
    else Err(UnknownTag(tag))
  }

  function ParseBytes(s: Bytes): Parsed<Bytes> {
    var (n, rest) :- ParseU32(s);
    Take(rest, n)
  }

  function Finish<T>(value: T, rest: Bytes): Result<T, CodecError> {
    if rest == [] then Ok(value) else Err(TrailingBytes)
  }

  // ---- parsing what was printed

  lemma TakeParses(b: Bytes, rest: Bytes)
    ensures Take(b + rest, |b|) == Ok((b, rest))
  {
  }

  lemma U8Parses(v: Byte, rest: Bytes)
    ensures ParseU8([v] + rest) == Ok((v, rest))
  {
  }

  lemma U32Parses(v: U32, rest: Bytes)
    ensures ParseU32(EncU32(v) + rest) == Ok((v, rest))
  {
    Powers();
    BERoundTrip(v, 4);
    TakeParses(EncU32(v), rest);
  }

  lemma OptionI64Parses(v: Option<I64>, rest: Bytes)
    ensures ParseOptionI64(EncOptionI64(v) + rest) == Ok((v, rest))
  {
    if v.Some? {
      var b := I64BE(v.value);
      assert ([1] + b) + rest == [1] + (b + rest);
      U8Parses(1, b + rest);
      TakeParses(b, rest);
      I64RoundTrips(v.value);
    } else {
      U8Parses(0, rest);
    }
  }

  lemma BytesParse(b: Bytes, rest: Bytes)
    requires Prefixable(b)
    ensures ParseBytes(EncBytes(b) + rest) == Ok((b, rest))
  {
    assert EncBytes(b) + rest == EncU32(|b|) + (b + rest);
    U32Parses(|b|, b + rest);
    TakeParses(b, rest);
  }

  // ---- printing what was parsed

  lemma TakeExact(s: Bytes, n: nat)
    ensures Take(s, n).Ok? ==> var (b, rest) := Take(s, n).value; |b| == n && s == b + rest
  {
  }

  lemma U8Exact(s: Bytes)
    ensures ParseU8(s).Ok? ==> var (v, rest) := ParseU8(s).value; s == [v] + rest
  {
  }

  lemma U32Exact(s: Bytes)
    ensures ParseU32(s).Ok? ==> var (v, rest) := ParseU32(s).value; s == EncU32(v) + rest
  {
    if ParseU32(s).Ok? {
      BEUnique(s[..4]);
      TakeExact(s, 4);
    }
  }

  lemma OptionI64Exact(s: Bytes)
    ensures ParseOptionI64(s).Ok? ==> var (v, rest) := ParseOptionI64(s).value; s == EncOptionI64(v) + rest
  {
    U8Exact(s);
    if ParseOptionI64(s).Ok? && s[0] == 1 {
      I64Unique(s[1..][..8]);
      TakeExact(s[1..], 8);
      assert s == [1] + (s[1..][..8] + s[1..][8..]);
    }
  }

  lemma BytesExact(s: Bytes)
    ensures ParseBytes(s).Ok? ==>
              var (v, rest) := ParseBytes(s).value; Prefixable(v) && s == EncBytes(v) + rest
  {
    U32Exact(s);
    if ParseBytes(s).Ok? {
      var (n, tail) := ParseU32(s).value;
      TakeExact(tail, n);
      assert s == EncU32(n) + (tail[..n] + tail[n..]);
    }
  }

  /** A growing buffer of encoded fields. */
  class Writer {
    var bytes: Bytes

    constructor ()
      ensures bytes == []
    {
      bytes := [];
    }

    method PushRaw(b: Bytes)
      modifies this
      ensures bytes == old(bytes) + b
    {
      bytes := bytes + b;
    }

    method PushU8(v: Byte)
      modifies this
      ensures bytes == old(bytes) + [v]
    {
      bytes := bytes + [v];
    }

    method PushU32(v: U32)
      modifies this
      ensures bytes == old(bytes) + EncU32(v)
    {
      bytes := bytes + ToBE(v, 4);
    }

    method PushOptionI64(v: Option<I64>)
      modifies this
      ensures bytes == old(bytes) + EncOptionI64(v)
    {
      match v
      case Some(x) =>
        PushU8(1);
        bytes := bytes + I64BE(x);
        assert bytes == old(bytes) + ([1] + I64BE(x));
      case None =>
        PushU8(0);
    }

    method PushBytes(b: Bytes) returns (r: Result<(), CodecError>)
      modifies this
      ensures r == if Prefixable(b) then Ok(()) else Err(TooLarge)
      ensures bytes == if Prefixable(b) then old(bytes) + EncBytes(b) else old(bytes)
    {
      if !Prefixable(b) {
        return Err(TooLarge);
      }
      PushU32(|b|);
      bytes := bytes + b;
      assert bytes == old(bytes) + (EncU32(|b|) + b);
      r := Ok(());
    }
  }

  /** A cursor over encoded bytes; a failed read says why. */
  class Reader {
    const bytes: Bytes
    var at: nat

    constructor (bytes: Bytes)
      ensures this.bytes == bytes && at == 0 && Valid() && Rest() == bytes
    {
      this.bytes := bytes;
      at := 0;
    }

    ghost predicate Valid()
      reads this
    {
      at <= |bytes|
    }

    /** What is still unread. */
    ghost function Rest(): Bytes
      reads this
      requires Valid()
    {
      bytes[at..]
    }

    method ReadRaw(n: nat) returns (r: Result<Bytes, CodecError>)
      requires Valid()
      modifies this`at
      ensures Valid()
      ensures match Take(old(Rest()), n)
              case Ok((b, rest)) => r == Ok(b) && Rest() == rest
              case Err(e) => r == Err(e)
    {
      var end := at + n;
      if end > |bytes| {
        return Err(Truncated);
      }
      r := Ok(bytes[at..end]);
      at := end;
      assert bytes[old(at)..][..n] == bytes[old(at)..end] && bytes[old(at)..][n..] == bytes[end..];
    }

    method ReadU8() returns (r: Result<Byte, CodecError>)
      requires Valid()
      modifies this`at
      ensures Valid()
      ensures match ParseU8(old(Rest()))
              case Ok((v, rest)) => r == Ok(v) && Rest() == rest
              case Err(e) => r == Err(e)
    {
      var b := ReadRaw(1);
      match b
      case Ok(one) => r := Ok(one[0]);
      case Err(e) => r := Err(e);
    }

    method ReadU32() returns (r: Result<U32, CodecError>)
      requires Valid()
      modifies this`at
      ensures Valid()
      ensures match ParseU32(old(Rest()))
              case Ok((v, rest)) => r == Ok(v) && Rest() == rest
              case Err(e) => r == Err(e)
    {
      Powers();
      var b := ReadRaw(4);
      match b
      case Ok(four) => r := Ok(FromBE(four));
      case Err(e) => r := Err(e);
    }

    method ReadI64() returns (r: Result<I64, CodecError>)
      requires Valid()
      modifies this`at
      ensures Valid()
      ensures match ParseI64(old(Rest()))
              case Ok((v, rest)) => r == Ok(v) && Rest() == rest
              case Err(e) => r == Err(e)
    {
      var b := ReadRaw(8);
      match b
      case Ok(eight) => r := Ok(FromI64BE(eight));
      case Err(e) => r := Err(e);
    }

    method ReadOptionI64() returns (r: Result<Option<I64>, CodecError>)
      requires Valid()
      modifies this`at
      ensures Valid()
      ensures match ParseOptionI64(old(Rest()))
              case Ok((v, rest)) => r == Ok(v) && Rest() == rest
              case Err(e) => r == Err(e)
    {
      var tag :- ReadU8();
      if tag == 0 {
        return Ok(None);
      } else if tag == 1 {
        var x :- ReadI64();
        return Ok(Some(x));
      }
      r := Err(UnknownTag(tag));
    }

    method ReadBytes() returns (r: Result<Bytes, CodecError>)
      requires Valid()
      modifies this`at
      ensures Valid()
      ensures match ParseBytes(old(Rest()))
              case Ok((v, rest)) => r == Ok(v) && Rest() == rest
              case Err(e) => r == Err(e)
    {
      var n :- ReadU32();
      r := ReadRaw(n);
    }

    /** Whether every byte has been read; a row must end here. */
    method AtEnd() returns (done: bool)
      requires Valid()
      ensures done <==> Rest() == []
    {
      done := at == |bytes|;
    }
  }
}
