/**
 The settings codec as the program runs it: a growing buffer, and a shrinking rest read in stages,
 each of which may find the end of an older record.
 */
module SettingsReader {
  import opened Wrappers
  import opened Bytes
  import opened Credentials
  import opened SettingsRecord
  import opened SettingsCodec

  method EncodeRecord(s: Settings) returns (r: Result<Bytes, SettingsError>)
    ensures r == Encode(s)
  {
    hide FieldsOf, EncodeField, MailTag;
    var mail :- MailTag(s.mailProviders);
    var fields := FieldsOf(s, mail);
    var size := |MAGIC|;
    var i := 0;
    assert fields[..0] == [];
    while i < |fields|
      invariant 0 <= i <= |fields|
      invariant size == |MAGIC| + |EncodeFields(fields[..i])|
    {
      OneMoreField(fields, i);
      size := size + 4 + |fields[i]|;
      i := i + 1;
    }
    assert fields[..|fields|] == fields;
    if size > BLOB_LIMIT {
      return Err(TooLarge);
    }
    var bytes := MAGIC;
    assert MAGIC + EncodeFields(fields[..0]) == MAGIC;
    i := 0;
    while i < |fields|
      invariant 0 <= i <= |fields|
      invariant bytes == MAGIC + EncodeFields(fields[..i])
    {
      OneMoreField(fields, i);
      bytes := bytes + EncodeField(fields[i]);
      i := i + 1;
    }
    r := Ok(bytes);
  }

  lemma OneMoreField(fields: seq<Text>, i: nat)
    requires i < |fields|
    ensures MAGIC + EncodeFields(fields[..i + 1]) == MAGIC + EncodeFields(fields[..i]) + EncodeField(fields[i])
    ensures |EncodeFields(fields[..i + 1])| == |EncodeFields(fields[..i])| + 4 + |fields[i]|
  {
    hide EncodeField;
    assert fields[..i + 1] == fields[..i] + [fields[i]];
    EncodeFieldsConcat(fields[..i], [fields[i]]);
    assert [fields[i]][1..] == [];
    assert EncodeField(fields[i]) + [] == EncodeField(fields[i]);
  }

  /** A cursor over a record's fields. */
  class FieldCursor {
    var remaining: Bytes
    ghost var read: seq<Text>
    ghost const whole: Bytes

    constructor (bytes: Bytes)
      ensures Valid() && whole == bytes == remaining && read == []
    {
      remaining, read, whole := bytes, [], bytes;
      new;
      if Split(whole).Some? {
        assert [] + Split(whole).value == Split(whole).value;
      }
    }

    /** What was read and what remains make up the whole. */
    ghost predicate Valid()
      reads this
    {
      match Split(remaining)
      case None => Split(whole) == None
      case Some(rest) => Split(whole) == Some(read + rest)
    }

    method Next() returns (r: Result<Text, SettingsError>)
      requires Valid()
      modifies this`remaining, this`read
      ensures Valid()
      ensures r.Err? ==> r.error == Invalid && read == old(read)
      ensures r.Err? ==> Split(whole) == if old(remaining) == [] then Some(read) else None
      ensures r.Ok? ==> read == old(read) + [r.value]
      ensures r.Ok? && Split(whole).Some? ==>
                |Split(whole).value| > |old(read)| && Split(whole).value[|old(read)|] == r.value
    {
      hide SettingsRecord.Next;
      var field := SettingsRecord.Next(remaining);
      SplitNext(remaining);
      if field.None? {
        if remaining == [] {
          assert read + [] == read;
        }
        return Err(Invalid);
      }
      ghost var before, rest := read, Split(field.value.1);
      remaining, read := field.value.1, read + [field.value.0];
      if rest.Some? {
        assert before + ([field.value.0] + rest.value) == read + rest.value;
      }
      r := Ok(field.value.0);
    }
  }

  lemma SplitNext(s: Bytes)
    ensures Next(s).None? ==> Split(s) == if s == [] then Some([]) else None
    ensures Next(s).Some? ==>
              var (t, rest) := Next(s).value;
              Split(s) == if Split(rest).None? then None else Some([t] + Split(rest).value)
  {
  }

  /** The bytes are no settings record: not whole fields, too few or too many of them, or a tag unknown. */
  ghost predicate Rejected(bytes: Bytes) {
    Split(bytes).None? || FromFields(Split(bytes).value) == Err(Invalid)
  }

  /** What has been read is a record of an older generation, and s is its value. */
  ghost predicate ReadSoFar(c: FieldCursor, s: Settings, n: nat)
    reads c
  {
    c.Valid() && FromFields(c.read) == Ok(s) && (c.remaining != [] ==> |c.read| == n)
  }

  lemma FromFieldsNeeds(f: seq<Text>)
    ensures FromFields(f).Err? ==> FromFields(f) == Err(Invalid)
    ensures FromFields(f).Ok? ==>
              && IsGeneration(|f|)
              && (|f| >= 8 ==> ParseProvider(f[5]).Ok?)
              && (|f| >= 10 ==> ParsePlan(f[8]).Ok? && ParseParallel(f[9]).Ok?)
              && (|f| >= 11 ==> ParseBool(f[10]).Ok?)
              && (|f| >= 12 ==> ParseBackend(f[11]).Ok?)
              && (|f| >= 15 ==> ParseMail(f[14]).Ok?)
  {
    hide ParseProvider, ParsePlan, ParseParallel, ParseBool, ParseBackend, ParseMail;
  }

  /** Too short to be any generation. */
  lemma NoGeneration(f: seq<Text>)
    requires !IsGeneration(|f|)
    ensures FromFields(f) == Err(Invalid)
  {
  }

  method ReadFirst(c: FieldCursor) returns (r: Result<Settings, SettingsError>)
    requires c.Valid() && c.read == []
    modifies c
    ensures r.Ok? ==> ReadSoFar(c, r.value, 5)
    ensures r.Err? ==> r.error == Invalid && Rejected(c.whole)
  {
    hide Split;
    var clientId :- c.Next();
    var groups :- c.Next();
    var shared :- c.Next();
    var key :- c.Next();
    var selected :- c.Next();
    r := Ok(DEFAULTS.(clientId := clientId, groups := groups, shared := shared, key := key, selected := selected));
  }

  method ReadProvider(c: FieldCursor, s: Settings) returns (r: Result<Settings, SettingsError>)
    requires ReadSoFar(c, s, 5)
    modifies c
    ensures r.Ok? ==> ReadSoFar(c, r.value, 8)
    ensures r.Err? ==> r.error == Invalid && Rejected(c.whole)
  {
    hide Split, ParseProvider;
    if c.remaining == [] {
      return Ok(s);
    }
    if Split(c.whole).Some? {
      FromFieldsNeeds(Split(c.whole).value);
    }
    var tag :- c.Next();
    var provider :- ParseProvider(tag);
    var openrouterKey :- c.Next();
    var openrouterSelected :- c.Next();
    r := Ok(s.(provider := provider, openrouterKey := openrouterKey, openrouterSelected := openrouterSelected));
  }

  method ReadConcurrency(c: FieldCursor, s: Settings) returns (r: Result<Settings, SettingsError>)
    requires ReadSoFar(c, s, 8)
    modifies c
    ensures r.Ok? ==> ReadSoFar(c, r.value, 10)
    ensures r.Err? ==> r.error == Invalid && Rejected(c.whole)
  {
    hide Split, ParseProvider, ParsePlan, ParseParallel;
    if c.remaining == [] {
      return Ok(s);
    }
    if Split(c.whole).Some? {
      FromFieldsNeeds(Split(c.whole).value);
    }
    var plan :- c.Next();
    var ollamaPlan :- ParsePlan(plan);
    var parallel :- c.Next();
    var ceiling :- ParseParallel(parallel);
    r := Ok(s.(ollamaPlan := ollamaPlan, openrouterParallel := ceiling));
  }

  method ReadDecision(c: FieldCursor, s: Settings) returns (r: Result<Settings, SettingsError>)
    requires ReadSoFar(c, s, 10)
    modifies c
    ensures r.Ok? ==> ReadSoFar(c, r.value, 11)
    ensures r.Err? ==> r.error == Invalid && Rejected(c.whole)
  {
    hide Split, ParseProvider, ParsePlan, ParseParallel, ParseBool;
    if c.remaining == [] {
      return Ok(s);
    }
    if Split(c.whole).Some? {
      FromFieldsNeeds(Split(c.whole).value);
    }
    var tag :- c.Next();
    var decision :- ParseBool(tag);
    r := Ok(s.(useDecisionModel := decision));
  }

  method ReadBackend(c: FieldCursor, s: Settings) returns (r: Result<Settings, SettingsError>)
    requires ReadSoFar(c, s, 11)
    modifies c
    ensures r.Ok? ==> ReadSoFar(c, r.value, 12)
    ensures r.Err? ==> r.error == Invalid && Rejected(c.whole)
  {
    hide Split, ParseProvider, ParsePlan, ParseParallel, ParseBool, ParseBackend;
    if c.remaining == [] {
      return Ok(s);
    }
    if Split(c.whole).Some? {
      FromFieldsNeeds(Split(c.whole).value);
    }
    var tag :- c.Next();
    var backend :- ParseBackend(tag);
    r := Ok(s.(extractionBackend := backend));
  }

  method ReadGoogleClientId(c: FieldCursor, s: Settings) returns (r: Result<Settings, SettingsError>)
    requires ReadSoFar(c, s, 12)
    modifies c
    ensures r.Ok? ==> ReadSoFar(c, r.value, 13)
    ensures r.Err? ==> r.error == Invalid && Rejected(c.whole)
  {
    hide Split, ParseProvider, ParsePlan, ParseParallel, ParseBool, ParseBackend;
    if c.remaining == [] {
      return Ok(s);
    }
    var googleClientId :- c.Next();
    r := Ok(s.(googleClientId := googleClientId));
  }

  method ReadGoogleClientSecret(c: FieldCursor, s: Settings) returns (r: Result<Settings, SettingsError>)
    requires ReadSoFar(c, s, 13)
    modifies c
    ensures r.Ok? ==> ReadSoFar(c, r.value, 14)
    ensures r.Err? ==> r.error == Invalid && Rejected(c.whole)
  {
    hide Split, ParseProvider, ParsePlan, ParseParallel, ParseBool, ParseBackend;
    if c.remaining == [] {
      return Ok(s);
    }
    var googleClientSecret :- c.Next();
    r := Ok(s.(googleClientSecret := googleClientSecret));
  }

  method ReadMail(c: FieldCursor, s: Settings) returns (r: Result<Settings, SettingsError>)
    requires ReadSoFar(c, s, 14)
    modifies c
    ensures r.Ok? ==> ReadSoFar(c, r.value, 15)
    ensures r.Err? ==> r.error == Invalid && Rejected(c.whole)
  {
    hide Split, ParseProvider, ParsePlan, ParseParallel, ParseBool, ParseBackend, ParseMail;
    if c.remaining == [] {
      return Ok(s);
    }
    if Split(c.whole).Some? {
      FromFieldsNeeds(Split(c.whole).value);
    }
    var tag :- c.Next();
    var providers :- ParseMail(tag);
    r := Ok(s.(mailProviders := providers));
  }

  /** At the end the record is what was read; with bytes left over after the last field it is none. */
  lemma AtTheEnd(c: FieldCursor, s: Settings)
    requires ReadSoFar(c, s, 15)
    ensures c.remaining == [] ==> Split(c.whole) == Some(c.read)
    ensures c.remaining != [] ==> Rejected(c.whole)
  {
    hide FromFields;
    assert c.read + [] == c.read;
    if c.remaining != [] && Split(c.whole).Some? {
      NoGeneration(Split(c.whole).value);
    }
  }

  method DecodeRecord(bytes: Bytes) returns (r: Result<Settings, SettingsError>)
    ensures r == Decode(bytes)
  {
    hide Split, FromFields;
    if |bytes| > BLOB_LIMIT || !(MAGIC <= bytes) {
      return Err(Invalid);
    }
    var c := new FieldCursor(bytes[|MAGIC|..]);
    var s0 :- ReadFirst(c);
    var s1 :- ReadProvider(c, s0);
    var s2 :- ReadConcurrency(c, s1);
    var s3 :- ReadDecision(c, s2);
    var s4 :- ReadBackend(c, s3);
    var s5 :- ReadGoogleClientId(c, s4);
    var s6 :- ReadGoogleClientSecret(c, s5);
    var s :- ReadMail(c, s6);
    AtTheEnd(c, s);
    if c.remaining != [] {
      return Err(Invalid);
    }
    r := Ok(s);
  }
}
