/**
 Writing a settings record whole, and reading any generation of it. Older programs wrote fewer
 fields; a record that ends after one of those counts is read with the rest at their defaults,
 and every other cut is refused. Writing always writes all fifteen fields.
 */
module SettingsCodec {
  import opened Wrappers
  import opened Bytes
  import opened Credentials
  import opened SettingsRecord

  const FIELDS: nat := 15

  function FieldsOf(s: Settings, mail: Text): (f: seq<Text>)
    ensures |f| == FIELDS
  {
    [s.clientId, s.groups, s.shared, s.key, s.selected,
     ProviderTag(s.provider), s.openrouterKey, s.openrouterSelected,
     PlanTag(s.ollamaPlan), ParallelTag(s.openrouterParallel),
     BoolTag(s.useDecisionModel), BackendTag(s.extractionBackend),
     s.googleClientId, s.googleClientSecret, mail]
  }

  function Encode(s: Settings): Result<Bytes, SettingsError> {
    var mail :- MailTag(s.mailProviders);
    var bytes := MAGIC + EncodeFields(FieldsOf(s, mail));
    if |bytes| > BLOB_LIMIT then Err(TooLarge) else Ok(bytes)
  }

  /** The field counts a record has ended with, from the oldest to the current one. */
  predicate IsGeneration(n: nat) { n == 5 || n == 8 || 10 <= n <= 15 }

  /** A record of whole fields, the missing ones at their defaults. */
  function FromFields(f: seq<Text>): Result<Settings, SettingsError> {
    if !IsGeneration(|f|) then Err(Invalid)
    else
      var provider :- if |f| < 8 then Ok(DEFAULTS.provider) else ParseProvider(f[5]);
      var plan :- if |f| < 10 then Ok(DEFAULTS.ollamaPlan) else ParsePlan(f[8]);
      var parallel :- if |f| < 10 then Ok(DEFAULTS.openrouterParallel) else ParseParallel(f[9]);
      var decision :- if |f| < 11 then Ok(DEFAULTS.useDecisionModel) else ParseBool(f[10]);
      var backend :- if |f| < 12 then Ok(DEFAULTS.extractionBackend) else ParseBackend(f[11]);
      var mail :- if |f| < 15 then Ok(DEFAULTS.mailProviders) else ParseMail(f[14]);
      Ok(Settings(
        f[0], f[1], f[2], f[3], f[4],
        provider, if |f| < 8 then [] else f[6], if |f| < 8 then [] else f[7],
        plan, parallel, decision, backend,
        if |f| < 13 then [] else f[12], if |f| < 14 then [] else f[13], mail))
  }

  function Decode(s: Bytes): Result<Settings, SettingsError> {
    if |s| > BLOB_LIMIT || !(MAGIC <= s) then Err(Invalid)
    else
      var f := Split(s[|MAGIC|..]);
      if f.None? then Err(Invalid) else FromFields(f.value)
  }

  /** The settings with every field after the first n at its default. */
  function FirstFields(s: Settings, n: nat): Settings {
    Settings(
      s.clientId, s.groups, s.shared, s.key, s.selected,
      if n < 8 then DEFAULTS.provider else s.provider,
      if n < 8 then [] else s.openrouterKey,
      if n < 8 then [] else s.openrouterSelected,
      if n < 10 then DEFAULTS.ollamaPlan else s.ollamaPlan,
      if n < 10 then DEFAULTS.openrouterParallel else s.openrouterParallel,
      if n < 11 then DEFAULTS.useDecisionModel else s.useDecisionModel,
      if n < 12 then DEFAULTS.extractionBackend else s.extractionBackend,
      if n < 13 then [] else s.googleClientId,
      if n < 14 then [] else s.googleClientSecret,
      if n < 15 then DEFAULTS.mailProviders else s.mailProviders)
  }

  // ---- prefixes

  lemma FieldsAt(s: Settings, mail: Text)
    ensures var f := FieldsOf(s, mail);
            && f[0] == s.clientId && f[1] == s.groups && f[2] == s.shared && f[3] == s.key && f[4] == s.selected
            && f[5] == ProviderTag(s.provider) && f[6] == s.openrouterKey && f[7] == s.openrouterSelected
            && f[8] == PlanTag(s.ollamaPlan) && f[9] == ParallelTag(s.openrouterParallel)
            && f[10] == BoolTag(s.useDecisionModel) && f[11] == BackendTag(s.extractionBackend)
            && f[12] == s.googleClientId && f[13] == s.googleClientSecret && f[14] == mail
  {
    hide ProviderTag, PlanTag, ParallelTag, BoolTag, BackendTag;
  }

  lemma FromFirstFields(s: Settings, mail: Text, n: nat)
    requires MailTag(s.mailProviders) == Ok(mail) && n <= FIELDS
    ensures FromFields(FieldsOf(s, mail)[..n]) ==
              if IsGeneration(n) && (n < 10 || ParallelInRange(s.openrouterParallel)) then Ok(FirstFields(s, n))
              else Err(Invalid)
  {
    hide ParseProvider, ParsePlan, ParseParallel, ParseBool, ParseBackend, ParseMail, MailTag, FieldsOf,
         ProviderTag, PlanTag, ParallelTag, BoolTag, BackendTag;
    ProviderParses(s.provider);
    PlanParses(s.ollamaPlan);
    ParallelParses(s.openrouterParallel);
    BoolParses(s.useDecisionModel);
    BackendParses(s.extractionBackend);
    MailParses(s.mailProviders);
    FieldsAt(s, mail);
    var f := FieldsOf(s, mail)[..n];
    if IsGeneration(n) && n < 10 {
      assert FromFields(f) == Ok(FirstFields(s, n));
    }
  }

  lemma {:induction false} FieldsAreShort(fields: seq<Text>)
    requires |EncodeFields(fields)| <= BLOB_LIMIT
    ensures Short(fields)
  {
    if fields != [] {
      FieldsAreShort(fields[1..]);
      assert forall i :: 0 < i < |fields| ==> fields[i] == fields[1..][i - 1];
    }
  }

  /** Where the first n fields of an encoded record end. */
  function EndOf(s: Settings, n: nat): nat
    requires n <= FIELDS && MailTag(s.mailProviders).Ok?
  {
    |MAGIC| + End(FieldsOf(s, MailTag(s.mailProviders).value), n)
  }

  lemma DecodePrefix(s: Settings, n: nat)
    requires Encode(s).Ok? && n <= FIELDS
    ensures EndOf(s, n) <= |Encode(s).value|
    ensures Decode(Encode(s).value[..EndOf(s, n)]) ==
              if IsGeneration(n) && (n < 10 || ParallelInRange(s.openrouterParallel)) then Ok(FirstFields(s, n))
              else Err(Invalid)
  {
    hide FieldsOf, FromFields, Split, EncodeFields, FirstFields, MailTag;
    var mail := MailTag(s.mailProviders).value;
    var fields := FieldsOf(s, mail);
    FieldsAreShort(fields);
    WholePrefixSplits(fields, n);
    FromFirstFields(s, mail, n);
    var p := Encode(s).value[..EndOf(s, n)];
    assert p[|MAGIC|..] == EncodeFields(fields)[..End(fields, n)];
  }

  /**
   A cut record reads back exactly when it ends with one of the generations, and then
   gives the settings with the missing fields at their defaults.
   */
  lemma PrefixDecodesIff(s: Settings, m: nat)
    requires Encode(s).Ok? && ParallelInRange(s.openrouterParallel) && m <= |Encode(s).value|
    ensures Decode(Encode(s).value[..m]).Ok? <==>
              exists n :: 0 <= n <= FIELDS && n in {5, 8, 10, 11, 12, 13, 14, 15} && m == EndOf(s, n)
    ensures forall n :: 0 <= n <= FIELDS && n in {5, 8, 10, 11, 12, 13, 14, 15} && m == EndOf(s, n) ==>
              Decode(Encode(s).value[..m]) == Ok(FirstFields(s, n))
  {
    hide FieldsOf, FromFields, Split, EncodeFields, FirstFields, MailTag;
    forall n | 0 <= n <= FIELDS && m == EndOf(s, n)
      ensures Decode(Encode(s).value[..m]) == if IsGeneration(n) then Ok(FirstFields(s, n)) else Err(Invalid)
    {
      DecodePrefix(s, n);
    }
    if Decode(Encode(s).value[..m]).Ok? {
      var fields := FieldsOf(s, MailTag(s.mailProviders).value);
      FieldsAreShort(fields);
      var p := Encode(s).value[..m];
      assert p[|MAGIC|..] == EncodeFields(fields)[..m - |MAGIC|];
      var n := SplitPrefixIsWhole(fields, m - |MAGIC|);
      assert m == EndOf(s, n);
    }
  }

  /** A record that was written reads back, unless its parallel ceiling was never in range. */
  lemma RoundTripIff(s: Settings)
    requires Encode(s).Ok?
    ensures Decode(Encode(s).value) == if ParallelInRange(s.openrouterParallel) then Ok(s) else Err(Invalid)
  {
    hide FieldsOf, FromFields, Split, EncodeFields, MailTag;
    DecodePrefix(s, FIELDS);
    var fields := FieldsOf(s, MailTag(s.mailProviders).value);
    assert fields[..FIELDS] == fields;
    var all := Encode(s).value;
    assert all[..EndOf(s, FIELDS)] == all;
  }

  /** Writing fails only for an empty provider set or a record over the limit. */
  lemma EncodeSucceedsIff(s: Settings)
    ensures Encode(s) == Err(Invalid) <==> s.mailProviders == {}
    ensures Encode(s) == Err(TooLarge) <==>
              s.mailProviders != {}
                && |MAGIC| + |EncodeFields(FieldsOf(s, MailTag(s.mailProviders).value))| > 2560
  {
    hide FieldsOf, EncodeFields, MailTag;
    MailParses(s.mailProviders);
  }

  // ---- reading anything, and writing it again

  lemma FromFieldsIsSound(f: seq<Text>)
    requires FromFields(f).Ok?
    ensures ParallelInRange(FromFields(f).value.openrouterParallel) && FromFields(f).value.mailProviders != {}
  {
    hide ParseProvider, ParsePlan, ParseBool, ParseBackend, ParseMail, ParseU16;
    if |f| == 15 {
      ParsedMailIsSome(f[14]);
    }
  }

  /** Any settings that were read can be written again unless they no longer fit, and then read back the same. */
  lemma DecodedSettingsRewrite(b: Bytes)
    requires Decode(b).Ok?
    ensures var s := Decode(b).value;
            && (Encode(s).Ok? || Encode(s) == Err(TooLarge))
            && (Encode(s).Ok? ==> Decode(Encode(s).value) == Ok(s))
  {
    hide FromFields, Split, EncodeFields, FieldsOf, MailTag;
    var s := Decode(b).value;
    FromFieldsIsSound(Split(b[|MAGIC|..]).value);
    EncodeSucceedsIff(s);
    match Encode(s)
    case Ok(_) => RoundTripIff(s);
    case Err(e) => match e case Invalid => case TooLarge =>
  }

  lemma EncodeCons(t: Text, fields: seq<Text>)
    ensures EncodeFields([t] + fields) == EncodeField(t) + EncodeFields(fields)
  {
    hide EncodeField;
    assert ([t] + fields)[1..] == fields;
  }

  lemma {:induction false} EncodeFieldsConcat(a: seq<Text>, b: seq<Text>)
    ensures EncodeFields(a + b) == EncodeFields(a) + EncodeFields(b)
  {
    hide EncodeField, EncodeFields;
    if a == [] {
      NothingEncoded();
      assert a + b == b && [] + EncodeFields(b) == EncodeFields(b);
    } else {
      EncodeFieldsConcat(a[1..], b);
      EncodeCons(a[0], a[1..]);
      EncodeCons(a[0], a[1..] + b);
      assert [a[0]] + a[1..] == a && [a[0]] + (a[1..] + b) == a + b;
    }
  }

  lemma NothingEncoded()
    ensures EncodeFields([]) == []
  {
  }

  lemma {:induction false} FieldsLength(fields: seq<Text>)
    ensures |EncodeFields(fields)| == TotalLength(fields)
  {
    if fields != [] {
      FieldsLength(fields[1..]);
    }
  }

  function TotalLength(fields: seq<Text>): nat {
    if fields == [] then 0 else 4 + |fields[0]| + TotalLength(fields[1..])
  }

  lemma TotalConcat(a: seq<Text>, b: seq<Text>)
    ensures TotalLength(a + b) == TotalLength(a) + TotalLength(b)
  {
    hide EncodeFields, TotalLength;
    EncodeFieldsConcat(a, b);
    FieldsLength(a);
    FieldsLength(b);
    FieldsLength(a + b);
  }

  lemma TotalStep(t: seq<Text>, i: nat)
    requires i < |t|
    ensures TotalLength(t[i..]) == 4 + |t[i]| + TotalLength(t[i + 1..])
  {
    assert t[i..][1..] == t[i + 1..];
  }

  lemma TotalUpdated(t: seq<Text>, i: nat, x: Text)
    requires i < |t|
    ensures TotalLength(t[i := x]) + |t[i]| == TotalLength(t) + |x|
  {
    hide TotalLength;
    var u := t[i := x];
    TotalStep(t, i);
    TotalStep(u, i);
    TotalConcat(t[..i], t[i..]);
    TotalConcat(u[..i], u[i..]);
    assert t == t[..i] + t[i..] && u == u[..i] + u[i..];
    assert u[..i] == t[..i] && u[i + 1..] == t[i + 1..];
  }

  /** How long each field is at its default. */
  function DefaultLength(i: nat): nat {
    match i
    case 5 => |"ollama_cloud"|
    case 8 => |"free"|
    case 9 => |"32"|
    case 10 => |"false"|
    case 11 => |"chat"|
    case 14 => |"ms"|
    case _ => 0
  }

  /** What a record of n fields gains when it is written again: its missing fields at their defaults. */
  function Growth(n: nat): nat
    decreases FIELDS - n
  {
    if n >= FIELDS then 0 else 4 + DefaultLength(n) + Growth(n + 1)
  }

  lemma GrowthOfEachGeneration()
    ensures Growth(5) == 69 && Growth(8) == 45 && Growth(10) == 31 && Growth(11) == 22
    ensures Growth(12) == 14 && Growth(13) == 10 && Growth(14) == 6 && Growth(15) == 0
  {
    assert Growth(13) == 4 + Growth(14);
    assert Growth(11) == 8 + Growth(12);
    assert Growth(9) == 6 + Growth(10);
    assert Growth(7) == 4 + Growth(8);
    assert Growth(5) == 16 + Growth(6);
  }

  /** What is lost by printing the parallel ceiling afresh: a sign and leading zeros. */
  function Trimmed(f: seq<Text>): int
    requires FromFields(f).Ok?
  {
    if |f| < 10 then 0 else |f[9]| - |ParallelTag(FromFields(f).value.openrouterParallel)|
  }

  /** The fields of what was read are the fields that were there, with the ceiling printed afresh. */
  lemma FieldsComeBack(f: seq<Text>, mail: Text)
    requires FromFields(f).Ok? && MailTag(FromFields(f).value.mailProviders) == Ok(mail)
    ensures var s := FromFields(f).value;
            && FieldsOf(s, mail)[..|f|] == (if |f| < 10 then f else f[9 := ParallelTag(s.openrouterParallel)])
            && s == FirstFields(s, |f|)
  {
    hide ParseProvider, ParsePlan, ParseParallel, ParseBool, ParseBackend, ParseMail, ParallelTag, FieldsOf, MailTag,
         ProviderTag, PlanTag, BoolTag, BackendTag;
    var s := FromFields(f).value;
    FieldsAt(s, mail);
    if |f| >= 8 { ProviderExact(f[5]); }
    if |f| >= 10 { PlanExact(f[8]); }
    if |f| >= 11 { BoolExact(f[10]); }
    if |f| >= 12 { BackendExact(f[11]); }
    if |f| >= 15 { MailExact(f[14]); }
  }

  lemma DefaultField(s: Settings, mail: Text, n: nat, i: nat)
    requires IsGeneration(n) && s == FirstFields(s, n) && MailTag(s.mailProviders) == Ok(mail) && n <= i < FIELDS
    ensures |FieldsOf(s, mail)[i]| == DefaultLength(i)
  {
    hide FieldsOf;
    FieldsAt(s, mail);
    DecimalIsDigits(32);
    assert |ParallelTag(32)| == 2;
  }

  lemma {:induction false} DefaultTail(s: Settings, mail: Text, n: nat, i: nat)
    requires IsGeneration(n) && s == FirstFields(s, n) && MailTag(s.mailProviders) == Ok(mail) && n <= i <= FIELDS
    ensures TotalLength(FieldsOf(s, mail)[i..]) == Growth(i)
    decreases FIELDS - i
  {
    hide FieldsOf, FirstFields, MailTag, DefaultLength;
    if i < FIELDS {
      DefaultField(s, mail, n, i);
      TotalStep(FieldsOf(s, mail), i);
      DefaultTail(s, mail, n, i + 1);
    }
  }

  /**
   A record of any generation gains its missing fields when it is written again, and loses only
   what its parallel ceiling was padded with; it is refused exactly when that passes the limit.
   */
  lemma EveryGenerationRewrites(b: Bytes)
    requires Decode(b).Ok?
    ensures var f, s := Split(b[|MAGIC|..]).value, Decode(b).value;
            var size := |b| + Growth(|f|) - Trimmed(f);
            && (Encode(s).Ok? <==> size <= 2560)
            && (Encode(s).Ok? ==> |Encode(s).value| == size)
  {
    hide EncodeFields, FieldsOf, Split, MailTag, TotalLength, FromFields, FirstFields, ParallelTag, Growth;
    var f := Split(b[|MAGIC|..]).value;
    var s := Decode(b).value;
    SplitExact(b[|MAGIC|..]);
    FieldsLength(f);
    FromFieldsIsSound(f);
    MailParses(s.mailProviders);
    var mail := MailTag(s.mailProviders).value;
    var all := FieldsOf(s, mail);
    FieldsLength(all);
    FieldsComeBack(f, mail);
    AnyGeneration(f);
    DefaultTail(s, mail, |f|, |f|);
    TotalConcat(all[..|f|], all[|f|..]);
    assert all == all[..|f|] + all[|f|..];
    if |f| >= 10 {
      TotalUpdated(f, 9, ParallelTag(s.openrouterParallel));
    }
  }

  lemma AnyGeneration(f: seq<Text>)
    requires FromFields(f).Ok?
    ensures IsGeneration(|f|)
  {
  }
}
