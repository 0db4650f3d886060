/**
 The one settings record: fifteen length-prefixed fields, of which older records hold a prefix.
 Each field is read from its text and written as its text.
 */
module SettingsRecord {
  import opened Wrappers
  import opened Bytes
  import opened Credentials
  import opened Chars

  datatype Provider = OllamaCloud | OpenRouter

  datatype OllamaPlan = Free | Pro | Max

  datatype ExtractionBackend = ChatModel | DecisionModel

  datatype Settings = Settings(
    clientId: Text, groups: Text, shared: Text, key: Text, selected: Text,
    provider: Provider, openrouterKey: Text, openrouterSelected: Text,
    ollamaPlan: OllamaPlan, openrouterParallel: U16,
    useDecisionModel: bool,
    extractionBackend: ExtractionBackend,
    googleClientId: Text,
    googleClientSecret: Text,
    mailProviders: set<MailProvider>)

  datatype SettingsError = Invalid | TooLarge

  /** "OpenLoopsSetup" and a version byte. */
  const MAGIC: Bytes := [79, 112, 101, 110, 76, 111, 111, 112, 115, 83, 101, 116, 117, 112, 1]

  const DEFAULTS := Settings(
    [], [], [], [], [], OllamaCloud, [], [], Free, 32, false, ChatModel, [], [], {Microsoft})

  // ---- tags

  lemma {:induction false} AsciiIsUtf8(s: Bytes)
    requires forall i :: 0 <= i < |s| ==> s[i] < 128
    ensures IsUtf8(s)
  {
    if s != [] {
      AsciiIsUtf8(s[1..]);
    }
  }

  /** A string of ASCII characters as its bytes. */
  function Ascii(s: string): (r: Text)
    requires forall i :: 0 <= i < |s| ==> s[i] as int < 128
    ensures |r| == |s| && forall i :: 0 <= i < |s| ==> r[i] == s[i] as int
  {
    var r: Bytes := seq(|s|, i requires 0 <= i < |s| => s[i] as int);
    AsciiIsUtf8(r);
    r
  }

  function ProviderTag(p: Provider): Text {
    match p case OllamaCloud => Ascii("ollama_cloud") case OpenRouter => Ascii("openrouter")
  }

  function ParseProvider(t: Text): (r: Result<Provider, SettingsError>)
    ensures r.Err? ==> r.error == Invalid
  {
    if t == Ascii("ollama_cloud") then Ok(OllamaCloud)
    else if t == Ascii("openrouter") then Ok(OpenRouter)
    else Err(Invalid)
  }

  function PlanTag(p: OllamaPlan): Text {
    match p case Free => Ascii("free") case Pro => Ascii("pro") case Max => Ascii("max")
  }

  function ParsePlan(t: Text): (r: Result<OllamaPlan, SettingsError>)
    ensures r.Err? ==> r.error == Invalid
  {
    if t == Ascii("free") then Ok(Free)
    else if t == Ascii("pro") then Ok(Pro)
    else if t == Ascii("max") then Ok(Max)
    else Err(Invalid)
  }

  function BoolTag(b: bool): Text { if b then Ascii("true") else Ascii("false") }

  function ParseBool(t: Text): (r: Result<bool, SettingsError>)
    ensures r.Err? ==> r.error == Invalid
  {
    if t == Ascii("true") then Ok(true) else if t == Ascii("false") then Ok(false) else Err(Invalid)
  }

  function BackendTag(b: ExtractionBackend): Text {
    match b case ChatModel => Ascii("chat") case DecisionModel => Ascii("decision")
  }

  function ParseBackend(t: Text): (r: Result<ExtractionBackend, SettingsError>)
    ensures r.Err? ==> r.error == Invalid
  {
    if t == Ascii("chat") then Ok(ChatModel) else if t == Ascii("decision") then Ok(DecisionModel) else Err(Invalid)
  }

  function MailTag(providers: set<MailProvider>): Result<Text, SettingsError> {
    if Microsoft in providers && Google in providers then Ok(Ascii("ms,google"))
    else if Microsoft in providers then Ok(Ascii("ms"))
    else if Google in providers then Ok(Ascii("google"))
    else Err(Invalid)
  }

  function ParseMail(t: Text): (r: Result<set<MailProvider>, SettingsError>)
    ensures r.Err? ==> r.error == Invalid
  {
    if t == Ascii("ms") then Ok({Microsoft})
    else if t == Ascii("google") then Ok({Google})
    else if t == Ascii("ms,google") then Ok({Microsoft, Google})
    else Err(Invalid)
  }

  lemma ProviderParses(p: Provider)
    ensures ParseProvider(ProviderTag(p)) == Ok(p)
  {
  }

  lemma PlanParses(p: OllamaPlan)
    ensures ParsePlan(PlanTag(p)) == Ok(p)
  {
    assert Ascii("pro")[0] != Ascii("max")[0];
  }

  lemma BoolParses(b: bool)
    ensures ParseBool(BoolTag(b)) == Ok(b)
  {
  }

  lemma BackendParses(b: ExtractionBackend)
    ensures ParseBackend(BackendTag(b)) == Ok(b)
  {
  }

  lemma MailSets(providers: set<MailProvider>)
    ensures providers == {} || providers == {Microsoft} || providers == {Google} || providers == {Microsoft, Google}
  {
    forall m | m in providers ensures m == Microsoft || m == Google {
      match m case Microsoft => case Google =>
    }
    if Microsoft in providers {
      assert providers == {Microsoft} || providers == {Microsoft, Google};
    } else {
      assert providers == {} || providers == {Google};
    }
  }

  /** The three tags, told apart by their lengths. */
  lemma MailTagsParse()
    ensures ParseMail(Ascii("ms")) == Ok({Microsoft})
    ensures ParseMail(Ascii("google")) == Ok({Google})
    ensures ParseMail(Ascii("ms,google")) == Ok({Microsoft, Google})
  {
  }

  lemma MailParses(providers: set<MailProvider>)
    ensures MailTag(providers) == Err(Invalid) || MailTag(providers).Ok?
    ensures MailTag(providers).Ok? <==> providers != {}
    ensures MailTag(providers).Ok? ==> ParseMail(MailTag(providers).value) == Ok(providers)
  {
    hide ParseMail, Ascii;
    MailSets(providers);
    MailTagsParse();
  }

  lemma ParsedMailIsSome(t: Text)
    ensures ParseMail(t).Ok? ==> ParseMail(t).value != {}
  {
  }

  // ---- a tag that is accepted is the tag of what it says

  lemma ProviderExact(t: Text)
    ensures ParseProvider(t).Ok? ==> ProviderTag(ParseProvider(t).value) == t
  {
  }

  lemma PlanExact(t: Text)
    ensures ParsePlan(t).Ok? ==> PlanTag(ParsePlan(t).value) == t
  {
  }

  lemma BoolExact(t: Text)
    ensures ParseBool(t).Ok? ==> BoolTag(ParseBool(t).value) == t
  {
  }

  lemma BackendExact(t: Text)
    ensures ParseBackend(t).Ok? ==> BackendTag(ParseBackend(t).value) == t
  {
  }

  lemma MailExact(t: Text)
    ensures ParseMail(t).Ok? ==> MailTag(ParseMail(t).value) == Ok(t)
  {
    hide Ascii;
  }

  // ---- the parallel ceiling

  predicate AllDigits(t: Bytes) { forall i :: 0 <= i < |t| ==> '0' as int <= t[i] <= '9' as int }

  function Value(t: Bytes): nat
    requires AllDigits(t)
  {
    if t == [] then 0 else 10 * Value(t[..|t| - 1]) + (t[|t| - 1] - '0' as int)
  }

  /** An unsigned 16-bit number: one sign character '+' and leading zeros are let through. */
  function ParseU16(t: Bytes): Option<U16> {
    var digits := if t != [] && t[0] == '+' as int then t[1..] else t;
    if digits == [] || !AllDigits(digits) || Value(digits) >= 0x1_0000 then None else Some(Value(digits))
  }

  predicate ParallelInRange(n: int) { 1 <= n <= 100 }

  function ParseParallel(t: Text): (r: Result<U16, SettingsError>)
    ensures r.Err? ==> r.error == Invalid
  {
    var n := ParseU16(t);
    if n.Some? && ParallelInRange(n.value) then Ok(n.value) else Err(Invalid)
  }

  lemma {:induction false} DecimalIsDigits(n: nat)
    ensures Decimal(n) != [] && forall i :: 0 <= i < |Decimal(n)| ==> IsAsciiDigit(Decimal(n)[i])
  {
    if n >= 10 {
      DecimalIsDigits(n / 10);
    }
  }

  function ParallelTag(n: U16): Text {
    DecimalIsDigits(n);
    Ascii(Decimal(n))
  }

  lemma {:induction false} DecimalValue(n: nat, t: Bytes)
    requires |t| == |Decimal(n)| && forall i :: 0 <= i < |t| ==> t[i] == Decimal(n)[i] as int
    ensures AllDigits(t) && Value(t) == n
  {
    DecimalIsDigits(n);
    if n < 10 {
      assert t[..0] == [];
    } else {
      DecimalValue(n / 10, t[..|t| - 1]);
    }
  }

  lemma ParallelParses(n: U16)
    ensures ParseParallel(ParallelTag(n)) == if ParallelInRange(n) then Ok(n) else Err(Invalid)
  {
    DecimalIsDigits(n);
    DecimalValue(n, ParallelTag(n));
  }

  // ---- fields

  function EncodeField(t: Bytes): (r: Bytes)
    ensures |r| == 4 + |t|
  {
    ToLE(|t|, 4) + t
  }

  function EncodeFields(fields: seq<Text>): Bytes {
    if fields == [] then [] else EncodeField(fields[0]) + EncodeFields(fields[1..])
  }

  /** The next field and what follows it. */
  function Next(s: Bytes): Option<(Text, Bytes)> {
    if |s| < 4 || |s| - 4 < FromLE(s[..4]) then None
    else
      var n := FromLE(s[..4]);
      var t := s[4..][..n];
      if IsUtf8(t) then Some((t, s[4..][n..])) else None
  }

  /** Every field of a record, if it is made of whole fields. */
  function Split(s: Bytes): Option<seq<Text>>
    decreases |s|
  {
    if s == [] then Some([])
    else
      var field := Next(s);
      if field.None? then None
      else
        var others := Split(field.value.1);
        if others.None? then None else Some([field.value.0] + others.value)
  }

  lemma FieldParses(t: Text, rest: Bytes)
    requires |t| < 0x1_0000_0000
    ensures Next(EncodeField(t) + rest) == Some((t, rest))
  {
    hide ToLE, FromLE, IsUtf8;
    Powers();
    LERoundTrip(|t|, 4);
    var s := EncodeField(t) + rest;
    assert s[..4] == ToLE(|t|, 4);
    assert s[4..] == t + rest;
    assert s[4..][..|t|] == t && s[4..][|t|..] == rest;
  }

  lemma FieldExact(s: Bytes)
    requires Next(s).Some?
    ensures s == EncodeField(Next(s).value.0) + Next(s).value.1
  {
    LEUnique(s[..4]);
    assert s == s[..4] + (s[4..][..FromLE(s[..4])] + s[4..][FromLE(s[..4])..]);
  }

  /** Less than a whole field is no field. */
  lemma ShortField(t: Text, rest: Bytes, m: nat)
    requires |t| < 0x1_0000_0000 && m < 4 + |t|
    ensures Next((EncodeField(t) + rest)[..m]).None?
  {
    Powers();
    LERoundTrip(|t|, 4);
    var s := (EncodeField(t) + rest)[..m];
    if m >= 4 {
      assert s[..4] == ToLE(|t|, 4);
    }
  }

  predicate Short(fields: seq<Text>) { forall i :: 0 <= i < |fields| ==> |fields[i]| < 0x1_0000_0000 }

  /** Where the k-th field ends. */
  function End(fields: seq<Text>, k: nat): nat
    requires k <= |fields|
  {
    |EncodeFields(fields[..k])|
  }

  lemma EndStep(fields: seq<Text>, k: nat)
    requires 0 < k <= |fields|
    ensures End(fields, k) == 4 + |fields[0]| + End(fields[1..], k - 1)
  {
    assert fields[..k][1..] == fields[1..][..k - 1];
  }

  /** Splitting past one whole field. */
  lemma SplitStep(t: Text, rest: Bytes)
    requires |t| < 0x1_0000_0000
    ensures Split(EncodeField(t) + rest) ==
              if Split(rest).None? then None else Some([t] + Split(rest).value)
  {
    hide Next, EncodeField;
    FieldParses(t, rest);
    assert |EncodeField(t) + rest| > 0;
  }

  /** Splitting what stops inside a field. */
  lemma SplitShort(t: Text, rest: Bytes, m: nat)
    requires |t| < 0x1_0000_0000 && 0 < m < 4 + |t|
    ensures Split((EncodeField(t) + rest)[..m]).None?
  {
    hide Next, EncodeField;
    ShortField(t, rest, m);
  }

  /** A prefix that ends with the k-th field splits into the first k fields. */
  lemma {:induction false} WholePrefixSplits(fields: seq<Text>, k: nat)
    requires Short(fields) && k <= |fields|
    ensures End(fields, k) <= |EncodeFields(fields)|
    ensures Split(EncodeFields(fields)[..End(fields, k)]) == Some(fields[..k])
  {
    hide EncodeField, Split;
    if k == 0 {
      assert fields[..0] == [];
      NothingSplits();
    } else {
      var t, tail := fields[0], EncodeFields(fields[1..]);
      WholePrefixSplits(fields[1..], k - 1);
      EndStep(fields, k);
      var m := End(fields[1..], k - 1);
      assert EncodeFields(fields)[..End(fields, k)] == EncodeField(t) + tail[..m];
      SplitStep(t, tail[..m]);
      assert [t] + fields[1..][..k - 1] == fields[..k];
    }
  }

  lemma NothingSplits()
    ensures Split([]) == Some([])
  {
  }

  /** A prefix that splits at all ends with a field. */
  lemma {:induction false} SplitPrefixIsWhole(fields: seq<Text>, m: nat) returns (k: nat)
    requires Short(fields) && m <= |EncodeFields(fields)|
    requires Split(EncodeFields(fields)[..m]).Some?
    ensures k <= |fields| && m == End(fields, k)
  {
    hide EncodeField, Split;
    if m == 0 {
      assert fields[..0] == [];
      k := 0;
    } else {
      var t, tail := fields[0], EncodeFields(fields[1..]);
      if m < 4 + |t| {
        SplitShort(t, tail, m);
        assert false;
      } else {
        var m' := m - 4 - |t|;
        assert EncodeFields(fields)[..m] == EncodeField(t) + tail[..m'];
        SplitStep(t, tail[..m']);
        k := SplitPrefixIsWhole(fields[1..], m');
        k := k + 1;
        EndStep(fields, k);
      }
    }
  }

  lemma {:induction false} SplitExact(s: Bytes)
    requires Split(s).Some?
    ensures s == EncodeFields(Split(s).value)
    decreases |s|
  {
    hide Next, EncodeField;
    if s != [] {
      FieldExact(s);
      SplitExact(Next(s).value.1);
      assert Split(s).value[1..] == Split(Next(s).value.1).value;
    }
  }
}
