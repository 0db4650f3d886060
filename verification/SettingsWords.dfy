/** The words a settings record is written in, and what an older record leaves unsaid. */
module SettingsWords {
  import opened Wrappers
  import opened Bytes
  import opened Credentials
  import opened SettingsRecord
  import opened SettingsCodec

  /** The words for each choice; anything else is refused. */
  lemma ChoiceWords(t: Text)
    ensures ParseProvider(t) == Ok(OllamaCloud) <==> t == Ascii("ollama_cloud")
    ensures ParseProvider(t) == Ok(OpenRouter) <==> t == Ascii("openrouter")
    ensures ParsePlan(t) == Ok(Free) <==> t == Ascii("free")
    ensures ParsePlan(t) == Ok(Pro) <==> t == Ascii("pro")
    ensures ParsePlan(t) == Ok(Max) <==> t == Ascii("max")
    ensures ParseBool(t) == Ok(true) <==> t == Ascii("true")
    ensures ParseBool(t) == Ok(false) <==> t == Ascii("false")
    ensures ParseBackend(t) == Ok(ChatModel) <==> t == Ascii("chat")
    ensures ParseBackend(t) == Ok(DecisionModel) <==> t == Ascii("decision")
  {
    assert Ascii("pro")[0] != Ascii("max")[0];
  }

  lemma MailWords(t: Text)
    ensures ParseMail(t) == Ok({Microsoft}) <==> t == Ascii("ms")
    ensures ParseMail(t) == Ok({Google}) <==> t == Ascii("google")
    ensures ParseMail(t) == Ok({Microsoft, Google}) <==> t == Ascii("ms,google")
  {
    hide Ascii;
    MailTagsParse();
    SetsDiffer();
  }

  lemma SetsDiffer()
    ensures var m, g: set<MailProvider> := {Microsoft}, {Google};
            m != g && m != {Microsoft, Google} && g != {Microsoft, Google}
  {
    var m, g: set<MailProvider> := {Microsoft}, {Google};
    assert Microsoft in m && Microsoft !in g && Google !in m;
  }

  /** A ceiling is written in plain decimal digits; one sign '+' before them is let through. */
  lemma CeilingDigits(t: Text, n: U16)
    ensures ParseParallel(t) == Ok(n) <==>
              && 1 <= n <= 100
              && var digits := if t != [] && t[0] == 43 then t[1..] else t;
                 && digits != [] && (forall i :: 0 <= i < |digits| ==> 48 <= digits[i] <= 57)
                 && Value(digits) == n
  {
  }

  /** What the oldest record means: the five fields it has, and for the rest what the program did then. */
  lemma OldestRecordMeans(a: Text, b: Text, c: Text, d: Text, e: Text)
    ensures FromFields([a, b, c, d, e]) ==
              Ok(Settings(a, b, c, d, e, OllamaCloud, [], [], Free, 32, false, ChatModel, [], [], {Microsoft}))
  {
    hide ParseProvider, ParsePlan, ParseParallel, ParseBool, ParseBackend, ParseMail;
  }

  /** Fields keep their places: a current record means its fields in this order. */
  lemma CurrentRecordMeans(f: seq<Text>)
    requires |f| == 15 && FromFields(f).Ok?
    ensures var s := FromFields(f).value;
            && s.clientId == f[0] && s.groups == f[1] && s.shared == f[2] && s.key == f[3] && s.selected == f[4]
            && Ok(s.provider) == ParseProvider(f[5]) && s.openrouterKey == f[6] && s.openrouterSelected == f[7]
            && Ok(s.ollamaPlan) == ParsePlan(f[8]) && Ok(s.openrouterParallel) == ParseParallel(f[9])
            && Ok(s.useDecisionModel) == ParseBool(f[10]) && Ok(s.extractionBackend) == ParseBackend(f[11])
            && s.googleClientId == f[12] && s.googleClientSecret == f[13] && Ok(s.mailProviders) == ParseMail(f[14])
  {
    hide ParseProvider, ParsePlan, ParseParallel, ParseBool, ParseBackend, ParseMail;
  }

  /** A record starts with "OpenLoopsSetup" and version 1; each field is its length, low byte first, then its text. */
  lemma RecordHead(s: Settings)
    requires Encode(s).Ok?
    ensures var b := Encode(s).value;
            |b| >= 15 && (forall i :: 0 <= i < 14 ==> b[i] == "OpenLoopsSetup"[i] as int) && b[14] == 1
  {
    hide EncodeFields, FieldsOf, MailTag;
  }

  lemma FieldLayout(t: Bytes)
    ensures EncodeField(t)[4..] == t && EncodeField(t)[..4] == ToLE(|t|, 4)
  {
  }
}
