/** One request's cipher as the program runs it, tied to the functions of NameCipher. */
module RequestCipher {
  import opened Wrappers
  import opened Chars
  import opened Lexicon
  import opened NameMatching
  import opened NameCipher

  ghost function CipherOf(n: KnownNames): Cipher
    reads n
  {
    Cipher(n.lexicon, n.people, n.byAddress, n.protectedAddresses)
  }

  ghost predicate Ready(n: KnownNames)
    reads n
  {
    IsIndexOf(n.people, n.nameForms, AllLookups(n.people)) && ValidCipher(CipherOf(n))
  }

  // ---- a stable sort of the decode forms

  function InsertForm(sorted: seq<DecodeForm>, f: DecodeForm): seq<DecodeForm> {
    if sorted == [] then [f]
    else if SortsBefore(sorted[0], f) then [sorted[0]] + InsertForm(sorted[1..], f)
    else [f] + sorted
  }

  function SortForms(forms: seq<DecodeForm>): seq<DecodeForm> {
    if forms == [] then [] else InsertForm(SortForms(forms[..|forms| - 1]), forms[|forms| - 1])
  }

  lemma {:induction false} InsertKeepsSorted(sorted: seq<DecodeForm>, f: DecodeForm)
    requires IsSorted(sorted)
    ensures IsSorted(InsertForm(sorted, f))
    ensures forall g :: g in InsertForm(sorted, f) <==> g == f || g in sorted
  {
    if sorted != [] {
      var rest := InsertForm(sorted[1..], f);
      InsertKeepsSorted(sorted[1..], f);
      assert forall g :: g in sorted <==> g == sorted[0] || g in sorted[1..];
      if SortsBefore(sorted[0], f) {
        assert forall j :: 0 <= j < |rest| ==> rest[j] in rest;
        assert forall g :: g in sorted[1..] ==> SortsBefore(sorted[0], g);
      } else {
        assert forall j :: 0 <= j < |sorted| ==> SortsBefore(f, sorted[j]);
      }
    }
  }

  lemma {:induction false} SortIsSorted(forms: seq<DecodeForm>)
    ensures IsSorted(SortForms(forms))
    ensures forall g :: g in SortForms(forms) <==> g in forms
  {
    if forms != [] {
      var i := |forms| - 1;
      SortIsSorted(forms[..i]);
      InsertKeepsSorted(SortForms(forms[..i]), forms[i]);
      assert forms == forms[..i] + [forms[i]];
    }
  }

  lemma Append(a: string, b: string, c: string)
    ensures a + (b + c) == a + b + c
  {
  }

  class RequestAssignment {
    var persons: map<nat, AssignedPerson>
    var skippedTokens: set<string>
    var nextPoolIndex: nat
    var overflowIndex: nat

    function Value(): Assignment
      reads this
    {
      Assignment(persons, skippedTokens, nextPoolIndex, overflowIndex)
    }

    constructor (letters: Letters, texts: seq<string>)
      ensures Value() == FreshAssignment(letters, texts)
    {
      persons, skippedTokens, nextPoolIndex, overflowIndex := map[], RequestTokens(letters, texts), 0, FIRST_OVERFLOW;
    }

    /** Tries pool entries in order; a pool that ran out gives numbered names. */
    method NextPseudonym(x: Lexicon) returns (p: Pseudonym)
      requires nextPoolIndex <= PoolSize(x)
      modifies this`nextPoolIndex, this`overflowIndex
      ensures (p, Value()) == NameCipher.NextPseudonym(x, old(Value()))
    {
      hide NewPseudonym;
      ghost var start := nextPoolIndex;
      while nextPoolIndex < PoolSize(x)
        invariant start <= nextPoolIndex <= PoolSize(x) && overflowIndex == old(overflowIndex)
        invariant forall k :: start <= k < nextPoolIndex ==> Skipped(x, skippedTokens, k)
        invariant NextFree(x, skippedTokens, start) == NextFree(x, skippedTokens, nextPoolIndex)
      {
        var index := nextPoolIndex;
        nextPoolIndex := nextPoolIndex + 1;
        if Lower(x.given[index]) !in skippedTokens && Lower(x.family[index]) !in skippedTokens {
          return NewPseudonym(x.given[index], Some(x.family[index]), x.domain);
        }
      }
      var number := overflowIndex;
      overflowIndex := overflowIndex + 1;
      p := NewPseudonym("Person " + Decimal(number), None, x.domain);
    }

    method PseudonymOf(n: KnownNames, person: nat) returns (p: Pseudonym)
      requires Ready(n) && person < |n.people| && nextPoolIndex <= PoolSize(n.lexicon)
      modifies this
      ensures Value() == Assign(CipherOf(n), old(Value()), person)
      ensures p == persons[person].pseudonym
    {
      if person !in persons {
        var known := n.people[person];
        var address := if known.addresses == [] then "" else known.addresses[0];
        p := NextPseudonym(n.lexicon);
        persons := persons[person := AssignedPerson(p, known.names[0], address)];
      }
      p := persons[person].pseudonym;
    }

    method EncodeText(n: KnownNames, text: string) returns (output: string)
      requires Ready(n) && nextPoolIndex <= PoolSize(n.lexicon)
      modifies this
      ensures nextPoolIndex <= PoolSize(n.lexicon)
      ensures (output, Value()) == EncodeFrom(CipherOf(n), old(Value()), text, 0)
    {
      hide BestIn;
      hide AllLookups;
      hide EmailAt;
      hide IsIndexOf;
      hide NameCipher.Assign;
      ghost var c := CipherOf(n);
      ghost var whole := EncodeFrom(c, Value(), text, 0);
      output := "";
      var cursor := 0;
      while cursor < |text|
        invariant cursor <= |text| && nextPoolIndex <= PoolSize(n.lexicon)
        invariant Ready(n) && c == CipherOf(n)
        invariant whole.0 == output + EncodeFrom(c, Value(), text, cursor).0
        invariant whole.1 == EncodeFrom(c, Value(), text, cursor).1
        decreases |text| - cursor
      {
        var email := EmailAt(text, cursor);
        if email.Some? {
          var (end, address) := email.value;
          var replacement;
          if address in n.byAddress {
            var p := PseudonymOf(n, n.byAddress[address]);
            replacement := p.address;
          } else if address in n.protectedAddresses {
            replacement := text[cursor..end];
          } else {
            replacement := "address" + n.lexicon.domain;
          }
          Append(output, replacement, EncodeFrom(c, Value(), text, end).0);
          output := output + replacement;
          cursor := end;
        } else {
          var best := n.BestNameMatch(text, cursor);
          if best.Some? {
            var p := PseudonymOf(n, best.value.person);
            Append(output, NameReplacement(p, best.value.kind), EncodeFrom(c, Value(), text, best.value.end).0);
            output := output + NameReplacement(p, best.value.kind);
            cursor := best.value.end;
          } else {
            Append(output, [text[cursor]], EncodeFrom(c, Value(), text, cursor + 1).0);
            output := output + [text[cursor]];
            cursor := cursor + 1;
          }
        }
      }
      assert output + "" == output;
    }

    method EncodeTexts(n: KnownNames, texts: seq<string>) returns (encoded: seq<string>)
      requires Ready(n) && nextPoolIndex <= PoolSize(n.lexicon)
      modifies this
      ensures (encoded, Value()) == EncodeAll(CipherOf(n), old(Value()), texts)
    {
      hide EncodeFrom;
      hide IsIndexOf;
      ghost var whole := EncodeAll(CipherOf(n), Value(), texts);
      encoded := [];
      assert texts[0..] == texts;
      for i := 0 to |texts|
        invariant nextPoolIndex <= PoolSize(n.lexicon)
        invariant whole.0 == encoded + EncodeAll(CipherOf(n), Value(), texts[i..]).0
        invariant whole.1 == EncodeAll(CipherOf(n), Value(), texts[i..]).1
      {
        assert texts[i..][1..] == texts[i + 1..];
        var first := EncodeText(n, texts[i]);
        assert encoded + ([first] + EncodeAll(CipherOf(n), Value(), texts[i + 1..]).0)
            == encoded + [first] + EncodeAll(CipherOf(n), Value(), texts[i + 1..]).0;
        encoded := encoded + [first];
      }
      assert texts[|texts|..] == [] && encoded + [] == encoded;
    }

    /** Collects every assigned person's forms, longest pseudonym first, and rewrites with them. */
    method DecodeText(letters: Letters, text: string) returns (output: string, ghost table: seq<DecodeForm>)
      ensures IsDecodeTable(Value(), table)
      ensures output == ReplaceFrom(letters, table, text, 0)
    {
      var forms: seq<DecodeForm> := [];
      var keys := persons.Keys;
      while keys != {}
        invariant keys <= persons.Keys
        invariant forall f :: f in forms ==> exists p :: p in persons && f in FormsOf(persons[p])
        invariant forall p, f :: p in persons && p !in keys && f in FormsOf(persons[p]) ==> f in forms
        decreases keys
      {
        var p :| p in keys;
        keys := keys - {p};
        forms := forms + FormsOf(persons[p]);
      }
      SortIsSorted(forms);
      forms := SortForms(forms);
      table := forms;
      output := ReplaceDecodeForms(letters, text, forms);
    }

    static method ReplaceDecodeForms(letters: Letters, text: string, forms: seq<DecodeForm>) returns (output: string)
      ensures output == ReplaceFrom(letters, forms, text, 0)
    {
      hide FirstForm;
      hide FormMatches;
      ghost var whole := ReplaceFrom(letters, forms, text, 0);
      output := "";
      var cursor := 0;
      while cursor < |text|
        invariant cursor <= |text|
        invariant whole == output + ReplaceFrom(letters, forms, text, cursor)
        decreases |text| - cursor
      {
        var found := FirstForm(letters, forms, text, cursor);
        if found.Some? {
          Append(output, found.value.original, ReplaceFrom(letters, forms, text, cursor + |found.value.pseudo|));
          output := output + found.value.original;
          cursor := cursor + |found.value.pseudo|;
        } else {
          Append(output, [text[cursor]], ReplaceFrom(letters, forms, text, cursor + 1));
          output := output + [text[cursor]];
          cursor := cursor + 1;
        }
      }
      assert output + "" == output;
    }
  }
}
