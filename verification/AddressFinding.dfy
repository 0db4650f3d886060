/** Where an e-mail address stands in a text, and where a pseudonym's address is recognised again. */
module AddressFinding {
  import opened Wrappers
  import opened Chars
  import opened NameCipher

  predicate LocalChar(c: char) { IsAsciiAlnum(c) || c in "._%+-" }

  predicate DomainChar(c: char) { IsAsciiAlnum(c) || c in ".-" }

  /** text[start..end] is local part, '@' and a domain with a dot inside; what follows does not go on with it. */
  ghost predicate IsAddress(text: string, start: nat, at: nat, end: nat, rest: nat) {
    && start < at && at + 1 < end <= rest <= |text|
    && text[at] == '@'
    && (forall i :: start <= i < at ==> LocalChar(text[i]))
    && (forall i :: at < i < end ==> DomainChar(text[i]))
    && text[at + 1] != '.' && (exists i :: at < i < end && text[i] == '.') && text[end - 1] !in ".-"
    && (forall i :: end <= i < rest ==> text[i] in ".-")
    && (rest < |text| ==> !DomainChar(text[rest]) && (end == rest ==> text[rest] !in "_%+@"))
  }

  /** No address character stands just before. */
  predicate FreshStart(text: string, start: nat)
    requires start <= |text|
  {
    start == 0 || !(IsAsciiAlnum(text[start - 1]) || text[start - 1] in "._%+-@")
  }

  lemma {:induction false} LocalEndIs(text: string, i: nat)
    requires i <= |text|
    ensures forall j :: i <= j < LocalEnd(text, i) ==> LocalChar(text[j])
    ensures LocalEnd(text, i) < |text| ==> !LocalChar(text[LocalEnd(text, i)])
    decreases |text| - i
  {
    if i < |text| && LocalChar(text[i]) {
      LocalEndIs(text, i + 1);
    }
  }

  lemma {:induction false} DomainEndIs(text: string, i: nat)
    requires i <= |text|
    ensures forall j :: i <= j < DomainEnd(text, i) ==> DomainChar(text[j])
    ensures DomainEnd(text, i) < |text| ==> !DomainChar(text[DomainEnd(text, i)])
    decreases |text| - i
  {
    if i < |text| && DomainChar(text[i]) {
      DomainEndIs(text, i + 1);
    }
  }

  lemma {:induction false} TrimDomainIs(text: string, start: nat, i: nat)
    requires start <= i <= |text|
    ensures forall j :: TrimDomain(text, start, i) <= j < i ==> text[j] in ".-"
    ensures TrimDomain(text, start, i) > start ==> text[TrimDomain(text, start, i) - 1] !in ".-"
  {
    if i > start && text[i - 1] in ".-" {
      TrimDomainIs(text, start, i - 1);
    }
  }

  /** An address is found at the cursor exactly where one stands, and is taken as a whole, in lower case. */
  lemma EmailAtIff(text: string, cursor: nat, end: nat, address: string)
    requires cursor <= |text|
    ensures EmailAt(text, cursor) == Some((end, address)) <==>
              && FreshStart(text, cursor)
              && (exists at, rest :: IsAddress(text, cursor, at, end, rest))
              && address == Lower(text[cursor..end])
  {
    var at := LocalEnd(text, cursor);
    LocalEndIs(text, cursor);
    if at < |text| && text[at] == '@' {
      var rest := DomainEnd(text, at + 1);
      DomainEndIs(text, at + 1);
      TrimDomainIs(text, at + 1, rest);
      if EmailAt(text, cursor) == Some((end, address)) {
        FoundIsAddress(text, cursor, end, address);
      }
    }
    if FreshStart(text, cursor) {
      forall a, r | IsAddress(text, cursor, a, end, r) && address == Lower(text[cursor..end])
        ensures EmailAt(text, cursor) == Some((end, address))
      {
        AddressIsFound(text, cursor, a, end, r);
      }
    }
  }

  lemma FoundIsAddress(text: string, cursor: nat, end: nat, address: string)
    requires cursor <= |text| && EmailAt(text, cursor) == Some((end, address))
    ensures FreshStart(text, cursor) && address == Lower(text[cursor..end])
    ensures exists at, rest :: IsAddress(text, cursor, at, end, rest)
  {
    hide LocalEnd, DomainEnd, TrimDomain, Lower;
    var at := LocalEnd(text, cursor);
    var rest := DomainEnd(text, at + 1);
    LocalEndIs(text, cursor);
    DomainEndIs(text, at + 1);
    TrimDomainIs(text, at + 1, rest);
    var domain := text[at + 1..end];
    assert '.' in domain && domain[0] == text[at + 1];
    var i :| 0 <= i < |domain| && domain[i] == '.';
    assert text[at + 1 + i] == '.';
    assert IsAddress(text, cursor, at, end, rest);
  }

  lemma AddressIsFound(text: string, cursor: nat, at: nat, end: nat, rest: nat)
    requires IsAddress(text, cursor, at, end, rest) && FreshStart(text, cursor)
    ensures EmailAt(text, cursor) == Some((end, Lower(text[cursor..end])))
  {
    hide LocalEnd, DomainEnd, TrimDomain, Lower;
    LocalEndIs(text, cursor);
    assert LocalEnd(text, cursor) == at;
    DomainEndIs(text, at + 1);
    assert DomainEnd(text, at + 1) == rest;
    TrimDomainIs(text, at + 1, rest);
    assert TrimDomain(text, at + 1, rest) == end;
    var domain := text[at + 1..end];
    var i :| at < i < end && text[i] == '.';
    assert domain[i - at - 1] == '.';
    assert domain[0] == text[at + 1] && domain[|domain| - 1] == text[end - 1];
  }

  // ---- recognising a pseudonym's address in an answer

  /**
   An address is recognised in an answer where it would be found there and is the same address,
   whatever its case, unless a dot or a dash follows it directly, as at the end of a sentence.
   */
  lemma RecognisedIff(text: string, cursor: nat, address: string)
    requires cursor <= |text| && EmailAt(address, 0) == Some((|address|, Lower(address)))
    ensures ExactEmailAt(text, cursor, address) <==>
              && EmailAt(text, cursor) == Some((cursor + |address|, Lower(address)))
              && (cursor + |address| < |text| ==> text[cursor + |address|] !in ".-")
  {
    hide EmailAt, ExactEmailAt;
    if ExactEmailAt(text, cursor, address) {
      RecognisedIsFound(text, cursor, address);
    }
    var after := cursor + |address|;
    if EmailAt(text, cursor) == Some((after, Lower(address))) && (after < |text| ==> text[after] !in ".-") {
      FoundIsRecognised(text, cursor, address);
    }
  }

  lemma RecognisedIsFound(text: string, cursor: nat, address: string)
    requires cursor <= |text| && EmailAt(address, 0) == Some((|address|, Lower(address)))
    requires ExactEmailAt(text, cursor, address)
    ensures EmailAt(text, cursor) == Some((cursor + |address|, Lower(address)))
    ensures cursor + |address| < |text| ==> text[cursor + |address|] !in ".-"
  {
    hide EmailAt, Lower, IsAddress;
    var n := |address|;
    EmailAtIff(address, 0, n, Lower(address));
    var at, rest :| IsAddress(address, 0, at, n, rest);
    EndsThere(address, at, rest);
    SameShape(text, cursor, address);
    StandsThere(text, cursor, address, at);
    EmailAtIff(text, cursor, cursor + n, Lower(address));
  }

  lemma EndsThere(address: string, at: nat, rest: nat)
    requires IsAddress(address, 0, at, |address|, rest)
    ensures rest == |address|
  {
  }

  lemma FoundIsRecognised(text: string, cursor: nat, address: string)
    requires cursor <= |text| && EmailAt(text, cursor) == Some((cursor + |address|, Lower(address)))
    requires cursor + |address| < |text| ==> text[cursor + |address|] !in ".-"
    ensures ExactEmailAt(text, cursor, address)
  {
    hide EmailAt, Lower;
    EmailAtIff(text, cursor, cursor + |address|, Lower(address));
  }

  /** Told apart by case at most. */
  predicate SameKind(a: char, b: char) { LowerChar(a) == LowerChar(b) }

  lemma SameShape(text: string, cursor: nat, address: string)
    requires cursor <= |text| && ExactEmailAt(text, cursor, address)
    ensures forall i :: 0 <= i < |address| ==> SameKind(text[cursor + i], address[i])
  {
    var span := text[cursor..cursor + |address|];
    forall i | 0 <= i < |address| ensures SameKind(text[cursor + i], address[i]) {
      assert Lower(span)[i] == Lower(address)[i];
    }
  }

  lemma StandsThere(text: string, cursor: nat, address: string, at: nat)
    requires cursor + |address| <= |text| && IsAddress(address, 0, at, |address|, |address|)
    requires forall i :: 0 <= i < |address| ==> SameKind(text[cursor + i], address[i])
    requires cursor + |address| == |text| || !IsEmailChar(text[cursor + |address|])
    ensures IsAddress(text, cursor, cursor + at, cursor + |address|, cursor + |address|)
  {
    forall i | cursor <= i < cursor + |address|
      ensures LocalChar(text[i]) <==> LocalChar(address[i - cursor])
      ensures DomainChar(text[i]) <==> DomainChar(address[i - cursor])
      ensures text[i] == '@' <==> address[i - cursor] == '@'
      ensures text[i] == '.' <==> address[i - cursor] == '.'
      ensures text[i] in ".-" <==> address[i - cursor] in ".-"
    {
      assert SameKind(text[cursor + (i - cursor)], address[i - cursor]);
      KindsAgree(text[i], address[i - cursor]);
    }
    var d :| at < d < |address| && address[d] == '.';
    assert text[cursor + d] == '.';
  }

  lemma KindsAgree(a: char, b: char)
    requires SameKind(a, b)
    ensures LocalChar(a) <==> LocalChar(b)
    ensures DomainChar(a) <==> DomainChar(b)
    ensures a in ".-@" || b in ".-@" ==> a == b
  {
  }
}
