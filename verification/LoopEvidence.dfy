/** What a merged card carries: which mentions it gets from which card, and whose hand-off text. */
module LoopEvidence {
  import opened Wrappers
  import opened LoopItems
  import opened LoopLinks

  /** All a folded card can bring, in order: its own anchor, dated by its message, then its mentions. */
  function Brought(item: LoopItem, timestamp: int): seq<Mention> {
    [Mention(item.evidence.message, item.evidence.block, item.evidence.quote, timestamp, OwnerLink)] + item.mentions
  }

  function BroughtBy(items: seq<LoopItem>, ts: seq<int>, dropped: seq<nat>): seq<Mention>
    requires |items| == |ts| && InRange(|ts|, dropped)
  {
    if dropped == [] then []
    else
      var i := |dropped| - 1;
      BroughtBy(items, ts, dropped[..i]) + Brought(items[dropped[i]], ts[dropped[i]])
  }

  /** The first card's hand-off text, if it has one, else the first one of the others. */
  function FirstHandoff(own: Option<string>, items: seq<LoopItem>, dropped: seq<nat>): Option<string>
    requires InRange(|items|, dropped)
    decreases |dropped|
  {
    if own.Some? then own
    else if dropped == [] then None
    else FirstHandoff(items[dropped[0]].handoffText, items, dropped[1..])
  }

  lemma {:induction false} AddMentionsConcat(item: LoopItem, a: seq<Mention>, b: seq<Mention>)
    ensures AddMentions(item, a + b) == AddMentions(AddMentions(item, a), b)
  {
    hide AddMention;
    if b == [] {
      assert a + b == a;
    } else {
      assert (a + b)[..|a + b| - 1] == a + b[..|b| - 1];
      AddMentionsConcat(item, a, b[..|b| - 1]);
    }
  }

  lemma {:induction false} AddMentionsIgnoresHandoff(item: LoopItem, ms: seq<Mention>, text: Option<string>)
    ensures AddMentions(item.(handoffText := text), ms) == AddMentions(item, ms).(handoffText := text)
  {
    if ms != [] {
      AddMentionsIgnoresHandoff(item, ms[..|ms| - 1], text);
    }
  }

  lemma FoldBrings(survivor: LoopItem, dropped: LoopItem, timestamp: int)
    ensures Folded(survivor, dropped, OwnerLink, timestamp) ==
              AddMentions(survivor, Brought(dropped, timestamp)).(
                handoffText := if survivor.handoffText.Some? then survivor.handoffText else dropped.handoffText)
  {
    var own := Mention(dropped.evidence.message, dropped.evidence.block, dropped.evidence.quote, timestamp, OwnerLink);
    AddMentionsConcat(survivor, [own], dropped.mentions);
    assert [own][..0] == [];
    assert AddMentions(survivor, [own]) == AddMention(survivor, own);
    AddMentionsKeepsRest(AddMention(survivor, own), dropped.mentions);
  }

  lemma {:induction false} HandoffAppend(own: Option<string>, items: seq<LoopItem>, dropped: seq<nat>, d: nat)
    requires InRange(|items|, dropped) && d < |items|
    ensures var before := FirstHandoff(own, items, dropped);
            FirstHandoff(own, items, dropped + [d]) == if before.Some? then before else items[d].handoffText
    decreases |dropped|
  {
    if own.None? && dropped != [] {
      HandoffAppend(items[dropped[0]].handoffText, items, dropped[1..], d);
      assert (dropped + [d])[1..] == dropped[1..] + [d];
    }
  }

  /** Folding card after card adds what they bring, one after the other, and the first hand-off text. */
  lemma {:induction false} FoldAllBrings(items: seq<LoopItem>, ts: seq<int>, s: nat, dropped: seq<nat>)
    requires |items| == |ts| && s < |ts| && InRange(|ts|, dropped)
    ensures FoldAll(items, ts, s, dropped) ==
              AddMentions(items[s], BroughtBy(items, ts, dropped)).(
                handoffText := FirstHandoff(items[s].handoffText, items, dropped))
  {
    hide Folded, Brought, AddMentions, FirstHandoff;
    if dropped == [] {
      NothingBrought(items, ts, s);
    } else {
      var i := |dropped| - 1;
      var init, d := dropped[..i], dropped[i];
      var before := AddMentions(items[s], BroughtBy(items, ts, init));
      FoldAllBrings(items, ts, s, init);
      FoldBrings(FoldAll(items, ts, s, init), items[d], ts[d]);
      AddMentionsIgnoresHandoff(before, Brought(items[d], ts[d]), FirstHandoff(items[s].handoffText, items, init));
      AddMentionsConcat(items[s], BroughtBy(items, ts, init), Brought(items[d], ts[d]));
      HandoffAppend(items[s].handoffText, items, init, d);
      assert dropped == init + [d];
    }
  }

  lemma NothingBrought(items: seq<LoopItem>, ts: seq<int>, s: nat)
    requires |items| == |ts| && s < |ts|
    ensures AddMentions(items[s], []).(handoffText := FirstHandoff(items[s].handoffText, items, [])) == items[s]
  {
  }

  /** The first brought for its place, which the card does not have yet. */
  ghost predicate IsNewFirst(item: LoopItem, ms: seq<Mention>, m: Mention) {
    && PlaceOf(m) !in Places(item)
    && exists i :: 0 <= i < |ms| && ms[i] == m && forall h :: 0 <= h < i ==> PlaceOf(ms[h]) != PlaceOf(m)
  }

  lemma NewFirstAppend(item: LoopItem, init: seq<Mention>, last: Mention, m: Mention)
    ensures IsNewFirst(item, init + [last], m) <==>
              || IsNewFirst(item, init, m)
              || (m == last && PlaceOf(m) !in Places(item)
                  && forall h :: 0 <= h < |init| ==> PlaceOf(init[h]) != PlaceOf(m))
  {
    hide Places;
    var ms := init + [last];
    assert forall i :: 0 <= i < |init| ==> ms[i] == init[i];
    assert ms[|init|] == last;
    if IsNewFirst(item, init, m) {
      var i :| 0 <= i < |init| && init[i] == m && forall h :: 0 <= h < i ==> PlaceOf(init[h]) != PlaceOf(m);
      assert ms[i] == m;
    }
  }

  /** Of what is brought, each place's first mention is added, unless the card has the place already. */
  lemma {:induction false} FirstOfEachPlace(item: LoopItem, ms: seq<Mention>, m: Mention)
    ensures item.mentions <= AddMentions(item, ms).mentions
    ensures m in AddMentions(item, ms).mentions[|item.mentions|..] <==> IsNewFirst(item, ms, m)
  {
    hide Places, IsNewFirst, AddMention;
    AddMentionsKeepsRest(item, ms);
    if ms == [] {
      NothingFirst(item, m);
    } else {
      var n := |ms| - 1;
      var init, last := ms[..n], ms[n];
      var before := AddMentions(item, init);
      FirstOfEachPlace(item, init, m);
      NewFirstAppend(item, init, last, m);
      PlacesSoFar(item, init, last);
      AddedOrThere(before, last);
      assert ms == init + [last];
      if PlaceOf(last) !in Places(before) {
        assert AddMention(before, last).mentions[|item.mentions|..] == before.mentions[|item.mentions|..] + [last];
      }
    }
  }

  lemma NothingFirst(item: LoopItem, m: Mention)
    ensures !IsNewFirst(item, [], m)
  {
  }

  lemma PlacesSoFar(item: LoopItem, init: seq<Mention>, last: Mention)
    ensures PlaceOf(last) in Places(AddMentions(item, init)) <==>
              PlaceOf(last) in Places(item) || exists h :: 0 <= h < |init| && PlaceOf(init[h]) == PlaceOf(last)
  {
    hide Places;
    AddMentionsPlaces(item, init);
  }

  lemma AddedOrThere(item: LoopItem, m: Mention)
    ensures AddMention(item, m).mentions == if PlaceOf(m) in Places(item) then item.mentions else item.mentions + [m]
  {
    if exists e :: e in item.mentions && PlaceOf(e) == PlaceOf(m) {
      var e :| e in item.mentions && PlaceOf(e) == PlaceOf(m);
      assert PlaceOf(e) in Places(item);
    }
  }

  lemma {:induction false} BroughtFrom(items: seq<LoopItem>, ts: seq<int>, dropped: seq<nat>, m: Mention)
    requires |items| == |ts| && InRange(|ts|, dropped)
    ensures m in BroughtBy(items, ts, dropped) <==>
              exists k :: 0 <= k < |dropped| && m in Brought(items[dropped[k]], ts[dropped[k]])
  {
    hide Brought;
    if dropped != [] {
      var i := |dropped| - 1;
      BroughtFrom(items, ts, dropped[..i], m);
      forall k | 0 <= k < i ensures dropped[..i][k] == dropped[k] {
      }
    }
  }

  /** Card j is another card of s's loop. */
  predicate FoldedIntoSurvivor(loopOf: seq<nat>, s: nat, j: nat)
    requires s < |loopOf|
  {
    j < |loopOf| && j != s && loopOf[j] == loopOf[s]
  }

  /**
   A merged card keeps its own mentions and gains only mentions its loop's other cards had, and
   their own anchors: message, block and quote as they were, dated by the card's message and marked
   as linked by the owner. Of several for one place it gains the one of the earliest card.
   */
  lemma MergedMentions(items: seq<LoopItem>, ts: seq<int>, loopOf: seq<nat>, s: nat, m: Mention)
    requires |items| == |ts| == |loopOf| && s < |ts| && IsSurvivor(ts, loopOf, s)
    ensures items[s].mentions <= Merged(items, ts, loopOf, s).mentions
    ensures m in Merged(items, ts, loopOf, s).mentions[|items[s].mentions|..] ==>
              && PlaceOf(m) !in Places(items[s])
              && exists j :: FoldedIntoSurvivor(loopOf, s, j) && Brings(items, ts, j, m)
                             && forall i :: FoldedIntoSurvivor(loopOf, s, i) && Before(ts, i, j) ==>
                                  forall e :: Brings(items, ts, i, e) ==> PlaceOf(e) != PlaceOf(m)
  {
    hide Places, AddMentions, BroughtBy, FoldAll, IsSurvivor, Brings;
    var g := GroupInOrder(ts, loopOf, loopOf[s]);
    FirstSurvives(ts, loopOf, s);
    GroupIsInOrder(ts, loopOf, loopOf[s]);
    hide GroupInOrder;
    var dropped := g[1..];
    var brought := BroughtBy(items, ts, dropped);
    FoldAllBrings(items, ts, s, dropped);
    FirstOfEachPlace(items[s], brought, m);
    if m in Merged(items, ts, loopOf, s).mentions[|items[s].mentions|..] {
      var n :| 0 <= n < |brought| && brought[n] == m && forall h :: 0 <= h < n ==> PlaceOf(brought[h]) != PlaceOf(m);
      var k := EarliestBringer(items, ts, dropped, n);
      var j := dropped[k];
      assert j == g[k + 1] && g[k + 1] in g;
      assert Before(ts, g[0], g[k + 1]);
      forall i, e | FoldedIntoSurvivor(loopOf, s, i) && Before(ts, i, j) && Brings(items, ts, i, e)
        ensures PlaceOf(e) != PlaceOf(m)
      {
        var h: nat :| h < |g| && g[h] == i;
        assert !Before(ts, g[k + 1], g[h]);
        assert dropped[h - 1] == i;
        assert PlaceOf(e) != PlaceOf(m);
      }
    }
  }

  /** Among what a card can bring. */
  predicate Brings(items: seq<LoopItem>, ts: seq<int>, j: nat, m: Mention)
    requires |items| == |ts| && j < |ts|
  {
    || m in items[j].mentions
    || m == Mention(items[j].evidence.message, items[j].evidence.block, items[j].evidence.quote, ts[j], OwnerLink)
  }

  lemma BringsIff(items: seq<LoopItem>, ts: seq<int>, j: nat, m: Mention)
    requires |items| == |ts| && j < |ts|
    ensures Brings(items, ts, j, m) <==> m in Brought(items[j], ts[j])
  {
  }

  /** The n-th mention brought is from card k of the dropped, and what earlier cards bring comes before it. */
  lemma {:induction false} EarliestBringer(items: seq<LoopItem>, ts: seq<int>, dropped: seq<nat>, n: nat)
    returns (k: nat)
    requires |items| == |ts| && InRange(|ts|, dropped) && n < |BroughtBy(items, ts, dropped)|
    ensures k < |dropped| && Brings(items, ts, dropped[k], BroughtBy(items, ts, dropped)[n])
    ensures forall i, e :: 0 <= i < k && Brings(items, ts, dropped[i], e) ==>
              exists h :: 0 <= h < n && BroughtBy(items, ts, dropped)[h] == e
  {
    hide Brings, Brought;
    var i := |dropped| - 1;
    var init := dropped[..i];
    var before, all := BroughtBy(items, ts, init), BroughtBy(items, ts, dropped);
    if n < |before| {
      k := EarliestBringer(items, ts, init, n);
      assert forall h :: 0 <= h < |before| ==> all[h] == before[h];
      assert forall j :: 0 <= j < i ==> init[j] == dropped[j];
    } else {
      k := i;
      BringsIff(items, ts, dropped[i], all[n]);
      forall j, e | 0 <= j < k && Brings(items, ts, dropped[j], e)
        ensures exists h :: 0 <= h < n && all[h] == e
      {
        BringsIff(items, ts, dropped[j], e);
        assert init[j] == dropped[j];
        BroughtFrom(items, ts, init, e);
        var h :| 0 <= h < |before| && before[h] == e;
        assert all[h] == e;
      }
    }
  }

  lemma {:induction false} FirstHandoffIs(own: Option<string>, items: seq<LoopItem>, dropped: seq<nat>)
    requires InRange(|items|, dropped)
    ensures own.Some? ==> FirstHandoff(own, items, dropped) == own
    ensures own.None? && FirstHandoff(own, items, dropped).None? ==>
              forall k :: 0 <= k < |dropped| ==> items[dropped[k]].handoffText.None?
    ensures own.None? && FirstHandoff(own, items, dropped).Some? ==>
              exists k :: 0 <= k < |dropped| && items[dropped[k]].handoffText == FirstHandoff(own, items, dropped)
                          && forall i :: 0 <= i < k ==> items[dropped[i]].handoffText.None?
    decreases |dropped|
  {
    if own.None? && dropped != [] {
      var first, rest := items[dropped[0]].handoffText, dropped[1..];
      FirstHandoffIs(first, items, rest);
      assert forall k :: 0 < k < |dropped| ==> dropped[k] == rest[k - 1];
      if first.None? && FirstHandoff(first, items, rest).Some? {
        var k :| 0 <= k < |rest| && items[rest[k]].handoffText == FirstHandoff(first, items, rest)
                 && forall i :: 0 <= i < k ==> items[rest[i]].handoffText.None?;
        assert items[dropped[k + 1]].handoffText == FirstHandoff(own, items, dropped);
      } else if first.Some? {
        assert items[dropped[0]].handoffText == FirstHandoff(own, items, dropped);
      }
    }
  }

  /** The hand-off text is that of the earliest card of the loop that has one; the survivor is the earliest. */
  lemma MergedHandoff(items: seq<LoopItem>, ts: seq<int>, loopOf: seq<nat>, s: nat)
    requires |items| == |ts| == |loopOf| && s < |ts| && IsSurvivor(ts, loopOf, s)
    ensures var text := Merged(items, ts, loopOf, s).handoffText;
            && (text.None? ==> forall j :: 0 <= j < |ts| && loopOf[j] == loopOf[s] ==> items[j].handoffText.None?)
            && (text.Some? ==>
                  exists j :: 0 <= j < |ts| && loopOf[j] == loopOf[s] && items[j].handoffText == text
                              && forall i :: 0 <= i < |ts| && loopOf[i] == loopOf[s] && Before(ts, i, j) ==>
                                   items[i].handoffText.None?)
  {
    hide AddMentions, BroughtBy, FoldAll, FirstHandoff;
    var g := GroupInOrder(ts, loopOf, loopOf[s]);
    FirstSurvives(ts, loopOf, s);
    GroupIsInOrder(ts, loopOf, loopOf[s]);
    hide GroupInOrder;
    var dropped := g[1..];
    FoldAllBrings(items, ts, s, dropped);
    FirstHandoffIs(items[s].handoffText, items, dropped);
    var text := Merged(items, ts, loopOf, s).handoffText;
    assert text == FirstHandoff(items[s].handoffText, items, dropped);
    if text.None? {
      forall j | 0 <= j < |ts| && loopOf[j] == loopOf[s] ensures items[j].handoffText.None? {
        var h: nat :| h < |g| && g[h] == j;
        assert h > 0 ==> dropped[h - 1] == j;
      }
    } else if items[s].handoffText.None? {
      var k :| 0 <= k < |dropped| && items[dropped[k]].handoffText == text
               && forall i :: 0 <= i < k ==> items[dropped[i]].handoffText.None?;
      assert dropped[k] == g[k + 1] && g[k + 1] in g;
      forall i | 0 <= i < |ts| && loopOf[i] == loopOf[s] && Before(ts, i, g[k + 1]) ensures items[i].handoffText.None? {
        var h: nat :| h < |g| && g[h] == i;
        assert !Before(ts, g[k + 1], g[h]);
        assert h > 0 ==> dropped[h - 1] == i;
      }
    } else {
      assert loopOf[s] == loopOf[s] && items[s].handoffText == text;
    }
  }
}
