/** Review cards and folding one card's evidence into another. */
module LoopItems {
  import opened Wrappers

  datatype Anchor = Anchor(message: string, block: nat, quote: string)

  datatype MentionOrigin = Restated | OwnerLink | Duplicate | Amended | Rescheduled

  datatype Mention = Mention(message: string, block: nat, quote: string, timestamp: int, origin: MentionOrigin)

  /** The part of a card that linking reads or changes. */
  datatype LoopItem = LoopItem(
    evidence: Anchor, actionPhrase: string, mentions: seq<Mention>, handoffText: Option<string>)

  type Place = (string, nat)

  function PlaceOf(m: Mention): Place { (m.message, m.block) }

  function OwnPlace(item: LoopItem): Place { (item.evidence.message, item.evidence.block) }

  /** Every place in the mail this card is evidenced by. */
  function Places(item: LoopItem): set<Place> {
    {OwnPlace(item)} + set m | m in item.mentions :: PlaceOf(m)
  }

  /** No place is listed twice. */
  ghost predicate Tidy(item: LoopItem) {
    && (forall m :: m in item.mentions ==> PlaceOf(m) != OwnPlace(item))
    && (forall i, j :: 0 <= i < j < |item.mentions| ==> PlaceOf(item.mentions[i]) != PlaceOf(item.mentions[j]))
  }

  function AddMention(item: LoopItem, m: Mention): LoopItem {
    if PlaceOf(m) != OwnPlace(item) && (forall e :: e in item.mentions ==> PlaceOf(e) != PlaceOf(m))
      then item.(mentions := item.mentions + [m]) else item
  }

  function AddMentions(item: LoopItem, ms: seq<Mention>): LoopItem {
    if ms == [] then item else AddMention(AddMentions(item, ms[..|ms| - 1]), ms[|ms| - 1])
  }

  function MentionOf(item: LoopItem, origin: MentionOrigin, timestamp: int): Mention {
    Mention(item.evidence.message, item.evidence.block, item.evidence.quote, timestamp, origin)
  }

  function Folded(survivor: LoopItem, dropped: LoopItem, origin: MentionOrigin, timestamp: int): LoopItem {
    var s := AddMentions(AddMention(survivor, MentionOf(dropped, origin, timestamp)), dropped.mentions);
    if s.handoffText.None? then s.(handoffText := dropped.handoffText) else s
  }

  method FoldInto(survivor: LoopItem, dropped: LoopItem, origin: MentionOrigin, timestamp: int) returns (s: LoopItem)
    ensures s == Folded(survivor, dropped, origin, timestamp)
  {
    s := survivor;
    var own := MentionOf(dropped, origin, timestamp);
    if PlaceOf(own) != OwnPlace(s) && forall e :: e in s.mentions ==> PlaceOf(e) != PlaceOf(own) {
      s := s.(mentions := s.mentions + [own]);
    }
    ghost var start := s;
    for i := 0 to |dropped.mentions|
      invariant s == AddMentions(start, dropped.mentions[..i])
    {
      var m := dropped.mentions[i];
      assert dropped.mentions[..i + 1][..i] == dropped.mentions[..i];
      if PlaceOf(m) != OwnPlace(s) && forall e :: e in s.mentions ==> PlaceOf(e) != PlaceOf(m) {
        s := s.(mentions := s.mentions + [m]);
      }
    }
    assert dropped.mentions[..|dropped.mentions|] == dropped.mentions;
    if s.handoffText.None? {
      s := s.(handoffText := dropped.handoffText);
    }
  }

  lemma AddMentionPlaces(item: LoopItem, m: Mention)
    ensures Places(AddMention(item, m)) == Places(item) + {PlaceOf(m)}
    ensures Tidy(item) ==> Tidy(AddMention(item, m))
  {
    var item' := AddMention(item, m);
    assert forall e :: e in item'.mentions <==> e in item.mentions || (item' != item && e == m);
    if PlaceOf(m) != OwnPlace(item) && exists e :: e in item.mentions && PlaceOf(e) == PlaceOf(m) {
      var e :| e in item.mentions && PlaceOf(e) == PlaceOf(m);
      assert PlaceOf(e) in Places(item);
    }
  }

  lemma {:induction false} AddMentionsPlaces(item: LoopItem, ms: seq<Mention>)
    ensures Places(AddMentions(item, ms)) == Places(item) + set m | m in ms :: PlaceOf(m)
    ensures Tidy(item) ==> Tidy(AddMentions(item, ms))
  {
    if ms != [] {
      var init, last := ms[..|ms| - 1], ms[|ms| - 1];
      AddMentionsPlaces(item, init);
      AddMentionPlaces(AddMentions(item, init), last);
      assert forall m :: m in ms <==> m in init || m == last;
    }
  }

  /** Folding loses no evidence, invents none and keeps the list free of repeats. */
  lemma FoldConserves(survivor: LoopItem, dropped: LoopItem, origin: MentionOrigin, timestamp: int)
    ensures Places(Folded(survivor, dropped, origin, timestamp)) == Places(survivor) + Places(dropped)
    ensures Tidy(survivor) ==> Tidy(Folded(survivor, dropped, origin, timestamp))
    ensures Folded(survivor, dropped, origin, timestamp).evidence == survivor.evidence
    ensures Folded(survivor, dropped, origin, timestamp).actionPhrase == survivor.actionPhrase
    ensures survivor.mentions <= Folded(survivor, dropped, origin, timestamp).mentions
  {
    var own := MentionOf(dropped, origin, timestamp);
    AddMentionPlaces(survivor, own);
    AddMentionsPlaces(AddMention(survivor, own), dropped.mentions);
    AddMentionsKeepsRest(AddMention(survivor, own), dropped.mentions);
  }

  lemma {:induction false} AddMentionsKeepsRest(item: LoopItem, ms: seq<Mention>)
    ensures AddMentions(item, ms).evidence == item.evidence && AddMentions(item, ms).actionPhrase == item.actionPhrase
    ensures AddMentions(item, ms).handoffText == item.handoffText
    ensures item.mentions <= AddMentions(item, ms).mentions
  {
    if ms != [] {
      AddMentionsKeepsRest(item, ms[..|ms| - 1]);
    }
  }
}
