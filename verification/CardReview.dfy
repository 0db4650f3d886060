/** Applying the owner's links to the loaded cards, in place. */
module CardReview {
  import opened Wrappers
  import opened Bytes
  import opened LoopItems
  import opened LoopLinks
  import opened LinkingAgain
  import opened UnionFind

  /** A card's key, from its evidence and action; None when its source is not loaded. */
  type CardKeys = (Anchor, string) -> Option<Key>

  /** When the message with this handle was sent. */
  type MessageTimes = string -> int

  function KeysOf(cardKey: CardKeys, items: seq<LoopItem>): (r: seq<Option<Key>>)
    ensures |r| == |items| && forall i :: 0 <= i < |items| ==> r[i] == cardKey(items[i].evidence, items[i].actionPhrase)
  {
    if items == [] then []
    else
      var last := items[|items| - 1];
      KeysOf(cardKey, items[..|items| - 1]) + [cardKey(last.evidence, last.actionPhrase)]
  }

  function TimesOf(messageTime: MessageTimes, items: seq<LoopItem>): (r: seq<int>)
    ensures |r| == |items| && forall i :: 0 <= i < |items| ==> r[i] == messageTime(items[i].evidence.message)
  {
    if items == [] then []
    else TimesOf(messageTime, items[..|items| - 1]) + [messageTime(items[|items| - 1].evidence.message)]
  }

  ghost function RootsOf(p: seq<nat>, depth: seq<nat>): (r: seq<nat>)
    requires IsForest(p, depth)
    ensures |r| == |p| && forall i :: 0 <= i < |p| ==> r[i] == Root(p, depth, i)
  {
    seq(|p|, i requires 0 <= i < |p| => Root(p, depth, i))
  }

  function GroupAt(groups: map<nat, seq<nat>>, root: nat): seq<nat> {
    if root in groups then groups[root] else []
  }

  /** The groups hold exactly the cards before m, each under its loop. */
  ghost predicate Grouped(groups: map<nat, seq<nat>>, loopOf: seq<nat>, m: nat)
    requires m <= |loopOf|
  {
    forall r: nat :: GroupAt(groups, r) == Members(loopOf, r, m)
  }

  lemma GroupedWithNext(groups: map<nat, seq<nat>>, loopOf: seq<nat>, m: nat)
    requires m < |loopOf| && Grouped(groups, loopOf, m)
    ensures Grouped(groups[loopOf[m] := GroupAt(groups, loopOf[m]) + [m]], loopOf, m + 1)
  {
    var groups' := groups[loopOf[m] := GroupAt(groups, loopOf[m]) + [m]];
    forall r: nat
      ensures GroupAt(groups', r) == Members(loopOf, r, m + 1)
    {
      assert GroupAt(groups, r) == Members(loopOf, r, m);
    }
  }

  // ---- merging the same links again

  /** The keys of the merged cards are the keys the survivors had. */
  lemma MergedKeys(cardKey: CardKeys, items: seq<LoopItem>, ts: seq<int>, loopOf: seq<nat>)
    requires SameLengths(items, ts, loopOf)
    ensures KeysOf(cardKey, MergedFrom(items, ts, loopOf, 0))
         == KeysAt(KeysOf(cardKey, items), SurvivorsFrom(ts, loopOf, 0))
  {
    hide IsSurvivor, SurvivorsFrom, MergedFrom, Merged, KeysOf, KeysAt;
    var s, merged := SurvivorsFrom(ts, loopOf, 0), MergedFrom(items, ts, loopOf, 0);
    MergedAt(items, ts, loopOf, 0);
    forall k | 0 <= k < |s|
      ensures KeysOf(cardKey, merged)[k] == KeysAt(KeysOf(cardKey, items), s)[k]
    {
      assert s[k] in s;
      MergedConserves(items, ts, loopOf, s[k], OwnPlace(items[s[k]]));
    }
  }

  /** What the cards become when the links among them are applied, loopOf saying which cards are one loop. */
  ghost predicate LinksApplied(cardKey: CardKeys, messageTime: MessageTimes, links: seq<(Key, Key)>,
                               before: seq<LoopItem>, loopOf: seq<nat>, after: seq<LoopItem>) {
    && SameLengths(before, TimesOf(messageTime, before), loopOf)
    && Labels(EdgesOf(KeyIndex(KeysOf(cardKey, before)), links), loopOf)
    && after == MergedFrom(before, TimesOf(messageTime, before), loopOf, 0)
  }

  /** Applying the same links again leaves every card alone exactly when no link leads from one loop to another. */
  lemma SecondCallFoldsNothingIff(cardKey: CardKeys, messageTime: MessageTimes, links: seq<(Key, Key)>,
                                  items: seq<LoopItem>, loopOf: seq<nat>, once: seq<LoopItem>,
                                  again: seq<nat>, twice: seq<LoopItem>)
    requires LinksApplied(cardKey, messageTime, links, items, loopOf, once)
    requires LinksApplied(cardKey, messageTime, links, once, again, twice)
    ensures |twice| == |once| <==> Settled(KeysOf(cardKey, items), links, TimesOf(messageTime, items), loopOf)
    ensures |twice| == |once| ==> twice == once
    ensures DistinctKeys(KeysOf(cardKey, items)) ==> twice == once
  {
    hide IsSurvivor, MergedFrom, KeyIndex, EdgesOf, Labels, Settled, DistinctKeys;
    var keys, ts := KeysOf(cardKey, items), TimesOf(messageTime, items);
    var edges := EdgesOf(KeyIndex(KeysOf(cardKey, once)), links);
    MergedKeys(cardKey, items, ts, loopOf);
    AloneAgainIff(keys, links, ts, loopOf);
    forall e | e in edges
      ensures e.0 < |once| && e.1 < |once|
    {
      EdgesInRange(KeysOf(cardKey, once), links, e);
    }
    NothingFoldsIff(once, TimesOf(messageTime, once), edges, again);
    if DistinctKeys(keys) {
      DistinctKeysSettle(keys, links, ts, loopOf);
    }
  }

  class Review {
    var analysis: Option<seq<LoopItem>>
    const cardKey: CardKeys
    const messageTime: MessageTimes

    constructor (analysis: Option<seq<LoopItem>>, cardKey: CardKeys, messageTime: MessageTimes)
      ensures this.analysis == analysis && this.cardKey == cardKey && this.messageTime == messageTime
    {
      this.analysis, this.cardKey, this.messageTime := analysis, cardKey, messageTime;
    }

    static method IndexKeys(keys: seq<Option<Key>>) returns (index: map<Key, nat>)
      ensures index == KeyIndex(keys)
    {
      index := map[];
      for i := 0 to |keys|
        invariant index == KeyIndex(keys[..i])
      {
        assert keys[..i + 1][..i] == keys[..i];
        if keys[i].Some? {
          index := index[keys[i].value := i];
        }
      }
      assert keys[..|keys|] == keys;
    }

    /** Unites the loops of every link whose two cards are present. */
    static method UniteLinked(n: nat, index: map<Key, nat>, links: seq<(Key, Key)>)
      returns (parent: array<nat>, ghost depth: seq<nat>)
      requires forall k :: k in index ==> index[k] < n
      ensures fresh(parent) && parent.Length == n && IsForest(parent[..], depth)
      ensures Labels(EdgesOf(index, links), RootsOf(parent[..], depth))
    {
      parent := new nat[n](i => i);
      depth := seq(n, _ => 0);
      assert forall i :: 0 <= i < n ==> StepsDown(parent[..], depth, i);
      EveryoneAlone(RootsOf(parent[..], depth));
      for i := 0 to |links|
        invariant IsForest(parent[..], depth)
        invariant Labels(EdgesOf(index, links[..i]), RootsOf(parent[..], depth))
      {
        var (a, b) := links[i];
        assert links[..i + 1][..i] == links[..i];
        if a in index && b in index {
          ghost var before := RootsOf(parent[..], depth);
          depth := Union(parent, index[a], index[b], depth);
          RelabelledForLink(EdgesOf(index, links[..i]), before, index[a], index[b], RootsOf(parent[..], depth));
        } else {
          assert EdgesOf(index, links[..i + 1]) == EdgesOf(index, links[..i]);
        }
      }
      assert links[..|links|] == links;
    }

    static lemma EveryoneAlone(loopOf: seq<nat>)
      requires forall i :: 0 <= i < |loopOf| ==> loopOf[i] == i
      ensures Labels([], loopOf)
    {
      var none: seq<Edge> := [];
      forall i, j | 0 <= i < |loopOf| && 0 <= j < |loopOf|
        ensures loopOf[i] == loopOf[j] <==> Connected(none, i, j)
      {
        if Connected(none, i, j) {
          var path :| IsChain(none, path, i, j);
          ChainStays(none, path, i, j);
        }
        ConnectedSelf(none, i);
      }
    }

    static lemma NoMembersYet(loopOf: seq<nat>)
      ensures Grouped(map[], loopOf, 0)
    {
    }

    /** Lists every loop's cards under its root. */
    static method GroupByRoot(parent: array<nat>, ghost depth: seq<nat>) returns (groups: map<nat, seq<nat>>)
      requires IsForest(parent[..], depth)
      modifies parent
      ensures Grouped(groups, old(RootsOf(parent[..], depth)), parent.Length)
    {
      hide Members;
      ghost var loopOf := RootsOf(parent[..], depth);
      groups := map[];
      assert Grouped(groups, loopOf, 0) by { NoMembersYet(loopOf); }
      for i := 0 to parent.Length
        invariant IsForest(parent[..], depth) && RootsOf(parent[..], depth) == loopOf
        invariant Grouped(groups, loopOf, i)
      {
        var root := Find(parent, i, depth);
        assert RootsOf(parent[..], depth) == loopOf;
        GroupedWithNext(groups, loopOf, i);
        groups := groups[root := GroupAt(groups, root) + [i]];
      }
    }

    /** The folds of every loop of several cards, in the order of the loops' roots. */
    static method PlanFolds(ts: seq<int>, ghost loopOf: seq<nat>, groups: map<nat, seq<nat>>) returns (folds: seq<Fold>)
      requires |ts| == |loopOf|
      requires Grouped(groups, loopOf, |ts|)
      ensures folds == AllFolds(ts, loopOf, |ts|)
    {
      hide AllFolds;
      hide GroupFolds;
      hide Members;
      hide SortByTime;
      AllFoldsStep(ts, loopOf, 0);
      folds := [];
      for r := 0 to |ts|
        invariant folds == AllFolds(ts, loopOf, r)
      {
        AllFoldsStep(ts, loopOf, r + 1);
        var group := GroupAt(groups, r);
        assert group == Members(loopOf, r, |ts|);
        if |group| > 1 {
          folds := folds + GroupFolds(SortByTime(ts, group));
        } else {
          NoFoldAlone(ts, loopOf, r);
        }
      }
    }

    static lemma NoFoldAlone(ts: seq<int>, loopOf: seq<nat>, l: nat)
      requires |ts| == |loopOf| && |Members(loopOf, l, |ts|)| <= 1
      ensures GroupFolds(GroupInOrder(ts, loopOf, l)) == []
    {
      var m := Members(loopOf, l, |ts|);
      if m != [] {
        assert m == [m[0]] && m[..0] == [];
        assert SortByTime(ts, m) == [m[0]];
      }
    }

    /**
     Merges linked cards and returns how many were folded away. The ghost result
     says which cards were one loop.
     */
    method ApplyLoopLinks(links: seq<(Key, Key)>) returns (count: nat, ghost loopOf: seq<nat>)
      modifies this
      ensures old(analysis).None? ==> analysis.None? && count == 0
      ensures old(analysis).Some? ==>
                && analysis.Some?
                && LinksApplied(cardKey, messageTime, links, old(analysis).value, loopOf, analysis.value)
                && count == |old(analysis).value| - |analysis.value|
    {
      loopOf := [];
      if analysis.None? {
        return 0, [];
      }
      var items := analysis.value;
      var keys, ts := KeysOf(cardKey, items), TimesOf(messageTime, items);
      var index := IndexKeys(keys);
      forall k | k in index
        ensures index[k] < |items|
      {
        KeyIndexed(keys, k);
      }
      var parent, depth := UniteLinked(|items|, index, links);
      loopOf := RootsOf(parent[..], depth);
      var groups := GroupByRoot(parent, depth);
      var folds := PlanFolds(ts, loopOf, groups);
      FoldsAreProper(ts, loopOf);
      FoldCount(items, ts, loopOf);
      KeptAreMerged(items, ts, loopOf, 0);
      count := |folds|;
      var merged := RunFolds(items, ts, folds);
      merged := RemoveGone(merged, Gone(folds));
      analysis := Some(merged);
    }

    /**
     Applies the same links twice, as a scan followed by a pair marked as different does. The
     second call changes nothing exactly when the first left no link between two loops.
     */
    method ApplyLoopLinksTwice(links: seq<(Key, Key)>)
      returns (first: nat, second: nat, ghost loopOf: seq<nat>, ghost once: Option<seq<LoopItem>>)
      modifies this
      ensures old(analysis).None? ==> analysis.None? && first == second == 0
      ensures old(analysis).Some? ==>
                var items := old(analysis).value;
                && once.Some? && analysis.Some?
                && LinksApplied(cardKey, messageTime, links, items, loopOf, once.value)
                && first == |items| - |once.value|
                && (second == 0 <==> Settled(KeysOf(cardKey, items), links, TimesOf(messageTime, items), loopOf))
                && (second == 0 ==> analysis == once)
                && (DistinctKeys(KeysOf(cardKey, items)) ==> second == 0)
    {
      hide LinksApplied, Settled, DistinctKeys;
      first, loopOf := ApplyLoopLinks(links);
      once := analysis;
      ghost var again;
      second, again := ApplyLoopLinks(links);
      if once.Some? {
        SecondCallFoldsNothingIff(cardKey, messageTime, links, old(analysis).value, loopOf, once.value, again,
                                  analysis.value);
      }
    }

    static method RunFolds(items: seq<LoopItem>, ts: seq<int>, folds: seq<Fold>) returns (r: seq<LoopItem>)
      requires |items| == |ts| && FoldsInRange(|ts|, folds)
      ensures r == ApplyFolds(items, ts, folds)
    {
      r := items;
      for i := 0 to |folds|
        invariant r == ApplyFolds(items, ts, folds[..i])
      {
        assert folds[..i + 1][..i] == folds[..i];
        var (survivor, dropped) := folds[i];
        var merged := FoldInto(r[survivor], r[dropped], OwnerLink, ts[dropped]);
        r := r[survivor := merged];
      }
      assert folds[..|folds|] == folds;
    }

    /** Removes by descending position, so that earlier positions keep their meaning. */
    static method RemoveGone(items: seq<LoopItem>, gone: set<nat>) returns (r: seq<LoopItem>)
      ensures r == KeptFrom(items, gone, 0)
    {
      r := items;
      for i := |items| downto 0
        invariant r == items[..i] + KeptFrom(items, gone, i)
      {
        if i in gone {
          r := r[..i] + r[i + 1..];
        }
      }
    }
  }
}
