/**
 Merging linked cards. Links connect cards; cards connected by a chain of links
 are one loop, and the earliest card of each loop survives with everything the
 others were evidenced by.
 */
module LoopLinks {
  import opened Wrappers
  import opened Bytes
  import opened LoopItems

  // ---- chains of links

  type Edge = (nat, nat)

  ghost predicate Joined(edges: seq<Edge>, i: nat, j: nat) {
    (i, j) in edges || (j, i) in edges
  }

  ghost predicate IsChain(edges: seq<Edge>, path: seq<nat>, i: nat, j: nat) {
    && path != [] && path[0] == i && path[|path| - 1] == j
    && forall k :: 0 <= k < |path| - 1 ==> Joined(edges, path[k], path[k + 1])
  }

  ghost predicate Connected(edges: seq<Edge>, i: nat, j: nat) {
    exists path :: IsChain(edges, path, i, j)
  }

  lemma ConnectedSelf(edges: seq<Edge>, i: nat)
    ensures Connected(edges, i, i)
  {
    assert IsChain(edges, [i], i, i);
  }

  lemma ConnectedThrough(edges: seq<Edge>, i: nat, j: nat, k: nat)
    requires Connected(edges, i, j) && Connected(edges, j, k)
    ensures Connected(edges, i, k)
  {
    var p :| IsChain(edges, p, i, j);
    var q :| IsChain(edges, q, j, k);
    var path := p + q[1..];
    forall m | 0 <= m < |path| - 1
      ensures Joined(edges, path[m], path[m + 1])
    {
      if m >= |p| - 1 {
        var n := m - (|p| - 1);
        assert path[m] == q[n] && path[m + 1] == q[n + 1];
        assert Joined(edges, q[n], q[n + 1]);
      }
    }
    assert IsChain(edges, path, i, k);
  }

  lemma ConnectedMore(edges: seq<Edge>, e: Edge, i: nat, j: nat)
    requires Connected(edges, i, j)
    ensures Connected(edges + [e], i, j)
  {
    var path :| IsChain(edges, path, i, j);
    forall k | 0 <= k < |path| - 1
      ensures Joined(edges + [e], path[k], path[k + 1])
    {
      assert Joined(edges, path[k], path[k + 1]);
    }
    assert IsChain(edges + [e], path, i, j);
  }

  /** Either both ends were connected before, or the new link (a, b) is what joins their loops. */
  ghost predicate ConnectedVia(edges: seq<Edge>, a: nat, b: nat, i: nat, j: nat) {
    || Connected(edges, i, j)
    || (Connected(edges, i, a) && Connected(edges, b, j))
    || (Connected(edges, i, b) && Connected(edges, a, j))
  }

  lemma {:induction false} NewLinkNeeded(edges: seq<Edge>, a: nat, b: nat, path: seq<nat>, i: nat, j: nat)
    requires IsChain(edges + [(a, b)], path, i, j)
    ensures ConnectedVia(edges, a, b, i, j)
    decreases |path|
  {
    if |path| == 1 {
      ConnectedSelf(edges, i);
    } else {
      var k := path[1];
      assert Joined(edges + [(a, b)], path[0], path[1]);
      assert IsChain(edges + [(a, b)], path[1..], k, j);
      NewLinkNeeded(edges, a, b, path[1..], k, j);
      FirstStep(edges, a, b, i, k, j);
    }
  }

  lemma FirstStep(edges: seq<Edge>, a: nat, b: nat, i: nat, k: nat, j: nat)
    requires Joined(edges + [(a, b)], i, k) && ConnectedVia(edges, a, b, k, j)
    ensures ConnectedVia(edges, a, b, i, j)
  {
    ConnectedSelf(edges, a);
    ConnectedSelf(edges, b);
    if Joined(edges, i, k) {
      assert IsChain(edges, [i, k], i, k);
      if Connected(edges, k, j) { ConnectedThrough(edges, i, k, j); }
      if Connected(edges, k, a) { ConnectedThrough(edges, i, k, a); }
      if Connected(edges, k, b) { ConnectedThrough(edges, i, k, b); }
    } else {
      assert (i == a && k == b) || (i == b && k == a);
    }
  }

  lemma NewLink(edges: seq<Edge>, a: nat, b: nat, i: nat, j: nat)
    ensures Connected(edges + [(a, b)], i, j) <==> ConnectedVia(edges, a, b, i, j)
  {
    var more := edges + [(a, b)];
    if Connected(more, i, j) {
      var path :| IsChain(more, path, i, j);
      NewLinkNeeded(edges, a, b, path, i, j);
    }
    assert IsChain(more, [a, b], a, b) && IsChain(more, [b, a], b, a);
    if Connected(edges, i, j) {
      ConnectedMore(edges, (a, b), i, j);
    } else if Connected(edges, i, a) && Connected(edges, b, j) {
      ConnectedMore(edges, (a, b), i, a);
      ConnectedMore(edges, (a, b), b, j);
      ConnectedThrough(more, i, a, b);
      ConnectedThrough(more, i, b, j);
    } else if Connected(edges, i, b) && Connected(edges, a, j) {
      ConnectedMore(edges, (a, b), i, b);
      ConnectedMore(edges, (a, b), a, j);
      ConnectedThrough(more, i, b, a);
      ConnectedThrough(more, i, a, j);
    }
  }

  /** Equal labels mean the same loop. */
  ghost predicate Labels(edges: seq<Edge>, loopOf: seq<nat>) {
    forall i, j :: 0 <= i < |loopOf| && 0 <= j < |loopOf| ==> (loopOf[i] == loopOf[j] <==> Connected(edges, i, j))
  }

  /** Giving b's loop a's loopOf labels the loops with the link (a, b) added. */
  lemma RelabelledForLink(edges: seq<Edge>, loopOf: seq<nat>, a: nat, b: nat, loopOf': seq<nat>)
    requires Labels(edges, loopOf) && a < |loopOf| && b < |loopOf| && |loopOf'| == |loopOf|
    requires forall i :: 0 <= i < |loopOf| ==> loopOf'[i] == if loopOf[i] == loopOf[b] then loopOf[a] else loopOf[i]
    ensures Labels(edges + [(a, b)], loopOf')
  {
    forall i, j | 0 <= i < |loopOf| && 0 <= j < |loopOf|
      ensures loopOf'[i] == loopOf'[j] <==> Connected(edges + [(a, b)], i, j)
    {
      NewLink(edges, a, b, i, j);
      assert loopOf[i] == loopOf[j] <==> Connected(edges, i, j);
      assert loopOf[i] == loopOf[a] <==> Connected(edges, i, a);
      assert loopOf[i] == loopOf[b] <==> Connected(edges, i, b);
      assert loopOf[b] == loopOf[j] <==> Connected(edges, b, j);
      assert loopOf[a] == loopOf[j] <==> Connected(edges, a, j);
    }
  }

  // ---- links between the cards at hand

  /** Where each key's card is; of cards with one key the last counts. */
  function KeyIndex(keys: seq<Option<Key>>): map<Key, nat> {
    if keys == [] then map[]
    else
      var i := |keys| - 1;
      var index := KeyIndex(keys[..i]);
      if keys[i].Some? then index[keys[i].value := i] else index
  }

  lemma {:induction false} KeyIndexed(keys: seq<Option<Key>>, k: Key)
    ensures k in KeyIndex(keys) <==> Some(k) in keys
    ensures k in KeyIndex(keys) ==> KeyIndex(keys)[k] < |keys| && keys[KeyIndex(keys)[k]] == Some(k)
  {
    if keys != [] {
      var i := |keys| - 1;
      KeyIndexed(keys[..i], k);
      assert Some(k) in keys <==> Some(k) in keys[..i] || keys[i] == Some(k);
    }
  }

  /** The links whose two cards are both present, as pairs of card positions. */
  function EdgesOf(index: map<Key, nat>, links: seq<(Key, Key)>): seq<Edge> {
    if links == [] then []
    else
      var (a, b) := links[|links| - 1];
      EdgesOf(index, links[..|links| - 1]) + (if a in index && b in index then [(index[a], index[b])] else [])
  }

  lemma {:induction false} EdgesInRange(keys: seq<Option<Key>>, links: seq<(Key, Key)>, e: Edge)
    requires e in EdgesOf(KeyIndex(keys), links)
    ensures e.0 < |keys| && e.1 < |keys|
    ensures exists a, b :: (a, b) in links && keys[e.0] == Some(a) && keys[e.1] == Some(b)
  {
    var (a, b) := links[|links| - 1];
    KeyIndexed(keys, a);
    KeyIndexed(keys, b);
    if e in EdgesOf(KeyIndex(keys), links[..|links| - 1]) {
      EdgesInRange(keys, links[..|links| - 1], e);
    }
  }

  lemma {:induction false} EdgePresent(index: map<Key, nat>, links: seq<(Key, Key)>, a: Key, b: Key)
    requires (a, b) in links && a in index && b in index
    ensures (index[a], index[b]) in EdgesOf(index, links)
  {
    if links[|links| - 1] != (a, b) {
      EdgePresent(index, links[..|links| - 1], a, b);
    }
  }

  // ---- groups and survivors

  predicate InRange(n: nat, s: seq<nat>) {
    forall k :: 0 <= k < |s| ==> s[k] < n
  }

  /** Earlier, or at the same time but listed first. */
  predicate Before(ts: seq<int>, i: nat, j: nat)
    requires i < |ts| && j < |ts|
  {
    ts[i] < ts[j] || (ts[i] == ts[j] && i < j)
  }

  ghost predicate IsSurvivor(ts: seq<int>, loopOf: seq<nat>, i: nat)
    requires i < |ts| == |loopOf|
  {
    forall j :: 0 <= j < |ts| && loopOf[j] == loopOf[i] ==> j == i || Before(ts, i, j)
  }

  /** The cards before m that belong to loop l, in list order. */
  function Members(loopOf: seq<nat>, l: nat, m: nat): (r: seq<nat>)
    requires m <= |loopOf|
    ensures InRange(m, r)
  {
    if m == 0 then [] else Members(loopOf, l, m - 1) + (if loopOf[m - 1] == l then [m - 1] else [])
  }

  function InsertByTime(ts: seq<int>, sorted: seq<nat>, i: nat): seq<nat>
    requires i < |ts| && InRange(|ts|, sorted)
  {
    if sorted == [] then [i]
    else if Before(ts, i, sorted[0]) then [i] + sorted
    else [sorted[0]] + InsertByTime(ts, sorted[1..], i)
  }

  ghost predicate InTimeOrder(ts: seq<int>, s: seq<nat>) {
    && (InRange(|ts|, s))
    && (forall m, n :: 0 <= m < n < |s| ==> Before(ts, s[m], s[n]))
  }

  lemma FirstInTimeOrder(ts: seq<int>, i: nat, rest: seq<nat>)
    requires InTimeOrder(ts, rest) && i < |ts|
    requires forall j: nat :: j in rest ==> Before(ts, i, j)
    ensures InTimeOrder(ts, [i] + rest)
  {
    assert forall n :: 0 <= n < |rest| ==> rest[n] in rest;
  }

  lemma {:induction false} InsertKeepsTimeOrder(ts: seq<int>, sorted: seq<nat>, i: nat)
    requires InTimeOrder(ts, sorted) && i < |ts| && i !in sorted
    ensures InTimeOrder(ts, InsertByTime(ts, sorted, i))
    ensures forall j: nat :: j in InsertByTime(ts, sorted, i) <==> j == i || j in sorted
  {
    if sorted == [] {
    } else if Before(ts, i, sorted[0]) {
      FirstInTimeOrder(ts, i, sorted);
    } else {
      InsertKeepsTimeOrder(ts, sorted[1..], i);
      FirstInTimeOrder(ts, sorted[0], InsertByTime(ts, sorted[1..], i));
    }
  }

  function SortByTime(ts: seq<int>, s: seq<nat>): (r: seq<nat>)
    requires InRange(|ts|, s)
    ensures InRange(|ts|, r)
  {
    if s == [] then []
    else
      var init := SortByTime(ts, s[..|s| - 1]);
      var r := InsertByTime(ts, init, s[|s| - 1]);
      InsertedInRange(ts, init, s[|s| - 1]);
      r
  }

  lemma {:induction false} InsertedInRange(ts: seq<int>, sorted: seq<nat>, i: nat)
    requires i < |ts| && InRange(|ts|, sorted)
    ensures InRange(|ts|, InsertByTime(ts, sorted, i))
  {
    if sorted != [] && !Before(ts, i, sorted[0]) {
      InsertedInRange(ts, sorted[1..], i);
    }
  }

  lemma {:induction false} SortIsInTimeOrder(ts: seq<int>, s: seq<nat>)
    requires InRange(|ts|, s)
    requires forall m, n :: 0 <= m < n < |s| ==> s[m] != s[n]
    ensures InTimeOrder(ts, SortByTime(ts, s))
    ensures forall j: nat :: j in SortByTime(ts, s) <==> j in s
  {
    if s != [] {
      var init, last := s[..|s| - 1], s[|s| - 1];
      SortIsInTimeOrder(ts, init);
      assert last !in init;
      InsertKeepsTimeOrder(ts, SortByTime(ts, init), last);
      assert forall j: nat :: j in s <==> j in init || j == last;
    }
  }

  lemma {:induction false} MembersAre(loopOf: seq<nat>, l: nat, m: nat)
    requires m <= |loopOf|
    ensures forall i: nat :: i in Members(loopOf, l, m) <==> i < m && loopOf[i] == l
    ensures forall a, b :: 0 <= a < b < |Members(loopOf, l, m)| ==> Members(loopOf, l, m)[a] < Members(loopOf, l, m)[b]
  {
    if m > 0 {
      MembersAre(loopOf, l, m - 1);
      var before := Members(loopOf, l, m - 1);
      assert forall a :: 0 <= a < |before| ==> before[a] in before;
    }
  }

  /** A loop's cards, earliest first. */
  function GroupInOrder(ts: seq<int>, loopOf: seq<nat>, l: nat): seq<nat>
    requires |ts| == |loopOf|
  {
    SortByTime(ts, Members(loopOf, l, |loopOf|))
  }

  lemma GroupIsInOrder(ts: seq<int>, loopOf: seq<nat>, l: nat)
    requires |ts| == |loopOf|
    ensures InTimeOrder(ts, GroupInOrder(ts, loopOf, l))
    ensures forall i: nat :: i in GroupInOrder(ts, loopOf, l) <==> i < |ts| && loopOf[i] == l
  {
    MembersAre(loopOf, l, |loopOf|);
    SortIsInTimeOrder(ts, Members(loopOf, l, |loopOf|));
  }

  /** The first card of a loop in time order is its survivor, and the only one. */
  lemma FirstSurvives(ts: seq<int>, loopOf: seq<nat>, i: nat)
    requires i < |ts| == |loopOf|
    ensures GroupInOrder(ts, loopOf, loopOf[i]) != []
    ensures IsSurvivor(ts, loopOf, i) <==> GroupInOrder(ts, loopOf, loopOf[i])[0] == i
  {
    var g := GroupInOrder(ts, loopOf, loopOf[i]);
    GroupIsInOrder(ts, loopOf, loopOf[i]);
    assert i in g;
    assert g[0] in g;
    forall j | 0 <= j < |ts| && loopOf[j] == loopOf[i]
      ensures j == g[0] || Before(ts, g[0], j)
    {
      assert j in g;
    }
  }

  // ---- folding

  /** (survivor, dropped) */
  type Fold = (nat, nat)

  function GroupFolds(g: seq<nat>): (r: seq<Fold>)
    ensures |r| == if g == [] then 0 else |g| - 1
    ensures forall k :: 0 <= k < |r| ==> r[k] == (g[0], g[k + 1])
  {
    if |g| <= 1 then [] else GroupFolds(g[..|g| - 1]) + [(g[0], g[|g| - 1])]
  }

  /** The folds of the loops labelled below l, loop by loop. */
  function AllFolds(ts: seq<int>, loopOf: seq<nat>, l: nat): seq<Fold>
    requires |ts| == |loopOf|
  {
    if l == 0 then [] else AllFolds(ts, loopOf, l - 1) + GroupFolds(GroupInOrder(ts, loopOf, l - 1))
  }

  predicate FoldsInRange(n: nat, folds: seq<Fold>) {
    forall k :: 0 <= k < |folds| ==> folds[k].0 < n && folds[k].1 < n
  }

  function ApplyFold(items: seq<LoopItem>, ts: seq<int>, f: Fold): seq<LoopItem>
    requires |items| == |ts| && f.0 < |ts| && f.1 < |ts|
  {
    items[f.0 := Folded(items[f.0], items[f.1], OwnerLink, ts[f.1])]
  }

  function ApplyFolds(items: seq<LoopItem>, ts: seq<int>, folds: seq<Fold>): (r: seq<LoopItem>)
    requires |items| == |ts| && FoldsInRange(|ts|, folds)
    ensures |r| == |items|
  {
    if folds == [] then items
    else ApplyFold(ApplyFolds(items, ts, folds[..|folds| - 1]), ts, folds[|folds| - 1])
  }

  /** What is folded into s, in order. */
  function DroppedInto(folds: seq<Fold>, s: nat): seq<nat> {
    if folds == [] then []
    else
      var i := |folds| - 1;
      DroppedInto(folds[..i], s) + (if folds[i].0 == s then [folds[i].1] else [])
  }

  /** Card s after the cards in dropped were folded into it, one after the other. */
  function FoldAll(items: seq<LoopItem>, ts: seq<int>, s: nat, dropped: seq<nat>): LoopItem
    requires |items| == |ts| && s < |ts| && InRange(|ts|, dropped)
  {
    if dropped == [] then items[s]
    else
      var i := |dropped| - 1;
      Folded(FoldAll(items, ts, s, dropped[..i]), items[dropped[i]], OwnerLink, ts[dropped[i]])
  }

  ghost predicate NoneDroppedSurvives(folds: seq<Fold>) {
    forall j, k :: 0 <= j < |folds| && 0 <= k < |folds| ==> folds[j].1 != folds[k].0
  }

  lemma {:induction false} FoldsActSeparately(items: seq<LoopItem>, ts: seq<int>, folds: seq<Fold>, s: nat)
    requires |items| == |ts| && FoldsInRange(|ts|, folds) && NoneDroppedSurvives(folds) && s < |ts|
    ensures InRange(|ts|, DroppedInto(folds, s))
    ensures ApplyFolds(items, ts, folds)[s] == FoldAll(items, ts, s, DroppedInto(folds, s))
  {
    if folds != [] {
      var i := |folds| - 1;
      var (into, dropped) := folds[i];
      assert NoneDroppedSurvives(folds[..i]);
      FoldsActSeparately(items, ts, folds[..i], s);
      FoldsActSeparately(items, ts, folds[..i], dropped);
      assert forall k :: 0 <= k < i ==> folds[..i][k].0 != dropped;
      NothingInto(folds[..i], dropped);
      hide Folded;
      var before := ApplyFolds(items, ts, folds[..i]);
      assert before[dropped] == items[dropped];
      assert ApplyFolds(items, ts, folds) == ApplyFold(before, ts, folds[i]);
      var all := DroppedInto(folds, s);
      if into == s {
        assert all[..|all| - 1] == DroppedInto(folds[..i], s) && all[|all| - 1] == dropped;
        assert FoldAll(items, ts, s, all) == Folded(before[s], items[dropped], OwnerLink, ts[dropped]);
      } else {
        assert all == DroppedInto(folds[..i], s);
      }
    }
  }

  lemma {:induction false} NothingInto(folds: seq<Fold>, s: nat)
    requires forall k :: 0 <= k < |folds| ==> folds[k].0 != s
    ensures DroppedInto(folds, s) == []
  {
    if folds != [] {
      NothingInto(folds[..|folds| - 1], s);
    }
  }

  lemma {:induction false} DroppedIntoBoth(f: seq<Fold>, g: seq<Fold>, s: nat)
    ensures DroppedInto(f + g, s) == DroppedInto(f, s) + DroppedInto(g, s)
  {
    if g == [] {
      assert f + g == f;
    } else {
      assert (f + g)[..|f + g| - 1] == f + g[..|g| - 1];
      DroppedIntoBoth(f, g[..|g| - 1], s);
    }
  }

  lemma {:induction false} GroupDrops(g: seq<nat>, s: nat)
    ensures DroppedInto(GroupFolds(g), s) == if g != [] && g[0] == s then g[1..] else []
  {
    hide GroupFolds, DroppedInto;
    GroupFoldsStep(g);
    if |g| > 1 {
      var g' := g[..|g| - 1];
      GroupDrops(g', s);
      DroppedIntoOne(GroupFolds(g'), (g[0], g[|g| - 1]), s);
      assert g[1..] == g'[1..] + [g[|g| - 1]];
    } else {
      NothingInto([], s);
      assert g != [] ==> g[1..] == [];
    }
  }

  lemma GroupFoldsStep(g: seq<nat>)
    ensures GroupFolds(g) == if |g| <= 1 then [] else GroupFolds(g[..|g| - 1]) + [(g[0], g[|g| - 1])]
  {
  }

  lemma DroppedIntoOne(folds: seq<Fold>, fold: Fold, s: nat)
    ensures DroppedInto(folds + [fold], s) == DroppedInto(folds, s) + if fold.0 == s then [fold.1] else []
  {
    assert (folds + [fold])[..|folds|] == folds;
  }

  lemma AllFoldsStep(ts: seq<int>, loopOf: seq<nat>, l: nat)
    requires |ts| == |loopOf|
    ensures AllFolds(ts, loopOf, l)
         == if l == 0 then [] else AllFolds(ts, loopOf, l - 1) + GroupFolds(GroupInOrder(ts, loopOf, l - 1))
  {
  }

  /** Survivors receive the rest of their loop in time order, everyone else nothing. */
  lemma {:induction false} FoldsInto(ts: seq<int>, loopOf: seq<nat>, l: nat, s: nat)
    requires |ts| == |loopOf| && s < |ts|
    ensures GroupInOrder(ts, loopOf, loopOf[s]) != []
    ensures DroppedInto(AllFolds(ts, loopOf, l), s)
         == if loopOf[s] < l && IsSurvivor(ts, loopOf, s) then GroupInOrder(ts, loopOf, loopOf[s])[1..] else []
    decreases l
  {
    hide *;
    FirstSurvives(ts, loopOf, s);
    AllFoldsStep(ts, loopOf, l);
    if l == 0 {
      NothingInto([], s);
    } else {
      var f, g := AllFolds(ts, loopOf, l - 1), GroupInOrder(ts, loopOf, l - 1);
      DroppedIntoBoth(f, GroupFolds(g), s);
      FoldsInto(ts, loopOf, l - 1, s);
      GroupDrops(g, s);
      if g != [] {
        GroupMember(ts, loopOf, l - 1, 0);
      }
      var earlier, now := DroppedInto(f, s), DroppedInto(GroupFolds(g), s);
      assert loopOf[s] == l - 1 ==> earlier == [] && earlier + now == now;
      assert loopOf[s] != l - 1 ==> now == [] && earlier + now == earlier;
    }
  }

  /** A fold takes a card that does not survive into the survivor of its loop, and takes it once. */
  ghost predicate ProperFolds(ts: seq<int>, loopOf: seq<nat>, l: nat, folds: seq<Fold>)
    requires |ts| == |loopOf|
  {
    && FoldsInRange(|ts|, folds)
    && (forall k :: 0 <= k < |folds| ==>
          && IsSurvivor(ts, loopOf, folds[k].0) && !IsSurvivor(ts, loopOf, folds[k].1)
          && loopOf[folds[k].0] == loopOf[folds[k].1] < l)
    && (forall j, k :: 0 <= j < k < |folds| ==> folds[j].1 != folds[k].1)
  }

  lemma GroupMember(ts: seq<int>, loopOf: seq<nat>, l: nat, k: nat)
    requires |ts| == |loopOf| && k < |GroupInOrder(ts, loopOf, l)|
    ensures var g := GroupInOrder(ts, loopOf, l);
            && g[k] < |ts| && loopOf[g[k]] == l
            && (IsSurvivor(ts, loopOf, g[k]) <==> k == 0)
            && forall j :: 0 <= j < k ==> g[j] != g[k]
  {
    var g := GroupInOrder(ts, loopOf, l);
    GroupIsInOrder(ts, loopOf, l);
    hide GroupInOrder;
    hide IsSurvivor;
    assert g[k] in g;
    FirstSurvives(ts, loopOf, g[k]);
    assert k > 0 ==> Before(ts, g[0], g[k]);
    assert forall j :: 0 <= j < k ==> Before(ts, g[j], g[k]);
  }

  lemma GroupFoldsProper(ts: seq<int>, loopOf: seq<nat>, l: nat)
    requires |ts| == |loopOf|
    ensures var folds := GroupFolds(GroupInOrder(ts, loopOf, l));
            ProperFolds(ts, loopOf, l + 1, folds) && forall k :: 0 <= k < |folds| ==> loopOf[folds[k].1] == l
  {
    var g := GroupInOrder(ts, loopOf, l);
    hide GroupInOrder;
    hide IsSurvivor;
    forall k | 0 <= k < |g|
      ensures g[k] < |ts| && loopOf[g[k]] == l
      ensures IsSurvivor(ts, loopOf, g[k]) <==> k == 0
      ensures forall j :: 0 <= j < k ==> g[j] != g[k]
    {
      GroupMember(ts, loopOf, l, k);
    }
  }

  lemma ProperTogether(ts: seq<int>, loopOf: seq<nat>, l: nat, f: seq<Fold>, g: seq<Fold>)
    requires |ts| == |loopOf| && ProperFolds(ts, loopOf, l, f) && ProperFolds(ts, loopOf, l + 1, g)
    requires forall k :: 0 <= k < |g| ==> loopOf[g[k].1] == l
    ensures ProperFolds(ts, loopOf, l + 1, f + g)
  {
    hide IsSurvivor;
  }

  lemma NoFoldsProper(ts: seq<int>, loopOf: seq<nat>)
    requires |ts| == |loopOf|
    ensures ProperFolds(ts, loopOf, 0, [])
  {
  }

  lemma {:induction false} AllFoldsProper(ts: seq<int>, loopOf: seq<nat>, l: nat)
    requires |ts| == |loopOf|
    ensures ProperFolds(ts, loopOf, l, AllFolds(ts, loopOf, l))
  {
    hide *;
    AllFoldsStep(ts, loopOf, l);
    if l == 0 {
      NoFoldsProper(ts, loopOf);
    } else {
      AllFoldsProper(ts, loopOf, l - 1);
      GroupFoldsProper(ts, loopOf, l - 1);
      ProperTogether(ts, loopOf, l - 1, AllFolds(ts, loopOf, l - 1), GroupFolds(GroupInOrder(ts, loopOf, l - 1)));
    }
  }

  /** The cards that are folded away. */
  function Gone(folds: seq<Fold>): set<nat> {
    set k | 0 <= k < |folds| :: folds[k].1
  }

  lemma GoneTogether(f: seq<Fold>, g: seq<Fold>)
    ensures Gone(f + g) == Gone(f) + Gone(g)
  {
    forall d: nat
      ensures d in Gone(f + g) <==> d in Gone(f) + Gone(g)
    {
      if d in Gone(f) {
        var k :| 0 <= k < |f| && f[k].1 == d;
        assert (f + g)[k].1 == d;
      }
      if d in Gone(g) {
        var k :| 0 <= k < |g| && g[k].1 == d;
        assert (f + g)[|f| + k].1 == d;
      }
    }
  }

  lemma FoldedAway(g: seq<nat>, m: nat)
    requires 0 < m < |g|
    ensures g[m] in Gone(GroupFolds(g))
  {
    assert GroupFolds(g)[m - 1].1 == g[m];
  }

  /** Every card of the loops below l that does not survive is folded away. */
  lemma {:induction false} OthersAreGone(ts: seq<int>, loopOf: seq<nat>, l: nat, d: nat)
    requires |ts| == |loopOf| && d < |ts| && loopOf[d] < l && !IsSurvivor(ts, loopOf, d)
    ensures d in Gone(AllFolds(ts, loopOf, l))
  {
    hide GroupInOrder;
    hide IsSurvivor;
    hide InTimeOrder;
    hide Gone;
    hide GroupFolds;
    var f, g := AllFolds(ts, loopOf, l - 1), GroupInOrder(ts, loopOf, l - 1);
    GoneTogether(f, GroupFolds(g));
    if loopOf[d] < l - 1 {
      OthersAreGone(ts, loopOf, l - 1, d);
    } else {
      GroupIsInOrder(ts, loopOf, l - 1);
      FirstSurvives(ts, loopOf, d);
      var m :| 0 <= m < |g| && g[m] == d;
      FoldedAway(g, m);
    }
  }

  lemma GoneAreOthers(ts: seq<int>, loopOf: seq<nat>, d: nat)
    requires |ts| == |loopOf| && InRange(|ts|, loopOf)
    ensures d in Gone(AllFolds(ts, loopOf, |ts|)) <==> d < |ts| && !IsSurvivor(ts, loopOf, d)
  {
    AllFoldsProper(ts, loopOf, |ts|);
    hide IsSurvivor;
    if d < |ts| && !IsSurvivor(ts, loopOf, d) {
      OthersAreGone(ts, loopOf, |ts|, d);
    }
  }

  lemma {:induction false} GoneCount(folds: seq<Fold>)
    requires forall j, k :: 0 <= j < k < |folds| ==> folds[j].1 != folds[k].1
    ensures |Gone(folds)| == |folds|
  {
    if folds != [] {
      var init, last := folds[..|folds| - 1], folds[|folds| - 1];
      GoneCount(init);
      assert folds == init + [last];
      GoneTogether(init, [last]);
      assert Gone([last]) == {last.1} by { assert [last][0] == last; }
      assert last.1 !in Gone(init);
    }
  }

  // ---- the resulting cards

  /** The cards from position i on without the ones that are gone. */
  function KeptFrom(items: seq<LoopItem>, gone: set<nat>, i: nat): seq<LoopItem>
    requires i <= |items|
    decreases |items| - i
  {
    if i == |items| then [] else (if i in gone then [] else [items[i]]) + KeptFrom(items, gone, i + 1)
  }

  /** The survivors from position i on, in list order. */
  ghost function SurvivorsFrom(ts: seq<int>, loopOf: seq<nat>, i: nat): (r: seq<nat>)
    requires i <= |ts| == |loopOf|
    ensures InRange(|ts|, r)
    ensures forall s: nat :: s in r <==> i <= s < |ts| && IsSurvivor(ts, loopOf, s)
    ensures forall j, k :: 0 <= j < k < |r| ==> r[j] < r[k]
    decreases |ts| - i
  {
    if i == |ts| then []
    else
      var rest := SurvivorsFrom(ts, loopOf, i + 1);
      assert forall k :: 0 <= k < |rest| ==> rest[k] in rest;
      (if IsSurvivor(ts, loopOf, i) then [i] else []) + rest
  }

  /** Survivor s with the rest of its loop folded into it, earliest first. */
  function Merged(items: seq<LoopItem>, ts: seq<int>, loopOf: seq<nat>, s: nat): LoopItem
    requires |items| == |ts| == |loopOf| && s < |ts|
  {
    var g := GroupInOrder(ts, loopOf, loopOf[s]);
    assert InRange(|ts|, if g == [] then [] else g[1..]);
    FoldAll(items, ts, s, if g == [] then [] else g[1..])
  }

  /** One card per loop: its earliest card, in list order, merged with the others. */
  ghost function MergedFrom(items: seq<LoopItem>, ts: seq<int>, loopOf: seq<nat>, i: nat): seq<LoopItem>
    requires i <= |items| == |ts| == |loopOf|
    decreases |ts| - i
  {
    if i == |ts| then []
    else
      var rest := MergedFrom(items, ts, loopOf, i + 1);
      (if IsSurvivor(ts, loopOf, i) then [Merged(items, ts, loopOf, i)] else []) + rest
  }

  ghost predicate SameLengths(items: seq<LoopItem>, ts: seq<int>, loopOf: seq<nat>) {
    |items| == |ts| == |loopOf| && InRange(|ts|, loopOf)
  }

  lemma FoldsAreProper(ts: seq<int>, loopOf: seq<nat>)
    requires |ts| == |loopOf| && InRange(|ts|, loopOf)
    ensures var folds := AllFolds(ts, loopOf, |ts|); FoldsInRange(|ts|, folds) && NoneDroppedSurvives(folds)
  {
    AllFoldsProper(ts, loopOf, |ts|);
    hide IsSurvivor;
  }

  lemma SurvivorMerged(items: seq<LoopItem>, ts: seq<int>, loopOf: seq<nat>, s: nat)
    requires SameLengths(items, ts, loopOf) && s < |ts| && IsSurvivor(ts, loopOf, s)
    requires FoldsInRange(|ts|, AllFolds(ts, loopOf, |ts|))
    ensures ApplyFolds(items, ts, AllFolds(ts, loopOf, |ts|))[s] == Merged(items, ts, loopOf, s)
  {
    hide GroupInOrder;
    hide IsSurvivor;
    hide AllFolds;
    FoldsAreProper(ts, loopOf);
    FoldsActSeparately(items, ts, AllFolds(ts, loopOf, |ts|), s);
    FoldsInto(ts, loopOf, |ts|, s);
  }

  lemma {:induction false} KeptAreMerged(items: seq<LoopItem>, ts: seq<int>, loopOf: seq<nat>, i: nat)
    requires SameLengths(items, ts, loopOf) && i <= |ts|
    requires FoldsInRange(|ts|, AllFolds(ts, loopOf, |ts|))
    ensures var folds := AllFolds(ts, loopOf, |ts|);
            KeptFrom(ApplyFolds(items, ts, folds), Gone(folds), i) == MergedFrom(items, ts, loopOf, i)
    decreases |ts| - i
  {
    hide GroupInOrder;
    hide AllFolds;
    hide IsSurvivor;
    hide Gone;
    hide Merged;
    if i < |ts| {
      KeptAreMerged(items, ts, loopOf, i + 1);
      GoneAreOthers(ts, loopOf, i);
      if IsSurvivor(ts, loopOf, i) {
        SurvivorMerged(items, ts, loopOf, i);
      }
    }
  }

  lemma {:induction false} KeptCount(items: seq<LoopItem>, gone: set<nat>, i: nat)
    requires i <= |items| && forall d: nat :: d in gone ==> d < |items|
    ensures |KeptFrom(items, gone, i)| == |items| - i - |set d: nat | d in gone && i <= d|
    decreases |items| - i
  {
    var tail := set d: nat | d in gone && i <= d;
    if i == |items| {
      assert tail == {};
    } else {
      KeptCount(items, gone, i + 1);
      var rest := set d: nat | d in gone && i + 1 <= d;
      assert tail == if i in gone then rest + {i} else rest;
    }
  }

  /** As many cards are gone as were folded. */
  lemma FoldCount(items: seq<LoopItem>, ts: seq<int>, loopOf: seq<nat>)
    requires SameLengths(items, ts, loopOf)
    ensures |AllFolds(ts, loopOf, |ts|)| == |items| - |MergedFrom(items, ts, loopOf, 0)|
  {
    var folds := AllFolds(ts, loopOf, |ts|);
    FoldsAreProper(ts, loopOf);
    AllFoldsProper(ts, loopOf, |ts|);
    hide IsSurvivor;
    hide AllFolds;
    GoneCount(folds);
    KeptAreMerged(items, ts, loopOf, 0);
    KeptCount(ApplyFolds(items, ts, folds), Gone(folds), 0);
    assert (set d: nat | d in Gone(folds) && 0 <= d) == Gone(folds);
  }

  lemma {:induction false} MergedAt(items: seq<LoopItem>, ts: seq<int>, loopOf: seq<nat>, i: nat)
    requires |items| == |ts| == |loopOf| && i <= |ts|
    ensures var r, s := MergedFrom(items, ts, loopOf, i), SurvivorsFrom(ts, loopOf, i);
            |r| == |s| && forall k :: 0 <= k < |s| ==> r[k] == Merged(items, ts, loopOf, s[k])
    decreases |ts| - i
  {
    hide IsSurvivor;
    hide Merged;
    if i < |ts| {
      MergedAt(items, ts, loopOf, i + 1);
    }
  }

  /** Two survivors of one loop are one card. */
  lemma OneSurvivor(ts: seq<int>, loopOf: seq<nat>, i: nat, j: nat)
    requires i < |ts| == |loopOf| && j < |ts| && loopOf[i] == loopOf[j]
    requires IsSurvivor(ts, loopOf, i) && IsSurvivor(ts, loopOf, j)
    ensures i == j
  {
    assert j == i || Before(ts, i, j);
  }

  lemma {:induction false} LoopCount(ts: seq<int>, loopOf: seq<nat>, survivors: seq<nat>)
    requires |ts| == |loopOf| && InRange(|ts|, survivors)
    requires forall k :: 0 <= k < |survivors| ==> IsSurvivor(ts, loopOf, survivors[k])
    requires forall j, k :: 0 <= j < k < |survivors| ==> survivors[j] < survivors[k]
    ensures |set k | 0 <= k < |survivors| :: loopOf[survivors[k]]| == |survivors|
  {
    hide IsSurvivor;
    var loops := set k | 0 <= k < |survivors| :: loopOf[survivors[k]];
    if survivors == [] {
      assert loops == {};
    } else {
      var m := |survivors| - 1;
      var init := survivors[..m];
      LoopCount(ts, loopOf, init);
      var before := set k | 0 <= k < |init| :: loopOf[init[k]];
      if loopOf[survivors[m]] in before {
        var k :| 0 <= k < |init| && loopOf[init[k]] == loopOf[survivors[m]];
        OneSurvivor(ts, loopOf, survivors[k], survivors[m]);
      }
      assert loops == before + {loopOf[survivors[m]]};
    }
  }

  lemma LoopHasSurvivor(ts: seq<int>, loopOf: seq<nat>, i: nat) returns (s: nat)
    requires i < |ts| == |loopOf|
    ensures s < |ts| && loopOf[s] == loopOf[i] && IsSurvivor(ts, loopOf, s)
  {
    FirstSurvives(ts, loopOf, i);
    GroupMember(ts, loopOf, loopOf[i], 0);
    s := GroupInOrder(ts, loopOf, loopOf[i])[0];
  }

  lemma LoopsOfSurvivors(ts: seq<int>, loopOf: seq<nat>, survivors: seq<nat>)
    requires |ts| == |loopOf| && survivors == SurvivorsFrom(ts, loopOf, 0)
    ensures (set l | l in loopOf) == set k | 0 <= k < |survivors| :: loopOf[survivors[k]]
  {
    hide IsSurvivor;
    hide SurvivorsFrom;
    forall l: nat | l in loopOf
      ensures exists k :: 0 <= k < |survivors| && loopOf[survivors[k]] == l
    {
      var i: nat :| i < |loopOf| && loopOf[i] == l;
      var s := LoopHasSurvivor(ts, loopOf, i);
      assert s in survivors;
    }
  }

  /** The number of cards left is the number of loops. */
  lemma OneCardPerLoop(items: seq<LoopItem>, ts: seq<int>, loopOf: seq<nat>)
    requires SameLengths(items, ts, loopOf)
    ensures |MergedFrom(items, ts, loopOf, 0)| == |set l | l in loopOf|
  {
    hide IsSurvivor;
    hide SurvivorsFrom;
    hide MergedFrom;
    hide Merged;
    var survivors := SurvivorsFrom(ts, loopOf, 0);
    MergedAt(items, ts, loopOf, 0);
    forall k | 0 <= k < |survivors|
      ensures IsSurvivor(ts, loopOf, survivors[k])
    {
      assert survivors[k] in survivors;
    }
    LoopCount(ts, loopOf, survivors);
    LoopsOfSurvivors(ts, loopOf, survivors);
  }

  // ---- cards on their own

  lemma EdgeConnects(edges: seq<Edge>, i: nat, j: nat)
    requires (i, j) in edges
    ensures Connected(edges, i, j)
  {
    assert Joined(edges, i, j);
    assert IsChain(edges, [i, j], i, j);
  }

  lemma EdgeLabels(edges: seq<Edge>, loopOf: seq<nat>, i: nat, j: nat)
    requires Labels(edges, loopOf) && i < |loopOf| && j < |loopOf| && (i, j) in edges
    ensures loopOf[i] == loopOf[j]
  {
    EdgeConnects(edges, i, j);
  }

  lemma {:induction false} ChainStays(edges: seq<Edge>, path: seq<nat>, i: nat, j: nat)
    requires IsChain(edges, path, i, j)
    requires forall e :: e in edges ==> e.0 == e.1
    ensures i == j
    decreases |path|
  {
    if |path| > 1 {
      assert Joined(edges, path[0], path[1]);
      assert IsChain(edges, path[1..], path[1], j);
      ChainStays(edges, path[1..], path[1], j);
    }
  }

  lemma {:induction false} AloneUnchanged(items: seq<LoopItem>, ts: seq<int>, loopOf: seq<nat>, i: nat)
    requires SameLengths(items, ts, loopOf) && i <= |ts|
    requires forall j, k :: 0 <= j < k < |loopOf| ==> loopOf[j] != loopOf[k]
    ensures MergedFrom(items, ts, loopOf, i) == items[i..]
    decreases |ts| - i
  {
    hide GroupInOrder;
    if i < |ts| {
      AloneUnchanged(items, ts, loopOf, i + 1);
      AloneInGroup(ts, loopOf, i);
      FirstSurvives(ts, loopOf, i);
      assert items[i..] == [items[i]] + items[i + 1..];
    }
  }

  lemma AloneInGroup(ts: seq<int>, loopOf: seq<nat>, i: nat)
    requires |ts| == |loopOf| && i < |ts|
    requires forall j, k :: 0 <= j < k < |loopOf| ==> loopOf[j] != loopOf[k]
    ensures GroupInOrder(ts, loopOf, loopOf[i]) == [i]
  {
    var g := GroupInOrder(ts, loopOf, loopOf[i]);
    FirstSurvives(ts, loopOf, i);
    hide GroupInOrder;
    GroupMember(ts, loopOf, loopOf[i], 0);
    if |g| > 1 {
      GroupMember(ts, loopOf, loopOf[i], 1);
    }
  }

  /** The places of the cards at these positions. */
  function PlacesAt(items: seq<LoopItem>, at: seq<nat>): set<Place>
    requires InRange(|items|, at)
  {
    if at == [] then {} else PlacesAt(items, at[..|at| - 1]) + Places(items[at[|at| - 1]])
  }

  lemma {:induction false} FoldAllConserves(items: seq<LoopItem>, ts: seq<int>, s: nat, dropped: seq<nat>)
    requires |items| == |ts| && s < |ts| && InRange(|ts|, dropped)
    ensures Places(FoldAll(items, ts, s, dropped)) == Places(items[s]) + PlacesAt(items, dropped)
    ensures Tidy(items[s]) ==> Tidy(FoldAll(items, ts, s, dropped))
    ensures FoldAll(items, ts, s, dropped).evidence == items[s].evidence
    ensures FoldAll(items, ts, s, dropped).actionPhrase == items[s].actionPhrase
  {
    hide Places;
    hide Tidy;
    if dropped != [] {
      var i := |dropped| - 1;
      FoldAllConserves(items, ts, s, dropped[..i]);
      FoldConserves(FoldAll(items, ts, s, dropped[..i]), items[dropped[i]], OwnerLink, ts[dropped[i]]);
    }
  }

  lemma {:induction false} PlacesAtAre(items: seq<LoopItem>, at: seq<nat>, p: Place)
    requires InRange(|items|, at)
    ensures p in PlacesAt(items, at) <==> exists k :: 0 <= k < |at| && p in Places(items[at[k]])
  {
    hide Places;
    if at != [] {
      PlacesAtAre(items, at[..|at| - 1], p);
      if exists k :: 0 <= k < |at| && p in Places(items[at[k]]) {
        var k :| 0 <= k < |at| && p in Places(items[at[k]]);
        assert k < |at| - 1 ==> at[..|at| - 1][k] == at[k];
      }
      if p in PlacesAt(items, at[..|at| - 1]) {
        var k :| 0 <= k < |at| - 1 && p in Places(items[at[..|at| - 1][k]]);
        assert p in Places(items[at[k]]);
      }
    }
  }

  /** A survivor is evidenced by exactly what the cards of its loop were evidenced by. */
  lemma MergedConserves(items: seq<LoopItem>, ts: seq<int>, loopOf: seq<nat>, s: nat, p: Place)
    requires |items| == |ts| == |loopOf| && s < |ts| && IsSurvivor(ts, loopOf, s)
    ensures p in Places(Merged(items, ts, loopOf, s))
            <==> exists j :: 0 <= j < |items| && loopOf[j] == loopOf[s] && p in Places(items[j])
    ensures Tidy(items[s]) ==> Tidy(Merged(items, ts, loopOf, s))
    ensures Merged(items, ts, loopOf, s).evidence == items[s].evidence
    ensures Merged(items, ts, loopOf, s).actionPhrase == items[s].actionPhrase
  {
    hide Places;
    hide Tidy;
    var g := GroupInOrder(ts, loopOf, loopOf[s]);
    FirstSurvives(ts, loopOf, s);
    GroupIsInOrder(ts, loopOf, loopOf[s]);
    hide GroupInOrder;
    hide IsSurvivor;
    FoldAllConserves(items, ts, s, g[1..]);
    PlacesAtAre(items, g[1..], p);
    if exists j :: 0 <= j < |items| && loopOf[j] == loopOf[s] && p in Places(items[j]) {
      var j: nat :| 0 <= j < |items| && loopOf[j] == loopOf[s] && p in Places(items[j]);
      var k :| 0 <= k < |g| && g[k] == j;
      assert k > 0 ==> g[1..][k - 1] == j;
    }
    if p in PlacesAt(items, g[1..]) {
      var k :| 0 <= k < |g[1..]| && p in Places(items[g[1..][k]]);
      assert g[k + 1] in g;
    } else if p in Places(items[s]) {
      assert loopOf[s] == loopOf[s];
    }
  }
}
