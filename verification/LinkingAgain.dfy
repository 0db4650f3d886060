/** Merging the same links again, where several cards may share one key. */
module LinkingAgain {
  import opened Wrappers
  import opened Bytes
  import opened LoopItems
  import opened LoopLinks

  function KeysAt(keys: seq<Option<Key>>, at: seq<nat>): (r: seq<Option<Key>>)
    requires InRange(|keys|, at)
    ensures |r| == |at| && forall k :: 0 <= k < |at| ==> r[k] == keys[at[k]]
  {
    if at == [] then [] else KeysAt(keys, at[..|at| - 1]) + [keys[at[|at| - 1]]]
  }

  ghost predicate DistinctKeys(keys: seq<Option<Key>>) {
    forall i, j :: 0 <= i < j < |keys| && keys[i].Some? ==> keys[i] != keys[j]
  }

  /**
   Card i is the last of the cards left that key k stands for. A link goes to the last card that
   holds its key, and merging can change which card that is.
   */
  ghost predicate LastLeft(keys: seq<Option<Key>>, ts: seq<int>, loopOf: seq<nat>, k: Key, i: nat)
    requires |keys| == |ts| == |loopOf|
  {
    && i < |ts| && keys[i] == Some(k) && IsSurvivor(ts, loopOf, i)
    && forall j :: i < j < |ts| && IsSurvivor(ts, loopOf, j) ==> keys[j] != Some(k)
  }

  /** No link leads from one loop to another: the last cards left under its two keys are of one loop. */
  ghost predicate Settled(keys: seq<Option<Key>>, links: seq<(Key, Key)>, ts: seq<int>, loopOf: seq<nat>)
    requires |keys| == |ts| == |loopOf|
  {
    forall a, b, i: nat, j: nat ::
      (a, b) in links && LastLeft(keys, ts, loopOf, a, i) && LastLeft(keys, ts, loopOf, b, j) ==> loopOf[i] == loopOf[j]
  }

  /** A link joins nothing new: its cards are the same card, or one of them is missing. */
  ghost predicate JoinsNothing(index: map<Key, nat>, links: seq<(Key, Key)>) {
    forall a, b :: (a, b) in links && a in index && b in index ==> index[a] == index[b]
  }

  ghost predicate AllApart(edges: seq<Edge>) {
    forall i, j :: Connected(edges, i, j) ==> i == j
  }

  lemma {:induction false} KeyIndexIsLast(keys: seq<Option<Key>>, k: Key, i: nat)
    requires i < |keys| && keys[i] == Some(k)
    ensures k in KeyIndex(keys) && i <= KeyIndex(keys)[k]
  {
    if i < |keys| - 1 {
      KeyIndexIsLast(keys[..|keys| - 1], k, i);
      KeyIndexed(keys, k);
    }
  }

  lemma {:induction false} EdgeComesFrom(index: map<Key, nat>, links: seq<(Key, Key)>, e: Edge)
    requires e in EdgesOf(index, links)
    ensures exists a, b :: (a, b) in links && a in index && b in index && e == (index[a], index[b])
  {
    var init := links[..|links| - 1];
    var (a, b) := links[|links| - 1];
    if e in EdgesOf(index, init) {
      EdgeComesFrom(index, init, e);
      var a, b :| (a, b) in init && a in index && b in index && e == (index[a], index[b]);
      assert (a, b) in links;
    } else {
      assert (a, b) in links;
    }
  }

  /** Nobody is joined to anybody exactly when every link joins nothing. */
  lemma ApartIff(index: map<Key, nat>, links: seq<(Key, Key)>)
    ensures AllApart(EdgesOf(index, links)) <==> JoinsNothing(index, links)
  {
    hide EdgesOf, Connected;
    var edges := EdgesOf(index, links);
    if AllApart(edges) {
      forall a, b | (a, b) in links && a in index && b in index
        ensures index[a] == index[b]
      {
        EdgePresent(index, links, a, b);
        EdgeConnects(edges, index[a], index[b]);
      }
    }
    if JoinsNothing(index, links) {
      forall e | e in edges
        ensures e.0 == e.1
      {
        EdgeComesFrom(index, links, e);
      }
      forall i, j | Connected(edges, i, j)
        ensures i == j
      {
        LoopsStay(edges, i, j);
      }
    }
  }

  lemma LoopsStay(edges: seq<Edge>, i: nat, j: nat)
    requires Connected(edges, i, j) && forall e :: e in edges ==> e.0 == e.1
    ensures i == j
  {
    var path :| IsChain(edges, path, i, j);
    ChainStays(edges, path, i, j);
  }

  /** The second call finds under each key the last card left that holds it. */
  lemma KeysFindTheLastLeft(keys: seq<Option<Key>>, ts: seq<int>, loopOf: seq<nat>, k: Key, i: nat)
    requires |keys| == |ts| == |loopOf|
    ensures var s := SurvivorsFrom(ts, loopOf, 0);
            var again := KeyIndex(KeysAt(keys, s));
            LastLeft(keys, ts, loopOf, k, i) <==> k in again && again[k] < |s| && s[again[k]] == i
  {
    hide IsSurvivor, SurvivorsFrom, KeyIndex, KeysAt;
    var s := SurvivorsFrom(ts, loopOf, 0);
    var again := KeyIndex(KeysAt(keys, s));
    KeyIndexed(KeysAt(keys, s), k);
    if LastLeft(keys, ts, loopOf, k, i) {
      assert i in s;
      var x: nat :| x < |s| && s[x] == i;
      KeyIndexIsLast(KeysAt(keys, s), k, x);
      assert s[again[k]] in s;
    }
    if k in again && s[again[k]] == i {
      assert i in s;
      forall j | i < j < |ts| && IsSurvivor(ts, loopOf, j)
        ensures keys[j] != Some(k)
      {
        assert j in s;
        var x: nat :| x < |s| && s[x] == j;
        if keys[j] == Some(k) {
          KeyIndexIsLast(KeysAt(keys, s), k, x);
        }
      }
    }
  }

  lemma SurvivorsShareLoop(ts: seq<int>, loopOf: seq<nat>, x: nat, y: nat)
    requires |ts| == |loopOf|
    requires var s := SurvivorsFrom(ts, loopOf, 0); x < |s| && y < |s|
    ensures var s := SurvivorsFrom(ts, loopOf, 0); loopOf[s[x]] == loopOf[s[y]] <==> x == y
  {
    hide IsSurvivor, SurvivorsFrom;
    var s := SurvivorsFrom(ts, loopOf, 0);
    assert s[x] in s && s[y] in s;
    if loopOf[s[x]] == loopOf[s[y]] {
      OneSurvivor(ts, loopOf, s[x], s[y]);
    }
  }

  /** A second call finds every card alone exactly when no link leads from one loop to another. */
  lemma AloneAgainIff(keys: seq<Option<Key>>, links: seq<(Key, Key)>, ts: seq<int>, loopOf: seq<nat>)
    requires |keys| == |ts| == |loopOf|
    ensures AllApart(EdgesOf(KeyIndex(KeysAt(keys, SurvivorsFrom(ts, loopOf, 0))), links))
            <==> Settled(keys, links, ts, loopOf)
  {
    hide IsSurvivor, SurvivorsFrom, KeyIndex, KeysAt, EdgesOf, AllApart;
    var s := SurvivorsFrom(ts, loopOf, 0);
    var again := KeyIndex(KeysAt(keys, s));
    ApartIff(again, links);
    if JoinsNothing(again, links) {
      forall a, b, i: nat, j: nat | (a, b) in links && LastLeft(keys, ts, loopOf, a, i)
        && LastLeft(keys, ts, loopOf, b, j)
        ensures loopOf[i] == loopOf[j]
      {
        KeysFindTheLastLeft(keys, ts, loopOf, a, i);
        KeysFindTheLastLeft(keys, ts, loopOf, b, j);
      }
    }
    if Settled(keys, links, ts, loopOf) {
      forall a, b | (a, b) in links && a in again && b in again
        ensures again[a] == again[b]
      {
        KeyIndexed(KeysAt(keys, s), a);
        KeyIndexed(KeysAt(keys, s), b);
        KeysFindTheLastLeft(keys, ts, loopOf, a, s[again[a]]);
        KeysFindTheLastLeft(keys, ts, loopOf, b, s[again[b]]);
        SurvivorsShareLoop(ts, loopOf, again[a], again[b]);
      }
    }
  }

  /** Where every key belongs to one card, nothing is left to merge. */
  lemma DistinctKeysSettle(keys: seq<Option<Key>>, links: seq<(Key, Key)>, ts: seq<int>, loopOf: seq<nat>)
    requires |keys| == |ts| == |loopOf| && Labels(EdgesOf(KeyIndex(keys), links), loopOf) && DistinctKeys(keys)
    ensures Settled(keys, links, ts, loopOf)
  {
    hide IsSurvivor, KeyIndex, EdgesOf, Labels;
    var index := KeyIndex(keys);
    forall a, b, i: nat, j: nat | (a, b) in links && LastLeft(keys, ts, loopOf, a, i)
      && LastLeft(keys, ts, loopOf, b, j)
      ensures loopOf[i] == loopOf[j]
    {
      KeyIndexed(keys, a);
      KeyIndexed(keys, b);
      assert index[a] == i && index[b] == j;
      EdgePresent(index, links, a, b);
      EdgeLabels(EdgesOf(index, links), loopOf, i, j);
    }
  }

  // ---- the cards themselves

  ghost predicate AllDiffer(labels: seq<nat>) {
    forall i, j :: 0 <= i < j < |labels| ==> labels[i] != labels[j]
  }

  lemma OneMoreDiffers(labels: seq<nat>)
    requires labels != []
    ensures var init, last := labels[..|labels| - 1], labels[|labels| - 1];
            AllDiffer(labels) <==> AllDiffer(init) && last !in init
  {
    var init, last := labels[..|labels| - 1], labels[|labels| - 1];
    assert forall i :: 0 <= i < |init| ==> labels[i] == init[i];
    assert last in init ==> exists i :: 0 <= i < |init| && labels[i] == last;
    assert !AllDiffer(init) ==> exists i, j :: 0 <= i < j < |init| && labels[i] == labels[j];
  }

  function Loops(labels: seq<nat>): set<nat> {
    set l | l in labels
  }

  lemma {:induction false} NoTwoAlike(labels: seq<nat>)
    ensures |Loops(labels)| <= |labels|
    ensures |Loops(labels)| == |labels| <==> AllDiffer(labels)
  {
    hide AllDiffer;
    var all := Loops(labels);
    if labels == [] {
      NoneAlike(labels);
      assert all == {};
    } else {
      var init, last := labels[..|labels| - 1], labels[|labels| - 1];
      NoTwoAlike(init);
      OneMoreDiffers(labels);
      var before := Loops(init);
      assert all == before + {last};
      if last in before {
        assert all == before;
      } else {
        assert |all| == |before| + 1;
      }
    }
  }

  lemma NoneAlike(labels: seq<nat>)
    requires labels == []
    ensures AllDiffer(labels)
  {
  }

  /** Cards whose labels all differ stay as they were; where two labels agree, a card goes. */
  lemma NothingFoldsIff(items: seq<LoopItem>, ts: seq<int>, edges: seq<Edge>, loopOf: seq<nat>)
    requires SameLengths(items, ts, loopOf) && Labels(edges, loopOf)
    requires forall e :: e in edges ==> e.0 < |items| && e.1 < |items|
    ensures AllApart(edges) <==> |MergedFrom(items, ts, loopOf, 0)| == |items|
    ensures AllApart(edges) <==> MergedFrom(items, ts, loopOf, 0) == items
  {
    hide Connected, MergedFrom;
    OneCardPerLoop(items, ts, loopOf);
    NoTwoAlike(loopOf);
    assert Loops(loopOf) == set l | l in loopOf;
    if AllDiffer(loopOf) {
      AloneUnchanged(items, ts, loopOf, 0);
      assert items[0..] == items;
      forall i, j | Connected(edges, i, j)
        ensures i == j
      {
        ConnectedInRange(edges, |items|, i, j);
      }
    } else {
      var i, j :| 0 <= i < j < |loopOf| && loopOf[i] == loopOf[j];
      assert Connected(edges, i, j);
    }
  }

  lemma ConnectedInRange(edges: seq<Edge>, n: nat, i: nat, j: nat)
    requires Connected(edges, i, j) && forall e :: e in edges ==> e.0 < n && e.1 < n
    ensures i == j || (i < n && j < n)
  {
    var path :| IsChain(edges, path, i, j);
    if |path| > 1 {
      assert Joined(edges, path[0], path[0 + 1]);
      assert Joined(edges, path[|path| - 2], path[|path| - 2 + 1]);
    }
  }

  /** With two cards under one key, a second call can merge what the first could not see. */
  lemma RepeatedKeyFoldsAgain(k: Key, l: Key)
    requires k != l
    ensures var keys, links := [Some(k), Some(l), Some(k)], [(k, l)];
            && Labels(EdgesOf(KeyIndex(keys), links), [0, 2, 2])
            && SurvivorsFrom([0, 0, 0], [0, 2, 2], 0) == [0, 1]
            && Connected(EdgesOf(KeyIndex(KeysAt(keys, [0, 1])), links), 0, 1)
  {
    var keys, links := [Some(k), Some(l), Some(k)], [(k, l)];
    assert keys[..2] == [Some(k), Some(l)] && keys[..2][..1] == [Some(k)];
    assert EdgesOf(KeyIndex(keys), links[..0]) == [];
    assert EdgesOf(KeyIndex(keys), links) == [(2, 1)];
    assert KeysAt(keys, [0, 1]) == keys[..2];
    assert EdgesOf(KeyIndex(keys[..2]), links[..0]) == [];
    assert EdgesOf(KeyIndex(keys[..2]), links) == [(0, 1)];
    assert IsChain([(0, 1)], [0, 1], 0, 1);
    RepeatedKeyLabels();
    FirstTwoSurvive();
    FirstTwoOfThree([0, 0, 0], [0, 2, 2]);
  }

  lemma RepeatedKeyLabels()
    ensures Labels([(2, 1)], [0, 2, 2])
  {
    var none: seq<Edge> := [];
    var apart: seq<nat> := [0, 1, 2];
    forall i, j | 0 <= i < 3 && 0 <= j < 3
      ensures apart[i] == apart[j] <==> Connected(none, i, j)
    {
      if Connected(none, i, j) {
        var path :| IsChain(none, path, i, j);
        ChainStays(none, path, i, j);
      }
      ConnectedSelf(none, i);
    }
    RelabelledForLink(none, apart, 2, 1, [0, 2, 2]);
    assert none + [(2, 1)] == [(2, 1)];
  }

  lemma SurvivorStep(ts: seq<int>, loopOf: seq<nat>, i: nat)
    requires i < |ts| == |loopOf|
    ensures SurvivorsFrom(ts, loopOf, i)
         == (if IsSurvivor(ts, loopOf, i) then [i] else []) + SurvivorsFrom(ts, loopOf, i + 1)
    ensures SurvivorsFrom(ts, loopOf, |ts|) == []
  {
  }

  lemma FirstTwoSurvive()
    ensures IsSurvivor([0, 0, 0], [0, 2, 2], 0) && IsSurvivor([0, 0, 0], [0, 2, 2], 1)
    ensures !IsSurvivor([0, 0, 0], [0, 2, 2], 2)
  {
    var ts, loopOf: seq<nat> := [0, 0, 0], [0, 2, 2];
    assert !Before(ts, 2, 1) && loopOf[1] == loopOf[2];
  }

  lemma FirstTwoOfThree(ts: seq<int>, loopOf: seq<nat>)
    requires |ts| == |loopOf| == 3
    requires IsSurvivor(ts, loopOf, 0) && IsSurvivor(ts, loopOf, 1) && !IsSurvivor(ts, loopOf, 2)
    ensures SurvivorsFrom(ts, loopOf, 0) == [0, 1]
  {
    hide SurvivorsFrom, IsSurvivor;
    SurvivorStep(ts, loopOf, 0);
    SurvivorStep(ts, loopOf, 1);
    SurvivorStep(ts, loopOf, 2);
    assert SurvivorsFrom(ts, loopOf, 2) == [];
    assert SurvivorsFrom(ts, loopOf, 1) == [1];
  }
}
