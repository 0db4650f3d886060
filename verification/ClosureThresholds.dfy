/** The verdict by the probabilities themselves, and whose effect wins. */
module ClosureThresholds {
  import opened Wrappers
  import opened ClosureWalk

  /** The answer is probable enough to act on. */
  predicate Sure(reg: Registry, u: UnitAnswers, q: Question) {
    q in u.probabilities && u.probabilities[q] >= reg(q).accept
  }

  /** Not probable enough to act on, but too probable to pass over. */
  predicate Unsure(reg: Registry, u: UnitAnswers, q: Question) {
    q in u.probabilities && reg(q).escalate <= u.probabilities[q] < reg(q).accept
  }

  /** The unit says this: the author's sure answers that have this effect, with the unit's own place and probability. */
  predicate Says(reg: Registry, role: AuthorRole, u: UnitAnswers, e: Effect) {
    && e.ordinal == u.ordinal
    && match e
       case Close(ResolvedCompleted, _) => role == WaitingParty && Sure(reg, u, WpReceived)
       case Close(ResolvedWithdrawn, _) =>
         && role == WaitingParty
         && (Sure(reg, u, WpNoLongerNeeded) || (Sure(reg, u, WpChangesTerms) && !Sure(reg, u, WpStillOwed)))
       case Suggest(update, _, kind, p) =>
         && kind == u.kind
         && (|| (role == User && update == SuggestClosure && SureAt(reg, u, UserDelivers, p))
             || (role == User && update == SuggestDeclined && SureAt(reg, u, UserDeclines, p))
             || (role == User && update == SuggestDelegated && SureAt(reg, u, UserHandsOff, p))
             || (role == ThirdParty && update == SuggestClosure && SureAt(reg, u, ThirdPartyDone, p)))
       case AskedAgain(_) => role == WaitingParty && Sure(reg, u, WpAsksAgain)
       case Amended(_, kind) =>
         role == WaitingParty && kind == u.kind && Sure(reg, u, WpChangesTerms) && Sure(reg, u, WpStillOwed)
       case NewDate(source, _, kind, p) =>
         && kind == u.kind
         && (|| (role == WaitingParty && source == FromWaitingParty && SureAt(reg, u, WpChangesDue, p))
             || (role == User && source == FromUser && SureAt(reg, u, UserPromises, p)))
  }

  predicate SureAt(reg: Registry, u: UnitAnswers, q: Question, p: real) {
    Sure(reg, u, q) && u.probabilities[q] == p
  }

  /** An answer that matters is unsure. What changed terms still leave owed matters only if they surely changed. */
  predicate LeavesOpen(reg: Registry, role: AuthorRole, u: UnitAnswers) {
    match role
    case WaitingParty =>
      || Unsure(reg, u, WpReceived) || Unsure(reg, u, WpNoLongerNeeded) || Unsure(reg, u, WpAsksAgain)
      || Unsure(reg, u, WpChangesTerms) || Unsure(reg, u, WpChangesDue)
      || (Sure(reg, u, WpChangesTerms) && Unsure(reg, u, WpStillOwed))
    case User =>
      || Unsure(reg, u, UserDelivers) || Unsure(reg, u, UserPromises)
      || Unsure(reg, u, UserDeclines) || Unsure(reg, u, UserHandsOff)
    case ThirdParty => Unsure(reg, u, ThirdPartyDone)
  }

  lemma BandsInNumbers(reg: Registry, u: UnitAnswers, q: Question)
    requires q in u.probabilities
    ensures UnitBand(reg, u, q) == Accept <==> Sure(reg, u, q)
    ensures UnitBand(reg, u, q) == Gray <==> Unsure(reg, u, q)
  {
  }

  lemma BandsOfRole(reg: Registry, role: AuthorRole, u: UnitAnswers)
    requires Answered(role, u)
    ensures forall q :: q in BranchIds(role) || q == Responds ==>
              && q in u.probabilities
              && (UnitBand(reg, u, q) == Accept <==> Sure(reg, u, q))
              && (UnitBand(reg, u, q) == Gray <==> Unsure(reg, u, q))
  {
    hide UnitBand, Sure, Unsure, BranchIds;
    forall q | q in BranchIds(role) || q == Responds
      ensures q in u.probabilities
      ensures UnitBand(reg, u, q) == Accept <==> Sure(reg, u, q)
      ensures UnitBand(reg, u, q) == Gray <==> Unsure(reg, u, q)
    {
      BandsInNumbers(reg, u, q);
    }
  }

  lemma BranchesAre(role: AuthorRole)
    ensures role == WaitingParty ==> forall q :: q in BranchIds(role) <==>
              q in {WpReceived, WpNoLongerNeeded, WpAsksAgain, WpChangesTerms, WpStillOwed, WpChangesDue}
    ensures role == User ==> forall q :: q in BranchIds(role) <==>
              q in {UserDelivers, UserPromises, UserDeclines, UserHandsOff}
    ensures role == ThirdParty ==> forall q :: q in BranchIds(role) <==> q == ThirdPartyDone
  {
  }

  lemma CheckedAre(role: AuthorRole)
    ensures forall q :: q in CheckedIds(role) <==> q in BranchIds(role) && q != WpStillOwed
  {
  }

  lemma UndecidedIffOpen(reg: Registry, role: AuthorRole, u: UnitAnswers)
    requires Answered(role, u)
    ensures Undecided(reg, role, u) <==> LeavesOpen(reg, role, u)
  {
    hide UnitBand, Sure, Unsure, CheckedIds, BranchIds;
    BandsOfRole(reg, role, u);
    BranchesAre(role);
    CheckedAre(role);
  }

  /** A decided unit has exactly the effects its sure answers say. */
  lemma EffectsSaid(reg: Registry, role: AuthorRole, u: UnitAnswers, e: Effect)
    requires Answered(role, u) && UnitEffects(reg, role, u).Some?
    ensures e in UnitEffects(reg, role, u).value <==> Says(reg, role, u, e)
  {
    hide Accepted, UnitBand, Sure, BranchIds, Undecided;
    AcceptedIff(Candidates(reg, role, u), e);
    BandsOfRole(reg, role, u);
    BranchesAre(role);
    var c := Candidates(reg, role, u);
    match role
    case WaitingParty =>
      assert (exists i :: 0 <= i < |c| && c[i] == (true, e)) <==>
               c[0] == (true, e) || c[1] == (true, e) || c[2] == (true, e) || c[3] == (true, e) || c[4] == (true, e);
    case User =>
      assert (exists i :: 0 <= i < |c| && c[i] == (true, e)) <==>
               c[0] == (true, e) || c[1] == (true, e) || c[2] == (true, e) || c[3] == (true, e);
    case ThirdParty =>
      assert (exists i :: 0 <= i < |c| && c[i] == (true, e)) <==> c[0] == (true, e);
  }

  /** The i-th responding unit, and that the ones before it are those responding before it. */
  lemma {:induction false} RespondingAt(reg: Registry, role: AuthorRole, units: seq<UnitAnswers>, i: nat)
    returns (k: nat)
    requires AllAnswered(role, units) && i < |Responding(reg, role, units)|
    ensures k < |units| && units[k] == Responding(reg, role, units)[i] && AllAnswered(role, units[..k])
    ensures Responding(reg, role, units[..k]) == Responding(reg, role, units)[..i]
    decreases |units|
  {
    hide UnitBand, Answered;
    var n := |units| - 1;
    var before := Responding(reg, role, units[..n]);
    if i < |before| {
      k := RespondingAt(reg, role, units[..n], i);
      assert units[..n][..k] == units[..k];
    } else {
      k := n;
      assert Responding(reg, role, units)[..i] == before;
    }
  }

  /** No unit before has an effect of this kind. */
  ghost predicate FirstToSay(reg: Registry, role: AuthorRole, units: seq<UnitAnswers>, i: nat, e: Effect)
    requires AllAnswered(role, units) && i < |units|
  {
    && UnitEffects(reg, role, units[i]).Some? && e in UnitEffects(reg, role, units[i]).value
    && KindOf(e) !in UnionKinds(reg, role, units[..i])
  }

  lemma NewKind(f: Folded, effects: seq<Effect>, kinds: set<EffectKind>, e: Effect)
    requires Holds(f, kinds)
    requires e in FoldEffects(f, effects).other && e !in f.other
    ensures e in effects && KindOf(e) !in kinds
  {
    FoldEffectsHold(f, effects, kinds);
    NewRank(f, effects, e);
    if KindOf(e) in kinds {
      forall i | 0 <= i < |f.terminal| ensures KindOf(f.terminal[i]) != KindOf(e) {
        assert IsTerminal(f.terminal[i]);
      }
    }
  }

  lemma {:induction false} NewRank(f: Folded, effects: seq<Effect>, e: Effect)
    requires e in FoldEffects(f, effects).other && e !in f.other
    ensures e in effects && !IsTerminal(e) && !HasRank(f.other, Rank(e))
    ensures f.other <= FoldEffects(f, effects).other
  {
    OthersGrow(f, effects);
    var before, last := FoldEffects(f, effects[..|effects| - 1]), effects[|effects| - 1];
    if e in before.other {
      NewRank(f, effects[..|effects| - 1], e);
    } else {
      OthersGrow(f, effects[..|effects| - 1]);
    }
  }

  lemma {:induction false} OthersGrow(f: Folded, effects: seq<Effect>)
    ensures f.other <= FoldEffects(f, effects).other && f.terminal <= FoldEffects(f, effects).terminal
    ensures forall e :: e in FoldEffects(f, effects).terminal ==> e in f.terminal || (e in effects && IsTerminal(e))
  {
    if effects != [] {
      OthersGrow(f, effects[..|effects| - 1]);
    }
  }

  lemma {:induction false} FoldedFirst(reg: Registry, role: AuthorRole, units: seq<UnitAnswers>, e: Effect)
    returns (i: nat)
    requires AllAnswered(role, units) && FoldUnits(reg, role, units).Some?
    requires var f := FoldUnits(reg, role, units).value; e in f.other || (f.terminal != [] && e == f.terminal[0])
    ensures i < |units| && UnitEffects(reg, role, units[i]).Some? && e in UnitEffects(reg, role, units[i]).value
    ensures AllAnswered(role, units[..i]) && KindOf(e) !in UnionKinds(reg, role, units[..i])
    decreases |units|
  {
    hide UnitEffects, FoldEffects, Answered, UnionKinds, Holds, KindOf;
    var n := |units| - 1;
    var before := FoldUnits(reg, role, units[..n]).value;
    var effects := UnitEffects(reg, role, units[n]).value;
    OthersGrow(before, effects);
    if e in before.other || (before.terminal != [] && e == before.terminal[0]) {
      i := FoldedFirst(reg, role, units[..n], e);
      assert units[..n][..i] == units[..i];
    } else {
      i := n;
      FoldUnitsHold(reg, role, units[..n]);
      if e in FoldEffects(before, effects).other {
        NewKind(before, effects, UnionKinds(reg, role, units[..n]), e);
      } else {
        FirstEnding(before, effects, UnionKinds(reg, role, units[..n]), e);
      }
    }
  }

  lemma FirstEnding(f: Folded, effects: seq<Effect>, kinds: set<EffectKind>, e: Effect)
    requires Holds(f, kinds) && f.terminal == []
    requires FoldEffects(f, effects).terminal != [] && e == FoldEffects(f, effects).terminal[0]
    ensures e in effects && KindOf(e) !in kinds
  {
    OthersGrow(f, effects);
    assert e in FoldEffects(f, effects).terminal;
    if KindOf(e) in kinds {
      OthersAreHeld(f, kinds, KindOf(e));
    }
  }

  /** Nobody surely responds: open if somebody may, else no response. */
  lemma NobodyResponds(reg: Registry, role: AuthorRole, units: seq<UnitAnswers>)
    requires AllAnswered(role, units)
    requires forall k :: 0 <= k < |units| ==> !Sure(reg, units[k], Responds)
    ensures StepVerdict(reg, role, units) ==
              if exists k :: 0 <= k < |units| && Unsure(reg, units[k], Responds) then Escalate else NoResponse
  {
    hide UnitBand, BranchIds, Sure, Unsure;
    forall k | 0 <= k < |units|
      ensures UnitBand(reg, units[k], Responds) == Accept <==> Sure(reg, units[k], Responds)
      ensures UnitBand(reg, units[k], Responds) == Gray <==> Unsure(reg, units[k], Responds)
    {
      BandsInNumbers(reg, units[k], Responds);
    }
    var responding := Responding(reg, role, units);
    NoMembers(responding);
  }

  lemma NoMembers(s: seq<UnitAnswers>)
    ensures (forall u :: u !in s) <==> s == []
  {
    if s != [] {
      assert s[0] in s;
    }
  }

  /** One responding unit that leaves an answer open leaves the whole message open. */
  lemma OpenUnitEscalates(reg: Registry, role: AuthorRole, units: seq<UnitAnswers>, k: nat)
    requires AllAnswered(role, units) && k < |units|
    requires Sure(reg, units[k], Responds) && LeavesOpen(reg, role, units[k])
    ensures StepVerdict(reg, role, units) == Escalate
  {
    hide UnitBand, BranchIds, Sure, LeavesOpen, UnitEffects;
    BandsInNumbers(reg, units[k], Responds);
    assert units[k] in Responding(reg, role, units);
    var i: nat :| i < |Responding(reg, role, units)| && Responding(reg, role, units)[i] == units[k];
    UndecidedIffOpen(reg, role, units[k]);
    UndecidedHasNone(reg, role, units[k]);
    NoneStaysNone(reg, role, Responding(reg, role, units), i);
  }

  lemma UndecidedHasNone(reg: Registry, role: AuthorRole, u: UnitAnswers)
    requires Answered(role, u)
    ensures UnitEffects(reg, role, u).None? <==> Undecided(reg, role, u)
  {
  }

  lemma {:induction false} NoneStaysNone(reg: Registry, role: AuthorRole, units: seq<UnitAnswers>, i: nat)
    requires AllAnswered(role, units) && i < |units| && UnitEffects(reg, role, units[i]).None?
    ensures FoldUnits(reg, role, units).None?
  {
    hide UnitEffects, FoldEffects, Answered;
    if i < |units| - 1 {
      NoneStaysNone(reg, role, units[..|units| - 1], i);
    }
  }

  /**
   Every applied effect is said by a unit that surely responds, and by none that surely responds
   before it: of several that say the same kind of thing the first one counts.
   */
  lemma FirstToSayItCounts(reg: Registry, role: AuthorRole, units: seq<UnitAnswers>, e: Effect)
    requires AllAnswered(role, units) && StepVerdict(reg, role, units).Apply?
    requires e in StepVerdict(reg, role, units).effects
    ensures exists k :: 0 <= k < |units| && Sure(reg, units[k], Responds) && Says(reg, role, units[k], e)
                        && forall h, d ::
                             0 <= h < k && Sure(reg, units[h], Responds) && Says(reg, role, units[h], d) ==>
                               KindOf(d) != KindOf(e)
  {
    hide UnitEffects, FoldUnits, UnionKinds, Kinds, BranchIds, UnitBand, Answered, Says, Sure, KindOf;
    var responding := Responding(reg, role, units);
    DecidedEffects(FoldUnits(reg, role, responding).value, e);
    var i := FoldedFirst(reg, role, responding, e);
    var k := RespondingAt(reg, role, units, i);
    assert responding[i] in responding;
    GateAnswered(role, units[k]);
    BandsInNumbers(reg, units[k], Responds);
    EffectsSaid(reg, role, units[k], e);
    forall h, d | 0 <= h < k && Sure(reg, units[h], Responds) && Says(reg, role, units[h], d)
      ensures KindOf(d) != KindOf(e)
    {
      GateAnswered(role, units[h]);
      BandsInNumbers(reg, units[h], Responds);
      assert units[..k][h] == units[h];
      assert units[h] in Responding(reg, role, units[..k]);
      EarlierIsDecided(reg, role, responding, i, units[h]);
      EffectsSaid(reg, role, units[h], d);
      KindCounts(reg, role, responding[..i], units[h], d);
    }
  }

  /** A renewed request comes before changed terms, and both before a new date; an ending comes alone. */
  lemma AppliedInOrder(reg: Registry, role: AuthorRole, units: seq<UnitAnswers>, i: nat, j: nat)
    requires AllAnswered(role, units) && StepVerdict(reg, role, units).Apply?
    requires i < j < |StepVerdict(reg, role, units).effects|
    ensures var a, b := StepVerdict(reg, role, units).effects[i], StepVerdict(reg, role, units).effects[j];
            (a.AskedAgain? && (b.Amended? || b.NewDate?)) || (a.Amended? && b.NewDate?)
  {
    hide StepVerdict, Answered, BranchIds, WellFormed, UnitBand;
    AppliedVerdicts(reg, role, units);
    RanksInOrder(StepVerdict(reg, role, units).effects, i, j);
  }

  lemma RanksInOrder(effects: seq<Effect>, i: nat, j: nat)
    requires WellFormed(effects) && i < j < |effects|
    ensures (effects[i].AskedAgain? && (effects[j].Amended? || effects[j].NewDate?))
            || (effects[i].Amended? && effects[j].NewDate?)
  {
    assert Increasing(effects) && Rank(effects[i]) < Rank(effects[j]);
  }

  lemma GateAnswered(role: AuthorRole, u: UnitAnswers)
    requires Answered(role, u)
    ensures Responds in u.probabilities
  {
  }

  lemma DecidedEffects(f: Folded, e: Effect)
    requires Decide(f).Apply? && e in Decide(f).effects
    ensures e in f.other || (f.terminal != [] && e == f.terminal[0])
  {
    SortedMembers(f.other, e);
  }

  lemma {:induction false} SortedMembers(effects: seq<Effect>, e: Effect)
    ensures e in SortByRank(effects) <==> e in effects
  {
    if effects != [] {
      SortedMembers(effects[..|effects| - 1], e);
      InsertedMembers(SortByRank(effects[..|effects| - 1]), effects[|effects| - 1], e);
    }
  }

  lemma {:induction false} InsertedMembers(sorted: seq<Effect>, d: Effect, e: Effect)
    ensures e in InsertByRank(sorted, d) <==> e == d || e in sorted
  {
    if sorted != [] {
      InsertedMembers(sorted[1..], d, e);
    }
  }

  lemma EarlierIsDecided(reg: Registry, role: AuthorRole, units: seq<UnitAnswers>, i: nat, u: UnitAnswers)
    requires AllAnswered(role, units) && FoldUnits(reg, role, units).Some? && i < |units| && u in units[..i]
    ensures Answered(role, u) && UnitEffects(reg, role, u).Some?
  {
    hide UnitEffects, FoldUnits, Answered;
    var h: nat :| h < i && units[h] == u;
    if UnitEffects(reg, role, u).None? {
      NoneStaysNone(reg, role, units, h);
    }
  }

  lemma KindCounts(reg: Registry, role: AuthorRole, units: seq<UnitAnswers>, u: UnitAnswers, e: Effect)
    requires AllAnswered(role, units) && u in units && Answered(role, u)
    requires UnitEffects(reg, role, u).Some? && e in UnitEffects(reg, role, u).value
    ensures KindOf(e) in UnionKinds(reg, role, units)
  {
    hide UnitEffects, Answered, UnionKinds;
    UnionKindsIff(reg, role, units, KindOf(e));
    var i :| 0 <= i < |units| && units[i] == u;
    var effects := UnitEffects(reg, role, u).value;
    var j :| 0 <= j < |effects| && effects[j] == e;
  }
}
