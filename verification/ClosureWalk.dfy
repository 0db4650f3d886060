/**
 One later message's verdict on an open loop, from the answers about its parts. The walk folds
 part after part and may stop early; what it concludes is fixed by the set of what the parts
 say, so neither their order nor their number nor a part that is turned away can change it.
 */
module ClosureWalk {
  import opened Wrappers

  datatype Question =
    | Responds
    | WpReceived | WpNoLongerNeeded | WpAsksAgain | WpChangesTerms | WpStillOwed | WpChangesDue
    | UserDelivers | UserPromises | UserDeclines | UserHandsOff
    | ThirdPartyDone

  datatype AuthorRole = WaitingParty | User | ThirdParty

  datatype Band = Accept | Gray | Reject

  datatype Thresholds = Thresholds(accept: real, escalate: real)

  type Registry = Question -> Thresholds

  datatype UnitKind = Paragraph | Message

  datatype UnitAnswers = UnitAnswers(ordinal: nat, kind: UnitKind, probabilities: map<Question, real>)

  datatype Resolution = ResolvedCompleted | ResolvedWithdrawn

  datatype SuggestedUpdate = SuggestClosure | SuggestDeclined | SuggestDelegated

  datatype DateSource = FromWaitingParty | FromUser

  datatype Effect =
    | Close(resolution: Resolution, ordinal: nat)
    | Suggest(update: SuggestedUpdate, ordinal: nat, kind: UnitKind, probability: real)
    | AskedAgain(ordinal: nat)
    | Amended(ordinal: nat, kind: UnitKind)
    | NewDate(source: DateSource, ordinal: nat, kind: UnitKind, probability: real)

  datatype Verdict = NoResponse | Escalate | Apply(effects: seq<Effect>)

  const WAITING_PARTY_IDS := [WpReceived, WpNoLongerNeeded, WpAsksAgain, WpChangesTerms, WpStillOwed, WpChangesDue]

  const USER_IDS := [UserDelivers, UserPromises, UserDeclines, UserHandsOff]

  const THIRD_PARTY_IDS := [ThirdPartyDone]

  function BranchIds(role: AuthorRole): seq<Question> {
    match role
    case WaitingParty => WAITING_PARTY_IDS
    case User => USER_IDS
    case ThirdParty => THIRD_PARTY_IDS
  }

  /** Every question asked about a unit was answered. */
  predicate Answered(role: AuthorRole, u: UnitAnswers) {
    Responds in u.probabilities && forall q :: q in BranchIds(role) ==> q in u.probabilities
  }

  predicate AllAnswered(role: AuthorRole, units: seq<UnitAnswers>) {
    forall i :: 0 <= i < |units| ==> Answered(role, units[i])
  }

  function BandOf(reg: Registry, q: Question, probability: real): Band {
    if probability >= reg(q).accept then Accept
    else if probability >= reg(q).escalate then Gray
    else Reject
  }

  function UnitBand(reg: Registry, u: UnitAnswers, q: Question): Band
    requires q in u.probabilities
  {
    BandOf(reg, q, u.probabilities[q])
  }

  predicate IsTerminal(e: Effect) { e.Close? || e.Suggest? }

  predicate SameOutcome(a: Effect, b: Effect) {
    (a.Close? && b.Close? && a.resolution == b.resolution) || (a.Suggest? && b.Suggest? && a.update == b.update)
  }

  function Rank(e: Effect): nat {
    match e
    case Close(_, _) => 0
    case Suggest(_, _, _, _) => 0
    case AskedAgain(_) => 1
    case Amended(_, _) => 2
    case NewDate(_, _, _, _) => 3
  }

  // ---- one unit

  /** The answers that must not be undecided before a unit has any effect. */
  function CheckedIds(role: AuthorRole): seq<Question> {
    match role
    case WaitingParty => [WpReceived, WpNoLongerNeeded, WpAsksAgain, WpChangesTerms, WpChangesDue]
    case User => USER_IDS
    case ThirdParty => THIRD_PARTY_IDS
  }

  /** An effect and whether its answer was accepted. */
  type Candidate = (bool, Effect)

  function Accepted(candidates: seq<Candidate>): seq<Effect> {
    if candidates == [] then []
    else
      var (yes, e) := candidates[|candidates| - 1];
      Accepted(candidates[..|candidates| - 1]) + if yes then [e] else []
  }

  function WaitingPartyCandidates(reg: Registry, u: UnitAnswers): seq<Candidate>
    requires Answered(WaitingParty, u)
  {
    [(Yes(reg, u, WpReceived), Close(ResolvedCompleted, u.ordinal)),
     (Yes(reg, u, WpNoLongerNeeded), Close(ResolvedWithdrawn, u.ordinal)),
     (Yes(reg, u, WpChangesTerms),
      if Yes(reg, u, WpStillOwed) then Amended(u.ordinal, u.kind) else Close(ResolvedWithdrawn, u.ordinal)),
     (Yes(reg, u, WpAsksAgain), AskedAgain(u.ordinal)),
     (Yes(reg, u, WpChangesDue), NewDate(FromWaitingParty, u.ordinal, u.kind, u.probabilities[WpChangesDue]))]
  }

  function UserCandidates(reg: Registry, u: UnitAnswers): seq<Candidate>
    requires Answered(User, u)
  {
    [(Yes(reg, u, UserDelivers), Suggest(SuggestClosure, u.ordinal, u.kind, u.probabilities[UserDelivers])),
     (Yes(reg, u, UserDeclines), Suggest(SuggestDeclined, u.ordinal, u.kind, u.probabilities[UserDeclines])),
     (Yes(reg, u, UserHandsOff), Suggest(SuggestDelegated, u.ordinal, u.kind, u.probabilities[UserHandsOff])),
     (Yes(reg, u, UserPromises), NewDate(FromUser, u.ordinal, u.kind, u.probabilities[UserPromises]))]
  }

  function ThirdPartyCandidates(reg: Registry, u: UnitAnswers): seq<Candidate>
    requires Answered(ThirdParty, u)
  {
    [(Yes(reg, u, ThirdPartyDone), Suggest(SuggestClosure, u.ordinal, u.kind, u.probabilities[ThirdPartyDone]))]
  }

  function Candidates(reg: Registry, role: AuthorRole, u: UnitAnswers): seq<Candidate>
    requires Answered(role, u)
  {
    match role
    case WaitingParty => WaitingPartyCandidates(reg, u)
    case User => UserCandidates(reg, u)
    case ThirdParty => ThirdPartyCandidates(reg, u)
  }

  predicate Yes(reg: Registry, u: UnitAnswers, q: Question)
    requires q in u.probabilities
  {
    UnitBand(reg, u, q) == Accept
  }

  /** An answer that matters is undecided: whether the terms changed is not owed matters only when they did. */
  predicate Undecided(reg: Registry, role: AuthorRole, u: UnitAnswers)
    requires Answered(role, u)
  {
    || (exists q :: q in CheckedIds(role) && UnitBand(reg, u, q) == Gray)
    || (role == WaitingParty && Yes(reg, u, WpChangesTerms) && UnitBand(reg, u, WpStillOwed) == Gray)
  }

  /** None when an answer that matters is undecided. */
  function UnitEffects(reg: Registry, role: AuthorRole, u: UnitAnswers): Option<seq<Effect>>
    requires Answered(role, u)
  {
    if Undecided(reg, role, u) then None else Some(Accepted(Candidates(reg, role, u)))
  }

  // ---- the verdict as the program folds it

  datatype Folded = Folded(terminal: seq<Effect>, other: seq<Effect>)

  predicate HasRank(effects: seq<Effect>, rank: nat) {
    exists i :: 0 <= i < |effects| && Rank(effects[i]) == rank
  }

  function FoldEffect(f: Folded, e: Effect): Folded {
    if IsTerminal(e) then f.(terminal := f.terminal + [e])
    else if HasRank(f.other, Rank(e)) then f
    else f.(other := f.other + [e])
  }

  function FoldEffects(f: Folded, effects: seq<Effect>): Folded {
    if effects == [] then f else FoldEffect(FoldEffects(f, effects[..|effects| - 1]), effects[|effects| - 1])
  }

  function Responding(reg: Registry, role: AuthorRole, units: seq<UnitAnswers>): (r: seq<UnitAnswers>)
    requires AllAnswered(role, units)
    ensures forall u :: u in r <==> u in units && Answered(role, u) && UnitBand(reg, u, Responds) == Accept
    ensures AllAnswered(role, r)
  {
    if units == [] then []
    else
      var before, u := Responding(reg, role, units[..|units| - 1]), units[|units| - 1];
      assert units == units[..|units| - 1] + [u];
      if UnitBand(reg, u, Responds) == Accept then before + [u] else before
  }

  /** None as soon as one unit is undecided. */
  function FoldUnits(reg: Registry, role: AuthorRole, units: seq<UnitAnswers>): Option<Folded>
    requires AllAnswered(role, units)
  {
    if units == [] then Some(Folded([], []))
    else
      var before := FoldUnits(reg, role, units[..|units| - 1]);
      var effects := UnitEffects(reg, role, units[|units| - 1]);
      if before.None? || effects.None? then None else Some(FoldEffects(before.value, effects.value))
  }

  function InsertByRank(sorted: seq<Effect>, e: Effect): seq<Effect> {
    if sorted == [] then [e]
    else if Rank(e) < Rank(sorted[0]) then [e] + sorted
    else [sorted[0]] + InsertByRank(sorted[1..], e)
  }

  function SortByRank(effects: seq<Effect>): seq<Effect> {
    if effects == [] then [] else InsertByRank(SortByRank(effects[..|effects| - 1]), effects[|effects| - 1])
  }

  function Decide(f: Folded): Verdict {
    if f.terminal != [] then
      if exists i :: 0 <= i < |f.terminal| && !SameOutcome(f.terminal[i], f.terminal[0]) then Escalate
      else Apply([f.terminal[0]])
    else if f.other == [] then NoResponse
    else Apply(SortByRank(f.other))
  }

  function StepVerdict(reg: Registry, role: AuthorRole, units: seq<UnitAnswers>): Verdict
    requires AllAnswered(role, units)
  {
    var responding := Responding(reg, role, units);
    if responding == [] then
      if exists i :: 0 <= i < |units| && UnitBand(reg, units[i], Responds) == Gray then Escalate else NoResponse
    else
      var folded := FoldUnits(reg, role, responding);
      if folded.None? then Escalate else Decide(folded.value)
  }

  // ---- the reference: what the set of units says

  /** An effect without where it came from. */
  datatype EffectKind = Closes(Resolution) | Suggests(SuggestedUpdate) | AsksAgain | Amends | Redates

  function KindOf(e: Effect): EffectKind {
    match e
    case Close(resolution, _) => Closes(resolution)
    case Suggest(update, _, _, _) => Suggests(update)
    case AskedAgain(_) => AsksAgain
    case Amended(_, _) => Amends
    case NewDate(_, _, _, _) => Redates
  }

  predicate TerminalKind(k: EffectKind) { k.Closes? || k.Suggests? }

  function Kinds(effects: seq<Effect>): (r: set<EffectKind>)
    ensures forall k :: k in r <==> exists i :: 0 <= i < |effects| && KindOf(effects[i]) == k
  {
    set i | 0 <= i < |effects| :: KindOf(effects[i])
  }

  /** What one unit contributes: its gate's band, and the kinds of its effects unless it is undecided. */
  datatype Summary = Summary(gate: Band, kinds: Option<set<EffectKind>>)

  function SummaryOf(reg: Registry, role: AuthorRole, u: UnitAnswers): Summary
    requires Answered(role, u)
  {
    var effects := UnitEffects(reg, role, u);
    Summary(UnitBand(reg, u, Responds), if effects.None? then None else Some(Kinds(effects.value)))
  }

  function Summaries(reg: Registry, role: AuthorRole, units: seq<UnitAnswers>): set<Summary>
    requires AllAnswered(role, units)
  {
    set i | 0 <= i < |units| :: SummaryOf(reg, role, units[i])
  }

  /** A verdict without the places its effects came from. */
  datatype Shape = NoneShape | EscalateShape | ApplyShape(kinds: set<EffectKind>)

  function ShapeOf(v: Verdict): Shape {
    match v
    case NoResponse => NoneShape
    case Escalate => EscalateShape
    case Apply(effects) => ApplyShape(Kinds(effects))
  }

  /** The kinds of effect any responding unit has. */
  ghost function RespondingKinds(s: set<Summary>): set<EffectKind> {
    set u, k | u in s && u.gate == Accept && u.kinds.Some? && k in u.kinds.value :: k
  }

  /**
   Nobody responds: undecided if some gate is, else no response. Otherwise undecided if a
   responding unit is, or if they disagree how the loop ends; else the one ending, or
   failing that every other effect.
   */
  ghost predicate Means(s: set<Summary>, shape: Shape) {
    var kinds := RespondingKinds(s);
    if forall u :: u in s ==> u.gate != Accept then
      shape == if exists u :: u in s && u.gate == Gray then EscalateShape else NoneShape
    else if exists u :: u in s && u.gate == Accept && u.kinds.None? then shape == EscalateShape
    else if exists a, b :: a in kinds && b in kinds && TerminalKind(a) && TerminalKind(b) && a != b
    then shape == EscalateShape
    else if exists a :: a in kinds && TerminalKind(a) then
      exists a :: a in kinds && TerminalKind(a) && shape == ApplyShape({a})
    else if kinds == {} then shape == NoneShape
    else shape == ApplyShape(kinds)
  }

  /** A set of units has one meaning. */
  lemma MeansOnce(s: set<Summary>, a: Shape, b: Shape)
    requires Means(s, a) && Means(s, b)
    ensures a == b
  {
    hide RespondingKinds;
  }

  // ---- folding keeps the kinds

  predicate DistinctRanks(effects: seq<Effect>) {
    forall i, j :: 0 <= i < j < |effects| ==> Rank(effects[i]) != Rank(effects[j])
  }

  /** What a fold holds, given the kinds of effect folded so far. */
  ghost predicate Holds(f: Folded, kinds: set<EffectKind>) {
    && (forall i :: 0 <= i < |f.terminal| ==> IsTerminal(f.terminal[i]))
    && (forall i :: 0 <= i < |f.other| ==> !IsTerminal(f.other[i]))
    && DistinctRanks(f.other)
    && (forall k :: k in kinds <==> k in Kinds(f.terminal) || k in Kinds(f.other))
  }

  lemma KindsOfAppend(effects: seq<Effect>, e: Effect)
    ensures Kinds(effects + [e]) == Kinds(effects) + {KindOf(e)}
  {
    var all := effects + [e];
    forall k | k in Kinds(effects) ensures k in Kinds(all) {
      var i :| 0 <= i < |effects| && KindOf(effects[i]) == k;
      assert all[i] == effects[i];
    }
    assert all[|effects|] == e;
  }

  lemma FoldEffectHolds(f: Folded, e: Effect, kinds: set<EffectKind>)
    requires Holds(f, kinds)
    ensures Holds(FoldEffect(f, e), kinds + {KindOf(e)})
  {
    hide Kinds;
    KindsOfAppend(f.terminal, e);
    KindsOfAppend(f.other, e);
    if !IsTerminal(e) && HasRank(f.other, Rank(e)) {
      var i :| 0 <= i < |f.other| && Rank(f.other[i]) == Rank(e);
      assert KindOf(f.other[i]) == KindOf(e);
    }
  }

  lemma {:induction false} FoldEffectsHold(f: Folded, effects: seq<Effect>, kinds: set<EffectKind>)
    requires Holds(f, kinds)
    ensures Holds(FoldEffects(f, effects), kinds + Kinds(effects))
  {
    hide Holds, FoldEffect, KindOf;
    if effects == [] {
      assert kinds + Kinds([]) == kinds;
    } else {
      var before, e := effects[..|effects| - 1], effects[|effects| - 1];
      FoldEffectsHold(f, before, kinds);
      FoldEffectHolds(FoldEffects(f, before), e, kinds + Kinds(before));
      KindsOfAppend(before, e);
      assert effects == before + [e];
      assert kinds + Kinds(before) + {KindOf(e)} == kinds + Kinds(effects);
    }
  }

  function UnionKinds(reg: Registry, role: AuthorRole, units: seq<UnitAnswers>): set<EffectKind>
    requires AllAnswered(role, units)
  {
    if units == [] then {}
    else
      var effects := UnitEffects(reg, role, units[|units| - 1]);
      UnionKinds(reg, role, units[..|units| - 1]) + if effects.Some? then Kinds(effects.value) else {}
  }

  lemma {:induction false} FoldUnitsHold(reg: Registry, role: AuthorRole, units: seq<UnitAnswers>)
    requires AllAnswered(role, units)
    ensures FoldUnits(reg, role, units).None? <==>
              exists i :: 0 <= i < |units| && Undecided(reg, role, units[i])
    ensures FoldUnits(reg, role, units).Some? ==>
              Holds(FoldUnits(reg, role, units).value, UnionKinds(reg, role, units))
  {
    hide Candidates, Undecided, Accepted, Holds, FoldEffects, Kinds, Answered;
    if units == [] {
      NothingHolds();
    } else {
      var n := |units| - 1;
      FoldUnitsHold(reg, role, units[..n]);
      var before := FoldUnits(reg, role, units[..n]);
      var effects := UnitEffects(reg, role, units[n]);
      if before.Some? && effects.Some? {
        FoldEffectsHold(before.value, effects.value, UnionKinds(reg, role, units[..n]));
      } else if before.None? {
        var i :| 0 <= i < n && Undecided(reg, role, units[..n][i]);
        assert units[i] == units[..n][i];
      }
      forall i | 0 <= i < n ensures units[..n][i] == units[i] {
      }
    }
  }

  lemma NothingHolds()
    ensures Holds(Folded([], []), {})
  {
  }

  lemma {:induction false} UnionKindsIff(reg: Registry, role: AuthorRole, units: seq<UnitAnswers>, k: EffectKind)
    requires AllAnswered(role, units)
    ensures k in UnionKinds(reg, role, units) <==>
              exists i :: 0 <= i < |units| && UnitEffects(reg, role, units[i]).Some?
                          && k in Kinds(UnitEffects(reg, role, units[i]).value)
  {
    hide UnitEffects, Kinds, Answered;
    if units != [] {
      var n := |units| - 1;
      UnionKindsIff(reg, role, units[..n], k);
      if k in UnionKinds(reg, role, units[..n]) {
        var i :| 0 <= i < n && UnitEffects(reg, role, units[..n][i]).Some?
                 && k in Kinds(UnitEffects(reg, role, units[..n][i]).value);
        assert units[i] == units[..n][i];
      }
      forall i | 0 <= i < n ensures units[..n][i] == units[i] {
      }
    }
  }

  // ---- deciding

  predicate Increasing(r: seq<Effect>) {
    forall i, j :: 0 <= i < j < |r| ==> Rank(r[i]) < Rank(r[j])
  }

  lemma DistinctInit(before: seq<Effect>, e: Effect)
    requires DistinctRanks(before + [e])
    ensures DistinctRanks(before) && forall x :: x in before ==> Rank(x) != Rank(e)
  {
    hide Rank;
    var all := before + [e];
    assert forall i :: 0 <= i < |before| ==> all[i] == before[i];
    assert all[|before|] == e;
  }

  lemma {:induction false} SortedByRank(effects: seq<Effect>)
    requires DistinctRanks(effects)
    ensures Increasing(SortByRank(effects))
    ensures forall e :: e in SortByRank(effects) <==> e in effects
    ensures |SortByRank(effects)| == |effects|
  {
    hide Rank, Increasing, InsertByRank, DistinctRanks;
    if effects == [] {
      NothingIncreases();
    } else {
      var before, e := effects[..|effects| - 1], effects[|effects| - 1];
      assert effects == before + [e];
      DistinctInit(before, e);
      SortedByRank(before);
      InsertedByRank(SortByRank(before), e);
    }
  }

  lemma NothingIncreases()
    ensures Increasing([])
  {
  }

  lemma IncreasingCons(e: Effect, rest: seq<Effect>)
    requires Increasing(rest) && forall x :: x in rest ==> Rank(e) < Rank(x)
    ensures Increasing([e] + rest)
  {
    hide Rank;
    assert forall i :: 0 <= i < |rest| ==> rest[i] in rest;
  }

  lemma IncreasingTail(r: seq<Effect>)
    requires Increasing(r) && r != []
    ensures Increasing(r[1..]) && forall x :: x in r[1..] ==> Rank(r[0]) < Rank(x)
  {
    hide Rank;
  }

  lemma {:induction false} InsertedByRank(sorted: seq<Effect>, e: Effect)
    requires Increasing(sorted)
    requires forall x :: x in sorted ==> Rank(x) != Rank(e)
    ensures Increasing(InsertByRank(sorted, e))
    ensures forall x :: x in InsertByRank(sorted, e) <==> x in sorted || x == e
    ensures |InsertByRank(sorted, e)| == |sorted| + 1
  {
    hide Rank, Increasing;
    if sorted == [] {
      NothingIncreases();
      IncreasingCons(e, []);
      assert [e] + [] == [e];
    } else {
      var first, rest := sorted[0], sorted[1..];
      IncreasingTail(sorted);
      assert forall x :: x in sorted <==> x == first || x in rest;
      if Rank(e) < Rank(first) {
        IncreasingCons(e, sorted);
      } else {
        InsertedByRank(rest, e);
        assert first in sorted;
        IncreasingCons(first, InsertByRank(rest, e));
      }
    }
  }

  /** An applied verdict: one ending, or other effects in strictly increasing rank. */
  predicate WellFormed(effects: seq<Effect>) {
    || (|effects| == 1 && IsTerminal(effects[0]))
    || (&& effects != []
        && (forall i :: 0 <= i < |effects| ==> !IsTerminal(effects[i]))
        && Increasing(effects))
  }

  lemma SameMembersSameKinds(a: seq<Effect>, b: seq<Effect>)
    requires forall e :: e in a <==> e in b
    ensures Kinds(a) == Kinds(b)
  {
    forall k ensures k in Kinds(a) <==> k in Kinds(b) {
      if k in Kinds(a) {
        var i :| 0 <= i < |a| && KindOf(a[i]) == k;
        assert a[i] in b;
        var j :| 0 <= j < |b| && b[j] == a[i];
      }
      if k in Kinds(b) {
        var i :| 0 <= i < |b| && KindOf(b[i]) == k;
        assert b[i] in a;
        var j :| 0 <= j < |a| && a[j] == b[i];
      }
    }
  }

  lemma DecideIsWellFormed(f: Folded, kinds: set<EffectKind>)
    requires Holds(f, kinds)
    ensures Decide(f).Apply? ==> WellFormed(Decide(f).effects)
    ensures Decide(f).Apply? ==> forall e :: e in Decide(f).effects ==> e in f.terminal || e in f.other
  {
    hide Kinds;
    if f.terminal == [] && f.other != [] {
      SortedByRank(f.other);
      var r := SortByRank(f.other);
      forall i | 0 <= i < |r| ensures !IsTerminal(r[i]) {
        assert r[i] in r;
      }
    }
  }

  /** What a fold is decided to be, in terms of the kinds it holds. */
  lemma DecideMeans(f: Folded, kinds: set<EffectKind>)
    requires Holds(f, kinds)
    ensures var shape := ShapeOf(Decide(f));
            if exists a, b :: a in kinds && b in kinds && TerminalKind(a) && TerminalKind(b) && a != b
              then shape == EscalateShape
            else if exists a :: a in kinds && TerminalKind(a) then
              exists a :: a in kinds && TerminalKind(a) && shape == ApplyShape({a})
            else if kinds == {} then shape == NoneShape
            else shape == ApplyShape(kinds)
  {
    if f.terminal != [] {
      var first := KindOf(f.terminal[0]);
      assert first in Kinds(f.terminal) && TerminalKind(first);
      if i :| 0 <= i < |f.terminal| && !SameOutcome(f.terminal[i], f.terminal[0]) {
        assert KindOf(f.terminal[i]) in Kinds(f.terminal) && KindOf(f.terminal[i]) != first;
        assert IsTerminal(f.terminal[i]);
      } else {
        forall k | k in kinds && TerminalKind(k) ensures k == first {
          TerminalsAreHeld(f, kinds, k);
        }
        KindsOfAppend([], f.terminal[0]);
        assert [] + [f.terminal[0]] == [f.terminal[0]];
      }
    } else {
      forall k | k in kinds ensures !TerminalKind(k) {
        OthersAreHeld(f, kinds, k);
      }
      if f.other == [] {
        assert kinds == {};
      } else {
        SortedByRank(f.other);
        SameMembersSameKinds(SortByRank(f.other), f.other);
        assert KindOf(f.other[0]) in Kinds(f.other);
        assert Kinds(f.other) == kinds;
      }
    }
  }

  lemma TerminalsAreHeld(f: Folded, kinds: set<EffectKind>, k: EffectKind)
    requires Holds(f, kinds) && k in kinds && TerminalKind(k)
    ensures exists i :: 0 <= i < |f.terminal| && KindOf(f.terminal[i]) == k
  {
    forall i | 0 <= i < |f.other| ensures KindOf(f.other[i]) != k {
      assert !IsTerminal(f.other[i]);
    }
  }

  lemma OthersAreHeld(f: Folded, kinds: set<EffectKind>, k: EffectKind)
    requires Holds(f, kinds) && f.terminal == [] && k in kinds
    ensures !TerminalKind(k)
  {
    var i :| 0 <= i < |f.other| && KindOf(f.other[i]) == k;
    assert !IsTerminal(f.other[i]);
  }

  // ---- what one unit's answers mean

  lemma {:induction false} AcceptedIff(candidates: seq<Candidate>, e: Effect)
    ensures e in Accepted(candidates) <==> exists i :: 0 <= i < |candidates| && candidates[i] == (true, e)
  {
    if candidates != [] {
      var n := |candidates| - 1;
      AcceptedIff(candidates[..n], e);
      forall i | 0 <= i < n ensures candidates[..n][i] == candidates[i] {
      }
    }
  }

  /** The kinds of effect a unit has are those of its accepted candidates. */
  lemma AcceptedKinds(candidates: seq<Candidate>, k: EffectKind)
    ensures k in Kinds(Accepted(candidates)) <==>
              exists i :: 0 <= i < |candidates| && candidates[i].0 && KindOf(candidates[i].1) == k
  {
    hide KindOf, Accepted;
    var effects := Accepted(candidates);
    if k in Kinds(effects) {
      var j :| 0 <= j < |effects| && KindOf(effects[j]) == k;
      assert effects[j] in effects;
      AcceptedIff(candidates, effects[j]);
    }
    forall i | 0 <= i < |candidates| && candidates[i].0 && KindOf(candidates[i].1) == k ensures k in Kinds(effects) {
      assert candidates[i] == (true, candidates[i].1);
      AcceptedIff(candidates, candidates[i].1);
      var j :| 0 <= j < |effects| && effects[j] == candidates[i].1;
    }
  }

  /**
   A later message from the waiting party: received closes, no longer needed withdraws, changed
   terms amend or withdraw.
  */
  lemma WaitingPartyKinds(reg: Registry, u: UnitAnswers)
    requires Answered(WaitingParty, u) && !Undecided(reg, WaitingParty, u)
    ensures var kinds := Kinds(UnitEffects(reg, WaitingParty, u).value);
            && (Closes(ResolvedCompleted) in kinds <==> Yes(reg, u, WpReceived))
            && (Closes(ResolvedWithdrawn) in kinds <==>
                  || Yes(reg, u, WpNoLongerNeeded)
                  || (Yes(reg, u, WpChangesTerms) && UnitBand(reg, u, WpStillOwed) == Reject))
            && (Amends in kinds <==> Yes(reg, u, WpChangesTerms) && Yes(reg, u, WpStillOwed))
            && (AsksAgain in kinds <==> Yes(reg, u, WpAsksAgain))
            && (Redates in kinds <==> Yes(reg, u, WpChangesDue))
  {
    hide Accepted, Kinds, UnitBand;
    var c := WaitingPartyCandidates(reg, u);
    OneOfFive(c, Closes(ResolvedCompleted));
    OneOfFive(c, Closes(ResolvedWithdrawn));
    OneOfFive(c, Amends);
    OneOfFive(c, AsksAgain);
    OneOfFive(c, Redates);
  }

  lemma OneOfFive(c: seq<Candidate>, k: EffectKind)
    requires |c| == 5
    ensures k in Kinds(Accepted(c)) <==>
              || (c[0].0 && KindOf(c[0].1) == k) || (c[1].0 && KindOf(c[1].1) == k) || (c[2].0 && KindOf(c[2].1) == k)
              || (c[3].0 && KindOf(c[3].1) == k) || (c[4].0 && KindOf(c[4].1) == k)
  {
    hide Accepted, Kinds, KindOf;
    AcceptedKinds(c, k);
  }

  /** The user's own message, or a third party's, only suggests how the loop ends. */
  lemma OtherKinds(reg: Registry, role: AuthorRole, u: UnitAnswers)
    requires role != WaitingParty && Answered(role, u) && !Undecided(reg, role, u)
    ensures var kinds := Kinds(UnitEffects(reg, role, u).value);
            if role == User then
              && (Suggests(SuggestClosure) in kinds <==> Yes(reg, u, UserDelivers))
              && (Suggests(SuggestDeclined) in kinds <==> Yes(reg, u, UserDeclines))
              && (Suggests(SuggestDelegated) in kinds <==> Yes(reg, u, UserHandsOff))
              && (Redates in kinds <==> Yes(reg, u, UserPromises))
            else forall k :: k in kinds <==> k == Suggests(SuggestClosure) && Yes(reg, u, ThirdPartyDone)
  {
    hide Accepted, Kinds, UnitBand;
    var c := Candidates(reg, role, u);
    if role == User {
      AcceptedKinds(c, Suggests(SuggestClosure));
      AcceptedKinds(c, Suggests(SuggestDeclined));
      AcceptedKinds(c, Suggests(SuggestDelegated));
      AcceptedKinds(c, Redates);
      assert c[0].0 == Yes(reg, u, UserDelivers) && c[1].0 == Yes(reg, u, UserDeclines);
      assert c[2].0 == Yes(reg, u, UserHandsOff) && c[3].0 == Yes(reg, u, UserPromises);
    } else {
      assert c[0].0 == Yes(reg, u, ThirdPartyDone);
      forall k ensures k in Kinds(Accepted(c)) <==> k == Suggests(SuggestClosure) && Yes(reg, u, ThirdPartyDone) {
        AcceptedKinds(c, k);
      }
    }
  }

  // ---- the fold says what the set says

  lemma RespondingSummaries(reg: Registry, role: AuthorRole, units: seq<UnitAnswers>)
    requires AllAnswered(role, units)
    ensures var s := Summaries(reg, role, units);
            var responding := Responding(reg, role, units);
            && (responding == [] <==> forall u :: u in s ==> u.gate != Accept)
            && ((exists i :: 0 <= i < |responding| && Undecided(reg, role, responding[i]))
                <==> exists u :: u in s && u.gate == Accept && u.kinds.None?)
            && UnionKinds(reg, role, responding) == RespondingKinds(s)
            && ((exists i :: 0 <= i < |units| && UnitBand(reg, units[i], Responds) == Gray)
                <==> exists u :: u in s && u.gate == Gray)
  {
    hide UnitEffects, Undecided, Kinds, UnionKinds, RespondingKinds, Responding, Answered, SummaryOf, Summaries,
         UnitBand, BranchIds;
    SomeRespondIff(reg, role, units);
    UndecidedIff(reg, role, units);
    GatesUndecided(reg, role, units);
    var s := Summaries(reg, role, units);
    var responding := Responding(reg, role, units);
    forall k ensures k in UnionKinds(reg, role, responding) <==> k in RespondingKinds(s) {
      KindRespondsIff(reg, role, units, k);
    }
  }

  lemma GatesUndecided(reg: Registry, role: AuthorRole, units: seq<UnitAnswers>)
    requires AllAnswered(role, units)
    ensures (exists i :: 0 <= i < |units| && UnitBand(reg, units[i], Responds) == Gray)
            <==> exists u :: u in Summaries(reg, role, units) && u.gate == Gray
  {
    hide UnitEffects, Kinds;
    if i :| 0 <= i < |units| && UnitBand(reg, units[i], Responds) == Gray {
      assert SummaryOf(reg, role, units[i]) in Summaries(reg, role, units);
    }
  }

  lemma SummaryIsIn(reg: Registry, role: AuthorRole, units: seq<UnitAnswers>, u: UnitAnswers)
    requires AllAnswered(role, units) && u in units
    ensures Answered(role, u) && SummaryOf(reg, role, u) in Summaries(reg, role, units)
  {
    hide SummaryOf, Answered;
    var i :| 0 <= i < |units| && units[i] == u;
  }

  lemma SummaryComesFrom(reg: Registry, role: AuthorRole, units: seq<UnitAnswers>, v: Summary) returns (u: UnitAnswers)
    requires AllAnswered(role, units) && v in Summaries(reg, role, units)
    ensures u in units && Answered(role, u) && v == SummaryOf(reg, role, u)
  {
    hide SummaryOf, Answered;
    var i :| 0 <= i < |units| && SummaryOf(reg, role, units[i]) == v;
    u := units[i];
  }

  lemma SummarySays(reg: Registry, role: AuthorRole, u: UnitAnswers)
    requires Answered(role, u)
    ensures SummaryOf(reg, role, u).gate == UnitBand(reg, u, Responds)
    ensures SummaryOf(reg, role, u).kinds.None? <==> Undecided(reg, role, u)
    ensures UnitEffects(reg, role, u).None? <==> Undecided(reg, role, u)
    ensures UnitEffects(reg, role, u).Some? ==>
              SummaryOf(reg, role, u).kinds == Some(Kinds(UnitEffects(reg, role, u).value))
  {
    hide Candidates, Undecided, Accepted, Kinds;
  }

  lemma SomeRespondIff(reg: Registry, role: AuthorRole, units: seq<UnitAnswers>)
    requires AllAnswered(role, units)
    ensures Responding(reg, role, units) == [] <==> forall v :: v in Summaries(reg, role, units) ==> v.gate != Accept
  {
    hide UnitEffects, Kinds, Summaries, SummaryOf, Responding, Answered, UnitBand, BranchIds;
    var responding := Responding(reg, role, units);
    if responding != [] {
      assert responding[0] in responding;
      SummaryIsIn(reg, role, units, responding[0]);
      SummarySays(reg, role, responding[0]);
    }
    forall v | v in Summaries(reg, role, units) && v.gate == Accept ensures responding != [] {
      var u := SummaryComesFrom(reg, role, units, v);
      SummarySays(reg, role, u);
      assert u in responding;
    }
  }

  lemma UndecidedSummary(reg: Registry, role: AuthorRole, units: seq<UnitAnswers>, i: nat)
    requires AllAnswered(role, units) && i < |Responding(reg, role, units)|
    requires Undecided(reg, role, Responding(reg, role, units)[i])
    ensures exists v :: v in Summaries(reg, role, units) && v.gate == Accept && v.kinds.None?
  {
    hide UnitEffects, Kinds, Summaries, SummaryOf, Responding, Answered, UnitBand, BranchIds;
    var u := Responding(reg, role, units)[i];
    assert u in Responding(reg, role, units);
    SummaryIsIn(reg, role, units, u);
    SummarySays(reg, role, u);
  }

  lemma UndecidedUnit(reg: Registry, role: AuthorRole, units: seq<UnitAnswers>, v: Summary)
    requires AllAnswered(role, units)
    requires v in Summaries(reg, role, units) && v.gate == Accept && v.kinds.None?
    ensures var responding := Responding(reg, role, units);
            exists i :: 0 <= i < |responding| && Undecided(reg, role, responding[i])
  {
    hide UnitEffects, Kinds, Summaries, SummaryOf, Responding, Answered, UnitBand, BranchIds;
    var u := SummaryComesFrom(reg, role, units, v);
    SummarySays(reg, role, u);
    assert u in Responding(reg, role, units) && Undecided(reg, role, u);
  }

  lemma UndecidedIff(reg: Registry, role: AuthorRole, units: seq<UnitAnswers>)
    requires AllAnswered(role, units)
    ensures var responding := Responding(reg, role, units);
            (exists i :: 0 <= i < |responding| && Undecided(reg, role, responding[i]))
            <==> exists v :: v in Summaries(reg, role, units) && v.gate == Accept && v.kinds.None?
  {
    hide Undecided, Summaries, Responding, Answered;
    var responding := Responding(reg, role, units);
    forall i | 0 <= i < |responding| && Undecided(reg, role, responding[i])
      ensures exists v :: v in Summaries(reg, role, units) && v.gate == Accept && v.kinds.None?
    {
      UndecidedSummary(reg, role, units, i);
    }
    forall v | v in Summaries(reg, role, units) && v.gate == Accept && v.kinds.None?
      ensures exists i :: 0 <= i < |responding| && Undecided(reg, role, responding[i])
    {
      UndecidedUnit(reg, role, units, v);
    }
  }

  lemma KindRespondsIff(reg: Registry, role: AuthorRole, units: seq<UnitAnswers>, k: EffectKind)
    requires AllAnswered(role, units)
    ensures k in UnionKinds(reg, role, Responding(reg, role, units)) <==>
              k in RespondingKinds(Summaries(reg, role, units))
  {
    hide UnitEffects, Kinds, UnionKinds, Summaries, SummaryOf, Responding, Answered, UnitBand, BranchIds;
    var s := Summaries(reg, role, units);
    var responding := Responding(reg, role, units);
    UnionKindsIff(reg, role, responding, k);
    if k in UnionKinds(reg, role, responding) {
      var i :| 0 <= i < |responding| && UnitEffects(reg, role, responding[i]).Some?
               && k in Kinds(UnitEffects(reg, role, responding[i]).value);
      var u := responding[i];
      assert u in responding;
      SummaryIsIn(reg, role, units, u);
      SummarySays(reg, role, u);
      var v := SummaryOf(reg, role, u);
      assert v in s && v.gate == Accept && v.kinds.Some? && k in v.kinds.value;
    }
    if k in RespondingKinds(s) {
      var v :| v in s && v.gate == Accept && v.kinds.Some? && k in v.kinds.value;
      var u := SummaryComesFrom(reg, role, units, v);
      SummarySays(reg, role, u);
      assert u in responding;
      var i :| 0 <= i < |responding| && responding[i] == u;
    }
  }

  /** The program's fold, for any order of the units, says what the set of units says. */
  lemma VerdictMeansTheSet(reg: Registry, role: AuthorRole, units: seq<UnitAnswers>)
    requires AllAnswered(role, units)
    ensures Means(Summaries(reg, role, units), ShapeOf(StepVerdict(reg, role, units)))
  {
    hide Summaries, Responding, FoldUnits, Decide, RespondingKinds, UnionKinds, Kinds, Holds, UnitEffects, Undecided;
    var responding := Responding(reg, role, units);
    RespondingSummaries(reg, role, units);
    FoldUnitsHold(reg, role, responding);
    var folded := FoldUnits(reg, role, responding);
    if folded.Some? {
      DecideMeans(folded.value, UnionKinds(reg, role, responding));
    }
  }

  /** Units that say the same things, in whatever order and however often, get the same verdict. */
  lemma SameSetSameVerdict(reg: Registry, role: AuthorRole, a: seq<UnitAnswers>, b: seq<UnitAnswers>)
    requires AllAnswered(role, a) && AllAnswered(role, b)
    requires Summaries(reg, role, a) == Summaries(reg, role, b)
    ensures ShapeOf(StepVerdict(reg, role, a)) == ShapeOf(StepVerdict(reg, role, b))
  {
    hide Summaries, StepVerdict, Means;
    VerdictMeansTheSet(reg, role, a);
    VerdictMeansTheSet(reg, role, b);
    MeansOnce(Summaries(reg, role, a), ShapeOf(StepVerdict(reg, role, a)), ShapeOf(StepVerdict(reg, role, b)));
  }

  lemma VerdictIgnoresOrder(reg: Registry, role: AuthorRole, a: seq<UnitAnswers>, b: seq<UnitAnswers>)
    requires AllAnswered(role, a) && AllAnswered(role, b) && multiset(a) == multiset(b)
    ensures ShapeOf(StepVerdict(reg, role, a)) == ShapeOf(StepVerdict(reg, role, b))
  {
    hide StepVerdict, SummaryOf, Answered;
    forall i | 0 <= i < |a| ensures SummaryOf(reg, role, a[i]) in Summaries(reg, role, b) {
      assert a[i] in multiset(b);
      var j :| 0 <= j < |b| && b[j] == a[i];
    }
    forall i | 0 <= i < |b| ensures SummaryOf(reg, role, b[i]) in Summaries(reg, role, a) {
      assert b[i] in multiset(a);
      var j :| 0 <= j < |a| && a[j] == b[i];
    }
    SameSetSameVerdict(reg, role, a, b);
  }

  lemma RejectedSaysNothing(s: set<Summary>, u: Summary, shape: Shape)
    requires u.gate == Reject
    ensures Means(s + {u}, shape) <==> Means(s, shape)
  {
    assert RespondingKinds(s + {u}) == RespondingKinds(s);
    hide RespondingKinds;
    assert (forall v :: v in s + {u} ==> v.gate != Accept) <==> (forall v :: v in s ==> v.gate != Accept);
    assert (exists v :: v in s + {u} && v.gate == Gray) <==> (exists v :: v in s && v.gate == Gray);
    assert (exists v :: v in s + {u} && v.gate == Accept && v.kinds.None?)
      <==> (exists v :: v in s && v.gate == Accept && v.kinds.None?);
  }

  /** A unit that does not respond changes nothing, wherever it stands. */
  lemma VerdictIgnoresRejectedUnits(reg: Registry, role: AuthorRole, before: seq<UnitAnswers>, u: UnitAnswers,
                                    after: seq<UnitAnswers>)
    requires AllAnswered(role, before) && AllAnswered(role, after) && Answered(role, u)
    requires UnitBand(reg, u, Responds) == Reject
    ensures AllAnswered(role, before + [u] + after) && AllAnswered(role, before + after)
    ensures ShapeOf(StepVerdict(reg, role, before + [u] + after)) == ShapeOf(StepVerdict(reg, role, before + after))
  {
    hide StepVerdict, Means, Answered;
    var a, b := before + [u] + after, before + after;
    var s := Summaries(reg, role, b);
    SummariesWithout(reg, role, before, u, after);
    VerdictMeansTheSet(reg, role, a);
    VerdictMeansTheSet(reg, role, b);
    RejectedSaysNothing(s, SummaryOf(reg, role, u), ShapeOf(StepVerdict(reg, role, b)));
    MeansOnce(Summaries(reg, role, a), ShapeOf(StepVerdict(reg, role, a)), ShapeOf(StepVerdict(reg, role, b)));
  }

  lemma SummariesWithout(reg: Registry, role: AuthorRole, before: seq<UnitAnswers>, u: UnitAnswers,
                         after: seq<UnitAnswers>)
    requires AllAnswered(role, before) && AllAnswered(role, after) && Answered(role, u)
    ensures AllAnswered(role, before + [u] + after) && AllAnswered(role, before + after)
    ensures Summaries(reg, role, before + [u] + after)
              == Summaries(reg, role, before + after) + {SummaryOf(reg, role, u)}
  {
    hide SummaryOf, Answered;
    var a, b := before + [u] + after, before + after;
    assert a[|before|] == u;
    forall i | 0 <= i < |a| ensures SummaryOf(reg, role, a[i]) in Summaries(reg, role, b) + {SummaryOf(reg, role, u)} {
      if i != |before| {
        assert a[i] == b[if i < |before| then i else i - 1];
      }
    }
    forall i | 0 <= i < |b| ensures SummaryOf(reg, role, b[i]) in Summaries(reg, role, a) {
      assert b[i] == a[if i < |before| then i else i + 1];
    }
  }

  // ---- what a verdict can be

  predicate RoleAllows(role: AuthorRole, e: Effect) {
    match role
    case WaitingParty => !e.Suggest?
    case User => e.Suggest? || e.NewDate?
    case ThirdParty => e.Suggest?
  }

  lemma UnitEffectsAllowed(reg: Registry, role: AuthorRole, u: UnitAnswers, e: Effect)
    requires Answered(role, u) && UnitEffects(reg, role, u).Some? && e in UnitEffects(reg, role, u).value
    ensures RoleAllows(role, e) && e.ordinal == u.ordinal
  {
    hide Accepted, UnitBand, Undecided;
    AcceptedIff(Candidates(reg, role, u), e);
  }

  lemma {:induction false} FoldedFrom(f: Folded, effects: seq<Effect>)
    ensures var g := FoldEffects(f, effects);
            forall e :: e in g.terminal || e in g.other ==> e in f.terminal || e in f.other || e in effects
  {
    if effects != [] {
      FoldedFrom(f, effects[..|effects| - 1]);
    }
  }

  lemma {:induction false} FoldedFromUnits(reg: Registry, role: AuthorRole, units: seq<UnitAnswers>, e: Effect)
    requires AllAnswered(role, units) && FoldUnits(reg, role, units).Some?
    requires e in FoldUnits(reg, role, units).value.terminal || e in FoldUnits(reg, role, units).value.other
    ensures exists i :: 0 <= i < |units| && UnitEffects(reg, role, units[i]).Some?
                        && e in UnitEffects(reg, role, units[i]).value
  {
    hide UnitEffects, FoldEffects, Answered;
    var n := |units| - 1;
    var before := FoldUnits(reg, role, units[..n]).value;
    FoldedFrom(before, UnitEffects(reg, role, units[n]).value);
    if e !in UnitEffects(reg, role, units[n]).value {
      FoldedFromUnits(reg, role, units[..n], e);
      var i :| 0 <= i < n && UnitEffects(reg, role, units[..n][i]).Some?
        && e in UnitEffects(reg, role, units[..n][i]).value;
      assert units[i] == units[..n][i];
    }
  }

  /**
   An applied verdict is one ending or a non-empty list in strictly increasing rank, each
   effect comes from a unit that responded, and only a waiting party's message closes anything.
   */
  lemma AppliedVerdicts(reg: Registry, role: AuthorRole, units: seq<UnitAnswers>)
    requires AllAnswered(role, units) && StepVerdict(reg, role, units).Apply?
    ensures var effects := StepVerdict(reg, role, units).effects;
            && WellFormed(effects)
            && forall e :: e in effects ==>
                 && RoleAllows(role, e) && (e.Close? ==> role == WaitingParty)
                 && exists u :: u in units && Answered(role, u)
                                && UnitBand(reg, u, Responds) == Accept && e.ordinal == u.ordinal
  {
    hide UnitEffects, FoldUnits, Decide, UnionKinds, Kinds, Holds, WellFormed, BranchIds, UnitBand;
    var responding := Responding(reg, role, units);
    var f := FoldUnits(reg, role, responding).value;
    FoldUnitsHold(reg, role, responding);
    DecideIsWellFormed(f, UnionKinds(reg, role, responding));
    forall e | e in Decide(f).effects
      ensures RoleAllows(role, e)
      ensures exists u :: u in units && Answered(role, u)
                            && UnitBand(reg, u, Responds) == Accept && e.ordinal == u.ordinal
    {
      FoldedFromUnits(reg, role, responding, e);
      var i :| 0 <= i < |responding| && UnitEffects(reg, role, responding[i]).Some?
        && e in UnitEffects(reg, role, responding[i]).value;
      UnitEffectsAllowed(reg, role, responding[i], e);
      assert responding[i] in responding;
    }
  }
}
