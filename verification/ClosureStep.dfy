/** The verdict as the program computes it: one pass over the responding units, leaving at the first undecided one. */
module ClosureStep {
  import opened Wrappers
  import opened ClosureWalk

  lemma RespondingOneMore(reg: Registry, role: AuthorRole, units: seq<UnitAnswers>, i: nat)
    requires AllAnswered(role, units) && i < |units|
    ensures AllAnswered(role, units[..i]) && AllAnswered(role, units[..i + 1])
    ensures Responding(reg, role, units[..i + 1]) ==
              Responding(reg, role, units[..i]) + if UnitBand(reg, units[i], Responds) == Accept then [units[i]] else []
  {
    assert units[..i + 1][..i] == units[..i];
  }

  lemma FoldOneMore(reg: Registry, role: AuthorRole, units: seq<UnitAnswers>, i: nat)
    requires AllAnswered(role, units) && i < |units|
    ensures AllAnswered(role, units[..i]) && AllAnswered(role, units[..i + 1])
    ensures var before := FoldUnits(reg, role, units[..i]);
            var effects := UnitEffects(reg, role, units[i]);
            FoldUnits(reg, role, units[..i + 1]) ==
              if before.None? || effects.None? then None else Some(FoldEffects(before.value, effects.value))
  {
    hide UnitEffects, FoldEffects;
    assert units[..i + 1][..i] == units[..i];
  }

  lemma {:induction false} UndecidedEarly(reg: Registry, role: AuthorRole, units: seq<UnitAnswers>, i: nat)
    requires AllAnswered(role, units) && i < |units| && UnitEffects(reg, role, units[i]).None?
    ensures FoldUnits(reg, role, units).None?
  {
    FoldUnitsHold(reg, role, units);
    assert Undecided(reg, role, units[i]);
  }

  /** Folds one unit's effects: endings are all kept, other effects once for each rank. */
  method KeepEffects(start: Folded, effects: seq<Effect>) returns (f: Folded)
    ensures f == FoldEffects(start, effects)
  {
    hide FoldEffect;
    f := start;
    var i := 0;
    assert effects[..0] == [];
    while i < |effects|
      invariant 0 <= i <= |effects|
      invariant f == FoldEffects(start, effects[..i])
    {
      assert effects[..i + 1][..i] == effects[..i];
      f := FoldEffect(f, effects[i]);
      i := i + 1;
    }
    assert effects[..|effects|] == effects;
  }

  method ComputeVerdict(reg: Registry, role: AuthorRole, units: seq<UnitAnswers>) returns (v: Verdict)
    requires AllAnswered(role, units)
    ensures v == StepVerdict(reg, role, units)
  {
    hide Responding, FoldUnits, UnitEffects, Decide, BandOf;
    var responding: seq<UnitAnswers> := [];
    var gray := false;
    var i := 0;
    NobodyYet(reg, role, units);
    while i < |units|
      invariant 0 <= i <= |units|
      invariant AllAnswered(role, units[..i]) && responding == Responding(reg, role, units[..i])
      invariant gray <==> exists k :: 0 <= k < i && UnitBand(reg, units[k], Responds) == Gray
    {
      RespondingOneMore(reg, role, units, i);
      match UnitBand(reg, units[i], Responds) {
        case Accept => responding := responding + [units[i]];
        case Gray => gray := true;
        case Reject =>
      }
      i := i + 1;
    }
    assert units[..|units|] == units;
    if responding == [] {
      return if gray then Escalate else NoResponse;
    }
    var f := Folded([], []);
    i := 0;
    NothingFolded(reg, role, responding);
    while i < |responding|
      invariant 0 <= i <= |responding|
      invariant AllAnswered(role, responding[..i]) && FoldUnits(reg, role, responding[..i]) == Some(f)
    {
      FoldOneMore(reg, role, responding, i);
      var effects := UnitEffects(reg, role, responding[i]);
      if effects.None? {
        UndecidedEarly(reg, role, responding, i);
        return Escalate;
      }
      f := KeepEffects(f, effects.value);
      i := i + 1;
    }
    assert responding[..|responding|] == responding;
    v := Decide(f);
  }

  lemma NobodyYet(reg: Registry, role: AuthorRole, units: seq<UnitAnswers>)
    ensures AllAnswered(role, units[..0]) && Responding(reg, role, units[..0]) == []
  {
  }

  lemma NothingFolded(reg: Registry, role: AuthorRole, units: seq<UnitAnswers>)
    ensures AllAnswered(role, units[..0]) && FoldUnits(reg, role, units[..0]) == Some(Folded([], []))
  {
  }
}
