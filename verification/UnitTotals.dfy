/** The report's unit counters against the weighted totals inside the score (quality.rs against
    score.rs). */
module UnitTotals {
  import opened Machine
  import opened Collections
  import opened Types
  import opened Balance
  import opened Timetable
  import opened Objective
  import opened Score
  import opened Quality

  // ----- sums of capped terms -----

  lemma {:induction false} CappedSumIff(terms: seq<nat>, exact: seq<nat>)
    requires |terms| == |exact| && forall i :: 0 <= i < |terms| ==> terms[i] == Cap(exact[i])
    ensures Sum(terms) <= Sum(exact)
    ensures Sum(terms) == Sum(exact) <==> forall i :: 0 <= i < |exact| ==> exact[i] <= U32_MAX
  {
    if terms == [] {
    } else {
      var n := |terms| - 1;
      CappedSumIff(terms[..n], exact[..n]);
      assert (forall i :: 0 <= i < |exact| ==> exact[i] <= U32_MAX)
        <==> (forall i :: 0 <= i < n ==> exact[..n][i] <= U32_MAX) && exact[n] <= U32_MAX by {
        assert forall i :: 0 <= i < n ==> exact[..n][i] == exact[i];
      }
    }
  }

  lemma {:induction false} TermAtMostSum(xs: seq<nat>, i: nat)
    requires i < |xs|
    ensures xs[i] <= Sum(xs)
  {
    if i < |xs| - 1 {
      TermAtMostSum(xs[..|xs| - 1], i);
    }
  }

  /** A sum that fits a u32 has no term to cap. */
  lemma SmallSumUncapped(terms: seq<nat>, exact: seq<nat>)
    requires |terms| == |exact| && forall i :: 0 <= i < |terms| ==> terms[i] == Cap(exact[i])
    requires Sum(exact) <= U32_MAX
    ensures Sum(terms) == Sum(exact)
  {
    forall i | 0 <= i < |exact| ensures exact[i] <= U32_MAX {
      TermAtMostSum(exact, i);
    }
    CappedSumIff(terms, exact);
  }

  lemma TimesOfSum(w: nat, xs: seq<nat>, i: nat)
    requires i < |xs|
    ensures Times(w, Sum(xs[..i + 1])) == Times(w, Sum(xs[..i])) + Times(w, xs[i])
  {
    SumStep(xs, i);
    MulDistributes(Sum(xs[..i]), xs[i], w);
  }

  // ----- time-of-day preferences -----

  /** The four unit counts under the weights. */
  function WeightedUnits(w: ConstraintWeights, early: nat, first: nat, last: nat, late: nat): nat {
    Times(w.preferEarlyPeriod, early) + Times(w.avoidFirstPeriod, first)
    + Times(w.avoidLastPeriod, last) + Times(w.preferLatePeriod, late)
  }

  /** The units of all placements under the weights, before any counter saturates. */
  ghost function ExactUnits(pr: Problem, ps: seq<Placement>, w: ConstraintWeights, n: nat): nat
    requires Resolves(pr, ps) && n <= |ps|
  {
    WeightedUnits(w, Sum(UnitTerms(pr, ps, Early)[..n]), Sum(UnitTerms(pr, ps, First)[..n]),
                  Sum(UnitTerms(pr, ps, Last)[..n]), Sum(UnitTerms(pr, ps, Late)[..n]))
  }

  /** The preference score of each placement, before it saturates. */
  function ExactPreferences(pr: Problem, ps: seq<Placement>, w: ConstraintWeights): (r: seq<nat>)
    requires Resolves(pr, ps)
  {
    seq(|ps|, i requires 0 <= i < |ps| =>
      assert Scored(pr, ps[i]);
      var tb := BlockOf(pr, ps[i]);
      Preference(SubjectOf(pr, ps[i]), tb, LastPosition(pr, tb), w))
  }

  lemma {:induction false} ExactPreferencesSplit(pr: Problem, ps: seq<Placement>, w: ConstraintWeights, n: nat)
    requires Resolves(pr, ps) && n <= |ps|
    ensures Sum(ExactPreferences(pr, ps, w)[..n]) == ExactUnits(pr, ps, w, n)
  {
    if n == 0 {
    } else {
      ExactPreferencesSplit(pr, ps, w, n - 1);
      SumStep(ExactPreferences(pr, ps, w), n - 1);
      TimesOfSum(w.preferEarlyPeriod, UnitTerms(pr, ps, Early), n - 1);
      TimesOfSum(w.avoidFirstPeriod, UnitTerms(pr, ps, First), n - 1);
      TimesOfSum(w.avoidLastPeriod, UnitTerms(pr, ps, Last), n - 1);
      TimesOfSum(w.preferLatePeriod, UnitTerms(pr, ps, Late), n - 1);
    }
  }

  /** The preference total never exceeds the weighted units, and equals them if and only if no
      placement's score saturates. */
  lemma PreferenceFromUnitsIff(pr: Problem, ps: seq<Placement>, w: ConstraintWeights)
    requires Resolves(pr, ps)
    ensures Sum(PreferenceTerms(pr, ps, w)) <= ExactUnits(pr, ps, w, |ps|)
    ensures Sum(PreferenceTerms(pr, ps, w)) == ExactUnits(pr, ps, w, |ps|)
       <==> forall i :: 0 <= i < |ps| ==> ExactPreferences(pr, ps, w)[i] <= U32_MAX
  {
    var exact := ExactPreferences(pr, ps, w);
    ExactPreferencesSplit(pr, ps, w, |ps|);
    assert exact[..|ps|] == exact;
    CappedSumIff(PreferenceTerms(pr, ps, w), exact);
  }

  /** The weighted preference total as the report's own counters give it. */
  function ReportedUnits(r: QualityReport, w: ConstraintWeights): nat {
    WeightedUnits(w, r.preferEarlyUnits, r.avoidFirstUnits, r.avoidLastUnits, r.preferLateUnits)
  }

  lemma CappedFactorSmall(w: nat, x: nat)
    ensures Times(w, Cap(x)) <= Times(w, x)
    ensures Times(w, Cap(x)) < U32_MAX ==> Times(w, Cap(x)) == Times(w, x)
  {
    if x > U32_MAX && w > 0 {
      MulMono(1, w, U32_MAX);
      MulMono(U32_MAX, x, w);
    }
    if w == 0 {
      TimesZero(x);
      TimesZero(Cap(x));
    }
  }

  lemma CappedUnits(w: ConstraintWeights, early: nat, first: nat, last: nat, late: nat)
    ensures var capped := WeightedUnits(w, Cap(early), Cap(first), Cap(last), Cap(late));
      && capped <= WeightedUnits(w, early, first, last, late)
      && (capped < U32_MAX ==> capped == WeightedUnits(w, early, first, last, late))
  {
    CappedFactorSmall(w.preferEarlyPeriod, early);
    CappedFactorSmall(w.avoidFirstPeriod, first);
    CappedFactorSmall(w.avoidLastPeriod, last);
    CappedFactorSmall(w.preferLatePeriod, late);
  }

  lemma ReportedUnitsAreCapped(r: QualityReport, pr: Problem, ps: seq<Placement>, violations: nat, w: ConstraintWeights)
    requires Resolves(pr, ps) && Reports(r, pr, ps, violations, w)
    ensures ReportedUnits(r, w) <= ExactUnits(pr, ps, w, |ps|)
    ensures ReportedUnits(r, w) < U32_MAX ==> ReportedUnits(r, w) == ExactUnits(pr, ps, w, |ps|)
  {
    CappedUnits(w, Sum(UnitTerms(pr, ps, Early)[..|ps|]), Sum(UnitTerms(pr, ps, First)[..|ps|]),
                Sum(UnitTerms(pr, ps, Last)[..|ps|]), Sum(UnitTerms(pr, ps, Late)[..|ps|]));
  }

  lemma SmallUnitsAreAxis(pr: Problem, ps: seq<Placement>, w: ConstraintWeights)
    requires Resolves(pr, ps) && ExactUnits(pr, ps, w, |ps|) <= U32_MAX
    ensures PinFreeAxes(pr, ps, w).preference == ExactUnits(pr, ps, w, |ps|)
  {
    var exact := ExactPreferences(pr, ps, w);
    ExactPreferencesSplit(pr, ps, w, |ps|);
    assert exact[..|ps|] == exact;
    SmallSumUncapped(PreferenceTerms(pr, ps, w), exact);
    WrapSmall(Sum(PreferenceTerms(pr, ps, w)));
  }

  /** The preference total inside the score is the sum over the four axes of weight times reported
      units, if and only if that sum is below the u32 limit. At the limit itself a saturated counter
      can coincide; there the two are equal at least when no counter saturated. No placement needs
      to be inspected. */
  lemma ReportedUnitsIff(r: QualityReport, pr: Problem, ps: seq<Placement>, violations: nat, w: ConstraintWeights)
    requires Resolves(pr, ps) && Reports(r, pr, ps, violations, w)
    ensures ReportedUnits(r, w) != U32_MAX ==>
      (PinFreeAxes(pr, ps, w).preference == ReportedUnits(r, w) <==> ReportedUnits(r, w) < U32_MAX)
    ensures ReportedUnits(r, w) == U32_MAX == ExactUnits(pr, ps, w, |ps|) ==>
      PinFreeAxes(pr, ps, w).preference == ReportedUnits(r, w)
  {
    ReportedUnitsAreCapped(r, pr, ps, violations, w);
    if ExactUnits(pr, ps, w, |ps|) <= U32_MAX {
      SmallUnitsAreAxis(pr, ps, w);
    }
  }

  /** It also is whenever no placement's score saturates and the total fits a u32. */
  lemma PreferenceFromReportedUnits(r: QualityReport, pr: Problem, ps: seq<Placement>, violations: nat,
                                    w: ConstraintWeights)
    requires Resolves(pr, ps) && Reports(r, pr, ps, violations, w)
    requires forall i :: 0 <= i < |ps| ==> ExactPreferences(pr, ps, w)[i] <= U32_MAX
    requires Sum(PreferenceTerms(pr, ps, w)) <= U32_MAX
    ensures PinFreeAxes(pr, ps, w).preference == ReportedUnits(r, w)
  {
    PreferenceFromUnitsIff(pr, ps, w);
    SmallUnitsAreAxis(pr, ps, w);
    CountersFit(w, Sum(UnitTerms(pr, ps, Early)[..|ps|]), Sum(UnitTerms(pr, ps, First)[..|ps|]),
                Sum(UnitTerms(pr, ps, Last)[..|ps|]), Sum(UnitTerms(pr, ps, Late)[..|ps|]));
  }

  lemma FactorFits(w: nat, x: nat)
    requires Times(w, x) <= U32_MAX
    ensures Times(w, Cap(x)) == Times(w, x)
  {
    if x > U32_MAX && w > 0 {
      MulMono(1, w, x);
    }
    if w == 0 {
      TimesZero(x);
      TimesZero(Cap(x));
    }
  }

  lemma CountersFit(w: ConstraintWeights, early: nat, first: nat, last: nat, late: nat)
    requires WeightedUnits(w, early, first, last, late) <= U32_MAX
    ensures WeightedUnits(w, Cap(early), Cap(first), Cap(last), Cap(late)) == WeightedUnits(w, early, first, last, late)
  {
    FactorFits(w.preferEarlyPeriod, early);
    FactorFits(w.avoidFirstPeriod, first);
    FactorFits(w.avoidLastPeriod, last);
    FactorFits(w.preferLatePeriod, late);
  }

  // ----- home rooms -----

  /** The penalty of each placement, before it saturates. */
  function ExactPenalties(pr: Problem, ps: seq<Placement>, w: ConstraintWeights): (r: seq<nat>)
    requires forall p :: p in ps ==> Known(pr, p)
  {
    seq(|ps|, i requires 0 <= i < |ps| => Times(w.preferHomeRoom, AwayCounts(pr, ps)[i]))
  }

  lemma {:induction false} ExactPenaltiesFactor(pr: Problem, ps: seq<Placement>, w: ConstraintWeights, n: nat)
    requires n <= |ps| && forall p :: p in ps ==> Known(pr, p)
    ensures Sum(ExactPenalties(pr, ps, w)[..n]) == Times(w.preferHomeRoom, Sum(AwayCounts(pr, ps)[..n]))
  {
    if n == 0 {
    } else {
      ExactPenaltiesFactor(pr, ps, w, n - 1);
      SumStep(ExactPenalties(pr, ps, w), n - 1);
      TimesOfSum(w.preferHomeRoom, AwayCounts(pr, ps), n - 1);
    }
  }

  lemma PenaltiesAreCapped(pr: Problem, ps: seq<Placement>, w: ConstraintWeights)
    requires Resolves(pr, ps) && forall p :: p in ps ==> Known(pr, p)
    ensures forall i :: 0 <= i < |ps| ==> HomeRoomTerms(pr, ps, w)[i] == Cap(ExactPenalties(pr, ps, w)[i])
    ensures Sum(ExactPenalties(pr, ps, w)) == Times(w.preferHomeRoom, Sum(AwayCounts(pr, ps)))
  {
    ExactPenaltiesFactor(pr, ps, w, |ps|);
    assert ExactPenalties(pr, ps, w)[..|ps|] == ExactPenalties(pr, ps, w);
    assert AwayCounts(pr, ps)[..|ps|] == AwayCounts(pr, ps);
  }

  /** The home-room total never exceeds the weight times the misses, and equals it if and only if no
      placement's penalty saturates. */
  lemma HomeRoomFromMissesIff(pr: Problem, ps: seq<Placement>, w: ConstraintWeights)
    requires Resolves(pr, ps) && forall p :: p in ps ==> Known(pr, p)
    ensures Sum(HomeRoomTerms(pr, ps, w)) <= Times(w.preferHomeRoom, Sum(AwayCounts(pr, ps)))
    ensures Sum(HomeRoomTerms(pr, ps, w)) == Times(w.preferHomeRoom, Sum(AwayCounts(pr, ps)))
       <==> forall i :: 0 <= i < |ps| ==> ExactPenalties(pr, ps, w)[i] <= U32_MAX
  {
    PenaltiesAreCapped(pr, ps, w);
    CappedSumIff(HomeRoomTerms(pr, ps, w), ExactPenalties(pr, ps, w));
  }

  /** The home-room misses of all placements, before the plain u32 sum can wrap. */
  ghost function TotalMisses(pr: Problem, ps: seq<Placement>): nat
    requires Resolves(pr, ps)
  {
    KnownFromResolves(pr, ps);
    Sum(AwayCounts(pr, ps))
  }

  /** The home-room total inside the score is the weight times the reported misses if and only if
      that product fits a u32, provided that the plain sum of the misses does not overflow. */
  lemma ReportedMissesIff(r: QualityReport, pr: Problem, ps: seq<Placement>, violations: nat, w: ConstraintWeights)
    requires Resolves(pr, ps) && Reports(r, pr, ps, violations, w)
    requires TotalMisses(pr, ps) <= U32_MAX
    ensures PinFreeAxes(pr, ps, w).homeRoom == Times(w.preferHomeRoom, r.homeRoomMisses)
       <==> Times(w.preferHomeRoom, r.homeRoomMisses) <= U32_MAX
  {
    KnownFromResolves(pr, ps);
    WrapSmall(Sum(AwayCounts(pr, ps)));
    PenaltiesAreCapped(pr, ps, w);
    if Times(w.preferHomeRoom, r.homeRoomMisses) <= U32_MAX {
      SmallSumUncapped(HomeRoomTerms(pr, ps, w), ExactPenalties(pr, ps, w));
      WrapSmall(Sum(HomeRoomTerms(pr, ps, w)));
    }
  }

  /** The misses of a placement are its listed members away from home. */
  lemma {:induction false} AwayCountCountsMembers(pr: Problem, classes: seq<SchoolClassId>, room: RoomId)
    ensures AwayCount(pr, classes, room) == |set j | 0 <= j < |classes| && AwayFromHome(pr, classes[j], room)|
  {
    var away := set j | 0 <= j < |classes| && AwayFromHome(pr, classes[j], room);
    if classes == [] {
    } else {
      var n := |classes| - 1;
      AwayCountCountsMembers(pr, classes[..n], room);
      var front := set j | 0 <= j < n && AwayFromHome(pr, classes[..n][j], room);
      assert away == front + if AwayFromHome(pr, classes[n], room) then {n} else {};
    }
  }
}
