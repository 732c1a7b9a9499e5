/** `score_solution` and `slice_recompute` (score.rs), proved against the objective. */
module Score {
  import opened Machine
  import opened Collections
  import opened Types
  import opened Sorting
  import opened Balance
  import opened BalanceForms
  import opened BalanceExact
  import opened Timetable
  import opened Objective
  import opened AxisPasses
  import SupervisionPass
  import Supervision

  // ----- folding the axes -----

  function FoldSlice(w: ConstraintWeights, classGaps: u32, teacherGaps: u32, preference: u32): u32 {
    SatAdd(SatAdd(SatMul(w.classGap, classGaps), SatMul(w.teacherGap, teacherGaps)), preference)
  }

  lemma FoldSliceExact(w: ConstraintWeights, classGaps: u32, teacherGaps: u32, preference: u32)
    ensures FoldSlice(w, classGaps, teacherGaps, preference)
         == Cap(Times(w.classGap, classGaps) + Times(w.teacherGap, teacherGaps) + preference)
  {}

  /** Adding `weight * x` to a running total that saturates. */
  function AddAxis(acc: u32, weight: u32, x: u32): u32 {
    SatAdd(acc, SatMul(weight, x))
  }

  lemma AddAxisExact(exact: nat, weight: u32, x: u32)
    ensures AddAxis(Cap(exact), weight, x) == Cap(exact + Times(weight, x))
  {
    CapAbsorbs(exact, Times(weight, x));
  }

  /** The extra axes on top of a slice, in the order both reports add them. */
  function FoldExtras(w: ConstraintWeights, slice: u32, balance: u32, spread: u32, interior: u32,
                      homeRoom: u32, softMiss: u32, classTeacher: u32, supervision: u32): u32
  {
    var a1 := AddAxis(slice, w.classDayBalance, balance);
    var a2 := AddAxis(a1, w.maxPerClassSpread, spread);
    var a3 := AddAxis(a2, w.maxPerClassInteriorGaps, interior);
    var a4 := SatAdd(a3, homeRoom);
    var a5 := AddAxis(a4, w.softPinMiss, softMiss);
    var a6 := AddAxis(a5, w.preferClassTeacher, classTeacher);
    AddAxis(a6, w.supervisionSpread, supervision)
  }

  /** Saturating at every step equals capping the whole weighted sum once. */
  lemma FoldExtrasExact(w: ConstraintWeights, a: Axes)
    requires a.balance <= U32_MAX && a.spread <= U32_MAX && a.interior <= U32_MAX && a.homeRoom <= U32_MAX
    requires a.softMiss <= U32_MAX && a.classTeacher <= U32_MAX && a.supervision <= U32_MAX
    ensures FoldExtras(w, Cap(SliceTotal(w, a)), a.balance, a.spread, a.interior, a.homeRoom, a.softMiss,
                       a.classTeacher, a.supervision)
         == WeightedTotal(w, a)
  {
    var t0 := SliceTotal(w, a);
    AddAxisExact(t0, w.classDayBalance, a.balance);
    var t1 := t0 + Times(w.classDayBalance, a.balance);
    AddAxisExact(t1, w.maxPerClassSpread, a.spread);
    var t2 := t1 + Times(w.maxPerClassSpread, a.spread);
    AddAxisExact(t2, w.maxPerClassInteriorGaps, a.interior);
    var t3 := t2 + Times(w.maxPerClassInteriorGaps, a.interior);
    CapAbsorbs(t3, a.homeRoom);
    var t4 := t3 + a.homeRoom;
    AddAxisExact(t4, w.softPinMiss, a.softMiss);
    var t5 := t4 + Times(w.softPinMiss, a.softMiss);
    AddAxisExact(t5, w.preferClassTeacher, a.classTeacher);
    AddAxisExact(t5 + Times(w.preferClassTeacher, a.classTeacher), w.supervisionSpread, a.supervision);
  }

  // ----- the all-zero shortcut -----

  predicate AllZero(w: ConstraintWeights) {
    w == ConstraintWeights(0, 0, 0, 0, 0, 0, 0, 0, 0, 0, 0, 0, 0)
  }

  lemma ZeroPreference(s: Subject, tb: TimeBlock, last: u8, w: ConstraintWeights)
    requires AllZero(w)
    ensures Preference(s, tb, last, w) == 0
  {}

  lemma ZeroTerms(pr: Problem, ps: seq<Placement>, w: ConstraintWeights)
    requires AllZero(w) && Resolves(pr, ps)
    ensures Sum(PreferenceTerms(pr, ps, w)) == 0 && Sum(HomeRoomTerms(pr, ps, w)) == 0
  {
    forall i | 0 <= i < |ps| ensures PreferenceTerms(pr, ps, w)[i] == 0 {
      assert Scored(pr, ps[i]);
      var tb := BlockOf(pr, ps[i]);
      ZeroPreference(SubjectOf(pr, ps[i]), tb, LastPosition(pr, tb), w);
    }
    AllZeroSum(PreferenceTerms(pr, ps, w));
    AllZeroSum(HomeRoomTerms(pr, ps, w));
  }

  lemma ZeroWeightedTotal(w: ConstraintWeights, a: Axes)
    requires AllZero(w) && a.preference == 0 && a.homeRoom == 0
    ensures WeightedTotal(w, a) == 0
  {}

  lemma ZeroWeightsScoreZero(pr: Problem, ps: seq<Placement>, w: ConstraintWeights, soft: set<PinKey>)
    requires AllZero(w) && Resolves(pr, ps)
    ensures WeightedTotal(w, AxesOf(pr, ps, w, soft)) == 0
  {
    ZeroTerms(pr, ps, w);
    ZeroWeightedTotal(w, AxesOf(pr, ps, w, soft));
  }

  // ----- the balance axis on the deduplicated partition -----

  lemma SchoolBalanceExact(m: Partition, sm: SlotMap, classes: seq<SchoolClass>, days: u8)
    requires Represents(m, sm) && Deduped(m)
    ensures ClassCosts(m, classes, days) == SlotCosts(sm, classes, days)
  {
    forall i | 0 <= i < |classes|
      ensures ClassCosts(m, classes, days)[i] == SlotCosts(sm, classes, days)[i]
    {
      ClassBalanceExact(m, sm, classes[i].id, days);
    }
  }

  lemma ClassBalanceExact(m: Partition, sm: SlotMap, c: SchoolClassId, days: u8)
    requires Represents(m, sm) && Deduped(m)
    ensures ClassCost(m, c, days) == Cost(SlotCounts(sm, c, days)) <= MAX_CLASS_COST
  {
    ClassCostExact(m, c, days);
    forall d: u8 | d < days ensures Counts(m, c, days)[d] == SlotCounts(sm, c, days)[d] {
      assert Elems(Positions(m, c, d)) == Occupied(sm, (c, d));
    }
    assert Counts(m, c, days) == SlotCounts(sm, c, days);
  }

  // ----- bounds the weights need -----

  lemma SpreadFits(pr: Problem, ps: seq<Placement>)
    requires |pr.timeBlocks| <= U32_MAX
    ensures 0 <= SupervisionPass.SpreadOf(pr, ps) <= U32_MAX
  {
    Supervision.SpreadBound(SupervisionPass.RotaOf(pr, ps));
    Supervision.BreakCount(pr);
  }

  // ----- slice_recompute -----

  method SliceCosts(pr: Problem, ps: seq<Placement>, w: ConstraintWeights, byClassDay: Partition,
                    byTeacherDay: Partition)
    returns (slice: u32)
    requires Resolves(pr, ps) && Deduped(byClassDay)
    requires Represents(byClassDay, ClassSlots(Meetings(pr, ps)))
    requires Represents(byTeacherDay, TeacherSlots(Meetings(pr, ps)))
    ensures forall soft :: slice == Cap(SliceTotal(w, AxesOf(pr, ps, w, soft)))
  {
    var classGaps := SumGaps(byClassDay, ClassSlots(Meetings(pr, ps)));
    var deduped := SortDedupAll(byTeacherDay, TeacherSlots(Meetings(pr, ps)));
    var teacherGaps := SumGaps(deduped, TeacherSlots(Meetings(pr, ps)));
    var preference := PreferenceTotal(pr, ps, w);
    FoldSliceExact(w, classGaps, teacherGaps, preference);
    slice := FoldSlice(w, classGaps, teacherGaps, preference);
  }

  /** The slice recomputed from the placements is the slice part of the objective. */
  method SliceRecompute(pr: Problem, ps: seq<Placement>, w: ConstraintWeights) returns (slice: u32)
    requires Resolves(pr, ps)
    ensures forall soft :: slice == Cap(SliceTotal(w, AxesOf(pr, ps, w, soft)))
  {
    KnownFromResolves(pr, ps);
    var byClassDay, byTeacherDay := CollectPartitions(pr, ps);
    byClassDay := SortDedupAll(byClassDay, ClassSlots(Meetings(pr, ps)));
    slice := SliceCosts(pr, ps, w, byClassDay, byTeacherDay);
  }

  lemma KnownFromResolves(pr: Problem, ps: seq<Placement>)
    requires Resolves(pr, ps)
    ensures forall p :: p in ps ==> Known(pr, p)
  {
    forall p | p in ps ensures Known(pr, p) {
      assert Scored(pr, p);
    }
  }

  // ----- score_solution -----

  /** The full soft score. With every weight zero nothing is looked up and the score is 0;
      otherwise every placement must resolve. */
  method ScoreSolution(pr: Problem, ps: seq<Placement>, w: ConstraintWeights, soft: set<PinKey>) returns (score: u32)
    requires AllZero(w) || Resolves(pr, ps)
    ensures Resolves(pr, ps) ==> score == WeightedTotal(w, AxesOf(pr, ps, w, soft))
    ensures AllZero(w) ==> score == 0
  {
    if AllZero(w) {
      if Resolves(pr, ps) {
        ZeroWeightsScoreZero(pr, ps, w, soft);
      }
      return 0;
    }
    KnownFromResolves(pr, ps);
    var byClassDay, byTeacherDay := CollectPartitions(pr, ps);
    ghost var sm := ClassSlots(Meetings(pr, ps));
    byClassDay := SortDedupAll(byClassDay, sm);
    var balance := ClassDayBalanceCost(byClassDay, pr.schoolClasses, Days(pr));
    SchoolBalanceExact(byClassDay, sm, pr.schoolClasses, Days(pr));
    var slice := SliceCosts(pr, ps, w, byClassDay, byTeacherDay);
    var homeRoom := HomeRoomTotal(pr, ps, w);
    var classTeacher := ClassTeacherMissCount(pr, ps);
    var supervision := SupervisionPass.ComputeSupervisionSpread(pr, ps);
    SpreadFits(pr, ps);
    var softMiss := if w.softPinMiss == 0 then 0 else SoftPinMissCount(soft, ps);
    var spread := WorstClassSpread(pr, ps);
    var interior := WorstClassInteriorGaps(pr, ps);
    SoftMissWeight(w, soft, ps);
    FoldReportsTotal(w, AxesOf(pr, ps, w, soft), slice, balance, spread, interior, homeRoom, softMiss,
                     classTeacher, supervision);
    score := FoldExtras(w, slice, balance, spread, interior, homeRoom, softMiss, classTeacher, supervision);
  }

  /** Axis values folded into a slice give the weighted total. With weight 0 the soft-pin count
      may have been skipped. */
  lemma FoldReportsTotal(w: ConstraintWeights, a: Axes, slice: u32, balance: u32, spread: u32, interior: u32,
                         homeRoom: u32, softMiss: u32, classTeacher: u32, supervision: u32)
    requires slice == Cap(SliceTotal(w, a))
    requires balance == a.balance && spread == a.spread && interior == a.interior && homeRoom == a.homeRoom
    requires softMiss == a.softMiss || w.softPinMiss == 0
    requires classTeacher == a.classTeacher && supervision == a.supervision && a.softMiss <= U32_MAX
    ensures FoldExtras(w, slice, balance, spread, interior, homeRoom, softMiss, classTeacher, supervision)
         == WeightedTotal(w, a)
  {
    if softMiss == a.softMiss {
      FoldExtrasExact(w, a);
    } else {
      IdleSoftPins(w, slice, balance, spread, interior, homeRoom, softMiss, a.softMiss, classTeacher, supervision);
      FoldExtrasExact(w, a);
    }
  }

  lemma IdleSoftPins(w: ConstraintWeights, slice: u32, balance: u32, spread: u32, interior: u32,
                     homeRoom: u32, softA: u32, softB: u32, classTeacher: u32, supervision: u32)
    requires w.softPinMiss == 0
    ensures FoldExtras(w, slice, balance, spread, interior, homeRoom, softA, classTeacher, supervision)
         == FoldExtras(w, slice, balance, spread, interior, homeRoom, softB, classTeacher, supervision)
  {
    TimesZero(softA);
    TimesZero(softB);
  }

  lemma SoftMissWeight(w: ConstraintWeights, soft: set<PinKey>, ps: seq<Placement>)
    ensures SoftPinMissCount(soft, ps) == Wrap(|soft - PlacementKeys(ps)|)
  {
    if soft == {} {
      assert soft - PlacementKeys(ps) == {};
    }
  }
}
