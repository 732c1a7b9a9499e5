/** `quality_report` (quality.rs): the same objective by attribution to classes and teachers. */
module Quality {
  import opened Machine
  import opened Collections
  import opened Types
  import opened Gaps
  import opened Balance
  import opened BalanceForms
  import opened BalanceExact
  import opened Timetable
  import opened Objective
  import opened AxisPasses
  import opened Score
  import SupervisionPass

  datatype QualityReport = QualityReport(
    hardViolations: u32,
    unplacedHours: u32,
    classGapHours: u32,
    classGapHoursByClass: map<SchoolClassId, u32>,
    teacherGapHours: u32,
    teacherGapHoursByTeacher: map<TeacherId, u32>,
    classDayBalanceCost: u32,
    classDayBalanceCostByClass: map<SchoolClassId, u32>,
    homeRoomMisses: u32,
    homeRoomMissesByClass: map<SchoolClassId, u32>,
    preferEarlyUnits: u32,
    avoidFirstUnits: u32,
    avoidLastUnits: u32,
    preferLateUnits: u32,
    preferClassTeacherMisses: u32,
    weightedScore: u32,
    worstPerClassSpread: u32,
    worstPerClassInteriorGaps: u32,
    softPinMisses: u32,
    supervisionSpreadRaw: u32)

  // ----- attribution maps -----

  /** A u32 map that holds, possibly wrapped, the exact counts, and no key with count 0. */
  ghost predicate Tallies(m: map<Uuid, u32>, exact: map<Uuid, nat>) {
    && m.Keys == exact.Keys
    && (forall id :: id in exact ==> exact[id] > 0 && m[id] == Wrap(exact[id]))
  }

  /** Add `n` to the count under `id`, which starts at 0, with plain u32 addition. */
  function AddTo(m: map<Uuid, u32>, id: Uuid, n: u32): map<Uuid, u32> {
    m[id := WrapAdd(if id in m then m[id] else 0, n)]
  }

  ghost function Plus(exact: map<Uuid, nat>, id: Uuid, n: nat): map<Uuid, nat> {
    exact[id := (if id in exact then exact[id] else 0) + n]
  }

  lemma AddToTallies(m: map<Uuid, u32>, exact: map<Uuid, nat>, id: Uuid, n: u32)
    requires Tallies(m, exact) && n > 0
    ensures Tallies(AddTo(m, id, n), Plus(exact, id, n))
    ensures MapSum<Uuid>(Plus(exact, id, n)) == MapSum<Uuid>(exact) + n
  {
    WrapAddAbsorbs(if id in exact then exact[id] else 0, n);
    MapSumInsert<Uuid>(exact, id, (if id in exact then exact[id] else 0) + n);
  }

  lemma WrapTwice(n: int)
    ensures Wrap(Wrap(n)) == Wrap(n)
  {}

  /** Wrapping the entries first does not change the wrapped sum. */
  lemma {:induction false} WrappedEntriesSum(m: map<Uuid, u32>, exact: map<Uuid, nat>)
    requires m.Keys == exact.Keys && forall id :: id in m ==> m[id] == Wrap(exact[id])
    ensures Wrap(MapSum<Uuid>(m)) == Wrap(MapSum<Uuid>(exact))
    decreases m.Keys
  {
    if m.Keys == {} {
      assert MapSum<Uuid>(m) == 0 && MapSum<Uuid>(exact) == 0;
    } else {
      var id: Uuid :| id in m.Keys;
      var restM, restE := m - {id}, exact - {id};
      MapSumRemove<Uuid>(m, id);
      MapSumRemove<Uuid>(exact, id);
      WrappedEntriesSum(restM, restE);
      WrapTwice(exact[id]);
      WrapCongruent(m[id], MapSum<Uuid>(restM), exact[id], MapSum<Uuid>(restE));
    }
  }

  /** Positive sums per class or teacher. */
  ghost function Attribution(m: map<(Uuid, u8), nat>): map<Uuid, nat> {
    map id | id in Owners(m.Keys) && OwnerSum(m, id) > 0 :: OwnerSum(m, id)
  }

  lemma AttributionAt(m: map<(Uuid, u8), nat>, k: (Uuid, u8), g: nat, id: Uuid)
    requires k !in m
    ensures OwnerSum(m[k := g], id) == OwnerSum(m, id) + if id == k.0 then g else 0
    ensures id in Attribution(m) <==> OwnerSum(m, id) > 0
    ensures id in Attribution(m[k := g]) <==> OwnerSum(m[k := g], id) > 0
  {
    OwnerSumStep(m, k, g, id);
    if d: u8 :| (id, d) in m { assert (id, d) in m.Keys; }
    if d: u8 :| (id, d) in m[k := g] { assert (id, d) in m[k := g].Keys; }
  }

  ghost function Charged(exact: map<Uuid, nat>, id: Uuid, g: nat): map<Uuid, nat> {
    if g > 0 then Plus(exact, id, g) else exact
  }

  lemma AttributionStepAt(m: map<(Uuid, u8), nat>, k: (Uuid, u8), g: nat, id: Uuid)
    requires k !in m
    ensures var after, expected := Attribution(m[k := g]), Charged(Attribution(m), k.0, g);
      (id in after <==> id in expected) && (id in after ==> after[id] == expected[id])
  {
    AttributionAt(m, k, g, id);
  }

  lemma AttributionStep(m: map<(Uuid, u8), nat>, k: (Uuid, u8), g: nat)
    requires k !in m
    ensures Attribution(m[k := g]) == Charged(Attribution(m), k.0, g)
  {
    var after, expected := Attribution(m[k := g]), Charged(Attribution(m), k.0, g);
    forall id: Uuid ensures (id in after <==> id in expected) && (id in after ==> after[id] == expected[id]) {
      AttributionStepAt(m, k, g, id);
    }
  }

  /** Charge every positive daily value to its class or teacher, in any order. */
  method AttributeValues(values: map<(Uuid, u8), u32>) returns (byOwner: map<Uuid, u32>)
    ensures Tallies(byOwner, Attribution(values))
    ensures Wrap(MapSum<Uuid>(byOwner)) == Wrap(MapSum<(Uuid, u8)>(values))
  {
    byOwner := map[];
    var todo := values.Keys;
    ghost var done: map<(Uuid, u8), nat> := map[];
    while todo != {}
      invariant todo <= values.Keys && done.Keys == values.Keys - todo
      invariant forall k :: k in done ==> done[k] == values[k]
      invariant Tallies(byOwner, Attribution(done))
      invariant MapSum<Uuid>(Attribution(done)) == MapSum<(Uuid, u8)>(done)
      decreases todo
    {
      var k :| k in todo;
      todo := todo - {k};
      var n := values[k];
      AttributionStep(done, k, n);
      MapSumInsert<(Uuid, u8)>(done, k, n);
      if n > 0 {
        AddToTallies(byOwner, Attribution(done), k.0, n);
        byOwner := AddTo(byOwner, k.0, n);
      }
      done := done[k := n];
    }
    assert done == values;
    WrappedEntriesSum(byOwner, Attribution(done));
  }

  /** Gap-hours attributed to classes or teachers, and their total. */
  method AttributeGaps(m: Partition, ghost sm: SlotMap) returns (byOwner: map<Uuid, u32>, total: u32)
    requires Represents(m, sm) && Deduped(m)
    ensures Tallies(byOwner, Attribution(GapMap(sm)))
    ensures total == Wrap(GapHours(sm))
  {
    var gaps: map<(Uuid, u8), u32> := map k | k in m :: GapCount(m[k]);
    GapCountsExact(m, sm);
    assert gaps == GapMap(sm);
    byOwner := AttributeValues(gaps);
    total := SumValues<Uuid>(byOwner);
  }

  /** The positive costs by class id; a later listing of a class replaces an earlier one. */
  function PositiveCosts(classes: seq<SchoolClass>, costs: seq<nat>): map<SchoolClassId, nat>
    requires |classes| == |costs|
  {
    if classes == [] then map[]
    else
      var n := |classes| - 1;
      WithPositive(PositiveCosts(classes[..n], costs[..n]), classes[n].id, costs[n])
  }

  function WithPositive(front: map<SchoolClassId, nat>, id: SchoolClassId, cost: nat): map<SchoolClassId, nat> {
    if cost > 0 then front[id := cost] else front
  }

  lemma PositiveStep(classes: seq<SchoolClass>, costs: seq<nat>, i: nat)
    requires |classes| == |costs| && i < |classes|
    ensures PositiveCosts(classes[..i + 1], costs[..i + 1])
         == WithPositive(PositiveCosts(classes[..i], costs[..i]), classes[i].id, costs[i])
  {
    assert classes[..i + 1][..i] == classes[..i] && costs[..i + 1][..i] == costs[..i];
  }

  ghost function BalanceByClass(sm: SlotMap, classes: seq<SchoolClass>, days: u8): map<SchoolClassId, nat> {
    PositiveCosts(classes, SlotCosts(sm, classes, days))
  }

  method SlotCostOfClass(m: Partition, ghost sm: SlotMap, c: SchoolClassId, days: u8) returns (cost: u32)
    requires Represents(m, sm) && Deduped(m)
    ensures cost == Cost(SlotCounts(sm, c, days))
  {
    cost := ClassDayBalanceCostForClass(c, days, m);
    ClassBalanceExact(m, sm, c, days);
  }

  method AttributeBalance(m: Partition, ghost sm: SlotMap, classes: seq<SchoolClass>, days: u8)
    returns (byClass: map<SchoolClassId, u32>)
    requires Represents(m, sm) && Deduped(m)
    ensures byClass == BalanceByClass(sm, classes, days)
  {
    ghost var costs := SlotCosts(sm, classes, days);
    var found: map<SchoolClassId, nat> := map[];
    for i := 0 to |classes|
      invariant found == PositiveCosts(classes[..i], costs[..i])
      invariant forall id :: id in found ==> found[id] <= U32_MAX
    {
      var cost := SlotCostOfClass(m, sm, classes[i].id, days);
      PositiveStep(classes, costs, i);
      found := WithPositive(found, classes[i].id, cost);
    }
    assert classes[..|classes|] == classes && costs[..|classes|] == costs;
    byClass := found;
  }

  // ----- home rooms -----

  ghost function CountAway(acc: map<Uuid, nat>, pr: Problem, classes: seq<SchoolClassId>, room: RoomId)
    : map<Uuid, nat>
  {
    if classes == [] then acc
    else
      var n := |classes| - 1;
      var front := CountAway(acc, pr, classes[..n], room);
      if AwayFromHome(pr, classes[n], room) then Plus(front, classes[n], 1) else front
  }

  /** Home-room misses per class: one for every (placement, listed member) away from home. */
  ghost function AwayByClass(pr: Problem, ps: seq<Placement>): map<Uuid, nat>
    requires forall p :: p in ps ==> Known(pr, p)
  {
    if ps == [] then map[]
    else
      var p := ps[|ps| - 1];
      CountAway(AwayByClass(pr, ps[..|ps| - 1]), pr, Members(pr, p), p.roomId)
  }

  function AwayCounts(pr: Problem, ps: seq<Placement>): (r: seq<nat>)
    requires forall p :: p in ps ==> Known(pr, p)
  {
    seq(|ps|, i requires 0 <= i < |ps| => AwayCount(pr, Members(pr, ps[i]), ps[i].roomId))
  }

  method AttributeAway(m: map<Uuid, u32>, ghost exact: map<Uuid, nat>, pr: Problem, classes: seq<SchoolClassId>,
                       room: RoomId)
    returns (r: map<Uuid, u32>)
    requires Tallies(m, exact)
    ensures Tallies(r, CountAway(exact, pr, classes, room))
    ensures MapSum<Uuid>(CountAway(exact, pr, classes, room)) == MapSum<Uuid>(exact) + AwayCount(pr, classes, room)
  {
    r := m;
    for j := 0 to |classes|
      invariant Tallies(r, CountAway(exact, pr, classes[..j], room))
      invariant MapSum<Uuid>(CountAway(exact, pr, classes[..j], room))
             == MapSum<Uuid>(exact) + AwayCount(pr, classes[..j], room)
    {
      assert classes[..j + 1][..j] == classes[..j];
      var one := HomeRoomPenaltyOneClass(pr, classes[j], room, 1);
      if one > 0 {
        AddToTallies(r, CountAway(exact, pr, classes[..j], room), classes[j], one);
        r := AddTo(r, classes[j], one);
      }
    }
    assert classes[..|classes|] == classes;
  }

  method AttributeHomeRooms(pr: Problem, ps: seq<Placement>) returns (byClass: map<SchoolClassId, u32>)
    requires forall p :: p in ps ==> Known(pr, p)
    ensures Tallies(byClass, AwayByClass(pr, ps))
    ensures Wrap(MapSum<Uuid>(byClass)) == Wrap(Sum(AwayCounts(pr, ps)))
  {
    var lessons := LessonsById(pr);
    ghost var counts := AwayCounts(pr, ps);
    byClass := map[];
    for i := 0 to |ps|
      invariant Tallies(byClass, AwayByClass(pr, ps[..i]))
      invariant MapSum<Uuid>(AwayByClass(pr, ps[..i])) == Sum(counts[..i])
    {
      var p := ps[i];
      assert Known(pr, p);
      assert ps[..i + 1][..i] == ps[..i];
      SumStep(counts, i);
      byClass := AttributeAway(byClass, AwayByClass(pr, ps[..i]), pr, lessons[p.lessonId].schoolClassIds, p.roomId);
    }
    assert ps[..|ps|] == ps && counts[..|ps|] == counts;
    WrappedEntriesSum(byClass, AwayByClass(pr, ps));
  }

  // ----- time-of-day units -----

  datatype TimeAxis = Early | First | Last | Late

  function UnitsAt(axis: TimeAxis, s: Subject, tb: TimeBlock, last: u8): nat {
    match axis
    case Early => EarlyUnits(s, tb)
    case First => FirstUnits(s, tb)
    case Last => LastUnits(s, tb, last)
    case Late => LateUnits(s, tb, last)
  }

  function UnitTerms(pr: Problem, ps: seq<Placement>, axis: TimeAxis): (r: seq<nat>)
    requires Resolves(pr, ps)
  {
    seq(|ps|, i requires 0 <= i < |ps| =>
      assert Scored(pr, ps[i]);
      var tb := BlockOf(pr, ps[i]);
      UnitsAt(axis, SubjectOf(pr, ps[i]), tb, LastPosition(pr, tb)))
  }

  /** The capped unit count over the first `n` placements. */
  function UnitsUpTo(pr: Problem, ps: seq<Placement>, axis: TimeAxis, n: nat): u32
    requires Resolves(pr, ps) && n <= |ps|
  {
    Cap(Sum(UnitTerms(pr, ps, axis)[..n]))
  }

  lemma UnitStep(pr: Problem, ps: seq<Placement>, axis: TimeAxis, i: nat, s: Subject, tb: TimeBlock, last: u8)
    requires Resolves(pr, ps) && i < |ps|
    requires Scored(pr, ps[i]) && s == SubjectOf(pr, ps[i]) && tb == BlockOf(pr, ps[i]) && last == LastPosition(pr, tb)
    ensures UnitsUpTo(pr, ps, axis, i + 1) == SatAdd(UnitsUpTo(pr, ps, axis, i), Cap(UnitsAt(axis, s, tb, last)))
  {
    var terms := UnitTerms(pr, ps, axis);
    SumStep(terms, i);
    CapAbsorbs(Sum(terms[..i]), terms[i]);
  }

  /** The four unweighted unit counters, saturating. */
  method CountUnits(pr: Problem, ps: seq<Placement>) returns (early: u32, first: u32, last: u32, late: u32)
    requires Resolves(pr, ps)
    ensures early == UnitsUpTo(pr, ps, Early, |ps|) && first == UnitsUpTo(pr, ps, First, |ps|)
    ensures last == UnitsUpTo(pr, ps, Last, |ps|) && late == UnitsUpTo(pr, ps, Late, |ps|)
  {
    var blocks, lessons, subjects := Blocks(pr), LessonsById(pr), SubjectsById(pr);
    var lastPositions := LastPositions(pr.timeBlocks);
    early, first, last, late := 0, 0, 0, 0;
    for i := 0 to |ps|
      invariant early == UnitsUpTo(pr, ps, Early, i) && first == UnitsUpTo(pr, ps, First, i)
      invariant last == UnitsUpTo(pr, ps, Last, i) && late == UnitsUpTo(pr, ps, Late, i)
    {
      var p := ps[i];
      assert Scored(pr, p);
      var s, tb := subjects[lessons[p.lessonId].subjectId], blocks[p.timeBlockId];
      var maxPos := if tb.dayOfWeek in lastPositions then lastPositions[tb.dayOfWeek] else tb.position;
      forall axis
        ensures UnitsUpTo(pr, ps, axis, i + 1) == SatAdd(UnitsUpTo(pr, ps, axis, i), Cap(UnitsAt(axis, s, tb, maxPos)))
      {
        UnitStep(pr, ps, axis, i, s, tb, maxPos);
      }
      early, first, last, late := AddUnits(early, first, last, late, s, tb, maxPos);
    }
  }

  method AddUnits(early: u32, first: u32, last: u32, late: u32, s: Subject, tb: TimeBlock, maxPos: u8)
    returns (early2: u32, first2: u32, last2: u32, late2: u32)
    ensures early2 == SatAdd(early, Cap(EarlyUnits(s, tb))) && first2 == SatAdd(first, Cap(FirstUnits(s, tb)))
    ensures last2 == SatAdd(last, Cap(LastUnits(s, tb, maxPos))) && late2 == SatAdd(late, Cap(LateUnits(s, tb, maxPos)))
  {
    early2 := SatAdd(early, SatMul(s.preferEarlyPeriod, tb.position));
    first2, last2 := first, last;
    if tb.position == 0 {
      first2 := SatAdd(first, s.avoidFirstPeriod);
    }
    if tb.position == maxPos {
      last2 := SatAdd(last, s.avoidLastPeriod);
    }
    late2 := SatAdd(late, SatMul(s.preferLatePeriod, if tb.position < maxPos then maxPos - tb.position else 0));
  }

  // ----- soft pins -----

  /** Every soft pin of the problem, as the JSON entry point passes them on. */
  function SoftPins(pr: Problem): set<PinKey> {
    set pin | pin in pr.pinnedPlacements && pin.kind == Soft :: (pin.lessonId, pin.timeBlockId)
  }

  /** The soft pins whose lesson and time block exist. */
  function ValidSoftPins(pr: Problem): set<PinKey> {
    set pin | pin in pr.pinnedPlacements && pin.kind == Soft
      && pin.lessonId in LessonsById(pr) && pin.timeBlockId in Blocks(pr)
      :: (pin.lessonId, pin.timeBlockId)
  }

  // ----- quality_report -----

  function ExpectedHours(lessons: seq<Lesson>): nat {
    if lessons == [] then 0 else ExpectedHours(lessons[..|lessons| - 1]) + lessons[|lessons| - 1].hoursPerWeek
  }

  ghost predicate ReportsGaps(r: QualityReport, ms: seq<Meeting>) {
    && r.classGapHours == Wrap(GapHours(ClassSlots(ms)))
    && Tallies(r.classGapHoursByClass, Attribution(GapMap(ClassSlots(ms))))
    && r.teacherGapHours == Wrap(GapHours(TeacherSlots(ms)))
    && Tallies(r.teacherGapHoursByTeacher, Attribution(GapMap(TeacherSlots(ms))))
  }

  ghost predicate ReportsBalance(r: QualityReport, pr: Problem, ms: seq<Meeting>) {
    && r.classDayBalanceCostByClass == BalanceByClass(ClassSlots(ms), pr.schoolClasses, Days(pr))
    && r.classDayBalanceCost == Wrap(MapSum<SchoolClassId>(r.classDayBalanceCostByClass))
  }

  ghost predicate ReportsUnits(r: QualityReport, pr: Problem, ps: seq<Placement>)
    requires Resolves(pr, ps)
  {
    && r.preferEarlyUnits == UnitsUpTo(pr, ps, Early, |ps|) && r.avoidFirstUnits == UnitsUpTo(pr, ps, First, |ps|)
    && r.avoidLastUnits == UnitsUpTo(pr, ps, Last, |ps|) && r.preferLateUnits == UnitsUpTo(pr, ps, Late, |ps|)
  }

  ghost predicate ReportsHomeRooms(r: QualityReport, pr: Problem, ps: seq<Placement>)
    requires forall p :: p in ps ==> Known(pr, p)
  {
    Tallies(r.homeRoomMissesByClass, AwayByClass(pr, ps)) && r.homeRoomMisses == Wrap(Sum(AwayCounts(pr, ps)))
  }

  ghost predicate ReportsRest(r: QualityReport, a: Axes, violations: nat, hours: nat, placed: nat) {
    && r.hardViolations == Cap(violations)
    && r.unplacedHours == SatSub(Wrap(hours), Cap(placed))
    && r.preferClassTeacherMisses == a.classTeacher
    && r.worstPerClassSpread == a.spread && r.worstPerClassInteriorGaps == a.interior
    && r.softPinMisses == a.softMiss && r.supervisionSpreadRaw == a.supervision
  }

  /** What every field of the report means. */
  ghost predicate Reports(r: QualityReport, pr: Problem, ps: seq<Placement>, violations: nat, w: ConstraintWeights)
    requires Resolves(pr, ps)
  {
    KnownFromResolves(pr, ps);
    var ms, a := Meetings(pr, ps), AxesOf(pr, ps, w, ValidSoftPins(pr));
    && ReportsGaps(r, ms)
    && ReportsBalance(r, pr, ms)
    && ReportsUnits(r, pr, ps)
    && ReportsHomeRooms(r, pr, ps)
    && ReportsRest(r, a, violations, ExpectedHours(pr.lessons), |ps|)
    && r.weightedScore == WeightedTotal(w, a.(balance := r.classDayBalanceCost))
  }

  method BuildQualityReport(pr: Problem, ps: seq<Placement>, violations: nat, w: ConstraintWeights)
    returns (r: QualityReport)
    requires Resolves(pr, ps)
    ensures Reports(r, pr, ps, violations, w)
  {
    KnownFromResolves(pr, ps);
    ghost var ms := Meetings(pr, ps);
    var byClassDay, byTeacherDay := CollectPartitions(pr, ps);
    byClassDay := SortDedupAll(byClassDay, ClassSlots(ms));
    var balanceByClass := AttributeBalance(byClassDay, ClassSlots(ms), pr.schoolClasses, Days(pr));
    var balance := SumValues<SchoolClassId>(balanceByClass);
    var gapsByClass, classGaps := AttributeGaps(byClassDay, ClassSlots(ms));
    byTeacherDay := SortDedupAll(byTeacherDay, TeacherSlots(ms));
    var gapsByTeacher, teacherGaps := AttributeGaps(byTeacherDay, TeacherSlots(ms));
    var early, first, last, late := CountUnits(pr, ps);
    var awayByClass := AttributeHomeRooms(pr, ps);
    var away := SumValues<Uuid>(awayByClass);
    var preference := PreferenceTotal(pr, ps, w);
    var homeRoom := HomeRoomTotal(pr, ps, w);
    var classTeacher := ClassTeacherMissCount(pr, ps);
    var spread := WorstClassSpread(pr, ps);
    var interior := WorstClassInteriorGaps(pr, ps);
    var supervision := SupervisionPass.ComputeSupervisionSpread(pr, ps);
    SpreadFits(pr, ps);
    SoftMissWeight(w, ValidSoftPins(pr), ps);
    var softMiss := SoftPinMissCount(ValidSoftPins(pr), ps);
    var score := FoldAll(w, AxesOf(pr, ps, w, ValidSoftPins(pr)), classGaps, teacherGaps, preference, balance, spread,
                         interior, homeRoom, softMiss, classTeacher, supervision);
    r := QualityReport(Cap(violations), SatSub(Wrap(ExpectedHours(pr.lessons)), Cap(|ps|)), classGaps, gapsByClass,
                       teacherGaps, gapsByTeacher, balance, balanceByClass, away, awayByClass, early, first, last, late,
                       classTeacher, score, spread, interior, softMiss, supervision);
  }

  method FoldAll(w: ConstraintWeights, ghost a: Axes, classGaps: u32, teacherGaps: u32, preference: u32, balance: u32,
                 spread: u32, interior: u32, homeRoom: u32, softMiss: u32, classTeacher: u32, supervision: u32)
    returns (score: u32)
    requires classGaps == a.classGap && teacherGaps == a.teacherGap && preference == a.preference
    requires spread == a.spread && interior == a.interior && homeRoom == a.homeRoom && softMiss == a.softMiss
    requires classTeacher == a.classTeacher && supervision == a.supervision
    ensures score == WeightedTotal(w, a.(balance := balance))
  {
    var slice := FoldSlice(w, classGaps, teacherGaps, preference);
    FoldSliceExact(w, classGaps, teacherGaps, preference);
    FoldExtrasExact(w, a.(balance := balance));
    score := FoldExtras(w, slice, balance, spread, interior, homeRoom, softMiss, classTeacher, supervision);
  }
}
