/** The two reports of one objective agree (quality.rs against score.rs and json.rs). */
module Parity {
  import opened Machine
  import opened Collections
  import opened Types
  import opened Balance
  import opened BalanceExact
  import opened Timetable
  import opened Objective
  import opened Score
  import opened Quality

  /** The score as the JSON entry point computes it, with the given weights. */
  ghost function JsonScore(pr: Problem, ps: seq<Placement>, w: ConstraintWeights): u32
    requires Resolves(pr, ps)
  {
    WeightedTotal(w, AxesOf(pr, ps, w, SoftPins(pr)))
  }

  /** The weighted score of the quality report. */
  ghost function ReportScore(pr: Problem, ps: seq<Placement>, w: ConstraintWeights): u32
    requires Resolves(pr, ps)
  {
    WeightedTotal(w, AxesOf(pr, ps, w, ValidSoftPins(pr)))
  }

  // ----- per-class attribution against the school total -----

  lemma SlotsAreU8(ms: seq<Meeting>, c: SchoolClassId, day: u8)
    ensures Occupied(ClassSlots(ms), (c, day)) <= Interval(0, 256)
    ensures |Occupied(ClassSlots(ms), (c, day))| <= 256
  {
    ClassSlotsMember(ms, c, day);
    IntervalSize(0, 256);
    SubsetSize(Occupied(ClassSlots(ms), (c, day)), Interval(0, 256));
  }

  lemma SlotCostBound(ms: seq<Meeting>, c: SchoolClassId, days: u8)
    ensures Cost(SlotCounts(ClassSlots(ms), c, days)) <= MAX_CLASS_COST
  {
    forall d: u8 | d < days ensures SlotCounts(ClassSlots(ms), c, days)[d] <= 256 {
      SlotsAreU8(ms, c, d);
    }
    if days > 0 {
      CostBound(SlotCounts(ClassSlots(ms), c, days));
    }
  }

  /** Some class id is listed again, with a positive cost. */
  ghost predicate CountedAgain(classes: seq<SchoolClass>, costs: seq<nat>)
    requires |classes| == |costs|
  {
    exists i, j :: 0 <= i < j < |classes| && classes[i].id == classes[j].id && costs[j] > 0
  }

  /** Listings of one class carry one cost. */
  ghost predicate CostPerClass(classes: seq<SchoolClass>, costs: seq<nat>)
    requires |classes| == |costs|
  {
    forall i, j :: 0 <= i < |classes| && 0 <= j < |classes| && classes[i].id == classes[j].id ==> costs[i] == costs[j]
  }

  lemma {:induction false} AttributedEntries(classes: seq<SchoolClass>, costs: seq<nat>)
    requires |classes| == |costs| && CostPerClass(classes, costs)
    ensures var m := PositiveCosts(classes, costs);
      && (forall i :: 0 <= i < |classes| ==>
            (costs[i] > 0 <==> classes[i].id in m) && (costs[i] > 0 ==> m[classes[i].id] == costs[i]))
      && (forall id :: id in m ==> exists i :: 0 <= i < |classes| && classes[i].id == id)
  {
    if classes == [] {
    } else {
      var n := |classes| - 1;
      var front, xs := classes[..n], costs[..n];
      assert CostPerClass(front, xs);
      AttributedEntries(front, xs);
      forall id | id in PositiveCosts(front, xs) ensures exists i :: 0 <= i < |classes| && classes[i].id == id {
        var i :| 0 <= i < n && front[i].id == id;
        assert classes[i].id == id;
      }
      forall i | 0 <= i < n
        ensures costs[i] > 0 <==> front[i].id in PositiveCosts(front, xs)
        ensures costs[i] > 0 ==> PositiveCosts(front, xs)[front[i].id] == costs[i]
      {
        assert xs[i] == costs[i];
      }
    }
  }

  lemma CountedAgainStep(classes: seq<SchoolClass>, costs: seq<nat>, n: nat)
    requires |classes| == |costs| == n + 1
    ensures CountedAgain(classes, costs) <==>
      || CountedAgain(classes[..n], costs[..n])
      || (costs[n] > 0 && exists i :: 0 <= i < n && classes[i].id == classes[n].id)
  {
    var front, xs := classes[..n], costs[..n];
    if CountedAgain(front, xs) {
      var i, j :| 0 <= i < j < n && front[i].id == front[j].id && xs[j] > 0;
      assert classes[i].id == classes[j].id && costs[j] > 0;
    }
    if CountedAgain(classes, costs) {
      var i, j :| 0 <= i < j < |classes| && classes[i].id == classes[j].id && costs[j] > 0;
      assert j < n ==> front[i].id == front[j].id && xs[j] > 0;
    }
  }

  lemma ListedBefore(classes: seq<SchoolClass>, costs: seq<nat>, n: nat)
    requires |classes| == |costs| == n + 1 && CostPerClass(classes, costs) && costs[n] > 0
    ensures var front := PositiveCosts(classes[..n], costs[..n]);
      && (classes[n].id in front <==> exists i :: 0 <= i < n && classes[i].id == classes[n].id)
      && (classes[n].id in front ==> front[classes[n].id] == costs[n])
  {
    var front, xs := classes[..n], costs[..n];
    assert CostPerClass(front, xs);
    AttributedEntries(front, xs);
    if i :| 0 <= i < n && classes[i].id == classes[n].id {
      assert costs[i] == costs[n] && xs[i] == costs[i] && front[i].id == classes[n].id;
    }
    if classes[n].id in PositiveCosts(front, xs) {
      var i :| 0 <= i < n && front[i].id == classes[n].id;
      assert classes[i].id == classes[n].id && xs[i] == costs[n];
    }
  }

  /** The attribution never exceeds the total in list order, and the two are equal exactly when
      no class with a positive cost is listed twice. */
  lemma {:induction false} AttributedCosts(classes: seq<SchoolClass>, costs: seq<nat>)
    requires |classes| == |costs| && CostPerClass(classes, costs)
    ensures MapSum<SchoolClassId>(PositiveCosts(classes, costs)) <= Sum(costs)
    ensures MapSum<SchoolClassId>(PositiveCosts(classes, costs)) == Sum(costs) <==> !CountedAgain(classes, costs)
  {
    if classes == [] {
    } else {
      var n := |classes| - 1;
      var front := PositiveCosts(classes[..n], costs[..n]);
      assert CostPerClass(classes[..n], costs[..n]);
      AttributedCosts(classes[..n], costs[..n]);
      CountedAgainStep(classes, costs, n);
      if costs[n] > 0 {
        ListedBefore(classes, costs, n);
        MapSumInsert<SchoolClassId>(front, classes[n].id, costs[n]);
      }
    }
  }

  /** Some class is listed twice and its week is uneven. */
  ghost predicate UnevenClassTwice(pr: Problem, ms: seq<Meeting>) {
    exists i, j :: 0 <= i < j < |pr.schoolClasses| && pr.schoolClasses[i].id == pr.schoolClasses[j].id
      && !AllEqual(SlotCounts(ClassSlots(ms), pr.schoolClasses[j].id, Days(pr)))
  }

  lemma CountedAgainIsUneven(pr: Problem, ms: seq<Meeting>)
    ensures CountedAgain(pr.schoolClasses, SlotCosts(ClassSlots(ms), pr.schoolClasses, Days(pr)))
       <==> UnevenClassTwice(pr, ms)
  {
    forall j | 0 <= j < |pr.schoolClasses|
      ensures SlotCosts(ClassSlots(ms), pr.schoolClasses, Days(pr))[j] > 0
         <==> !AllEqual(SlotCounts(ClassSlots(ms), pr.schoolClasses[j].id, Days(pr)))
    {
      CostZeroIffEven(SlotCounts(ClassSlots(ms), pr.schoolClasses[j].id, Days(pr)));
    }
  }

  lemma AttributionVsTotal(classes: seq<SchoolClass>, costs: seq<nat>) returns (reported: u32, total: u32)
    requires |classes| == |costs| && CostPerClass(classes, costs) && Sum(costs) <= U32_MAX
    ensures reported == Wrap(MapSum<SchoolClassId>(PositiveCosts(classes, costs))) && total == Cap(Sum(costs))
    ensures reported <= total && (reported == total <==> !CountedAgain(classes, costs))
  {
    AttributedCosts(classes, costs);
    reported, total := MapSum<SchoolClassId>(PositiveCosts(classes, costs)), Sum(costs);
    WrapSmall(reported);
  }

  /** The day-balance costs of the classes, in list order. */
  ghost function SchoolCosts(pr: Problem, ms: seq<Meeting>): seq<nat> {
    SlotCosts(ClassSlots(ms), pr.schoolClasses, Days(pr))
  }

  lemma BalanceAgreesIff(pr: Problem, ms: seq<Meeting>) returns (reported: u32, total: u32)
    requires Sum(SchoolCosts(pr, ms)) <= U32_MAX
    ensures reported == Wrap(MapSum<SchoolClassId>(BalanceByClass(ClassSlots(ms), pr.schoolClasses, Days(pr))))
    ensures total == Cap(Sum(SchoolCosts(pr, ms)))
    ensures reported <= total && (reported == total <==> !UnevenClassTwice(pr, ms))
  {
    CountedAgainIsUneven(pr, ms);
    reported, total := AttributionVsTotal(pr.schoolClasses, SchoolCosts(pr, ms));
  }

  /** The costs of up to 131590 classes always fit a u32. */
  lemma SchoolCostsFit(pr: Problem, ms: seq<Meeting>)
    requires |pr.schoolClasses| <= MAX_CLASSES
    ensures Sum(SchoolCosts(pr, ms)) <= U32_MAX
  {
    var costs := SchoolCosts(pr, ms);
    forall i | 0 <= i < |costs| ensures costs[i] <= MAX_CLASS_COST {
      SlotCostBound(ms, pr.schoolClasses[i].id, Days(pr));
    }
    CostsFit(costs);
  }

  lemma ExtraBalance(w: ConstraintWeights, a: Axes, less: nat, more: nat, low: u32, high: u32)
    requires less <= more
    requires low == WeightedTotal(w, a.(balance := less)) && high == WeightedTotal(w, a.(balance := more))
    ensures low == high <==> w.classDayBalance == 0 || less == more || low == U32_MAX
  {
    MulDistributes(less, more - less, w.classDayBalance);
    if less < more && w.classDayBalance > 0 {
      MulMono(1, more - less, w.classDayBalance);
    }
  }

  /** For every placement list that resolves and every weight set, the report's weighted score is
      the score on the report's soft pins if and only if no class with an uneven week is listed
      twice (or day balance carries no weight, or the reported score has saturated). */
  lemma ReportedScoreIsObjectiveIff(r: QualityReport, pr: Problem, ps: seq<Placement>, violations: nat,
                                    w: ConstraintWeights)
    requires Resolves(pr, ps) && Sum(SchoolCosts(pr, Meetings(pr, ps))) <= U32_MAX
    requires Reports(r, pr, ps, violations, w)
    ensures r.weightedScore == ReportScore(pr, ps, w)
       <==> w.classDayBalance == 0 || !UnevenClassTwice(pr, Meetings(pr, ps)) || r.weightedScore == U32_MAX
  {
    var reported, total := BalanceAgreesIff(pr, Meetings(pr, ps));
    var a := AxesOf(pr, ps, w, ValidSoftPins(pr));
    assert a.(balance := total) == a;
    assert a.(balance := reported) == a.(balance := r.classDayBalanceCost);
    ExtraBalance(w, a, reported, total, r.weightedScore, ReportScore(pr, ps, w));
  }

  /** For every problem with distinct class ids the two agree without further conditions. */
  lemma ReportedScoreIsObjective(r: QualityReport, pr: Problem, ps: seq<Placement>, violations: nat,
                                 w: ConstraintWeights)
    requires Resolves(pr, ps) && UniqueClassIds(pr) && Sum(SchoolCosts(pr, Meetings(pr, ps))) <= U32_MAX
    requires Reports(r, pr, ps, violations, w)
    ensures r.weightedScore == ReportScore(pr, ps, w)
  {
    ReportedScoreIsObjectiveIff(r, pr, ps, violations, w);
  }

  /** In particular for any school of up to 131590 distinct classes. */
  lemma ReportedScoreOfAnySchool(r: QualityReport, pr: Problem, ps: seq<Placement>, violations: nat,
                                 w: ConstraintWeights)
    requires Resolves(pr, ps) && UniqueClassIds(pr) && |pr.schoolClasses| <= MAX_CLASSES
    requires Reports(r, pr, ps, violations, w)
    ensures r.weightedScore == ReportScore(pr, ps, w)
  {
    SchoolCostsFit(pr, Meetings(pr, ps));
    ReportedScoreIsObjective(r, pr, ps, violations, w);
  }

  method WeightedScoreMatches(pr: Problem, ps: seq<Placement>, violations: nat, w: ConstraintWeights)
    returns (score: u32, report: QualityReport)
    requires Resolves(pr, ps) && UniqueClassIds(pr) && Sum(SchoolCosts(pr, Meetings(pr, ps))) <= U32_MAX
    ensures Reports(report, pr, ps, violations, w)
    ensures report.weightedScore == score == ReportScore(pr, ps, w)
  {
    score := ScoreSolution(pr, ps, w, ValidSoftPins(pr));
    report := BuildQualityReport(pr, ps, violations, w);
    ReportedScoreIsObjective(report, pr, ps, violations, w);
  }

  // ----- soft pins through the JSON entry point -----

  lemma ValidPinsAreSoftPins(pr: Problem)
    ensures ValidSoftPins(pr) <= SoftPins(pr)
    ensures forall k :: k in SoftPins(pr) - ValidSoftPins(pr) ==> k.0 !in LessonsById(pr) || k.1 !in Blocks(pr)
  {
    forall k | k in SoftPins(pr) && k.0 in LessonsById(pr) && k.1 in Blocks(pr) ensures k in ValidSoftPins(pr) {
      var pin :| pin in pr.pinnedPlacements && pin.kind == Soft && (pin.lessonId, pin.timeBlockId) == k;
    }
  }

  lemma {:induction false} PinKeyCount(pins: seq<PinnedPlacement>, keys: set<PinKey>)
    requires forall k :: k in keys ==> exists pin :: pin in pins && (pin.lessonId, pin.timeBlockId) == k
    ensures |keys| <= |pins|
  {
    if pins == [] {
      assert keys == {};
    } else {
      var n := |pins| - 1;
      var last := (pins[n].lessonId, pins[n].timeBlockId);
      assert pins == pins[..n] + [pins[n]];
      forall k | k in keys - {last} ensures exists pin :: pin in pins[..n] && (pin.lessonId, pin.timeBlockId) == k {
        var pin :| pin in pins && (pin.lessonId, pin.timeBlockId) == k;
        assert pin in pins[..n];
      }
      PinKeyCount(pins[..n], keys - {last});
      AddedKey(keys, last);
    }
  }

  lemma AddedKey(keys: set<PinKey>, last: PinKey)
    ensures |keys| <= |keys - {last}| + 1
  {
    if last in keys {
      assert keys == keys - {last} + {last};
    } else {
      assert keys == keys - {last};
    }
  }

  /** A malformed pin is missed by every resolving placement list. */
  lemma MalformedPinsAllMissed(pr: Problem, ps: seq<Placement>)
    requires Resolves(pr, ps)
    ensures var all, valid := SoftPins(pr), ValidSoftPins(pr);
      |all - PlacementKeys(ps)| == |valid - PlacementKeys(ps)| + |all - valid|
  {
    var all, valid, keys := SoftPins(pr), ValidSoftPins(pr), PlacementKeys(ps);
    ValidPinsAreSoftPins(pr);
    forall k | k in keys ensures k.0 in LessonsById(pr) && k.1 in Blocks(pr) {
      var p :| p in ps && (p.lessonId, p.timeBlockId) == k;
      assert Scored(pr, p);
    }
    assert all - keys == (valid - keys) + (all - valid);
    DisjointSize(valid - keys, all - valid);
  }

  lemma ExtraMisses(w: ConstraintWeights, a: Axes, valid: nat, all: nat, fewer: u32, more: u32)
    requires w.softPinMiss > 0 && valid <= all
    requires fewer == WeightedTotal(w, a.(softMiss := valid)) && more == WeightedTotal(w, a.(softMiss := all))
    ensures more == fewer <==> valid == all || fewer == U32_MAX
  {
    MulDistributes(valid, all - valid, w.softPinMiss);
    if valid < all {
      MulMono(1, all - valid, w.softPinMiss);
    }
  }

  /** Every soft pin names an existing lesson and time block. */
  ghost predicate SoftPinsWellFormed(pr: Problem) {
    forall pin :: pin in pr.pinnedPlacements && pin.kind == Soft ==>
      pin.lessonId in LessonsById(pr) && pin.timeBlockId in Blocks(pr)
  }

  /** The number of malformed soft pins. */
  ghost function MalformedPins(pr: Problem): nat {
    |SoftPins(pr) - ValidSoftPins(pr)|
  }

  lemma NoMalformedPin(pr: Problem)
    ensures MalformedPins(pr) == 0 <==> SoftPinsWellFormed(pr)
  {
    var bad := SoftPins(pr) - ValidSoftPins(pr);
    ValidPinsAreSoftPins(pr);
    if bad == {} {
      forall pin | pin in pr.pinnedPlacements && pin.kind == Soft
        ensures pin.lessonId in LessonsById(pr) && pin.timeBlockId in Blocks(pr)
      {
        assert (pin.lessonId, pin.timeBlockId) in SoftPins(pr);
        assert (pin.lessonId, pin.timeBlockId) !in bad;
      }
    } else {
      var k: PinKey :| k in bad;
      var pin :| pin in pr.pinnedPlacements && pin.kind == Soft && (pin.lessonId, pin.timeBlockId) == k;
    }
  }

  lemma SoftMissesOf(pr: Problem, ps: seq<Placement>)
    requires Resolves(pr, ps) && |pr.pinnedPlacements| <= U32_MAX
    ensures SoftMisses(SoftPins(pr), ps) == SoftMisses(ValidSoftPins(pr), ps) + MalformedPins(pr)
  {
    var all, keys := SoftPins(pr), PlacementKeys(ps);
    MalformedPinsAllMissed(pr, ps);
    forall k | k in all - keys
      ensures exists pin :: pin in pr.pinnedPlacements && (pin.lessonId, pin.timeBlockId) == k
    {}
    PinKeyCount(pr.pinnedPlacements, all - keys);
    WrapSmall(|all - keys|);
    WrapSmall(|ValidSoftPins(pr) - keys|);
  }

  lemma MissCounts(pr: Problem, ps: seq<Placement>) returns (valid: nat, all: nat)
    requires Resolves(pr, ps) && |pr.pinnedPlacements| <= U32_MAX
    ensures valid == SoftMisses(ValidSoftPins(pr), ps) && all == SoftMisses(SoftPins(pr), ps)
    ensures valid <= all && (valid == all <==> SoftPinsWellFormed(pr))
  {
    valid, all := SoftMisses(ValidSoftPins(pr), ps), SoftMisses(SoftPins(pr), ps);
    SoftMissesOf(pr, ps);
    NoMalformedPin(pr);
  }

  lemma AxesBesides(pr: Problem, ps: seq<Placement>, w: ConstraintWeights, valid: nat, all: nat) returns (a: Axes)
    requires Resolves(pr, ps) && valid == SoftMisses(ValidSoftPins(pr), ps) && all == SoftMisses(SoftPins(pr), ps)
    ensures JsonScore(pr, ps, w) == WeightedTotal(w, a.(softMiss := all))
    ensures ReportScore(pr, ps, w) == WeightedTotal(w, a.(softMiss := valid))
  {
    a := PinFreeAxes(pr, ps, w);
    assert AxesOf(pr, ps, w, SoftPins(pr)) == a.(softMiss := all);
    assert AxesOf(pr, ps, w, ValidSoftPins(pr)) == a.(softMiss := valid);
  }

  /** The JSON scorer passes malformed soft pins on, the report drops them. With an active
      soft-pin weight the two agree if and only if no soft pin is malformed (or the score has
      saturated already). */
  lemma JsonScoreAgreesIff(pr: Problem, ps: seq<Placement>, w: ConstraintWeights)
    requires Resolves(pr, ps) && w.softPinMiss > 0 && |pr.pinnedPlacements| <= U32_MAX
    ensures JsonScore(pr, ps, w) == ReportScore(pr, ps, w)
       <==> SoftPinsWellFormed(pr) || ReportScore(pr, ps, w) == U32_MAX
  {
    var valid, all := MissCounts(pr, ps);
    var a := AxesBesides(pr, ps, w, valid, all);
    ExtraMisses(w, a, valid, all, ReportScore(pr, ps, w), JsonScore(pr, ps, w));
  }
}
