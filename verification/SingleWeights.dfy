/** With a single weight set, the score is that weight times the axis it belongs to (score.rs). */
module SingleWeights {
  import opened Machine
  import opened Collections
  import opened Types
  import opened Timetable
  import opened Objective
  import opened Score
  import opened Quality
  import opened UnitTotals
  import opened HomeRooms
  import opened Meanings
  import Supervision
  import SupervisionPass

  const NOTHING: ConstraintWeights := ConstraintWeights(0, 0, 0, 0, 0, 0, 0, 0, 0, 0, 0, 0, 0)

  /** The axes, by the name of their weight. */
  datatype Weight =
    | ClassGap | TeacherGap
    | PreferEarly | AvoidFirst | AvoidLast | PreferLate
    | HomeRoom | DayBalance | ClassTeacher | ClassSpread | InteriorGaps | SupervisionSpread | SoftPin

  function Only(name: Weight, x: u32): ConstraintWeights {
    match name
    case ClassGap => NOTHING.(classGap := x)
    case TeacherGap => NOTHING.(teacherGap := x)
    case PreferEarly => NOTHING.(preferEarlyPeriod := x)
    case AvoidFirst => NOTHING.(avoidFirstPeriod := x)
    case AvoidLast => NOTHING.(avoidLastPeriod := x)
    case PreferLate => NOTHING.(preferLatePeriod := x)
    case HomeRoom => NOTHING.(preferHomeRoom := x)
    case DayBalance => NOTHING.(classDayBalance := x)
    case ClassTeacher => NOTHING.(preferClassTeacher := x)
    case ClassSpread => NOTHING.(maxPerClassSpread := x)
    case InteriorGaps => NOTHING.(maxPerClassInteriorGaps := x)
    case SupervisionSpread => NOTHING.(supervisionSpread := x)
    case SoftPin => NOTHING.(softPinMiss := x)
  }

  /** What the weight is charged for. */
  ghost function Charged(name: Weight, pr: Problem, ps: seq<Placement>, soft: set<PinKey>): nat
    requires Resolves(pr, ps)
  {
    var ms := Meetings(pr, ps);
    match name
    case ClassGap => Wrap(GapHours(ClassSlots(ms)))
    case TeacherGap => Wrap(GapHours(TeacherSlots(ms)))
    case PreferEarly => Sum(UnitTerms(pr, ps, Early))
    case AvoidFirst => Sum(UnitTerms(pr, ps, First))
    case AvoidLast => Sum(UnitTerms(pr, ps, Last))
    case PreferLate => Sum(UnitTerms(pr, ps, Late))
    case HomeRoom => |AllAwayPairsOf(pr, ps)|
    case DayBalance => Cap(Sum(SlotCosts(ClassSlots(ms), pr.schoolClasses, Days(pr))))
    case ClassTeacher => Cap(|ClassTeacherMissesOf(pr, ps)|)
    case ClassSpread => WorstSpread(ms)
    case InteriorGaps => WorstInterior(ClassSlots(ms))
    case SupervisionSpread =>
      Supervision.SpreadBound(SupervisionPass.RotaOf(pr, ps));
      SupervisionPass.SpreadOf(pr, ps)
    case SoftPin => Wrap(|soft - PlacementKeys(ps)|)
  }

  predicate IsTimeOfDay(name: Weight) {
    name.PreferEarly? || name.AvoidFirst? || name.AvoidLast? || name.PreferLate?
  }

  lemma NoTimeOfDayWeight(name: Weight, x: u32, pr: Problem, ps: seq<Placement>)
    requires Resolves(pr, ps) && !IsTimeOfDay(name)
    ensures Sum(PreferenceTerms(pr, ps, Only(name, x))) == 0
  {
    ZeroTerms(pr, ps, NOTHING);
    assert PreferenceTerms(pr, ps, Only(name, x)) == PreferenceTerms(pr, ps, NOTHING);
  }

  lemma NoHomeRoomWeight(name: Weight, x: u32, pr: Problem, ps: seq<Placement>)
    requires Resolves(pr, ps) && !name.HomeRoom?
    ensures Sum(HomeRoomTerms(pr, ps, Only(name, x))) == 0
  {
    ZeroTerms(pr, ps, NOTHING);
    assert HomeRoomTerms(pr, ps, Only(name, x)) == HomeRoomTerms(pr, ps, NOTHING);
  }

  /** The unit count behind a time-of-day weight. */
  function TimeOfDayUnits(name: Weight, pr: Problem, ps: seq<Placement>): nat
    requires Resolves(pr, ps)
  {
    match name
    case PreferEarly => Sum(UnitTerms(pr, ps, Early))
    case AvoidFirst => Sum(UnitTerms(pr, ps, First))
    case AvoidLast => Sum(UnitTerms(pr, ps, Last))
    case PreferLate => Sum(UnitTerms(pr, ps, Late))
    case _ => 0
  }

  /** The time-of-day axis alone, where it fits a u32. */
  lemma TimeOfDayAxis(name: Weight, x: u32, pr: Problem, ps: seq<Placement>)
    requires Resolves(pr, ps) && IsTimeOfDay(name) && Times(x, TimeOfDayUnits(name, pr, ps)) <= U32_MAX
    ensures PinFreeAxes(pr, ps, Only(name, x)).preference == Times(x, TimeOfDayUnits(name, pr, ps))
  {
    var w := Only(name, x);
    assert UnitTerms(pr, ps, Early)[..|ps|] == UnitTerms(pr, ps, Early);
    assert UnitTerms(pr, ps, First)[..|ps|] == UnitTerms(pr, ps, First);
    assert UnitTerms(pr, ps, Last)[..|ps|] == UnitTerms(pr, ps, Last);
    assert UnitTerms(pr, ps, Late)[..|ps|] == UnitTerms(pr, ps, Late);
    TimesZero(Sum(UnitTerms(pr, ps, Early)));
    TimesZero(Sum(UnitTerms(pr, ps, First)));
    TimesZero(Sum(UnitTerms(pr, ps, Last)));
    TimesZero(Sum(UnitTerms(pr, ps, Late)));
    assert ExactUnits(pr, ps, w, |ps|) == Times(x, TimeOfDayUnits(name, pr, ps));
    SmallUnitsAreAxis(pr, ps, w);
  }

  function AxisValue(name: Weight, a: Axes): nat {
    match name
    case ClassGap => a.classGap
    case TeacherGap => a.teacherGap
    case DayBalance => a.balance
    case ClassTeacher => a.classTeacher
    case ClassSpread => a.spread
    case InteriorGaps => a.interior
    case SupervisionSpread => a.supervision
    case SoftPin => a.softMiss
    case _ => 0
  }

  /** An axis that is neither a time of day nor the home rooms. */
  lemma OtherAxis(name: Weight, x: u32, a: Axes)
    requires a.preference == 0 && a.homeRoom == 0 && !IsTimeOfDay(name) && !name.HomeRoom?
    ensures WeightedTotal(Only(name, x), a) == Cap(Times(x, AxisValue(name, a)))
  {}

  lemma SummedAxes(w: ConstraintWeights, a: Axes)
    requires w == NOTHING.(preferEarlyPeriod := w.preferEarlyPeriod, avoidFirstPeriod := w.avoidFirstPeriod,
      avoidLastPeriod := w.avoidLastPeriod, preferLatePeriod := w.preferLatePeriod, preferHomeRoom := w.preferHomeRoom)
    ensures WeightedTotal(w, a) == Cap(a.preference + a.homeRoom)
  {}

  lemma TimeOfDayScore(name: Weight, x: u32, pr: Problem, ps: seq<Placement>, soft: set<PinKey>)
    requires Resolves(pr, ps) && IsTimeOfDay(name) && Times(x, TimeOfDayUnits(name, pr, ps)) <= U32_MAX
    ensures WeightedTotal(Only(name, x), AxesOf(pr, ps, Only(name, x), soft)) == Times(x, TimeOfDayUnits(name, pr, ps))
  {
    TimeOfDayAxis(name, x, pr, ps);
    NoHomeRoomWeight(name, x, pr, ps);
    var w := Only(name, x);
    var a := PlainAxes(pr, ps, w, soft, Times(x, TimeOfDayUnits(name, pr, ps)));
    TimeOfDayTotal(name, x, a);
  }

  lemma PlainAxes(pr: Problem, ps: seq<Placement>, w: ConstraintWeights, soft: set<PinKey>, v: nat) returns (a: Axes)
    requires Resolves(pr, ps)
    requires PinFreeAxes(pr, ps, w).preference == v && Sum(HomeRoomTerms(pr, ps, w)) == 0
    ensures a == AxesOf(pr, ps, w, soft) && a.preference == v && a.homeRoom == 0
  {
    a := AxesOf(pr, ps, w, soft);
  }

  lemma TimeOfDayTotal(name: Weight, x: u32, a: Axes)
    requires IsTimeOfDay(name) && a.homeRoom == 0 && a.preference <= U32_MAX
    ensures WeightedTotal(Only(name, x), a) == a.preference
  {
    SummedAxes(Only(name, x), a);
  }

  /** With only the home-room weight set, the score is that weight for every (placement, member) pair
      whose class has its home room elsewhere. */
  lemma HomeRoomScore(x: u32, pr: Problem, ps: seq<Placement>, soft: set<PinKey>)
    requires Resolves(pr, ps) && Times(x, |AllAwayPairsOf(pr, ps)|) <= U32_MAX
    ensures WeightedTotal(Only(HomeRoom, x), AxesOf(pr, ps, Only(HomeRoom, x), soft))
         == Times(x, |AllAwayPairsOf(pr, ps)|)
  {
    HomeRoomAxis(x, pr, ps);
    HomeRoomAlone(x, pr, ps, soft, Times(x, |AllAwayPairsOf(pr, ps)|));
  }

  lemma HomeRoomAlone(x: u32, pr: Problem, ps: seq<Placement>, soft: set<PinKey>, v: u32)
    requires Resolves(pr, ps) && PinFreeAxes(pr, ps, Only(HomeRoom, x)).homeRoom == v
    ensures WeightedTotal(Only(HomeRoom, x), AxesOf(pr, ps, Only(HomeRoom, x), soft)) == v
  {
    NoTimeOfDayWeight(HomeRoom, x, pr, ps);
    var w := Only(HomeRoom, x);
    var a := HomeAxes(pr, ps, w, soft, v);
    HomeRoomTotal(x, a);
  }

  lemma HomeRoomTotal(x: u32, a: Axes)
    requires a.preference == 0 && a.homeRoom <= U32_MAX
    ensures WeightedTotal(Only(HomeRoom, x), a) == a.homeRoom
  {
    SummedAxes(Only(HomeRoom, x), a);
  }

  lemma HomeRoomAxis(x: u32, pr: Problem, ps: seq<Placement>)
    requires Resolves(pr, ps) && Times(x, |AllAwayPairsOf(pr, ps)|) <= U32_MAX
    ensures PinFreeAxes(pr, ps, Only(HomeRoom, x)).homeRoom == Times(x, |AllAwayPairsOf(pr, ps)|)
  {
    KnownPlacements(pr, ps);
    HomeRoomAxisMeaning(pr, ps, Only(HomeRoom, x));
    TimesIsProduct(x, |AllAwayPairs(pr, ps)|);
  }

  lemma HomeAxes(pr: Problem, ps: seq<Placement>, w: ConstraintWeights, soft: set<PinKey>, v: nat) returns (a: Axes)
    requires Resolves(pr, ps)
    requires PinFreeAxes(pr, ps, w).homeRoom == v && Sum(PreferenceTerms(pr, ps, w)) == 0
    ensures a == AxesOf(pr, ps, w, soft) && a.homeRoom == v && a.preference == 0
  {
    a := AxesOf(pr, ps, w, soft);
  }

  lemma OtherScore(name: Weight, x: u32, pr: Problem, ps: seq<Placement>, soft: set<PinKey>)
    requires Resolves(pr, ps) && !IsTimeOfDay(name) && !name.HomeRoom?
    ensures WeightedTotal(Only(name, x), AxesOf(pr, ps, Only(name, x), soft))
         == Cap(Times(x, Charged(name, pr, ps, soft)))
  {
    NoTimeOfDayWeight(name, x, pr, ps);
    NoHomeRoomWeight(name, x, pr, ps);
    OtherAxis(name, x, AxesOf(pr, ps, Only(name, x), soft));
    ChargedAxis(name, Only(name, x), pr, ps, soft);
  }

  /** Which axis value the weight is charged for. */
  lemma ChargedAxis(name: Weight, w: ConstraintWeights, pr: Problem, ps: seq<Placement>, soft: set<PinKey>)
    requires Resolves(pr, ps) && !IsTimeOfDay(name) && !name.HomeRoom?
    ensures Charged(name, pr, ps, soft) == AxisValue(name, AxesOf(pr, ps, w, soft))
  {
    Supervision.SpreadBound(SupervisionPass.RotaOf(pr, ps));
  }

  /** With one weight set and all others zero, the score is that weight times what it is charged for,
      capped. (For the plain u32 sums over the placements: as long as the product fits.) */
  lemma SingleWeightScore(name: Weight, x: u32, pr: Problem, ps: seq<Placement>, soft: set<PinKey>)
    requires Resolves(pr, ps)
    requires IsTimeOfDay(name) || name.HomeRoom? ==> Times(x, Charged(name, pr, ps, soft)) <= U32_MAX
    ensures WeightedTotal(Only(name, x), AxesOf(pr, ps, Only(name, x), soft))
         == Cap(Times(x, Charged(name, pr, ps, soft)))
  {
    if IsTimeOfDay(name) {
      TimeOfDayScore(name, x, pr, ps, soft);
    } else if name.HomeRoom? {
      HomeRoomScore(x, pr, ps, soft);
    } else {
      OtherScore(name, x, pr, ps, soft);
    }
  }

  /** The same of the score the code computes. */
  method ScoreOfSingleWeight(name: Weight, x: u32, pr: Problem, ps: seq<Placement>, soft: set<PinKey>)
    returns (score: u32)
    requires Resolves(pr, ps)
    ensures (IsTimeOfDay(name) || name.HomeRoom? ==> Times(x, Charged(name, pr, ps, soft)) <= U32_MAX) ==>
      score == Cap(Times(x, Charged(name, pr, ps, soft)))
  {
    score := ScoreSolution(pr, ps, Only(name, x), soft);
    if IsTimeOfDay(name) || name.HomeRoom? ==> Times(x, Charged(name, pr, ps, soft)) <= U32_MAX {
      SingleWeightScore(name, x, pr, ps, soft);
    }
  }
}
