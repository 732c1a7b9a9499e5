/** Small concrete inputs on which two computations of one figure differ. */
module Witnesses {
  import opened Machine
  import opened Collections
  import opened Types
  import opened Sorting
  import opened Gaps
  import opened Balance
  import opened Timetable
  import opened Objective
  import opened AxisPasses
  import opened Score
  import opened Quality
  import opened Parity
  import opened Ordering
  import opened LessonOrder
  import opened GapMetrics
  import opened CellRunner
  import opened Sweep
  import opened Recommend

  const NO_WEIGHTS: ConstraintWeights := ConstraintWeights(0, 0, 0, 0, 0, 0, 0, 0, 0, 0, 0, 0, 0)

  const EMPTY_PROBLEM: Problem := Problem([], [], [], [], [], [], [], [], [], [], [])

  /** Lesson 1 for class 7 in subject 2 by teacher 3, and a time block at each given place. */
  function OneLesson(classes: seq<SchoolClass>, blocks: seq<TimeBlock>): Problem {
    EMPTY_PROBLEM.(
      timeBlocks := blocks,
      subjects := [Subject(2, 0, 0, 0, 0)],
      schoolClasses := classes,
      lessons := [Lesson(1, [7], 2, [3], None, 1, 1)])
  }

  const CLASS_7: SchoolClass := SchoolClass(7, None, None)

  function Block(id: TimeBlockId, day: u8, position: u8): TimeBlock {
    TimeBlock(id, day, position, LessonBlock)
  }

  function Placed(block: TimeBlockId): Placement {
    Placement(1, block, 5, 3)
  }

  // ----- one and two entries -----

  lemma CollectOne<T, K>(x: T, key: T -> K)
    ensures CollectBy([x], key) == map[key(x) := x]
  {
    assert [x][..0] == [];
  }

  lemma CollectTwo<T, K>(x: T, y: T, key: T -> K)
    ensures CollectBy([x, y], key) == map[key(x) := x][key(y) := y]
  {
    assert [x, y][..1] == [x];
    CollectOne(x, key);
  }

  lemma FilterMapSingle<T, U>(x: T, keep: T -> bool, f: T -> U)
    requires keep(x)
    ensures FilterMap([x], keep, f) == [f(x)]
  {
    assert [x][..0] == [];
  }

  lemma MeetingsOfOne(pr: Problem, p: Placement)
    requires Known(pr, p)
    ensures Meetings(pr, [p]) == [MeetingOf(pr, p)]
  {
    assert [p][..0] == [];
  }

  lemma MeetingsOfTwo(pr: Problem, p: Placement, q: Placement)
    requires Known(pr, p) && Known(pr, q)
    ensures Meetings(pr, [p, q]) == [MeetingOf(pr, p), MeetingOf(pr, q)]
  {
    assert [p, q][..1] == [p];
    MeetingsOfOne(pr, p);
  }

  lemma AddOneClass(sm: SlotMap, c: SchoolClassId, day: u8, position: u8)
    ensures AddSlots(sm, [c], day, position) == AddSlot(sm, (c, day), position)
  {
    assert [c][..0] == [];
  }

  lemma SlotsOfOne(m: Meeting, c: SchoolClassId)
    requires m.classes == [c]
    ensures ClassSlots([m]) == map[(c, m.day) := {m.position as int}]
  {
    var none: SlotMap := map[];
    assert ClassSlots([m][..0]) == none;
    AddOneClass(none, c, m.day, m.position);
    var first: set<int> := {m.position as int};
    assert Occupied(none, (c, m.day)) + {m.position as int} == first;
    assert [m][0] == m && ClassSlots([m]) == AddSlots(none, m.classes, m.day, m.position);
  }

  lemma SlotsOfTwo(m: Meeting, n: Meeting, c: SchoolClassId)
    requires m.classes == [c] == n.classes && m.day == n.day
    ensures ClassSlots([m, n]) == map[(c, m.day) := {m.position as int, n.position as int}]
  {
    assert [m, n][..1] == [m];
    SlotsOfOne(m, c);
    AddOneClass(ClassSlots([m]), c, n.day, n.position);
    assert ClassSlots([m, n]) == AddSlots(ClassSlots([m]), n.classes, n.day, n.position);
    assert {m.position as int} + {n.position as int} == {m.position as int, n.position as int};
  }

  lemma TwoBlocksResolve(classes: seq<SchoolClass>, a: TimeBlock, b: TimeBlock)
    requires a.id != b.id
    ensures var pr := OneLesson(classes, [a, b]);
      && Blocks(pr) == map[a.id := a, b.id := b]
      && LessonsById(pr) == map[1 := pr.lessons[0]]
      && Resolves(pr, [Placed(a.id)]) && Resolves(pr, [Placed(a.id), Placed(b.id)])
  {
    var pr := OneLesson(classes, [a, b]);
    CollectTwo(a, b, (tb: TimeBlock) => tb.id);
    CollectOne(pr.lessons[0], (l: Lesson) => l.id);
    CollectOne(pr.subjects[0], (x: Subject) => x.id);
    assert Blocks(pr) == map[a.id := a][b.id := b];
    assert SubjectsById(pr) == map[2 := pr.subjects[0]];
  }

  // ----- a class listed twice -----

  const ONLY_BALANCE: ConstraintWeights := NO_WEIGHTS.(classDayBalance := 1)

  lemma OnlyBalanceTerms(pr: Problem, ps: seq<Placement>)
    requires Resolves(pr, ps)
    ensures Sum(PreferenceTerms(pr, ps, ONLY_BALANCE)) == 0 && Sum(HomeRoomTerms(pr, ps, ONLY_BALANCE)) == 0
  {
    ZeroTerms(pr, ps, NO_WEIGHTS);
    assert PreferenceTerms(pr, ps, ONLY_BALANCE) == PreferenceTerms(pr, ps, NO_WEIGHTS);
    assert HomeRoomTerms(pr, ps, ONLY_BALANCE) == HomeRoomTerms(pr, ps, NO_WEIGHTS);
  }

  lemma OnlyBalanceTotal(a: Axes)
    requires a.preference == 0 && a.homeRoom == 0
    ensures WeightedTotal(ONLY_BALANCE, a) == Cap(a.balance)
  {
    assert SliceTotal(ONLY_BALANCE, a) == 0;
    assert ExtraTotal(ONLY_BALANCE, a) == a.balance;
  }

  /** One lesson on the first of two days: a cost of 1 for the class. */
  lemma OneDayOfTwo(sm: SlotMap)
    requires sm == map[(7, 0) := {0}]
    ensures Cost(SlotCounts(sm, 7, 2)) == 1
  {
    assert SlotCounts(sm, 7, 2) == [1, 0];
    assert [1, 0][..1] == [1] && Sum([1]) == 1 && Sum([1, 0]) == 1;
    assert Scale([1, 0], 2) == [2, 0];
    assert [2, 0][..1] == [2] && Distance([2], 1) == 1 && Distance([2, 0], 1) == 2;
  }

  const TWICE: Problem := OneLesson([CLASS_7, CLASS_7], [Block(10, 0, 0), Block(11, 1, 0)])

  lemma TwiceSlots()
    ensures Resolves(TWICE, [Placed(10)]) && Days(TWICE) == 2
    ensures ClassSlots(Meetings(TWICE, [Placed(10)])) == map[(7, 0) := {0}]
  {
    TwoBlocksResolve([CLASS_7, CLASS_7], Block(10, 0, 0), Block(11, 1, 0));
    MeetingsOfOne(TWICE, Placed(10));
    SlotsOfOne(MeetingOf(TWICE, Placed(10)), 7);
    DaysOfTwo(Block(10, 0, 0), Block(11, 1, 0));
  }

  lemma DaysOfTwo(a: TimeBlock, b: TimeBlock)
    ensures DaysOf([a, b]) == Max(Min(a.dayOfWeek + 1, 255), Min(b.dayOfWeek + 1, 255))
  {
    assert DaysOf([a][..0]) == 0;
    assert [a, b][..1] == [a] && DaysOf([a]) == Min(a.dayOfWeek + 1, 255);
  }

  lemma TwiceCosts()
    ensures SlotCosts(map[(7, 0) := {0}], TWICE.schoolClasses, 2) == [1, 1]
    ensures Sum([1, 1]) == 2
    ensures MapSum<SchoolClassId>(PositiveCosts(TWICE.schoolClasses, [1, 1])) == 1
  {
    OneDayOfTwo(map[(7, 0) := {0}]);
    var cs, costs: seq<nat>, none: map<SchoolClassId, nat> := TWICE.schoolClasses, [1, 1], map[];
    assert costs[..1] == [1] && [1][..0] == [] && Sum([1]) == 1;
    assert cs[..1] == [CLASS_7] && [CLASS_7][..0] == [];
    assert PositiveCosts([CLASS_7], [1]) == none[7 := 1];
    assert PositiveCosts(cs, costs) == none[7 := 1];
    MapSumInsert<SchoolClassId>(none, 7, 1);
  }

  /** The class counts once in the report and twice in the score: 1 against 2. */
  lemma TwiceListedClassDiffers(r: QualityReport)
    requires Resolves(TWICE, [Placed(10)]) && Reports(r, TWICE, [Placed(10)], 0, ONLY_BALANCE)
    ensures r.weightedScore == 1 && ReportScore(TWICE, [Placed(10)], ONLY_BALANCE) == 2
  {
    var a := ReportedBalance(r, TWICE, [Placed(10)]);
    TwiceBalances(r);
    OnlyBalanceTotal(a);
    OnlyBalanceTotal(a.(balance := r.classDayBalanceCost));
  }

  lemma ReportedBalance(r: QualityReport, pr: Problem, ps: seq<Placement>) returns (a: Axes)
    requires Resolves(pr, ps) && Reports(r, pr, ps, 0, ONLY_BALANCE)
    ensures a.preference == 0 && a.homeRoom == 0
    ensures a.balance == Cap(Sum(SlotCosts(ClassSlots(Meetings(pr, ps)), pr.schoolClasses, Days(pr))))
    ensures ReportsBalance(r, pr, Meetings(pr, ps))
    ensures r.weightedScore == WeightedTotal(ONLY_BALANCE, a.(balance := r.classDayBalanceCost))
    ensures ReportScore(pr, ps, ONLY_BALANCE) == WeightedTotal(ONLY_BALANCE, a)
  {
    OnlyBalanceTerms(pr, ps);
    a := AxesOf(pr, ps, ONLY_BALANCE, ValidSoftPins(pr));
  }

  lemma TwiceBalances(r: QualityReport)
    requires ReportsBalance(r, TWICE, Meetings(TWICE, [Placed(10)]))
    ensures r.classDayBalanceCost == 1
    ensures Sum(SlotCosts(ClassSlots(Meetings(TWICE, [Placed(10)])), TWICE.schoolClasses, Days(TWICE))) == 2
  {
    TwiceSlots();
    TwiceCosts();
  }

  // ----- a malformed soft pin -----

  const ONLY_SOFT_PINS: ConstraintWeights := NO_WEIGHTS.(softPinMiss := 1)

  /** A soft pin that names a lesson and a block which do not exist. */
  const STRAY_PIN: Problem := EMPTY_PROBLEM.(pinnedPlacements := [PinnedPlacement(1, 2, Soft)])

  lemma StrayPinSets()
    ensures SoftPins(STRAY_PIN) == {(1, 2)} && ValidSoftPins(STRAY_PIN) == {} && PlacementKeys([]) == {}
  {
    assert STRAY_PIN.pinnedPlacements[0] in STRAY_PIN.pinnedPlacements;
    assert LessonsById(STRAY_PIN) == map[];
  }

  /** The stray pin costs 1 through the JSON entry point and nothing in the report. */
  lemma StrayPinDiffers()
    ensures Resolves(STRAY_PIN, [])
    ensures JsonScore(STRAY_PIN, [], ONLY_SOFT_PINS) == 1 && ReportScore(STRAY_PIN, [], ONLY_SOFT_PINS) == 0
  {
    StrayPinSets();
    assert PreferenceTerms(STRAY_PIN, [], ONLY_SOFT_PINS) == [] && HomeRoomTerms(STRAY_PIN, [], ONLY_SOFT_PINS) == [];
    assert SoftMisses(SoftPins(STRAY_PIN), []) == 1 by { assert {(1, 2)} - {} == {(1, 2)}; }
    assert SoftMisses(ValidSoftPins(STRAY_PIN), []) == 0;
  }

  // ----- a day from position 0 to position 255 -----

  const LONG_DAY: Problem := OneLesson([CLASS_7], [Block(10, 0, 0), Block(11, 0, 255)])

  lemma LongDaySlots()
    ensures ClassSlots(Meetings(LONG_DAY, [Placed(10), Placed(11)])) == map[(7, 0) := {0, 255}]
  {
    TwoBlocksResolve([CLASS_7], Block(10, 0, 0), Block(11, 0, 255));
    MeetingsOfTwo(LONG_DAY, Placed(10), Placed(11));
    SlotsOfTwo(MeetingOf(LONG_DAY, Placed(10)), MeetingOf(LONG_DAY, Placed(11)), 7);
  }

  lemma LongDayGaps()
    ensures |Missing({0, 255})| == 254 && SpanGaps({0, 255}) == 0
  {
    var v: seq<u8> := [0, 255];
    assert Elems(v) == {0, 255};
    GapCountCountsMissing(v);
    SpanGapsExact(v);
  }

  lemma OneDayGaps(sm: SlotMap, k: (Uuid, u8))
    requires sm.Keys == {k}
    ensures GapHours(sm) == |Missing(sm[k])| && MapSum<(Uuid, u8)>(SpanGapMap(sm)) == SpanGaps(sm[k])
  {
    MapSumRemove<(Uuid, u8)>(GapMap(sm), k);
    MapSumRemove<(Uuid, u8)>(SpanGapMap(sm), k);
    assert (GapMap(sm) - {k}).Keys == {} && (SpanGapMap(sm) - {k}).Keys == {};
  }

  /** The core counts 254 gap hours, the bench metric none. */
  lemma LongDayDiffers()
    ensures var sm := ClassSlots(Meetings(LONG_DAY, [Placed(10), Placed(11)]));
      Wrap(GapHours(sm)) == 254 && Cap(MapSum<(Uuid, u8)>(SpanGapMap(sm))) == 0
  {
    LongDaySlots();
    LongDayGaps();
    OneDayGaps(ClassSlots(Meetings(LONG_DAY, [Placed(10), Placed(11)])), (7, 0));
  }

  // ----- a lesson of five classes -----

  function Home(id: SchoolClassId, room: RoomId): SchoolClass {
    SchoolClass(id, Some(room), None)
  }

  const FIVE_CLASSES: Lesson := Lesson(1, [1, 2, 3, 4, 5], 2, [3], None, 1, 1)

  /** Five classes with a home room each; only the fifth one's room exists. */
  const FIFTH_ROOM: Problem := EMPTY_PROBLEM.(
    timeBlocks := [Block(10, 0, 0)],
    rooms := [105],
    schoolClasses := [Home(1, 101), Home(2, 102), Home(3, 103), Home(4, 104), Home(5, 105)],
    lessons := [FIVE_CLASSES])

  lemma PairsStep(cs: seq<SchoolClass>, i: nat)
    requires i < |cs| && cs[i].homeRoomId.Some?
    ensures HomeRoomPairs(cs[..i + 1]) == HomeRoomPairs(cs[..i]) + [(cs[i].id, cs[i].homeRoomId.value)]
  {
    assert cs[..i + 1][..i] == cs[..i];
  }

  lemma {:induction false} FirstRoomAt(pairs: seq<(SchoolClassId, RoomId)>, i: nat)
    requires i < |pairs| && forall j :: 0 <= j < i ==> pairs[j].0 != pairs[i].0
    ensures FirstRoom(pairs, pairs[i].0) == Some(pairs[i].1)
  {
    if i == 0 {
    } else {
      FirstRoomAt(pairs[1..], i - 1);
    }
  }

  /** With a pair for every class in list order, the lesson's home rooms are the pairs' rooms. */
  lemma {:induction false} RoomsOfPairs(classes: seq<SchoolClassId>, pairs: seq<(SchoolClassId, RoomId)>, n: nat)
    requires n <= |classes| <= |pairs|
    requires forall i :: 0 <= i < |classes| ==> pairs[i].0 == classes[i]
    requires forall i, j :: 0 <= i < j < |classes| ==> classes[i] != classes[j]
    ensures |AllHomeRooms(classes[..n], pairs)| == n
    ensures forall i :: 0 <= i < n ==> AllHomeRooms(classes[..n], pairs)[i] == pairs[i].1
  {
    if n == 0 {
    } else {
      RoomsOfPairs(classes, pairs, n - 1);
      FirstRoomAt(pairs, n - 1);
      assert classes[..n][..n - 1] == classes[..n - 1];
    }
  }

  lemma FifthRoomPairs(pairs: seq<(SchoolClassId, RoomId)>)
    requires pairs == HomeRoomPairs(FIFTH_ROOM.schoolClasses)
    ensures pairs == [(1, 101), (2, 102), (3, 103), (4, 104), (5, 105)]
  {
    var cs := FIFTH_ROOM.schoolClasses;
    PairsStep(cs, 0);
    PairsStep(cs, 1);
    PairsStep(cs, 2);
    PairsStep(cs, 3);
    PairsStep(cs, 4);
    assert cs[..5] == cs;
  }

  lemma FifthRoomList(rooms: seq<RoomId>)
    requires rooms == AllRooms(FIFTH_ROOM, FIVE_CLASSES)
    ensures rooms == [101, 102, 103, 104, 105]
  {
    var ids, pairs := FIVE_CLASSES.schoolClassIds, HomeRoomPairs(FIFTH_ROOM.schoolClasses);
    FifthRoomPairs(pairs);
    RoomsOfPairs(ids, pairs, 5);
    assert ids[..5] == ids;
  }

  lemma OneBlockDay(tb: TimeBlock)
    requires tb.kind == LessonBlock
    ensures SortDays(GroupByDay([tb])) == [(tb.dayOfWeek, [tb])]
  {
    assert [tb][..0] == [];
    assert [tb][1..] == [];
    assert Sort(PositionLe, [tb]) == [tb];
  }

  lemma OneRoomOneDay(pr: Problem, l: Lesson, day: DayBlocks, r: RoomId)
    requires pr.rooms == [r] && Viable(pr, l, day.1, r) && Dropped(pr, l, r)
    ensures ViablePairs(pr, l, [day], true) == 0 && PairsAmong(pr, l, [day], AllRooms(pr, l)) == 1
  {
    assert ViableRooms(pr, l, day.1, pr.rooms[..0], true) == 0;
    assert RoomsAmong(pr, l, day.1, pr.rooms[..0], AllRooms(pr, l)) == 0;
    assert ViablePairs(pr, l, [day][..0], true) == 0 && PairsAmong(pr, l, [day][..0], AllRooms(pr, l)) == 0;
  }

  /** The fifth class's home room is dropped: the code counts no home pair where there is one. */
  lemma FifthHomeRoomLost()
    ensures Metric(FIFTH_ROOM, FIVE_CLASSES, true) == 0 && UnlimitedHomeMetric(FIFTH_ROOM, FIVE_CLASSES) == 1
  {
    var day: seq<TimeBlock> := [Block(10, 0, 0)];
    FifthRoomList(AllRooms(FIFTH_ROOM, FIVE_CLASSES));
    OneBlockDay(Block(10, 0, 0));
    WindowWithoutBlocks(FIFTH_ROOM, 3, 105, day, 1);
    OneRoomOneDay(FIFTH_ROOM, FIVE_CLASSES, (0, day), 105);
  }

  // ----- a sweep without a feasible seed -----

  const INFEASIBLE: CellResult := CellResult(0, None, Some(8), Some(50))

  /** The only cell has no feasible seed, and its point is reported on the frontier. */
  lemma InfeasibleCellOnFrontier()
    ensures OnFrontier(SweepTuple(50, 8), Candidates([INFEASIBLE]))
  {
    FilterMapSingle(INFEASIBLE, IsSweepCell, CandidateOf);
    var c := CandidateOf(INFEASIBLE);
    assert Candidates([INFEASIBLE]) == [c];
    assert c in [c] && !Dominated(c, [c]);
  }

  // ----- two placements in one slot -----

  /** Two lessons of class 7, as for two groups of it that are taught at the same time. */
  const TWO_GROUPS: Problem := EMPTY_PROBLEM.(
    timeBlocks := [Block(10, 0, 0)],
    subjects := [Subject(2, 0, 0, 0, 0)],
    schoolClasses := [CLASS_7],
    lessons := [Lesson(1, [7], 2, [3], None, 1, 1), Lesson(4, [7], 2, [6], None, 1, 1)])

  /** Both groups in the one time block. */
  const GROUP_PLACEMENTS: seq<Placement> := [Placement(1, 10, 5, 3), Placement(4, 10, 8, 6)]

  lemma CountsOfTwo(m: Meeting, n: Meeting, c: SchoolClassId, day: u8)
    requires m.classes == [c] == n.classes && m.day == n.day && m.position == n.position
    ensures RawCount([m, n], c, day) == if m.day == day then 2 else 0
    ensures |Occupied(ClassSlots([m, n]), (c, day))| == if m.day == day then 1 else 0
    ensures m.day == day ==> SharesSlot([m, n], c, day)
  {
    SlotsOfTwo(m, n, c);
    assert {m.position as int, n.position as int} == {m.position as int};
    assert [m, n][..1] == [m] && RawCount([m][..0], c, day) == 0;
    if m.day == day {
      assert Joins([m, n][0], c, day) && Joins([m, n][1], c, day);
    }
  }

  lemma ClassesOfTwo(m: Meeting, n: Meeting, c: SchoolClassId)
    requires m.classes == [c] == n.classes && m.day == n.day < 5
    ensures FiveDayClasses([m, n]) == {c}
  {
    assert [m, n][..1] == [m] && FiveDayClasses([m][..0]) == {};
    assert (set x | x in [c]) == {c};
  }

  lemma OneBusyDay(xs: seq<u32>, n: u32)
    requires xs == [n, 0, 0, 0, 0]
    ensures Spread(xs) == n
  {
    assert xs[0] == n && xs[1] == 0;
    assert MaxOf(xs) == n && MinOf(xs) == 0;
  }

  lemma TwoGroupMeetings() returns (m: Meeting, n: Meeting)
    ensures Meetings(TWO_GROUPS, GROUP_PLACEMENTS) == [m, n]
    ensures m.classes == [7] == n.classes && m.day == n.day == 0 && m.position == n.position == 0
  {
    CollectOne(Block(10, 0, 0), (tb: TimeBlock) => tb.id);
    CollectTwo(TWO_GROUPS.lessons[0], TWO_GROUPS.lessons[1], (l: Lesson) => l.id);
    assert Blocks(TWO_GROUPS) == map[10 := Block(10, 0, 0)];
    assert LessonsById(TWO_GROUPS) == map[1 := TWO_GROUPS.lessons[0]][4 := TWO_GROUPS.lessons[1]];
    MeetingsOfTwo(TWO_GROUPS, GROUP_PLACEMENTS[0], GROUP_PLACEMENTS[1]);
    m, n := MeetingOf(TWO_GROUPS, GROUP_PLACEMENTS[0]), MeetingOf(TWO_GROUPS, GROUP_PLACEMENTS[1]);
  }

  lemma SpreadOfOneClass(m: map<SchoolClassId, nat>, r: nat)
    requires m.Keys == {7} && m[7] == r
    ensures MapMax<SchoolClassId>(m) == r
  {
    MapMaxUnique<SchoolClassId>(m, MapMax<SchoolClassId>(m), r);
  }

  /** The worst spread is 2 where the class has one slot on its busiest day and none on the others. */
  lemma TwoGroupsSpreadDiffers()
    ensures var ms := Meetings(TWO_GROUPS, GROUP_PLACEMENTS);
      SharesSlot(ms, 7, 0) && WorstSpread(ms) == 2 && SlotSpread(ms) == 1
  {
    var m, n := TwoGroupMeetings();
    CountsOfTwo(m, n, 7, 0);
    TwoGroupSpreads(m, n);
  }

  lemma TwoGroupDays(m: Meeting, n: Meeting)
    requires m.classes == [7] == n.classes && m.day == n.day == 0 && m.position == n.position
    ensures FiveDayCounts([m, n], 7) == [2, 0, 0, 0, 0] && SlotDays([m, n], 7) == [1, 0, 0, 0, 0]
  {
    forall d: u8 | d < 5
      ensures FiveDayCounts([m, n], 7)[d] == if d == 0 then 2 else 0
      ensures SlotDays([m, n], 7)[d] == if d == 0 then 1 else 0
    {
      CountsOfTwo(m, n, 7, d);
    }
  }

  lemma TwoGroupSpreads(m: Meeting, n: Meeting)
    requires m.classes == [7] == n.classes && m.day == n.day == 0 && m.position == n.position
    ensures WorstSpread([m, n]) == 2 && SlotSpread([m, n]) == 1
  {
    var ms := [m, n];
    TwoGroupDays(m, n);
    ClassesOfTwo(m, n, 7);
    OneBusyDay(FiveDayCounts(ms, 7), 2);
    OneBusyDay(SlotDays(ms, 7), 1);
    SpreadOfOneClass(SpreadMap(ms), 2);
    SpreadOfOneClass(map c | c in FiveDayClasses(ms) :: Spread(SlotDays(ms, c)), 1);
  }

  // ----- a fixture named twice -----

  /** One feasible sweep cell on fixture "a". */
  const FEASIBLE_RUN: RrCell := RrCell("a", CellResult(1, Some(10), Some(8), Some(50)))

  /** The cell's point ran on every named fixture, but with the name given twice it is not eligible,
      so nothing is recommended. */
  lemma RepeatedFixtureLosesRecommendation(round: Rounding, r: Option<SweepTuple>)
    requires IsRecommendation([FEASIBLE_RUN], round, 2, set c | c in [FEASIBLE_RUN] :: TupleOf(c), r)
    ensures forall f :: f in ["a", "a"] ==> RanOn([FEASIBLE_RUN], SweepTuple(50, 8), f)
    ensures EligibleTuple([FEASIBLE_RUN], 1, SweepTuple(50, 8))
    ensures r == None
  {
    assert FEASIBLE_RUN in [FEASIBLE_RUN] && TupleOf(FEASIBLE_RUN) == SweepTuple(50, 8);
    EligibleIff([FEASIBLE_RUN], ["a"], SweepTuple(50, 8));
    assert ["a", "a"][0] == ["a", "a"][1];
    RepeatedFixtureBlocksAll([FEASIBLE_RUN], round, ["a", "a"], r);
  }
}
