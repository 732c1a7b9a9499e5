/** The eligibility metric and the sort (ordering.rs). */
module LessonOrder {
  import opened Machine
  import opened Collections
  import opened Sorting
  import opened Types
  import opened Index
  import opened Ordering

  // ----- the metric: viable (day, room) pairs -----

  /** The teacher whose blocked times count. Only blocked times make a difference, and with blocked
      times the code needs every lesson to have a teacher. */
  function TeacherOf(l: Lesson): TeacherId {
    if l.HasTeacher() then l.AssignedTeacherId() else 0
  }

  /** The room suits the subject and the day has a free window of the block size. */
  ghost predicate Viable(pr: Problem, l: Lesson, day: seq<TimeBlock>, r: RoomId) {
    ListsSuits(pr, r, l.subjectId) && HasWindow(FreeSlots(pr, TeacherOf(l), r, day), l.preferredBlockSize)
  }

  predicate InHome(pr: Problem, l: Lesson, r: RoomId) {
    r in KeptHomeRooms(l.schoolClassIds, HomeRoomPairs(pr.schoolClasses))
  }

  /** Viable rooms of one day; with `homeOnly` those that are a kept home room. */
  ghost function ViableRooms(pr: Problem, l: Lesson, day: seq<TimeBlock>, rooms: seq<RoomId>, homeOnly: bool): nat
  {
    if rooms == [] then 0
    else
      var r := rooms[|rooms| - 1];
      ViableRooms(pr, l, day, rooms[..|rooms| - 1], homeOnly)
      + if Viable(pr, l, day, r) && (homeOnly ==> InHome(pr, l, r)) then 1 else 0
  }

  ghost function ViablePairs(pr: Problem, l: Lesson, days: seq<DayBlocks>, homeOnly: bool): nat
  {
    if days == [] then 0
    else ViablePairs(pr, l, days[..|days| - 1], homeOnly) + ViableRooms(pr, l, days[|days| - 1].1, pr.rooms, homeOnly)
  }

  /** The pair the sort uses: (0, 0) for a block size of 0. */
  ghost function Metric(pr: Problem, l: Lesson, homeOnly: bool): u32
  {
    if l.preferredBlockSize == 0 then 0 else Cap(ViablePairs(pr, l, LessonDays(pr), homeOnly))
  }

  // ----- the nested-loop form -----

  lemma ShortDayNotViable(pr: Problem, l: Lesson, day: seq<TimeBlock>, rooms: seq<RoomId>, homeOnly: bool)
    requires |day| < l.preferredBlockSize
    ensures ViableRooms(pr, l, day, rooms, homeOnly) == 0
    decreases |rooms|
  {
    if rooms == [] {
    } else {
      ShortDayNotViable(pr, l, day, rooms[..|rooms| - 1], homeOnly);
    }
  }

  method CountDay(pr: Problem, idx: Indexed, l: Lesson, day: seq<TimeBlock>, homeRooms: seq<Option<RoomId>>,
                  homeCount: nat,
                  viable0: u32, home0: u32)
    returns (viable: u32, home: u32)
    requires Answers(idx, pr) && l.HasTeacher() && l.preferredBlockSize > 0 && homeCount <= |homeRooms|
    requires forall r :: HomeRoomsContain(homeRooms, homeCount, r) <==> InHome(pr, l, r)
    ensures viable == Cap(viable0 + ViableRooms(pr, l, day, pr.rooms, false))
    ensures home == Cap(home0 + ViableRooms(pr, l, day, pr.rooms, true))
  {
    viable, home := viable0, home0;
    for k := 0 to |pr.rooms|
      invariant viable == Cap(viable0 + ViableRooms(pr, l, day, pr.rooms[..k], false))
      invariant home == Cap(home0 + ViableRooms(pr, l, day, pr.rooms[..k], true))
    {
      var r := pr.rooms[k];
      assert pr.rooms[..k + 1][..k] == pr.rooms[..k];
      if !idx.RoomSuitsSubject(r, l.subjectId) {
        continue;
      }
      var fits := RunFits(pr, idx, l.AssignedTeacherId(), r, day, l.preferredBlockSize);
      if fits {
        viable := SatAdd(viable, 1);
        if HomeRoomsContain(homeRooms, homeCount, r) {
          home := SatAdd(home, 1);
        }
      }
    }
    assert pr.rooms[..|pr.rooms|] == pr.rooms;
  }

  method KeptRoomsOf(pr: Problem, l: Lesson) returns (homeRooms: seq<Option<RoomId>>, homeCount: nat)
    ensures homeCount <= |homeRooms|
    ensures forall r :: HomeRoomsContain(homeRooms, homeCount, r) <==> InHome(pr, l, r)
  {
    var pairs := HomeRoomPairs(pr.schoolClasses);
    homeRooms, homeCount := LessonHomeRooms(l.schoolClassIds, pairs);
    ghost var kept := KeptHomeRooms(l.schoolClassIds, pairs);
    forall r: RoomId ensures HomeRoomsContain(homeRooms, homeCount, r) <==> r in kept {
      if i :| 0 <= i < homeCount && homeRooms[i] == Some(r) { assert kept[i] == r; }
      if i :| 0 <= i < |kept| && kept[i] == r { assert homeRooms[i] == Some(r); }
    }
  }

  method SameRoomEligibility(pr: Problem, idx: Indexed, l: Lesson, days: seq<DayBlocks>)
    returns (viable: u32, home: u32)
    requires Answers(idx, pr) && l.HasTeacher() && days == LessonDays(pr)
    ensures viable == Metric(pr, l, false) && home == Metric(pr, l, true)
  {
    viable, home := 0, 0;
    if l.preferredBlockSize == 0 {
      return;
    }
    var homeRooms, homeCount := KeptRoomsOf(pr, l);
    for i := 0 to |days|
      invariant viable == Cap(ViablePairs(pr, l, days[..i], false)) && home == Cap(ViablePairs(pr, l, days[..i], true))
    {
      var day := days[i].1;
      assert days[..i + 1][..i] == days[..i];
      if |day| < l.preferredBlockSize {
        ShortDayNotViable(pr, l, day, pr.rooms, false);
        ShortDayNotViable(pr, l, day, pr.rooms, true);
        continue;
      }
      viable, home := CountDay(pr, idx, l, day, homeRooms, homeCount, viable, home);
    }
    assert days[..|days|] == days;
  }

  // ----- the closed form -----

  function SuitableRooms(pr: Problem, l: Lesson, rooms: seq<RoomId>, homeOnly: bool): nat {
    if rooms == [] then 0
    else
      var r := rooms[|rooms| - 1];
      SuitableRooms(pr, l, rooms[..|rooms| - 1], homeOnly)
      + if ListsSuits(pr, r, l.subjectId) && (homeOnly ==> InHome(pr, l, r)) then 1 else 0
  }

  function LongDays(days: seq<DayBlocks>, n: nat): nat {
    if days == [] then 0 else LongDays(days[..|days| - 1], n) + if |days[|days| - 1].1| >= n then 1 else 0
  }

  predicate NoBlocks(pr: Problem) {
    pr.teacherBlockedTimes == [] && pr.roomBlockedTimes == []
  }

  lemma WindowWithoutBlocks(pr: Problem, t: TeacherId, r: RoomId, day: seq<TimeBlock>, n: nat)
    requires NoBlocks(pr)
    ensures HasWindow(FreeSlots(pr, t, r, day), n) <==> |day| >= n
  {
    if |day| >= n {
      assert WindowAt(FreeSlots(pr, t, r, day), n, 0);
    }
  }

  lemma {:induction false} RoomsWithoutBlocks(pr: Problem, l: Lesson, day: seq<TimeBlock>, rooms: seq<RoomId>,
                                              homeOnly: bool)
    requires NoBlocks(pr)
    ensures ViableRooms(pr, l, day, rooms, homeOnly)
         == if |day| >= l.preferredBlockSize then SuitableRooms(pr, l, rooms, homeOnly) else 0
  {
    if rooms == [] {
    } else {
      var n := |rooms| - 1;
      RoomsWithoutBlocks(pr, l, day, rooms[..n], homeOnly);
      WindowWithoutBlocks(pr, TeacherOf(l), rooms[n], day, l.preferredBlockSize);
    }
  }

  /** Without blocked times the pairs factor into long days times suitable rooms. */
  lemma {:induction false} PairsFactor(pr: Problem, l: Lesson, days: seq<DayBlocks>, homeOnly: bool)
    requires NoBlocks(pr)
    ensures ViablePairs(pr, l, days, homeOnly)
         == Times(LongDays(days, l.preferredBlockSize), SuitableRooms(pr, l, pr.rooms, homeOnly))
  {
    if days == [] {
      TimesZero(SuitableRooms(pr, l, pr.rooms, homeOnly));
    } else {
      var n := |days| - 1;
      PairsFactor(pr, l, days[..n], homeOnly);
      RoomsWithoutBlocks(pr, l, days[n].1, pr.rooms, homeOnly);
      OneMoreDay(LongDays(days[..n], l.preferredBlockSize), SuitableRooms(pr, l, pr.rooms, homeOnly));
    }
  }

  lemma OneMoreDay(days: nat, rooms: nat)
    ensures Times(days + 1, rooms) == Times(days, rooms) + rooms
  {}

  lemma {:induction false} LongDaysBound(days: seq<DayBlocks>, n: nat)
    ensures LongDays(days, n) <= |days|
  {
    if days == [] {
    } else {
      LongDaysBound(days[..|days| - 1], n);
    }
  }

  method SameRoomEligibilityNoBlocks(pr: Problem, idx: Indexed, l: Lesson, days: seq<DayBlocks>)
    returns (viable: u32, home: u32)
    requires Answers(idx, pr) && days == LessonDays(pr) && NoBlocks(pr)
    ensures viable == Metric(pr, l, false) && home == Metric(pr, l, true)
  {
    if l.preferredBlockSize == 0 {
      return 0, 0;
    }
    var viableDays := Wrap(LongDays(days, l.preferredBlockSize));
    var suitable, suitableHome := CountSuitable(pr, idx, l);
    ClosedForm(pr, l, false);
    ClosedForm(pr, l, true);
    viable, home := SatMul(viableDays, suitable), SatMul(viableDays, suitableHome);
  }

  /** The capped product of the two counts is the metric. */
  lemma ClosedForm(pr: Problem, l: Lesson, homeOnly: bool)
    requires NoBlocks(pr) && l.preferredBlockSize > 0
    ensures SatMul(Wrap(LongDays(LessonDays(pr), l.preferredBlockSize)), Cap(SuitableRooms(pr, l, pr.rooms, homeOnly)))
         == Metric(pr, l, homeOnly)
  {
    var long := LongDays(LessonDays(pr), l.preferredBlockSize);
    LessonDaysExact(pr);
    LongDaysBound(LessonDays(pr), l.preferredBlockSize);
    WrapSmall(long);
    PairsFactor(pr, l, LessonDays(pr), homeOnly);
    CappedProduct(long, SuitableRooms(pr, l, pr.rooms, homeOnly));
  }

  method CountSuitable(pr: Problem, idx: Indexed, l: Lesson) returns (suitable: u32, suitableHome: u32)
    requires Answers(idx, pr)
    ensures suitable == Cap(SuitableRooms(pr, l, pr.rooms, false))
    ensures suitableHome == Cap(SuitableRooms(pr, l, pr.rooms, true))
  {
    var homeRooms, homeCount := KeptRoomsOf(pr, l);
    suitable, suitableHome := 0, 0;
    for k := 0 to |pr.rooms|
      invariant suitable == Cap(SuitableRooms(pr, l, pr.rooms[..k], false))
      invariant suitableHome == Cap(SuitableRooms(pr, l, pr.rooms[..k], true))
    {
      var r := pr.rooms[k];
      assert pr.rooms[..k + 1][..k] == pr.rooms[..k];
      if !idx.RoomSuitsSubject(r, l.subjectId) {
        continue;
      }
      suitable := SatAdd(suitable, 1);
      if HomeRoomsContain(homeRooms, homeCount, r) {
        suitableHome := SatAdd(suitableHome, 1);
      }
    }
    assert pr.rooms[..|pr.rooms|] == pr.rooms;
  }

  lemma CappedProduct(a: u32, b: nat)
    ensures SatMul(a, Cap(b)) == Cap(Times(a, b))
  {
    CappedFactor(b, a);
  }

  /** The fast path and the nested loops agree whenever nothing is blocked. */
  method FastPathAgrees(pr: Problem, idx: Indexed, l: Lesson) returns (fast: (u32, u32), slow: (u32, u32))
    requires Answers(idx, pr) && l.HasTeacher() && NoBlocks(pr)
    ensures fast == slow
    ensures l.preferredBlockSize > 0 ==>
      slow.0 == Cap(Times(LongDays(LessonDays(pr), l.preferredBlockSize), SuitableRooms(pr, l, pr.rooms, false)))
  {
    var v, h := SameRoomEligibilityNoBlocks(pr, idx, l, LessonDays(pr));
    var v2, h2 := SameRoomEligibility(pr, idx, l, LessonDays(pr));
    PairsFactor(pr, l, LessonDays(pr), false);
    fast, slow := (v, h), (v2, h2);
  }

  // ----- monotonicity -----

  /** The same problem with further blocked rows, and any list of lessons. */
  ghost predicate MoreBlocked(pr: Problem, more: Problem) {
    && more == pr.(
         teacherBlockedTimes := more.teacherBlockedTimes, roomBlockedTimes := more.roomBlockedTimes,
         lessons := more.lessons)
    && (forall b :: b in pr.teacherBlockedTimes ==> b in more.teacherBlockedTimes)
    && (forall b :: b in pr.roomBlockedTimes ==> b in more.roomBlockedTimes)
  }

  lemma ViableShrinks(pr: Problem, more: Problem, l: Lesson, day: seq<TimeBlock>, r: RoomId)
    requires MoreBlocked(pr, more) && Viable(more, l, day, r)
    ensures Viable(pr, l, day, r)
  {
    var few, many := FreeSlots(pr, TeacherOf(l), r, day), FreeSlots(more, TeacherOf(l), r, day);
    var s :| WindowAt(many, l.preferredBlockSize, s);
    forall k | s <= k < s + l.preferredBlockSize ensures few[k] {
      assert many[k];
    }
    assert WindowAt(few, l.preferredBlockSize, s);
  }

  lemma {:induction false} ViableRoomsShrink(pr: Problem, more: Problem, l: Lesson, day: seq<TimeBlock>,
                                             rooms: seq<RoomId>, homeOnly: bool)
    requires MoreBlocked(pr, more)
    ensures ViableRooms(more, l, day, rooms, homeOnly) <= ViableRooms(pr, l, day, rooms, homeOnly)
    ensures ViableRooms(pr, l, day, rooms, true) <= ViableRooms(pr, l, day, rooms, false)
  {
    if rooms == [] {
    } else {
      var n := |rooms| - 1;
      ViableRoomsShrink(pr, more, l, day, rooms[..n], homeOnly);
      if Viable(more, l, day, rooms[n]) {
        ViableShrinks(pr, more, l, day, rooms[n]);
      }
    }
  }

  lemma {:induction false} ViablePairsShrink(pr: Problem, more: Problem, l: Lesson, days: seq<DayBlocks>,
                                             homeOnly: bool)
    requires MoreBlocked(pr, more)
    ensures ViablePairs(more, l, days, homeOnly) <= ViablePairs(pr, l, days, homeOnly)
    ensures ViablePairs(pr, l, days, true) <= ViablePairs(pr, l, days, false)
  {
    if days == [] {
    } else {
      var n := |days| - 1;
      ViablePairsShrink(pr, more, l, days[..n], homeOnly);
      ViableRoomsShrink(pr, more, l, days[n].1, pr.rooms, homeOnly);
    }
  }

  /** Blocking more times never raises either half of the metric, also where it switches the
      code from the closed form to the nested loops; home pairs never exceed viable pairs. */
  lemma MetricShrinks(pr: Problem, more: Problem, l: Lesson)
    requires MoreBlocked(pr, more)
    ensures Metric(more, l, false) <= Metric(pr, l, false)
    ensures Metric(more, l, true) <= Metric(pr, l, true)
    ensures Metric(pr, l, true) <= Metric(pr, l, false)
  {
    ViablePairsShrink(pr, more, l, LessonDays(pr), false);
    ViablePairsShrink(pr, more, l, LessonDays(pr), true);
  }

  // ----- what the four-room buffer costs -----

  /** Viable (day, room) pairs with a room from the given list. */
  ghost function RoomsAmong(pr: Problem, l: Lesson, day: seq<TimeBlock>, rooms: seq<RoomId>, homes: seq<RoomId>): nat {
    if rooms == [] then 0
    else
      var r := rooms[|rooms| - 1];
      RoomsAmong(pr, l, day, rooms[..|rooms| - 1], homes) + if Viable(pr, l, day, r) && r in homes then 1 else 0
  }

  ghost function PairsAmong(pr: Problem, l: Lesson, days: seq<DayBlocks>, homes: seq<RoomId>): nat {
    if days == [] then 0
    else PairsAmong(pr, l, days[..|days| - 1], homes) + RoomsAmong(pr, l, days[|days| - 1].1, pr.rooms, homes)
  }

  function AllRooms(pr: Problem, l: Lesson): seq<RoomId> {
    AllHomeRooms(l.schoolClassIds, HomeRoomPairs(pr.schoolClasses))
  }

  function KeptRooms(pr: Problem, l: Lesson): seq<RoomId> {
    KeptHomeRooms(l.schoolClassIds, HomeRoomPairs(pr.schoolClasses))
  }

  /** Home pairs as they would be without the four-room limit. */
  ghost function UnlimitedHomeMetric(pr: Problem, l: Lesson): u32 {
    if l.preferredBlockSize == 0 then 0 else Cap(PairsAmong(pr, l, LessonDays(pr), AllRooms(pr, l)))
  }

  /** The room is a home room of the lesson that the buffer drops. */
  predicate Dropped(pr: Problem, l: Lesson, r: RoomId) {
    r in AllRooms(pr, l) && r !in KeptRooms(pr, l)
  }

  ghost predicate DroppedViable(pr: Problem, l: Lesson, day: seq<TimeBlock>, rooms: seq<RoomId>) {
    exists r :: r in rooms && Dropped(pr, l, r) && Viable(pr, l, day, r)
  }

  /** A dropped home room would have been viable on some day. */
  ghost predicate LosesHomePair(pr: Problem, l: Lesson, days: seq<DayBlocks>) {
    exists i :: 0 <= i < |days| && DroppedViable(pr, l, days[i].1, pr.rooms)
  }

  lemma {:induction false} KeptRoomsOnDay(pr: Problem, l: Lesson, day: seq<TimeBlock>, rooms: seq<RoomId>)
    ensures ViableRooms(pr, l, day, rooms, true) <= RoomsAmong(pr, l, day, rooms, AllRooms(pr, l))
    ensures ViableRooms(pr, l, day, rooms, true) == RoomsAmong(pr, l, day, rooms, AllRooms(pr, l))
       <==> !DroppedViable(pr, l, day, rooms)
  {
    if rooms == [] {
    } else {
      var n := |rooms| - 1;
      KeptRoomsOnDay(pr, l, day, rooms[..n]);
      assert rooms == rooms[..n] + [rooms[n]];
      assert DroppedViable(pr, l, day, rooms)
        <==> DroppedViable(pr, l, day, rooms[..n]) || (Dropped(pr, l, rooms[n]) && Viable(pr, l, day, rooms[n]));
      assert InHome(pr, l, rooms[n]) ==> rooms[n] in AllRooms(pr, l);
    }
  }

  lemma {:induction false} KeptPairs(pr: Problem, l: Lesson, days: seq<DayBlocks>)
    ensures ViablePairs(pr, l, days, true) <= PairsAmong(pr, l, days, AllRooms(pr, l))
    ensures ViablePairs(pr, l, days, true) == PairsAmong(pr, l, days, AllRooms(pr, l)) <==> !LosesHomePair(pr, l, days)
  {
    if days == [] {
    } else {
      var n := |days| - 1;
      KeptPairs(pr, l, days[..n]);
      KeptRoomsOnDay(pr, l, days[n].1, pr.rooms);
      assert LosesHomePair(pr, l, days)
        <==> LosesHomePair(pr, l, days[..n]) || DroppedViable(pr, l, days[n].1, pr.rooms) by {
        if i :| 0 <= i < n && DroppedViable(pr, l, days[..n][i].1, pr.rooms) { assert days[i] == days[..n][i]; }
        if i :| 0 <= i < n && DroppedViable(pr, l, days[i].1, pr.rooms) { assert days[..n][i] == days[i]; }
      }
    }
  }

  /** The limit changes the metric if and only if a dropped home room is viable on some day (unless
      the count has saturated); it never raises it. */
  lemma HomeLimitHarmlessIff(pr: Problem, l: Lesson)
    requires l.preferredBlockSize > 0
    ensures Metric(pr, l, true) <= UnlimitedHomeMetric(pr, l)
    ensures Metric(pr, l, true) == UnlimitedHomeMetric(pr, l)
       <==> !LosesHomePair(pr, l, LessonDays(pr)) || Metric(pr, l, true) == U32_MAX
  {
    KeptPairs(pr, l, LessonDays(pr));
  }

  // ----- ffd_order -----

  /** The sort key of a lesson. */
  datatype Rank = Rank(candidates: u32, viable: u32, home: u32, id: LessonId)

  predicate RankLe(a: Rank, b: Rank) {
    a.candidates < b.candidates || (a.candidates == b.candidates &&
    (a.viable < b.viable || (a.viable == b.viable &&
    (a.home < b.home || (a.home == b.home && a.id <= b.id)))))
  }

  datatype Ranked = Ranked(rank: Rank, index: nat)

  predicate RankedLe(a: Ranked, b: Ranked) {
    RankLe(a.rank, b.rank)
  }

  ghost function RankOf(pr: Problem, l: Lesson): Rank
  {
    Rank(Wrap(|l.teacherCandidates|), Metric(pr, l, false), Metric(pr, l, true), l.id)
  }

  /** Every lesson has a pin or a candidate. */
  ghost predicate AllTaught(pr: Problem) {
    forall i :: 0 <= i < |pr.lessons| ==> pr.lessons[i].HasTeacher()
  }

  ghost function Ranks(pr: Problem): (r: seq<Rank>)
    ensures |r| == |pr.lessons|
  {
    seq(|pr.lessons|, i requires 0 <= i < |pr.lessons| => RankOf(pr, pr.lessons[i]))
  }

  /** A permutation of the lesson indices in ascending rank. */
  ghost predicate IsFfdOrder(pr: Problem, order: seq<nat>) {
    && |order| == |pr.lessons|
    && (forall k :: 0 <= k < |order| ==> order[k] < |pr.lessons|)
    && multiset(order) == multiset(Indices(|pr.lessons|))
    && forall i, j :: 0 <= i < j < |order| ==> RankLe(Ranks(pr)[order[i]], Ranks(pr)[order[j]])
  }

  function Indices(n: nat): (r: seq<nat>) {
    seq(n, i => i)
  }

  method ScoreLessons(pr: Problem, idx: Indexed) returns (scores: seq<(u32, u32, u32)>)
    requires Answers(idx, pr) && (NoBlocks(pr) || AllTaught(pr))
    ensures |scores| == |pr.lessons|
    ensures forall i :: 0 <= i < |scores| ==>
      Rank(scores[i].0, scores[i].1, scores[i].2, pr.lessons[i].id) == Ranks(pr)[i]
  {
    var days := LessonDays(pr);
    var noBlocks := pr.teacherBlockedTimes == [] && pr.roomBlockedTimes == [];
    scores := [];
    for i := 0 to |pr.lessons|
      invariant |scores| == i
      invariant forall k :: 0 <= k < i ==> Rank(scores[k].0, scores[k].1, scores[k].2, pr.lessons[k].id) == Ranks(pr)[k]
    {
      var l := pr.lessons[i];
      var viable, home;
      if noBlocks {
        viable, home := SameRoomEligibilityNoBlocks(pr, idx, l, days);
      } else {
        viable, home := SameRoomEligibility(pr, idx, l, days);
      }
      scores := scores + [(Wrap(|l.teacherCandidates|), viable, home)];
    }
  }

  method FfdOrder(pr: Problem, idx: Indexed) returns (order: seq<nat>)
    requires Answers(idx, pr) && (NoBlocks(pr) || AllTaught(pr))
    ensures IsFfdOrder(pr, order)
  {
    var scores := ScoreLessons(pr, idx);
    var keyed := seq(|pr.lessons|, i requires 0 <= i < |pr.lessons| =>
      Ranked(Rank(scores[i].0, scores[i].1, scores[i].2, pr.lessons[i].id), i));
    var sorted := Sort(RankedLe, keyed);
    order := seq(|sorted|, k requires 0 <= k < |sorted| => sorted[k].index);
    SortSorts(RankedLe, keyed);
    SortPermutes(RankedLe, keyed);
    forall x | x in sorted ensures x.index < |pr.lessons| && x.rank == Ranks(pr)[x.index] {
      assert x in keyed;
    }
    MapPermuted(sorted, keyed, (x: Ranked) => x.index);
    assert order == MapSeq(sorted, (x: Ranked) => x.index);
    assert Indices(|pr.lessons|) == MapSeq(keyed, (x: Ranked) => x.index);
  }

  // ----- the order of the input lessons does not matter -----

  lemma RankIgnoresLessons(a: Problem, b: Problem, l: Lesson)
    requires b == a.(lessons := b.lessons)
    ensures RankOf(a, l) == RankOf(b, l)
  {
    MetricShrinks(a, b, l);
    MetricShrinks(b, a, l);
  }

  ghost function RanksInOrder(pr: Problem, order: seq<nat>): (r: seq<Rank>)
    requires forall k :: 0 <= k < |order| ==> order[k] < |pr.lessons|
    ensures |r| == |order|
  {
    seq(|order|, k requires 0 <= k < |order| => Ranks(pr)[order[k]])
  }

  lemma OrderPermutesRanks(pr: Problem, order: seq<nat>)
    requires IsFfdOrder(pr, order)
    ensures multiset(RanksInOrder(pr, order)) == multiset(Ranks(pr))
  {
    var ranks := Ranks(pr);
    var f := (i: nat) => if i < |ranks| then ranks[i] else Rank(0, 0, 0, 0);
    MapPermuted(order, Indices(|ranks|), f);
    assert MapSeq(order, f) == RanksInOrder(pr, order);
    assert MapSeq(Indices(|ranks|), f) == ranks;
  }

  lemma ReorderedRanks(a: Problem, b: Problem)
    requires b == a.(lessons := b.lessons) && multiset(a.lessons) == multiset(b.lessons)
    ensures multiset(Ranks(a)) == multiset(Ranks(b))
  {
    var f := (l: Lesson) => RankOf(a, l);
    MapPermuted(a.lessons, b.lessons, f);
    assert MapSeq(a.lessons, f) == Ranks(a);
    forall i | 0 <= i < |b.lessons| ensures Ranks(b)[i] == f(b.lessons[i]) {
      RankIgnoresLessons(a, b, b.lessons[i]);
    }
    assert MapSeq(b.lessons, f) == Ranks(b);
  }

  /** Reordering the lessons of a problem leaves the placement order, as a sequence of lesson
      ids (and of ranks), unchanged. */
  lemma OrderForgetsInput(a: Problem, b: Problem, orderA: seq<nat>, orderB: seq<nat>)
    requires b == a.(lessons := b.lessons) && multiset(a.lessons) == multiset(b.lessons)
    requires IsFfdOrder(a, orderA) && IsFfdOrder(b, orderB)
    ensures |orderA| == |orderB|
    ensures forall k :: 0 <= k < |orderA| ==> a.lessons[orderA[k]].id == b.lessons[orderB[k]].id
  {
    OrderPermutesRanks(a, orderA);
    OrderPermutesRanks(b, orderB);
    ReorderedRanks(a, b);
    var ra, rb := RanksInOrder(a, orderA), RanksInOrder(b, orderB);
    SortedUnique(RankLe, ra, rb);
    forall k | 0 <= k < |orderA| ensures a.lessons[orderA[k]].id == b.lessons[orderB[k]].id {
      assert ra[k].id == a.lessons[orderA[k]].id && rb[k].id == b.lessons[orderB[k]].id;
    }
  }

  // ----- home rooms in terms of the classes -----

  lemma {:induction false} HomeRoomPairsExact(classes: seq<SchoolClass>)
    ensures forall p :: p in HomeRoomPairs(classes) <==>
      exists i :: 0 <= i < |classes| && classes[i].id == p.0 && classes[i].homeRoomId == Some(p.1)
  {
    if classes == [] {
    } else {
      var n := |classes| - 1;
      HomeRoomPairsExact(classes[..n]);
      forall p ensures p in HomeRoomPairs(classes) <==>
        exists i :: 0 <= i < |classes| && classes[i].id == p.0 && classes[i].homeRoomId == Some(p.1)
      {
        if i :| 0 <= i < n && classes[..n][i].id == p.0 && classes[..n][i].homeRoomId == Some(p.1) {
          assert classes[i].id == p.0;
        }
        if i :| 0 <= i < |classes| && classes[i].id == p.0 && classes[i].homeRoomId == Some(p.1) {
          if i < n { assert classes[..n][i].id == p.0; }
        }
      }
    }
  }

  lemma {:induction false} FirstRoomExact(pairs: seq<(SchoolClassId, RoomId)>, c: SchoolClassId)
    ensures FirstRoom(pairs, c).Some? ==> (c, FirstRoom(pairs, c).value) in pairs
    ensures FirstRoom(pairs, c).None? ==> forall p :: p in pairs ==> p.0 != c
  {
    if pairs != [] && pairs[0].0 != c {
      FirstRoomExact(pairs[1..], c);
      assert pairs == [pairs[0]] + pairs[1..];
    }
  }

  /** With unique class ids, a lesson's home rooms are those of its classes that have one. */
  lemma {:induction false} AllHomeRoomsExact(pr: Problem, classes: seq<SchoolClassId>)
    requires UniqueClassIds(pr)
    ensures forall r :: r in AllHomeRooms(classes, HomeRoomPairs(pr.schoolClasses)) <==>
      exists i :: 0 <= i < |pr.schoolClasses|
        && pr.schoolClasses[i].id in classes && pr.schoolClasses[i].homeRoomId == Some(r)
  {
    var pairs := HomeRoomPairs(pr.schoolClasses);
    if classes == [] {
    } else {
      var n := |classes| - 1;
      var c := classes[n];
      AllHomeRoomsExact(pr, classes[..n]);
      HomeRoomPairsExact(pr.schoolClasses);
      FirstRoomExact(pairs, c);
      assert classes == classes[..n] + [c];
      forall i, r | 0 <= i < |pr.schoolClasses|
        && pr.schoolClasses[i].id == c && pr.schoolClasses[i].homeRoomId == Some(r)
        ensures FirstRoom(pairs, c) == Some(r)
      {
        assert (c, r) in pairs;
      }
    }
  }
}
