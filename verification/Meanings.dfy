/** What the axes and the report's figures are in terms of the problem's lists and the placements
    (score.rs, quality.rs). */
module Meanings {
  import opened Machine
  import opened Collections
  import opened Types
  import opened Gaps
  import opened Balance
  import opened Timetable
  import opened Objective
  import opened Quality
  import opened HomeRooms
  import opened GapMetrics
  import opened UnitTotals
  import Supervision
  import SupervisionPass

  // ----- where classes and teachers are -----

  /** The placement resolves to that day and position. */
  predicate At(pr: Problem, p: Placement, day: u8, position: int) {
    Known(pr, p) && Blocks(pr)[p.timeBlockId].dayOfWeek == day && Blocks(pr)[p.timeBlockId].position == position
  }

  /** The placement resolves, and the meeting has its teacher, its lesson's classes and its block's
      day and position. */
  predicate MeetsAs(pr: Problem, p: Placement, m: Meeting) {
    && At(pr, p, m.day, m.position)
    && m.teacher == p.teacherId && m.classes == LessonsById(pr)[p.lessonId].schoolClassIds
  }

  lemma {:induction false} MeetingsMember(pr: Problem, ps: seq<Placement>, m: Meeting)
    ensures m in Meetings(pr, ps) <==> exists i :: 0 <= i < |ps| && MeetsAs(pr, ps[i], m)
  {
    if ps == [] {
    } else {
      var n := |ps| - 1;
      MeetingsMember(pr, ps[..n], m);
      assert forall i :: 0 <= i < n ==> ps[..n][i] == ps[i];
    }
  }

  /** A class takes a position exactly when a resolving placement of one of its lessons is there. */
  lemma ClassOccupiedMeaning(pr: Problem, ps: seq<Placement>, c: SchoolClassId, day: u8, q: int)
    ensures q in Occupied(ClassSlots(Meetings(pr, ps)), (c, day)) <==>
      exists i :: 0 <= i < |ps| && At(pr, ps[i], day, q) && c in LessonsById(pr)[ps[i].lessonId].schoolClassIds
  {
    var ms := Meetings(pr, ps);
    ClassSlotsMember(ms, c, day);
    if m :| m in ms && c in m.classes && m.day == day && m.position == q {
      MeetingsMember(pr, ps, m);
    }
    if i :| 0 <= i < |ps| && At(pr, ps[i], day, q) && c in LessonsById(pr)[ps[i].lessonId].schoolClassIds {
      var m := MeetingOf(pr, ps[i]);
      MeetingsMember(pr, ps, m);
      assert m in ms && c in m.classes && m.day == day && m.position == q;
    }
  }

  /** A teacher takes a position exactly when one of their resolving placements is there. */
  lemma TeacherOccupiedMeaning(pr: Problem, ps: seq<Placement>, t: TeacherId, day: u8, q: int)
    ensures q in Occupied(TeacherSlots(Meetings(pr, ps)), (t, day)) <==>
      exists i :: 0 <= i < |ps| && At(pr, ps[i], day, q) && ps[i].teacherId == t
  {
    var ms := Meetings(pr, ps);
    TeacherSlotsMember(ms, t, day);
    if m :| m in ms && m.teacher == t && m.day == day && m.position == q {
      MeetingsMember(pr, ps, m);
    }
    if i :| 0 <= i < |ps| && At(pr, ps[i], day, q) && ps[i].teacherId == t {
      var m := MeetingOf(pr, ps[i]);
      MeetingsMember(pr, ps, m);
      assert m in ms && m.teacher == t && m.day == day && m.position == q;
    }
  }

  // ----- sums by day -----

  /** The entries of one class or teacher, added day by day. */
  function DaySum(m: map<(Uuid, u8), nat>, id: Uuid, n: nat): nat
    requires n <= 256
  {
    if n == 0 then 0
    else
      var d: u8 := n - 1;
      DaySum(m, id, n - 1) + if (id, d) in m then m[(id, d)] else 0
  }

  ghost function FirstDays(m: map<(Uuid, u8), nat>, id: Uuid, n: nat): map<(Uuid, u8), nat> {
    map k | k in m && k.0 == id && k.1 < n :: m[k]
  }

  lemma {:induction false} FirstDaysSum(m: map<(Uuid, u8), nat>, id: Uuid, n: nat)
    requires n <= 256
    ensures MapSum<(Uuid, u8)>(FirstDays(m, id, n)) == DaySum(m, id, n)
  {
    if n == 0 {
      assert FirstDays(m, id, n).Keys == {};
    } else {
      var k: (Uuid, u8) := (id, n - 1);
      FirstDaysSum(m, id, n - 1);
      if k in m {
        assert FirstDays(m, id, n) == FirstDays(m, id, n - 1)[k := m[k]];
        MapSumInsert<(Uuid, u8)>(FirstDays(m, id, n - 1), k, m[k]);
      } else {
        assert FirstDays(m, id, n) == FirstDays(m, id, n - 1);
      }
    }
  }

  lemma OwnerSumByDays(m: map<(Uuid, u8), nat>, id: Uuid)
    ensures OwnerSum(m, id) == DaySum(m, id, 256)
  {
    FirstDaysSum(m, id, 256);
    assert FirstDays(m, id, 256) == Of(m, id);
  }

  /** The gap hours charged to one class: its free ordinals between first and last, day by day. */
  lemma ReportedClassGaps(r: QualityReport, pr: Problem, ps: seq<Placement>, violations: nat, w: ConstraintWeights,
                          c: SchoolClassId)
    requires Resolves(pr, ps) && Reports(r, pr, ps, violations, w)
    ensures var gaps := DaySum(GapMap(ClassSlots(Meetings(pr, ps))), c, 256);
      && (c in r.classGapHoursByClass <==> gaps > 0)
      && (c in r.classGapHoursByClass ==> r.classGapHoursByClass[c] == gaps)
  {
    var sm := ClassSlots(Meetings(pr, ps));
    OwnerSumByDays(GapMap(sm), c);
    ClassSlotsAreU8(Meetings(pr, ps));
    ChargedGaps(sm, r.classGapHoursByClass, c);
    OwnerGapBound(sm, c);
    WrapSmall(OwnerSum(GapMap(sm), c));
  }

  lemma ChargedGaps(sm: SlotMap, byOwner: map<Uuid, u32>, id: Uuid)
    requires Tallies(byOwner, Attribution(GapMap(sm)))
    ensures id in byOwner <==> OwnerSum(GapMap(sm), id) > 0
    ensures id in byOwner ==> byOwner[id] == Wrap(OwnerSum(GapMap(sm), id))
  {
    var gaps := GapMap(sm);
    if OwnerSum(gaps, id) > 0 && id !in Owners(gaps.Keys) {
      NoEntriesNoSum(gaps, id);
    }
  }

  lemma NoEntriesNoSum(m: map<(Uuid, u8), nat>, id: Uuid)
    requires id !in Owners(m.Keys)
    ensures OwnerSum(m, id) == 0
  {
    forall k | k in m ensures k.0 != id {
      assert k in m.Keys;
    }
    assert Of(m, id).Keys == {};
  }

  lemma ReportedTeacherGaps(r: QualityReport, pr: Problem, ps: seq<Placement>, violations: nat, w: ConstraintWeights,
                            t: TeacherId)
    requires Resolves(pr, ps) && Reports(r, pr, ps, violations, w)
    ensures var gaps := DaySum(GapMap(TeacherSlots(Meetings(pr, ps))), t, 256);
      && (t in r.teacherGapHoursByTeacher <==> gaps > 0)
      && (t in r.teacherGapHoursByTeacher ==> r.teacherGapHoursByTeacher[t] == Wrap(gaps))
  {
    OwnerSumByDays(GapMap(TeacherSlots(Meetings(pr, ps))), t);
    ChargedGaps(TeacherSlots(Meetings(pr, ps)), r.teacherGapHoursByTeacher, t);
  }

  // ----- time-of-day preferences -----

  /** One placement's preference score before it saturates, term by term. */
  lemma PreferenceMeaning(s: Subject, tb: TimeBlock, last: u8, w: ConstraintWeights)
    ensures Preference(s, tb, last, w)
         == w.preferEarlyPeriod * (s.preferEarlyPeriod * tb.position)
          + (if tb.position == 0 then w.avoidFirstPeriod * s.avoidFirstPeriod else 0)
          + (if tb.position == last then w.avoidLastPeriod * s.avoidLastPeriod else 0)
          + w.preferLatePeriod * (s.preferLatePeriod * if tb.position < last then last - tb.position else 0)
  {}

  /** The units of one placement on each axis. */
  lemma UnitsMeaning(s: Subject, tb: TimeBlock, last: u8)
    ensures UnitsAt(Early, s, tb, last) == s.preferEarlyPeriod * tb.position
    ensures UnitsAt(First, s, tb, last) == if tb.position == 0 then s.avoidFirstPeriod else 0
    ensures UnitsAt(Last, s, tb, last) == if tb.position == last then s.avoidLastPeriod else 0
    ensures UnitsAt(Late, s, tb, last) == s.preferLatePeriod * if tb.position < last then last - tb.position else 0
  {}

  /** The terms of placement `i`: its own lesson's subject and its own block, uncapped for the units and
      capped for the score. */
  lemma TermsMeaning(pr: Problem, ps: seq<Placement>, w: ConstraintWeights, axis: TimeAxis, i: nat)
    requires Resolves(pr, ps) && i < |ps|
    ensures ps[i].timeBlockId in Blocks(pr) && ps[i].lessonId in LessonsById(pr)
    ensures LessonsById(pr)[ps[i].lessonId].subjectId in SubjectsById(pr)
    ensures var s, tb := SubjectsById(pr)[LessonsById(pr)[ps[i].lessonId].subjectId], Blocks(pr)[ps[i].timeBlockId];
      && |UnitTerms(pr, ps, axis)| == |PreferenceTerms(pr, ps, w)| == |ps|
      && UnitTerms(pr, ps, axis)[i] == UnitsAt(axis, s, tb, LastPosition(pr, tb))
      && PreferenceTerms(pr, ps, w)[i] == Cap(Preference(s, tb, LastPosition(pr, tb), w))
  {
    assert Scored(pr, ps[i]);
  }

  /** The last position of a block's day is the largest one there. */
  lemma LastPositionMeaning(pr: Problem, tb: TimeBlock)
    requires tb in pr.timeBlocks
    ensures forall b :: b in pr.timeBlocks && b.dayOfWeek == tb.dayOfWeek ==> b.position <= LastPosition(pr, tb)
    ensures exists b :: b in pr.timeBlocks && b.dayOfWeek == tb.dayOfWeek && b.position == LastPosition(pr, tb)
  {
    LastPositionsExact(pr.timeBlocks);
  }

  // ----- class teachers -----

  /** The placement gives the class a lesson in the subject. */
  predicate Gives(pr: Problem, p: Placement, c: SchoolClassId, s: SubjectId)
    requires Known(pr, p)
  {
    c in LessonsById(pr)[p.lessonId].schoolClassIds && LessonsById(pr)[p.lessonId].subjectId == s
  }

  /** Placement `i` is the first that gives the class a lesson in the subject. */
  ghost predicate FirstGiving(pr: Problem, ps: seq<Placement>, i: int, c: SchoolClassId, s: SubjectId)
    requires forall p :: p in ps ==> Known(pr, p)
  {
    0 <= i < |ps| && Gives(pr, ps[i], c, s) && forall j :: 0 <= j < i ==> !Gives(pr, ps[j], c, s)
  }

  /** The class has a class teacher `t` who is listed as qualified for the subject. */
  ghost predicate HasQualifiedTeacher(pr: Problem, c: SchoolClassId, s: SubjectId, t: TeacherId) {
    && TeacherQualification(t, s) in pr.teacherQualifications
    && exists k :: LastListing(pr, k) && pr.schoolClasses[k].id == c && pr.schoolClasses[k].classTeacherId == Some(t)
  }

  lemma ClassTeacherOf(pr: Problem, c: SchoolClassId, t: TeacherId)
    ensures c in ClassesById(pr) && ClassesById(pr)[c].classTeacherId == Some(t) <==>
      exists k :: LastListing(pr, k) && pr.schoolClasses[k].id == c && pr.schoolClasses[k].classTeacherId == Some(t)
  {
    var key := (x: SchoolClass) => x.id;
    if c in ClassesById(pr) {
      var i := LastOf(pr.schoolClasses, key, c);
      CollectByLast(pr.schoolClasses, key, i);
      assert LastListing(pr, i) by {
        assert forall j :: i < j < |pr.schoolClasses| ==> key(pr.schoolClasses[j]) != key(pr.schoolClasses[i]);
      }
    }
    if k :| LastListing(pr, k) && pr.schoolClasses[k].id == c && pr.schoolClasses[k].classTeacherId == Some(t) {
      assert IsLast(pr.schoolClasses, key, k);
      CollectByLast(pr.schoolClasses, key, k);
    }
  }

  lemma {:induction false} FirstExists(pr: Problem, ps: seq<Placement>, n: nat, c: SchoolClassId, s: SubjectId)
    returns (i: nat)
    requires forall p :: p in ps ==> Known(pr, p)
    requires n < |ps| && Gives(pr, ps[n], c, s)
    ensures FirstGiving(pr, ps, i, c, s)
  {
    if j: nat :| j < n && Gives(pr, ps[j], c, s) {
      i := FirstExists(pr, ps, j, c, s);
    } else {
      i := n;
    }
  }

  /** A (class, subject) pair is a miss exactly when the class has a qualified class teacher and its
      first placement in the subject is taught by somebody else. */
  lemma ClassTeacherMissesMeaning(pr: Problem, ps: seq<Placement>, c: SchoolClassId, s: SubjectId)
    requires forall p :: p in ps ==> Known(pr, p)
    ensures (c, s) in ClassTeacherMisses(pr, ps) <==>
      exists i, t :: FirstGiving(pr, ps, i, c, s) && HasQualifiedTeacher(pr, c, s, t) && ps[i].teacherId != t
  {
    FirstTeachersExact(pr, ps, (c, s));
    assert forall i :: 0 <= i < |ps| ==> (Teaches(pr, ps[i], (c, s)) <==> Gives(pr, ps[i], c, s));
    assert forall i :: FirstGiving(pr, ps, i, c, s) <==> FirstToTeach(pr, ps, i, (c, s));
    if (c, s) in ClassTeacherMisses(pr, ps) {
      var n: nat :| n < |ps| && Teaches(pr, ps[n], (c, s));
      var i := FirstExists(pr, ps, n, c, s);
      var t := ClassesById(pr)[c].classTeacherId.value;
      ClassTeacherOf(pr, c, t);
      assert FirstGiving(pr, ps, i, c, s) && HasQualifiedTeacher(pr, c, s, t) && ps[i].teacherId != t;
    }
    if i, t :| FirstGiving(pr, ps, i, c, s) && HasQualifiedTeacher(pr, c, s, t) && ps[i].teacherId != t {
      ClassTeacherOf(pr, c, t);
      assert FirstToTeach(pr, ps, i, (c, s));
    }
  }

  // ----- soft pins -----

  /** Some placement puts the pinned lesson into the pinned block. */
  ghost predicate Honoured(ps: seq<Placement>, pin: PinnedPlacement) {
    exists p :: p in ps && p.lessonId == pin.lessonId && p.timeBlockId == pin.timeBlockId
  }

  /** The soft pins no placement honours. */
  ghost function MissedPins(pr: Problem, ps: seq<Placement>): set<PinKey> {
    set pin | pin in pr.pinnedPlacements && pin.kind == Soft && !Honoured(ps, pin) :: (pin.lessonId, pin.timeBlockId)
  }

  /** The lesson and the block of the pin are in the problem's lists. */
  ghost predicate NamesListed(pr: Problem, pin: PinnedPlacement) {
    && (exists l :: l in pr.lessons && l.id == pin.lessonId)
    && exists tb :: tb in pr.timeBlocks && tb.id == pin.timeBlockId
  }

  ghost function MissedValidPins(pr: Problem, ps: seq<Placement>): set<PinKey> {
    set pin | pin in pr.pinnedPlacements && pin.kind == Soft && NamesListed(pr, pin) && !Honoured(ps, pin)
      :: (pin.lessonId, pin.timeBlockId)
  }

  lemma PlacementKeysMeaning(ps: seq<Placement>, pin: PinnedPlacement)
    ensures (pin.lessonId, pin.timeBlockId) in PlacementKeys(ps) <==> Honoured(ps, pin)
  {}

  lemma NamesListedMeaning(pr: Problem, pin: PinnedPlacement)
    ensures NamesListed(pr, pin) <==> pin.lessonId in LessonsById(pr) && pin.timeBlockId in Blocks(pr)
  {
    CollectByMember(pr.lessons, (l: Lesson) => l.id);
    CollectByMember(pr.timeBlocks, (tb: TimeBlock) => tb.id);
    if l :| l in pr.lessons && l.id == pin.lessonId {
      assert ((l: Lesson) => l.id)(l) in LessonsById(pr);
    }
    if tb :| tb in pr.timeBlocks && tb.id == pin.timeBlockId {
      assert ((tb: TimeBlock) => tb.id)(tb) in Blocks(pr);
    }
    if pin.lessonId in LessonsById(pr) {
      assert LessonsById(pr)[pin.lessonId] in pr.lessons;
    }
    if pin.timeBlockId in Blocks(pr) {
      assert Blocks(pr)[pin.timeBlockId] in pr.timeBlocks;
    }
  }

  /** The soft-pin axis counts the soft pins that no placement honours: over all of them in the JSON
      score, over those whose names are listed in the report. Hard pins and honoured soft pins cost
      nothing. */
  lemma SoftMissesMeaning(pr: Problem, ps: seq<Placement>)
    ensures SoftMisses(SoftPins(pr), ps) == Wrap(|MissedPins(pr, ps)|)
    ensures SoftMisses(ValidSoftPins(pr), ps) == Wrap(|MissedValidPins(pr, ps)|)
  {
    forall pin: PinnedPlacement
      ensures (pin.lessonId, pin.timeBlockId) in PlacementKeys(ps) <==> Honoured(ps, pin)
      ensures NamesListed(pr, pin) <==> pin.lessonId in LessonsById(pr) && pin.timeBlockId in Blocks(pr)
    {
      PlacementKeysMeaning(ps, pin);
      NamesListedMeaning(pr, pin);
    }
    assert SoftPins(pr) - PlacementKeys(ps) == MissedPins(pr, ps);
    assert ValidSoftPins(pr) - PlacementKeys(ps) == MissedValidPins(pr, ps);
  }

  // ----- worst spread -----

  /** The (meeting, member) pairs that put the class into the day. */
  ghost function DayPairs(ms: seq<Meeting>, c: SchoolClassId, day: int): set<(nat, nat)> {
    set i: nat, j: nat | i < |ms| && ms[i].day == day && j < |ms[i].classes| && ms[i].classes[j] == c :: (i, j)
  }

  ghost function Listings(classes: seq<SchoolClassId>, c: SchoolClassId): set<nat> {
    set j: nat | j < |classes| && classes[j] == c
  }

  lemma {:induction false} ListingsSize(classes: seq<SchoolClassId>, c: SchoolClassId)
    ensures |Listings(classes, c)| == multiset(classes)[c]
  {
    if classes == [] {
      assert Listings(classes, c) == {};
    } else {
      var n := |classes| - 1;
      ListingsSize(classes[..n], c);
      assert classes == classes[..n] + [classes[n]];
      if classes[n] == c {
        assert Listings(classes, c) == Listings(classes[..n], c) + {n};
      } else {
        assert Listings(classes, c) == Listings(classes[..n], c);
      }
    }
  }

  lemma DayPairsSplit(ms: seq<Meeting>, n: nat, c: SchoolClassId, day: int)
    requires |ms| == n + 1
    ensures DayPairs(ms, c, day)
         == DayPairs(ms[..n], c, day) + if ms[n].day == day then Tagged(n, Listings(ms[n].classes, c)) else {}
  {
    assert forall i :: 0 <= i < n ==> ms[..n][i] == ms[i];
  }

  /** The raw count of a class on a day is the number of pairs that put it there. */
  lemma {:induction false} RawCountMeaning(ms: seq<Meeting>, c: SchoolClassId, day: int)
    ensures RawCount(ms, c, day) == |DayPairs(ms, c, day)|
  {
    if ms == [] {
      assert DayPairs(ms, c, day) == {};
    } else {
      var n := |ms| - 1;
      RawCountMeaning(ms[..n], c, day);
      DayPairsSplit(ms, n, c, day);
      ListingsSize(ms[n].classes, c);
      TaggedSize(n, Listings(ms[n].classes, c));
      DisjointSize(DayPairs(ms[..n], c, day), Tagged(n, Listings(ms[n].classes, c)));
    }
  }

  lemma SpreadBounds(ms: seq<Meeting>, c: SchoolClassId, d: int, e: int)
    requires 0 <= d < 5 && 0 <= e < 5 && forall k :: 0 <= k < 5 ==> RawCount(ms, c, k) <= U32_MAX
    ensures RawCount(ms, c, d) - RawCount(ms, c, e) <= Spread(FiveDayCounts(ms, c))
  {
    var raw := FiveDayCounts(ms, c);
    WrapSmall(RawCount(ms, c, d));
    WrapSmall(RawCount(ms, c, e));
    assert raw[d] <= MaxOf(raw) && MinOf(raw) <= raw[e];
  }

  lemma SpreadAttained(ms: seq<Meeting>, c: SchoolClassId) returns (d: int, e: int)
    requires forall k :: 0 <= k < 5 ==> RawCount(ms, c, k) <= U32_MAX
    ensures 0 <= d < 5 && 0 <= e < 5 && Spread(FiveDayCounts(ms, c)) == RawCount(ms, c, d) - RawCount(ms, c, e)
  {
    var raw := FiveDayCounts(ms, c);
    d :| 0 <= d < 5 && raw[d] == MaxOf(raw);
    e :| 0 <= e < 5 && raw[e] == MinOf(raw);
    WrapSmall(RawCount(ms, c, d));
    WrapSmall(RawCount(ms, c, e));
  }

  /** The worst spread is the largest difference between two of the first five days of one class, as
      long as the plain u32 counters do not overflow. */
  lemma WorstSpreadMeaning(ms: seq<Meeting>)
    requires forall c, k :: 0 <= k < 5 ==> RawCount(ms, c, k) <= U32_MAX
    ensures forall c, d, e :: 0 <= d < 5 && 0 <= e < 5 ==> RawCount(ms, c, d) - RawCount(ms, c, e) <= WorstSpread(ms)
    ensures WorstSpread(ms) == 0 || exists c, d, e ::
      0 <= d < 5 && 0 <= e < 5 && WorstSpread(ms) == RawCount(ms, c, d) - RawCount(ms, c, e)
  {
    forall c, d, e | 0 <= d < 5 && 0 <= e < 5 ensures RawCount(ms, c, d) - RawCount(ms, c, e) <= WorstSpread(ms) {
      FiveDayMember(ms, c);
      if c in FiveDayClasses(ms) {
        SpreadBounds(ms, c, d, e);
        assert SpreadMap(ms)[c] <= WorstSpread(ms);
      }
    }
    if WorstSpread(ms) > 0 {
      var c: SchoolClassId :| c in SpreadMap(ms) && SpreadMap(ms)[c] == WorstSpread(ms);
      var d, e := SpreadAttained(ms, c);
    }
  }

  // ----- the report -----

  /** The hours of all lessons. */
  function WeeklyHours(lessons: seq<Lesson>): (r: seq<nat>) {
    seq(|lessons|, i requires 0 <= i < |lessons| => lessons[i].hoursPerWeek)
  }

  lemma {:induction false} ExpectedHoursMeaning(lessons: seq<Lesson>)
    ensures ExpectedHours(lessons) == Sum(WeeklyHours(lessons))
  {
    if lessons == [] {
    } else {
      var n := |lessons| - 1;
      ExpectedHoursMeaning(lessons[..n]);
      assert WeeklyHours(lessons)[..n] == WeeklyHours(lessons[..n]);
    }
  }

  /** Each scalar of the report, on the problem's own quantities. */
  lemma ReportFields(r: QualityReport, pr: Problem, ps: seq<Placement>, violations: nat, w: ConstraintWeights)
    requires Resolves(pr, ps) && Reports(r, pr, ps, violations, w)
    requires Sum(WeeklyHours(pr.lessons)) <= U32_MAX && |ps| <= U32_MAX && violations <= U32_MAX
    ensures var ms := Meetings(pr, ps); var hours := Sum(WeeklyHours(pr.lessons));
      && r.hardViolations == violations
      && r.unplacedHours == (if hours > |ps| then hours - |ps| else 0)
      && r.classGapHours == Wrap(GapHours(ClassSlots(ms)))
      && r.teacherGapHours == Wrap(GapHours(TeacherSlots(ms)))
      && r.worstPerClassSpread == WorstSpread(ms)
      && r.worstPerClassInteriorGaps == WorstInterior(ClassSlots(ms))
      && r.supervisionSpreadRaw == SupervisionPass.SpreadOf(pr, ps)
      && r.softPinMisses == Wrap(|MissedValidPins(pr, ps)|)
      && r.preferClassTeacherMisses == Cap(|ClassTeacherMissesOf(pr, ps)|)
      && r.homeRoomMisses == Wrap(|AllAwayPairsOf(pr, ps)|)
  {
    KnownPlacements(pr, ps);
    ExpectedHoursMeaning(pr.lessons);
    WrapSmall(Sum(WeeklyHours(pr.lessons)));
    SoftMissesMeaning(pr, ps);
    TotalMissesMeaning(pr, ps);
    Supervision.SpreadBound(SupervisionPass.RotaOf(pr, ps));
  }

  lemma KnownPlacements(pr: Problem, ps: seq<Placement>)
    requires Resolves(pr, ps)
    ensures forall p :: p in ps ==> Known(pr, p)
  {
    forall p | p in ps ensures Known(pr, p) {
      assert Scored(pr, p);
    }
  }

  ghost function ClassTeacherMissesOf(pr: Problem, ps: seq<Placement>): set<(SchoolClassId, SubjectId)>
    requires Resolves(pr, ps)
  {
    KnownPlacements(pr, ps);
    ClassTeacherMisses(pr, ps)
  }

  ghost function AllAwayPairsOf(pr: Problem, ps: seq<Placement>): set<(nat, nat)>
    requires Resolves(pr, ps)
  {
    KnownPlacements(pr, ps);
    AllAwayPairs(pr, ps)
  }
}
