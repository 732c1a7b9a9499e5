/** The soft objective as mathematics: every axis over the set of meetings, and the weighted
    total. Score and Quality compute it in two ways. */
module Objective {
  import opened Machine
  import opened Collections
  import opened Types
  import opened Gaps
  import opened Balance
  import opened Timetable
  import SupervisionPass

  /** Every placement's lesson, subject and time block can be looked up. */
  predicate Scored(pr: Problem, p: Placement) {
    Known(pr, p) && LessonsById(pr)[p.lessonId].subjectId in SubjectsById(pr)
  }

  /** What indexing the lookup tables demands, and break counts that fit a u32. */
  predicate Resolves(pr: Problem, ps: seq<Placement>) {
    (forall p :: p in ps ==> Scored(pr, p)) && |pr.timeBlocks| <= U32_MAX
  }

  // ----- calendar -----

  /** The last position of each day, over blocks of either kind. */
  function LastPositions(tbs: seq<TimeBlock>): map<u8, u8> {
    if tbs == [] then map[]
    else
      var acc, tb := LastPositions(tbs[..|tbs| - 1]), tbs[|tbs| - 1];
      acc[tb.dayOfWeek :=
        if tb.dayOfWeek in acc && acc[tb.dayOfWeek] > tb.position then acc[tb.dayOfWeek] else tb.position]
  }

  /** A day is listed exactly when it has a block, and its entry is the largest position there. */
  lemma {:induction false} LastPositionsExact(tbs: seq<TimeBlock>)
    ensures forall tb :: tb in tbs ==>
      tb.dayOfWeek in LastPositions(tbs) && tb.position <= LastPositions(tbs)[tb.dayOfWeek]
    ensures forall d :: d in LastPositions(tbs) ==>
      exists tb :: tb in tbs && tb.dayOfWeek == d && tb.position == LastPositions(tbs)[d]
  {
    if tbs == [] {
    } else {
      var n := |tbs| - 1;
      var front := LastPositions(tbs[..n]);
      LastPositionsExact(tbs[..n]);
      assert tbs == tbs[..n] + [tbs[n]];
      assert tbs[n] in tbs;
      forall d | d in LastPositions(tbs)
        ensures exists tb :: tb in tbs && tb.dayOfWeek == d && tb.position == LastPositions(tbs)[d]
      {
        if d in front && LastPositions(tbs)[d] == front[d] {
          var tb :| tb in tbs[..n] && tb.dayOfWeek == d && tb.position == front[d];
          assert tb in tbs;
        }
      }
    }
  }

  function LastPosition(pr: Problem, tb: TimeBlock): u8 {
    var last := LastPositions(pr.timeBlocks);
    if tb.dayOfWeek in last then last[tb.dayOfWeek] else tb.position
  }

  /** One more than the largest day index, saturating at 255. */
  function DaysOf(tbs: seq<TimeBlock>): u8 {
    if tbs == [] then 0
    else Max(DaysOf(tbs[..|tbs| - 1]), Min(tbs[|tbs| - 1].dayOfWeek + 1, 255))
  }

  function Days(pr: Problem): u8 {
    DaysOf(pr.timeBlocks)
  }

  lemma {:induction false} DaysCover(tbs: seq<TimeBlock>)
    ensures forall tb :: tb in tbs ==> tb.dayOfWeek < DaysOf(tbs) || tb.dayOfWeek == 255
    ensures DaysOf(tbs) > 0 ==> exists tb :: tb in tbs && DaysOf(tbs) == Min(tb.dayOfWeek + 1, 255)
  {
    if tbs == [] {
    } else {
      var n := |tbs| - 1;
      DaysCover(tbs[..n]);
      assert tbs == tbs[..n] + [tbs[n]];
      assert tbs[n] in tbs;
    }
  }

  // ----- time-of-day preferences -----

  /** The early, first, last and late terms of one placement, without saturation. */
  function EarlyUnits(s: Subject, tb: TimeBlock): nat {
    Times(s.preferEarlyPeriod, tb.position)
  }

  function FirstUnits(s: Subject, tb: TimeBlock): nat {
    if tb.position == 0 then s.avoidFirstPeriod else 0
  }

  function LastUnits(s: Subject, tb: TimeBlock, last: u8): nat {
    if tb.position == last then s.avoidLastPeriod else 0
  }

  function LateUnits(s: Subject, tb: TimeBlock, last: u8): nat {
    Times(s.preferLatePeriod, if tb.position < last then last - tb.position else 0)
  }

  function Preference(s: Subject, tb: TimeBlock, last: u8, w: ConstraintWeights): nat {
    Times(w.preferEarlyPeriod, EarlyUnits(s, tb)) + Times(w.avoidFirstPeriod, FirstUnits(s, tb))
    + Times(w.avoidLastPeriod, LastUnits(s, tb, last)) + Times(w.preferLatePeriod, LateUnits(s, tb, last))
  }

  function SubjectOf(pr: Problem, p: Placement): Subject
    requires Scored(pr, p)
  {
    SubjectsById(pr)[LessonsById(pr)[p.lessonId].subjectId]
  }

  function BlockOf(pr: Problem, p: Placement): TimeBlock
    requires Known(pr, p)
  {
    Blocks(pr)[p.timeBlockId]
  }

  function PreferenceTerms(pr: Problem, ps: seq<Placement>, w: ConstraintWeights): (r: seq<nat>)
    requires Resolves(pr, ps)
  {
    seq(|ps|, i requires 0 <= i < |ps| =>
      assert Scored(pr, ps[i]);
      var tb := BlockOf(pr, ps[i]);
      Cap(Preference(SubjectOf(pr, ps[i]), tb, LastPosition(pr, tb), w)))
  }

  // ----- home rooms -----

  /** The class has a home room and this is not it. */
  predicate AwayFromHome(pr: Problem, c: SchoolClassId, room: RoomId) {
    var classes := ClassesById(pr);
    c in classes && classes[c].homeRoomId.Some? && classes[c].homeRoomId.value != room
  }

  /** Member classes away from home, per listed member. */
  function AwayCount(pr: Problem, classes: seq<SchoolClassId>, room: RoomId): nat {
    if classes == [] then 0
    else AwayCount(pr, classes[..|classes| - 1], room) + if AwayFromHome(pr, classes[|classes| - 1], room) then 1 else 0
  }

  function Members(pr: Problem, p: Placement): seq<SchoolClassId>
    requires Known(pr, p)
  {
    LessonsById(pr)[p.lessonId].schoolClassIds
  }

  function HomeRoomTerms(pr: Problem, ps: seq<Placement>, w: ConstraintWeights): (r: seq<nat>)
    requires Resolves(pr, ps)
  {
    seq(|ps|, i requires 0 <= i < |ps| =>
      assert Scored(pr, ps[i]);
      Cap(Times(w.preferHomeRoom, AwayCount(pr, Members(pr, ps[i]), ps[i].roomId))))
  }

  // ----- day balance -----

  /** Distinct slots of a class on each counted day. */
  function SlotCounts(sm: SlotMap, c: SchoolClassId, days: u8): (cs: seq<nat>)
    ensures |cs| == days
  {
    seq(days, d requires 0 <= d < days => |Occupied(sm, (c, d))|)
  }

  function SlotCosts(sm: SlotMap, classes: seq<SchoolClass>, days: u8): (r: seq<nat>) {
    seq(|classes|, i requires 0 <= i < |classes| => Cost(SlotCounts(sm, classes[i].id, days)))
  }

  // ----- worst class: spread and interior gaps -----

  /** Placements of a class on a day, counted per listed member and not per slot. */
  function RawCount(ms: seq<Meeting>, c: SchoolClassId, day: int): nat {
    if ms == [] then 0
    else
      var m := ms[|ms| - 1];
      RawCount(ms[..|ms| - 1], c, day) + if m.day == day then multiset(m.classes)[c] else 0
  }

  /** Classes with a meeting on one of the first five days. */
  function FiveDayClasses(ms: seq<Meeting>): set<SchoolClassId> {
    if ms == [] then {}
    else
      var m := ms[|ms| - 1];
      FiveDayClasses(ms[..|ms| - 1]) + if m.day < 5 then set c | c in m.classes else {}
  }

  function FiveDayCounts(ms: seq<Meeting>, c: SchoolClassId): (r: seq<u32>)
    ensures |r| == 5
  {
    seq(5, d requires 0 <= d < 5 => Wrap(RawCount(ms, c, d)))
  }

  function MaxOf(xs: seq<u32>): (r: u32)
    requires xs != []
    ensures r in xs && forall i :: 0 <= i < |xs| ==> xs[i] <= r
  {
    var n := |xs| - 1;
    if n == 0 then xs[0] else var r := MaxOf(xs[..n]); if xs[n] >= r then xs[n] else r
  }

  function MinOf(xs: seq<u32>): (r: u32)
    requires xs != []
    ensures r in xs && forall i :: 0 <= i < |xs| ==> r <= xs[i]
  {
    var n := |xs| - 1;
    if n == 0 then xs[0] else var r := MinOf(xs[..n]); if xs[n] <= r then xs[n] else r
  }

  function Spread(xs: seq<u32>): u32
    requires xs != []
  {
    assert MinOf(xs) <= xs[0] <= MaxOf(xs);
    MaxOf(xs) - MinOf(xs)
  }

  ghost function SpreadMap(ms: seq<Meeting>): map<SchoolClassId, nat> {
    map c | c in FiveDayClasses(ms) :: Spread(FiveDayCounts(ms, c))
  }

  ghost function WorstSpread(ms: seq<Meeting>): nat {
    MapMax<SchoolClassId>(SpreadMap(ms))
  }

  /** Gaps as the span formula sees them: a day that occupies both position 0 and position 255
      has a span of 256, which wraps to 0 in a u8. */
  ghost function SpanGaps(s: set<int>): nat {
    if 0 in s && 255 in s then 0 else |Missing(s)|
  }

  ghost function SpanGapMap(sm: SlotMap): (r: map<(Uuid, u8), nat>) {
    map k | k in sm :: SpanGaps(sm[k])
  }

  ghost function InteriorMap(sm: SlotMap): (r: map<Uuid, nat>) {
    map id | id in Owners(sm.Keys) :: Cap(OwnerSum(SpanGapMap(sm), id))
  }

  ghost function WorstInterior(sm: SlotMap): nat {
    MapMax<Uuid>(InteriorMap(sm))
  }

  // ----- class teachers and soft pins -----

  predicate Qualified(pr: Problem, t: TeacherId, s: SubjectId) {
    TeacherQualification(t, s) in pr.teacherQualifications
  }

  /** The first teacher seen for each (class, subject), walking the members of one lesson. */
  function NoteTeacher(acc: map<(SchoolClassId, SubjectId), TeacherId>, classes: seq<SchoolClassId>, s: SubjectId,
                       t: TeacherId)
    : map<(SchoolClassId, SubjectId), TeacherId>
  {
    if classes == [] then acc
    else
      var r, k := NoteTeacher(acc, classes[..|classes| - 1], s, t), (classes[|classes| - 1], s);
      if k in r then r else r[k := t]
  }

  function FirstTeachers(pr: Problem, ps: seq<Placement>): map<(SchoolClassId, SubjectId), TeacherId>
    requires forall p :: p in ps ==> Known(pr, p)
  {
    if ps == [] then map[]
    else
      var p := ps[|ps| - 1];
      NoteTeacher(FirstTeachers(pr, ps[..|ps| - 1]), Members(pr, p), LessonsById(pr)[p.lessonId].subjectId, p.teacherId)
  }

  /** The placement gives class `k.0` a lesson in subject `k.1`. */
  predicate Teaches(pr: Problem, p: Placement, k: (SchoolClassId, SubjectId))
    requires Known(pr, p)
  {
    k.0 in Members(pr, p) && LessonsById(pr)[p.lessonId].subjectId == k.1
  }

  lemma {:induction false} NoteTeacherExact(acc: map<(SchoolClassId, SubjectId), TeacherId>,
                                            classes: seq<SchoolClassId>, s: SubjectId, t: TeacherId,
                                            k: (SchoolClassId, SubjectId))
    ensures var r := NoteTeacher(acc, classes, s, t); var joins := k.0 in classes && k.1 == s;
      && (k in r <==> k in acc || joins)
      && (k in r ==> r[k] == if k in acc then acc[k] else t)
  {
    if classes == [] {
    } else {
      var n := |classes| - 1;
      NoteTeacherExact(acc, classes[..n], s, t, k);
      assert classes == classes[..n] + [classes[n]];
    }
  }

  /** Placement `i` is the first that gives the class a lesson in the subject. */
  predicate FirstToTeach(pr: Problem, ps: seq<Placement>, i: int, k: (SchoolClassId, SubjectId))
    requires forall p :: p in ps ==> Known(pr, p)
  {
    0 <= i < |ps| && Teaches(pr, ps[i], k) && forall j :: 0 <= j < i ==> !Teaches(pr, ps[j], k)
  }

  /** The teacher noted for a class and subject is that of the earliest placement that gives the
      class a lesson in the subject; nobody is noted when there is none. */
  lemma {:induction false} FirstTeachersExact(pr: Problem, ps: seq<Placement>, k: (SchoolClassId, SubjectId))
    requires forall p :: p in ps ==> Known(pr, p)
    ensures k in FirstTeachers(pr, ps) <==> exists i :: 0 <= i < |ps| && Teaches(pr, ps[i], k)
    ensures forall i :: FirstToTeach(pr, ps, i, k) ==>
      k in FirstTeachers(pr, ps) && FirstTeachers(pr, ps)[k] == ps[i].teacherId
  {
    if ps == [] {
    } else {
      var n := |ps| - 1;
      FirstTeachersExact(pr, ps[..n], k);
      FirstTeachersStep(pr, ps, n, k);
    }
  }

  lemma FirstTeachersStep(pr: Problem, ps: seq<Placement>, n: nat, k: (SchoolClassId, SubjectId))
    requires |ps| == n + 1 && forall p :: p in ps ==> Known(pr, p)
    ensures var front, all := FirstTeachers(pr, ps[..n]), FirstTeachers(pr, ps);
      && (k in all <==> k in front || Teaches(pr, ps[n], k))
      && (k in all ==> all[k] == if k in front then front[k] else ps[n].teacherId)
    ensures forall i :: 0 <= i < n ==> (FirstToTeach(pr, ps, i, k) <==> FirstToTeach(pr, ps[..n], i, k))
  {
    var p := ps[n];
    assert forall j :: 0 <= j < n ==> ps[..n][j] == ps[j];
    NoteTeacherExact(FirstTeachers(pr, ps[..n]), Members(pr, p), LessonsById(pr)[p.lessonId].subjectId, p.teacherId, k);
  }

  /** The class teacher is qualified for the subject, but somebody else teaches it. */
  predicate ClassTeacherMissed(pr: Problem, k: (SchoolClassId, SubjectId), t: TeacherId) {
    var classes := ClassesById(pr);
    && k.0 in classes
    && classes[k.0].classTeacherId.Some?
    && Qualified(pr, classes[k.0].classTeacherId.value, k.1)
    && t != classes[k.0].classTeacherId.value
  }

  function ClassTeacherMisses(pr: Problem, ps: seq<Placement>): set<(SchoolClassId, SubjectId)>
    requires forall p :: p in ps ==> Known(pr, p)
  {
    var first := FirstTeachers(pr, ps);
    set k | k in first && ClassTeacherMissed(pr, k, first[k])
  }

  type PinKey = (LessonId, TimeBlockId)

  function PlacementKeys(ps: seq<Placement>): set<PinKey> {
    set p | p in ps :: (p.lessonId, p.timeBlockId)
  }

  // ----- the objective -----

  /** The ten numbers the weights apply to. Plain u32 sums wrap, saturating ones are capped. */
  datatype Axes = Axes(
    classGap: nat,
    teacherGap: nat,
    preference: nat,
    balance: nat,
    spread: nat,
    interior: nat,
    homeRoom: nat,
    softMiss: nat,
    classTeacher: nat,
    supervision: nat)

  /** The axes that do not depend on the soft pins. */
  ghost function PinFreeAxes(pr: Problem, ps: seq<Placement>, w: ConstraintWeights): Axes
    requires Resolves(pr, ps)
  {
    var ms := Meetings(pr, ps);
    Axes(
      Wrap(GapHours(ClassSlots(ms))),
      Wrap(GapHours(TeacherSlots(ms))),
      Wrap(Sum(PreferenceTerms(pr, ps, w))),
      Cap(Sum(SlotCosts(ClassSlots(ms), pr.schoolClasses, Days(pr)))),
      WorstSpread(ms),
      WorstInterior(ClassSlots(ms)),
      Wrap(Sum(HomeRoomTerms(pr, ps, w))),
      0,
      Cap(|ClassTeacherMisses(pr, ps)|),
      Max(0, SupervisionPass.SpreadOf(pr, ps)))
  }

  ghost function SoftMisses(soft: set<PinKey>, ps: seq<Placement>): nat {
    Wrap(|soft - PlacementKeys(ps)|)
  }

  ghost function AxesOf(pr: Problem, ps: seq<Placement>, w: ConstraintWeights, soft: set<PinKey>): Axes
    requires Resolves(pr, ps)
  {
    PinFreeAxes(pr, ps, w).(softMiss := SoftMisses(soft, ps))
  }

  /** The slice that local search maintains: gaps and time-of-day preferences. */
  function SliceTotal(w: ConstraintWeights, a: Axes): nat {
    Times(w.classGap, a.classGap) + Times(w.teacherGap, a.teacherGap) + a.preference
  }

  function ExtraTotal(w: ConstraintWeights, a: Axes): nat {
    Times(w.classDayBalance, a.balance) + Times(w.maxPerClassSpread, a.spread)
    + Times(w.maxPerClassInteriorGaps, a.interior) + a.homeRoom + Times(w.softPinMiss, a.softMiss)
    + Times(w.preferClassTeacher, a.classTeacher) + Times(w.supervisionSpread, a.supervision)
  }

  /** The weighted sum of the axes, capped once at the end. */
  function WeightedTotal(w: ConstraintWeights, a: Axes): u32 {
    Cap(SliceTotal(w, a) + ExtraTotal(w, a))
  }
}
