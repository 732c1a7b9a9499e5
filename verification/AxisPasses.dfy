/** The loops behind the single axes (score.rs), each proved against its axis of Objective. */
module AxisPasses {
  import opened Machine
  import opened Collections
  import opened Sorting
  import opened Types
  import opened Gaps
  import opened BalanceForms
  import opened Timetable
  import opened Objective

  // ----- time-of-day preference -----

  /** A guarded term equals its capped product, because a zero factor contributes nothing. */
  lemma GuardedTerm(w: u32, s: u32, x: u8)
    ensures (if s > 0 && w > 0 then SatMul(SatMul(w, s), x) else 0) == Cap(Times(w, Times(s, x)))
    ensures (if s > 0 then SatMul(SatMul(w, s), x) else 0) == Cap(Times(w, Times(s, x)))
  {
    SatMulTwice(w, s, x);
    TimesZero(x);
    TimesZero(Times(s, x));
  }

  lemma CapOfFour(e: nat, f: nat, l: nat, t: nat)
    ensures SatAdd(SatAdd(SatAdd(Cap(e), Cap(f)), Cap(l)), Cap(t)) == Cap(e + f + l + t)
  {}

  method SubjectPreferenceScore(s: Subject, tb: TimeBlock, last: u8, w: ConstraintWeights) returns (score: u32)
    ensures score == Cap(Preference(s, tb, last, w))
  {
    var distance: u8 := if tb.position < last then last - tb.position else 0;
    GuardedTerm(w.preferEarlyPeriod, s.preferEarlyPeriod, tb.position);
    GuardedTerm(w.preferLatePeriod, s.preferLatePeriod, distance);
    CapOfFour(Times(w.preferEarlyPeriod, EarlyUnits(s, tb)), Times(w.avoidFirstPeriod, FirstUnits(s, tb)),
              Times(w.avoidLastPeriod, LastUnits(s, tb, last)), Times(w.preferLatePeriod, LateUnits(s, tb, last)));
    score := 0;
    if s.preferEarlyPeriod > 0 {
      score := SatAdd(score, SatMul(SatMul(w.preferEarlyPeriod, s.preferEarlyPeriod), tb.position));
    }
    if s.avoidFirstPeriod > 0 && tb.position == 0 {
      score := SatAdd(score, SatMul(w.avoidFirstPeriod, s.avoidFirstPeriod));
    }
    if s.avoidLastPeriod > 0 && tb.position == last {
      score := SatAdd(score, SatMul(w.avoidLastPeriod, s.avoidLastPeriod));
    }
    if s.preferLatePeriod > 0 && w.preferLatePeriod > 0 {
      score := SatAdd(score, SatMul(SatMul(w.preferLatePeriod, s.preferLatePeriod), distance));
    }
  }

  lemma WrappedStep(terms: seq<nat>, i: nat, total: u32, one: u32)
    requires i < |terms| && terms[i] == one && total == Wrap(Sum(terms[..i]))
    ensures WrapAdd(total, one) == Wrap(Sum(terms[..i + 1]))
  {
    SumStep(terms, i);
    WrapAddAbsorbs(Sum(terms[..i]), one);
  }

  /** The scores of all placements, added with plain u32 addition. */
  method PreferenceTotal(pr: Problem, ps: seq<Placement>, w: ConstraintWeights) returns (total: u32)
    requires Resolves(pr, ps)
    ensures total == Wrap(Sum(PreferenceTerms(pr, ps, w)))
  {
    var blocks, lessons, subjects := Blocks(pr), LessonsById(pr), SubjectsById(pr);
    var lastPositions := LastPositions(pr.timeBlocks);
    ghost var terms := PreferenceTerms(pr, ps, w);
    total := 0;
    for i := 0 to |ps|
      invariant total == Wrap(Sum(terms[..i]))
    {
      var p := ps[i];
      assert Scored(pr, p);
      var tb := blocks[p.timeBlockId];
      var last := if tb.dayOfWeek in lastPositions then lastPositions[tb.dayOfWeek] else tb.position;
      var one := SubjectPreferenceScore(subjects[lessons[p.lessonId].subjectId], tb, last, w);
      WrappedStep(terms, i, total, one);
      total := WrapAdd(total, one);
    }
    assert terms[..|ps|] == terms;
  }

  // ----- home rooms -----

  /** The penalty of one class for one room. */
  function HomeRoomPenaltyOneClass(pr: Problem, c: SchoolClassId, room: RoomId, weight: u32): u32 {
    if weight == 0 then 0 else if AwayFromHome(pr, c, room) then weight else 0
  }

  /** One weight per member class away from home. */
  method HomeRoomPenalty(pr: Problem, classes: seq<SchoolClassId>, room: RoomId, weight: u32) returns (score: u32)
    ensures score == Cap(Times(weight, AwayCount(pr, classes, room)))
  {
    score := 0;
    if weight == 0 {
      TimesZero(AwayCount(pr, classes, room));
      return;
    }
    for j := 0 to |classes|
      invariant score == Cap(Times(weight, AwayCount(pr, classes[..j], room)))
    {
      assert classes[..j + 1][..j] == classes[..j];
      ghost var n := AwayCount(pr, classes[..j], room);
      CapAbsorbs(Times(weight, n), weight);
      if AwayFromHome(pr, classes[j], room) {
        score := SatAdd(score, weight);
      }
    }
    assert classes[..|classes|] == classes;
  }

  method HomeRoomTotal(pr: Problem, ps: seq<Placement>, w: ConstraintWeights) returns (total: u32)
    requires Resolves(pr, ps)
    ensures total == Wrap(Sum(HomeRoomTerms(pr, ps, w)))
  {
    var lessons := LessonsById(pr);
    ghost var terms := HomeRoomTerms(pr, ps, w);
    total := 0;
    for i := 0 to |ps|
      invariant total == Wrap(Sum(terms[..i]))
    {
      var p := ps[i];
      assert Scored(pr, p);
      var one := HomeRoomPenalty(pr, lessons[p.lessonId].schoolClassIds, p.roomId, w.preferHomeRoom);
      WrappedStep(terms, i, total, one);
      total := WrapAdd(total, one);
    }
    assert terms[..|ps|] == terms;
  }

  // ----- worst per-class spread -----

  type DayRows = map<SchoolClassId, seq<u32>>

  function Row(rows: DayRows, c: SchoolClassId): seq<u32> {
    if c in rows then rows[c] else [0, 0, 0, 0, 0]
  }

  predicate FiveWide(rows: DayRows) {
    forall c :: c in rows ==> |rows[c]| == 5
  }

  /** One more placement of the class on that day; a new class starts with five zeros. */
  function Bump(rows: DayRows, c: SchoolClassId, day: u8): (r: DayRows)
    requires FiveWide(rows) && day < 5
    ensures FiveWide(r)
  {
    var row := Row(rows, c);
    rows[c := row[day := WrapAdd(row[day], 1)]]
  }

  ghost predicate CountsMeetings(rows: DayRows, ms: seq<Meeting>) {
    && FiveWide(rows)
    && rows.Keys == FiveDayClasses(ms)
    && forall c :: Row(rows, c) == FiveDayCounts(ms, c)
  }

  /** A cell while the member classes of one meeting are being counted. */
  ghost function PartCell(ms: seq<Meeting>, c: SchoolClassId, d: int, classes: seq<SchoolClassId>, day: u8): nat {
    RawCount(ms, c, d) + if d == day then multiset(classes)[c] else 0
  }

  ghost predicate PartlyCounted(rows: DayRows, ms: seq<Meeting>, classes: seq<SchoolClassId>, day: u8) {
    && FiveWide(rows)
    && (forall c :: c in rows <==> c in FiveDayClasses(ms) || c in classes)
    && forall c, d :: 0 <= d < 5 ==> Row(rows, c)[d] == Wrap(PartCell(ms, c, d, classes, day))
  }

  lemma OneMore(ms: seq<Meeting>, e: SchoolClassId, d: int, classes: seq<SchoolClassId>, c: SchoolClassId, day: u8)
    ensures PartCell(ms, e, d, classes + [c], day)
         == PartCell(ms, e, d, classes, day) + if d == day && e == c then 1 else 0
  {}

  lemma BumpCell(rows: DayRows, ms: seq<Meeting>, classes: seq<SchoolClassId>, c: SchoolClassId, day: u8,
                 e: SchoolClassId, d: int)
    requires day < 5 && 0 <= d < 5 && PartlyCounted(rows, ms, classes, day)
    ensures Row(Bump(rows, c, day), e)[d] == Wrap(PartCell(ms, e, d, classes + [c], day))
  {
    OneMore(ms, e, d, classes, c, day);
    assert Row(rows, e)[d] == Wrap(PartCell(ms, e, d, classes, day));
    if e == c && d == day {
      WrapAddAbsorbs(PartCell(ms, e, d, classes, day), 1);
    }
  }

  lemma BumpStep(rows: DayRows, ms: seq<Meeting>, classes: seq<SchoolClassId>, c: SchoolClassId, day: u8)
    requires day < 5 && PartlyCounted(rows, ms, classes, day)
    ensures PartlyCounted(Bump(rows, c, day), ms, classes + [c], day)
  {
    forall e: SchoolClassId, d | 0 <= d < 5
      ensures Row(Bump(rows, c, day), e)[d] == Wrap(PartCell(ms, e, d, classes + [c], day))
    {
      BumpCell(rows, ms, classes, c, day, e, d);
    }
  }

  lemma CountsToPart(rows: DayRows, ms: seq<Meeting>, day: u8)
    requires CountsMeetings(rows, ms)
    ensures PartlyCounted(rows, ms, [], day)
  {
    assert forall c, d :: 0 <= d < 5 ==> Row(rows, c)[d] == FiveDayCounts(ms, c)[d];
  }

  lemma PartToCounts(rows: DayRows, ms: seq<Meeting>, m: Meeting)
    requires m.day < 5 && PartlyCounted(rows, ms, m.classes, m.day)
    ensures CountsMeetings(rows, ms + [m])
  {
    assert (ms + [m])[..|ms|] == ms;
    forall c ensures Row(rows, c) == FiveDayCounts(ms + [m], c) {}
  }

  lemma OtherDayCounts(rows: DayRows, ms: seq<Meeting>, m: Meeting)
    requires m.day >= 5 && CountsMeetings(rows, ms)
    ensures CountsMeetings(rows, ms + [m])
  {
    assert (ms + [m])[..|ms|] == ms;
    forall c ensures FiveDayCounts(ms + [m], c) == FiveDayCounts(ms, c) {}
  }

  /** The rows after one more meeting on a counted day. */
  method CountMeeting(rows: DayRows, classes: seq<SchoolClassId>, day: u8, ghost ms: seq<Meeting>, ghost m: Meeting)
    returns (r: DayRows)
    requires CountsMeetings(rows, ms) && day < 5 && m.classes == classes && m.day == day
    ensures CountsMeetings(r, ms + [m])
  {
    CountsToPart(rows, ms, day);
    r := rows;
    for j := 0 to |classes|
      invariant PartlyCounted(r, ms, classes[..j], day)
    {
      BumpStep(r, ms, classes[..j], classes[j], day);
      assert classes[..j] + [classes[j]] == classes[..j + 1];
      r := Bump(r, classes[j], day);
    }
    assert classes[..|classes|] == classes;
    PartToCounts(r, ms, m);
  }

  method CountFiveDays(pr: Problem, ps: seq<Placement>) returns (rows: DayRows)
    ensures CountsMeetings(rows, Meetings(pr, ps))
  {
    var blocks, lessons := Blocks(pr), LessonsById(pr);
    rows := map[];
    for i := 0 to |ps|
      invariant CountsMeetings(rows, Meetings(pr, ps[..i]))
    {
      var p := ps[i];
      ghost var before := Meetings(pr, ps[..i]);
      assert ps[..i + 1][..i] == ps[..i];
      if p.timeBlockId !in blocks || blocks[p.timeBlockId].dayOfWeek >= 5 || p.lessonId !in lessons {
        assert before + [] == before;
        if Known(pr, p) { OtherDayCounts(rows, before, MeetingOf(pr, p)); }
        continue;
      }
      rows := CountMeeting(rows, lessons[p.lessonId].schoolClassIds, blocks[p.timeBlockId].dayOfWeek, before,
                           MeetingOf(pr, p));
    }
    assert ps[..|ps|] == ps;
  }

  /** The largest value, 0 for an empty map, whatever the order in which the map is walked. */
  method MaxValue(m: map<SchoolClassId, u32>) returns (r: u32)
    ensures r == MapMax<SchoolClassId>(m)
  {
    r := 0;
    var todo := m.Keys;
    while todo != {}
      invariant todo <= m.Keys
      invariant forall c :: c in m && c !in todo ==> m[c] <= r
      invariant r == 0 || exists c :: c in m && m[c] == r
      decreases todo
    {
      var c :| c in todo;
      if m[c] > r {
        r := m[c];
      }
      todo := todo - {c};
    }
    MapMaxUnique<SchoolClassId>(m, r, MapMax<SchoolClassId>(m));
  }

  lemma SpreadsMatch(rows: DayRows, ms: seq<Meeting>, spreads: map<SchoolClassId, u32>)
    requires CountsMeetings(rows, ms)
    requires spreads.Keys == rows.Keys && forall c :: c in rows ==> spreads[c] == Spread(rows[c])
    ensures spreads == SpreadMap(ms)
  {
    forall c | c in rows ensures spreads[c] == SpreadMap(ms)[c] {
      assert Row(rows, c) == FiveDayCounts(ms, c);
    }
  }

  method WorstClassSpread(pr: Problem, ps: seq<Placement>) returns (worst: u32)
    ensures worst == WorstSpread(Meetings(pr, ps))
  {
    var rows := CountFiveDays(pr, ps);
    ghost var ms := Meetings(pr, ps);
    var spreads := map c | c in rows :: Spread(rows[c]);
    SpreadsMatch(rows, ms, spreads);
    worst := MaxValue(spreads);
  }

  // ----- worst per-class interior gaps -----

  /** The span, computed in u8, less the number of positions. */
  function SpanGapsOf(v: seq<u8>): u32
    requires v != []
  {
    SatSub((v[|v| - 1] as int - v[0] as int + 1) % 256, Wrap(|v|))
  }

  lemma SpanGapsExact(v: seq<u8>)
    requires StrictlySorted(v) && v != []
    ensures SpanGapsOf(v) == SpanGaps(Elems(v))
  {
    var n := |v| - 1;
    StrictSpan(v);
    GapCountCountsMissing(v);
    assert v[0] as int in Elems(v) && v[n] as int in Elems(v);
    if 0 in Elems(v) && 255 in Elems(v) {
      EndsAreExtreme(v, 0);
      EndsAreExtreme(v, 255);
    } else {
      assert !(v[0] == 0 && v[n] == 255);
    }
  }

  ghost predicate TalliesOwners(perClass: map<SchoolClassId, u32>, done: map<(Uuid, u8), nat>) {
    && (forall id :: id in perClass <==> HasDay(done, id))
    && (forall id :: id in perClass ==> perClass[id] == Cap(OwnerSum(done, id)))
  }

  lemma TallyStep(perClass: map<SchoolClassId, u32>, done: map<(Uuid, u8), nat>, k: (Uuid, u8), g: u32)
    requires TalliesOwners(perClass, done) && k !in done
    ensures TalliesOwners(perClass[k.0 := SatAdd(if k.0 in perClass then perClass[k.0] else 0, g)], done[k := g])
  {
    var r := perClass[k.0 := SatAdd(if k.0 in perClass then perClass[k.0] else 0, g)];
    forall id: Uuid
      ensures id in r <==> HasDay(done[k := g], id)
      ensures id in r ==> r[id] == Cap(OwnerSum(done[k := g], id))
    {
      OwnerSumStep(done, k, g, id);
      CapAbsorbs(OwnerSum(done, id), g);
    }
  }

  method TallySpanGaps(m: Partition, ghost sm: SlotMap) returns (perClass: map<SchoolClassId, u32>)
    requires Represents(m, sm) && forall k :: k in sm ==> sm[k] != {}
    ensures TalliesOwners(perClass, SpanGapMap(sm))
  {
    var positions := m;
    perClass := map[];
    ghost var done: map<(Uuid, u8), nat> := map[];
    var todo := m.Keys;
    while todo != {}
      invariant todo <= m.Keys && positions.Keys == m.Keys
      invariant forall k :: k in todo ==> positions[k] == m[k]
      invariant done.Keys == m.Keys - todo && forall k :: k in done ==> done[k] == SpanGaps(sm[k])
      invariant TalliesOwners(perClass, done)
      decreases todo
    {
      var k :| k in todo;
      SortDedupCanonical(m[k]);
      var ps := SortDedup(positions[k]);
      positions := positions[k := ps];
      todo := todo - {k};
      assert Elems(ps) == sm[k] && ps != [];
      SpanGapsExact(ps);
      var gaps := SpanGapsOf(ps);
      TallyStep(perClass, done, k, gaps);
      perClass := perClass[k.0 := SatAdd(if k.0 in perClass then perClass[k.0] else 0, gaps)];
      done := done[k := gaps];
    }
    assert done == SpanGapMap(sm);
  }

  lemma ClassSlotsNonEmpty(ms: seq<Meeting>)
    ensures forall k :: k in ClassSlots(ms) ==> ClassSlots(ms)[k] != {}
  {
    forall k | k in ClassSlots(ms) ensures ClassSlots(ms)[k] != {} {
      ClassSlotsMember(ms, k.0, k.1);
    }
  }

  method WorstClassInteriorGaps(pr: Problem, ps: seq<Placement>) returns (worst: u32)
    ensures worst == WorstInterior(ClassSlots(Meetings(pr, ps)))
  {
    var positions := CollectClassPositions(pr, ps);
    ghost var sm := ClassSlots(Meetings(pr, ps));
    ClassSlotsNonEmpty(Meetings(pr, ps));
    var perClass := TallySpanGaps(positions, sm);
    ghost var interior := InteriorMap(sm);
    forall id: Uuid ensures id in perClass <==> id in interior {
      if d: u8 :| (id, d) in SpanGapMap(sm) { assert (id, d) in sm; }
      if id in interior { var k :| k in sm && k.0 == id; assert (id, k.1) in SpanGapMap(sm); }
    }
    assert perClass == interior;
    worst := MaxValue(perClass);
  }

  // ----- class teachers -----

  lemma NoteTeacherStep(acc: map<(SchoolClassId, SubjectId), TeacherId>, classes: seq<SchoolClassId>, j: nat,
                        s: SubjectId, t: TeacherId)
    requires j < |classes|
    ensures var r, k := NoteTeacher(acc, classes[..j], s, t), (classes[j], s);
      NoteTeacher(acc, classes[..j + 1], s, t) == if k in r then r else r[k := t]
  {
    assert classes[..j + 1][..j] == classes[..j];
  }

  method CollectFirstTeachers(pr: Problem, ps: seq<Placement>)
    returns (first: map<(SchoolClassId, SubjectId), TeacherId>)
    requires forall p :: p in ps ==> Known(pr, p)
    ensures first == FirstTeachers(pr, ps)
  {
    var lessons := LessonsById(pr);
    first := map[];
    for i := 0 to |ps|
      invariant first == FirstTeachers(pr, ps[..i])
    {
      var p := ps[i];
      assert ps[..i + 1][..i] == ps[..i];
      ghost var before := first;
      assert Known(pr, p);
      var classes, s := lessons[p.lessonId].schoolClassIds, lessons[p.lessonId].subjectId;
      for j := 0 to |classes|
        invariant first == NoteTeacher(before, classes[..j], s, p.teacherId)
      {
        NoteTeacherStep(before, classes, j, s, p.teacherId);
        if (classes[j], s) !in first {
          first := first[(classes[j], s) := p.teacherId];
        }
      }
      assert classes[..|classes|] == classes;
    }
    assert ps[..|ps|] == ps;
  }

  method CollectQualified(pr: Problem) returns (qualified: map<SubjectId, set<TeacherId>>)
    ensures forall s, t :: Qualified(pr, t, s) <==> s in qualified && t in qualified[s]
  {
    var rows := pr.teacherQualifications;
    qualified := map[];
    for i := 0 to |rows|
      invariant forall s, t :: TeacherQualification(t, s) in rows[..i] <==> s in qualified && t in qualified[s]
    {
      var q := rows[i];
      assert rows[..i + 1] == rows[..i] + [q];
      var known := if q.subjectId in qualified then qualified[q.subjectId] else {};
      qualified := qualified[q.subjectId := known + {q.teacherId}];
    }
    assert rows[..|rows|] == rows;
  }

  method ClassTeacherMissCount(pr: Problem, ps: seq<Placement>) returns (misses: u32)
    requires forall p :: p in ps ==> Known(pr, p)
    ensures misses == Cap(|ClassTeacherMisses(pr, ps)|)
  {
    var qualified := CollectQualified(pr);
    var classes := ClassesById(pr);
    var first := CollectFirstTeachers(pr, ps);
    ghost var missed := {};
    misses := 0;
    var todo := first.Keys;
    while todo != {}
      invariant todo <= first.Keys
      invariant missed == set k | k in first && k !in todo && ClassTeacherMissed(pr, k, first[k])
      invariant misses == Cap(|missed|)
      decreases todo
    {
      var k :| k in todo;
      todo := todo - {k};
      CapAbsorbs(|missed|, 1);
      if ClassTeacherMissed(pr, k, first[k]) {
        missed := missed + {k};
      }
      if k.0 !in classes || classes[k.0].classTeacherId.None? || k.1 !in qualified {
        continue;
      }
      var klt := classes[k.0].classTeacherId.value;
      if klt in qualified[k.1] && first[k] != klt {
        misses := SatAdd(misses, 1);
      }
    }
    assert missed == ClassTeacherMisses(pr, ps);
  }

  // ----- soft pins -----

  function SoftPinMissCount(soft: set<PinKey>, ps: seq<Placement>): u32 {
    if soft == {} then 0 else Wrap(|soft - PlacementKeys(ps)|)
  }
}
