/** Placements seen as meetings, and the positions each class or teacher occupies per day.
    This is the partition every gap and balance axis starts from. */
module Timetable {
  import opened Machine
  import opened Collections
  import opened Sorting
  import opened Types
  import opened Gaps
  import opened BalanceForms
  import opened BalanceExact

  /** A placement with its lesson and time block looked up. */
  datatype Meeting = Meeting(classes: seq<SchoolClassId>, teacher: TeacherId, day: u8, position: u8)

  /** Occupied positions per (class or teacher, day). */
  type SlotMap = map<(Uuid, u8), set<int>>

  predicate Known(pr: Problem, p: Placement) {
    p.timeBlockId in Blocks(pr) && p.lessonId in LessonsById(pr)
  }

  function MeetingOf(pr: Problem, p: Placement): Meeting
    requires Known(pr, p)
  {
    var tb := Blocks(pr)[p.timeBlockId];
    Meeting(LessonsById(pr)[p.lessonId].schoolClassIds, p.teacherId, tb.dayOfWeek, tb.position)
  }

  /** The meetings of the placements whose lesson and time block exist. */
  function Meetings(pr: Problem, ps: seq<Placement>): seq<Meeting> {
    if ps == [] then []
    else
      var p := ps[|ps| - 1];
      Meetings(pr, ps[..|ps| - 1]) + if Known(pr, p) then [MeetingOf(pr, p)] else []
  }

  // ----- slot maps -----

  function Occupied(sm: SlotMap, k: (Uuid, u8)): set<int> {
    if k in sm then sm[k] else {}
  }

  function AddSlot(sm: SlotMap, k: (Uuid, u8), position: u8): SlotMap {
    sm[k := Occupied(sm, k) + {position as int}]
  }

  function AddSlots(sm: SlotMap, classes: seq<SchoolClassId>, day: u8, position: u8): SlotMap {
    if classes == [] then sm
    else AddSlot(AddSlots(sm, classes[..|classes| - 1], day, position), (classes[|classes| - 1], day), position)
  }

  function ClassSlots(ms: seq<Meeting>): SlotMap {
    if ms == [] then map[]
    else
      var m := ms[|ms| - 1];
      AddSlots(ClassSlots(ms[..|ms| - 1]), m.classes, m.day, m.position)
  }

  function TeacherSlots(ms: seq<Meeting>): SlotMap {
    if ms == [] then map[]
    else
      var m := ms[|ms| - 1];
      AddSlot(TeacherSlots(ms[..|ms| - 1]), (m.teacher, m.day), m.position)
  }

  lemma {:induction false} AddSlotsMember(sm: SlotMap, classes: seq<SchoolClassId>, day: u8, position: u8, k: (Uuid,
                                          u8))
    ensures var joins := k.0 in classes && k.1 == day; var r := AddSlots(sm, classes, day, position);
      && (k in r <==> k in sm || joins)
      && Occupied(r, k) == Occupied(sm, k) + if joins then {position as int} else {}
  {
    if classes != [] {
      var n := |classes| - 1;
      AddSlotsMember(sm, classes[..n], day, position, k);
      assert classes == classes[..n] + [classes[n]];
    }
  }

  ghost predicate ClassMeets(ms: seq<Meeting>, c: SchoolClassId, day: u8, position: int) {
    exists m :: m in ms && c in m.classes && m.day == day && m.position == position
  }

  /** A class occupies a position exactly when one of its meetings is there; it has an entry
      for a day exactly when it meets that day. */
  lemma {:induction false} ClassSlotsMember(ms: seq<Meeting>, c: SchoolClassId, day: u8)
    ensures forall q :: q in Occupied(ClassSlots(ms), (c, day)) <==> ClassMeets(ms, c, day, q)
    ensures (c, day) in ClassSlots(ms) <==> Occupied(ClassSlots(ms), (c, day)) != {}
  {
    if ms != [] {
      var n := |ms| - 1;
      var front, m := ms[..n], ms[n];
      ClassSlotsMember(front, c, day);
      AddSlotsMember(ClassSlots(front), m.classes, m.day, m.position, (c, day));
      assert ms == front + [m];
      forall q ensures ClassMeets(ms, c, day, q)
        <==> ClassMeets(front, c, day, q) || (c in m.classes && m.day == day && m.position == q)
      {
        if c in m.classes && m.day == day && m.position == q { assert m in ms; }
        if x :| x in front && c in x.classes && x.day == day && x.position == q { assert x in ms; }
      }
      assert m.position as int in {m.position as int};
    }
  }

  ghost predicate TeacherMeets(ms: seq<Meeting>, t: TeacherId, day: u8, position: int) {
    exists m :: m in ms && m.teacher == t && m.day == day && m.position == position
  }

  /** The same for teachers. */
  lemma {:induction false} TeacherSlotsMember(ms: seq<Meeting>, t: TeacherId, day: u8)
    ensures forall q :: q in Occupied(TeacherSlots(ms), (t, day)) <==> TeacherMeets(ms, t, day, q)
    ensures (t, day) in TeacherSlots(ms) <==> Occupied(TeacherSlots(ms), (t, day)) != {}
  {
    if ms != [] {
      var n := |ms| - 1;
      var front, m := ms[..n], ms[n];
      TeacherSlotsMember(front, t, day);
      assert ms == front + [m];
      forall q ensures TeacherMeets(ms, t, day, q)
        <==> TeacherMeets(front, t, day, q) || (m.teacher == t && m.day == day && m.position == q)
      {
        if m.teacher == t && m.day == day && m.position == q { assert m in ms; }
        if x :| x in front && x.teacher == t && x.day == day && x.position == q { assert x in ms; }
      }
      assert m.position as int in {m.position as int};
    }
  }

  // ----- the maps the code builds -----

  /** The day lists hold exactly the occupied positions, in any order and multiplicity. */
  ghost predicate Represents(m: Partition, sm: SlotMap) {
    m.Keys == sm.Keys && forall k :: k in m ==> Elems(m[k]) == sm[k]
  }

  /** Append the position to the list under `k`, which starts empty. */
  function Push(m: Partition, k: (Uuid, u8), position: u8): Partition {
    m[k := (if k in m then m[k] else []) + [position]]
  }

  lemma PushRepresents(m: Partition, sm: SlotMap, k: (Uuid, u8), position: u8)
    requires Represents(m, sm)
    ensures Represents(Push(m, k, position), AddSlot(sm, k, position))
  {
    var v: seq<u8> := if k in m then m[k] else [];
    assert Elems(v + [position]) == Elems(v) + {position as int};
  }

  method PushAll(m: Partition, classes: seq<SchoolClassId>, day: u8, position: u8, ghost sm: SlotMap)
    returns (r: Partition)
    requires Represents(m, sm)
    ensures Represents(r, AddSlots(sm, classes, day, position))
  {
    r := m;
    for j := 0 to |classes|
      invariant Represents(r, AddSlots(sm, classes[..j], day, position))
    {
      assert classes[..j + 1][..j] == classes[..j];
      PushRepresents(r, AddSlots(sm, classes[..j], day, position), (classes[j], day), position);
      r := Push(r, (classes[j], day), position);
    }
    assert classes[..|classes|] == classes;
  }

  lemma SlotsStep(pr: Problem, ps: seq<Placement>, i: nat)
    requires i < |ps|
    ensures var before, after := Meetings(pr, ps[..i]), Meetings(pr, ps[..i + 1]);
      if !Known(pr, ps[i]) then after == before
      else
        var m := MeetingOf(pr, ps[i]);
        && ClassSlots(after) == AddSlots(ClassSlots(before), m.classes, m.day, m.position)
        && TeacherSlots(after) == AddSlot(TeacherSlots(before), (m.teacher, m.day), m.position)
  {
    assert ps[..i + 1][..i] == ps[..i];
    var before := Meetings(pr, ps[..i]);
    if Known(pr, ps[i]) {
      assert (before + [MeetingOf(pr, ps[i])])[..|before|] == before;
    }
  }

  /** The class partition of the placements whose references resolve; others are skipped. */
  method CollectClassPositions(pr: Problem, ps: seq<Placement>) returns (positions: Partition)
    ensures Represents(positions, ClassSlots(Meetings(pr, ps)))
  {
    var blocks, lessons := Blocks(pr), LessonsById(pr);
    positions := map[];
    for i := 0 to |ps|
      invariant Represents(positions, ClassSlots(Meetings(pr, ps[..i])))
    {
      var p := ps[i];
      SlotsStep(pr, ps, i);
      if p.timeBlockId !in blocks || p.lessonId !in lessons {
        continue;
      }
      var tb := blocks[p.timeBlockId];
      ghost var before := Meetings(pr, ps[..i]);
      positions := PushAll(positions, lessons[p.lessonId].schoolClassIds, tb.dayOfWeek, tb.position,
                           ClassSlots(before));
    }
    assert ps[..|ps|] == ps;
  }

  /** Both partitions, for callers whose placements all resolve. */
  method CollectPartitions(pr: Problem, ps: seq<Placement>) returns (byClassDay: Partition, byTeacherDay: Partition)
    requires forall p :: p in ps ==> Known(pr, p)
    ensures Represents(byClassDay, ClassSlots(Meetings(pr, ps)))
    ensures Represents(byTeacherDay, TeacherSlots(Meetings(pr, ps)))
  {
    var blocks, lessons := Blocks(pr), LessonsById(pr);
    byClassDay, byTeacherDay := map[], map[];
    for i := 0 to |ps|
      invariant Represents(byClassDay, ClassSlots(Meetings(pr, ps[..i])))
      invariant Represents(byTeacherDay, TeacherSlots(Meetings(pr, ps[..i])))
    {
      var p := ps[i];
      SlotsStep(pr, ps, i);
      var tb := blocks[p.timeBlockId];
      ghost var before := Meetings(pr, ps[..i]);
      byClassDay := PushAll(byClassDay, lessons[p.lessonId].schoolClassIds, tb.dayOfWeek, tb.position,
                            ClassSlots(before));
      PushRepresents(byTeacherDay, TeacherSlots(before), (p.teacherId, tb.dayOfWeek), tb.position);
      byTeacherDay := Push(byTeacherDay, (p.teacherId, tb.dayOfWeek), tb.position);
    }
    assert ps[..|ps|] == ps;
  }

  /** Sort every list in place and drop repeated positions. */
  method SortDedupAll(m: Partition, ghost sm: SlotMap) returns (r: Partition)
    requires Represents(m, sm)
    ensures Represents(r, sm) && Deduped(r)
  {
    r := m;
    var todo := m.Keys;
    while todo != {}
      invariant todo <= m.Keys && Represents(r, sm)
      invariant forall k :: k in r && k !in todo ==> StrictlySorted(r[k])
      decreases todo
    {
      var k :| k in todo;
      SortDedupCanonical(r[k]);
      r := r[k := SortDedup(r[k])];
      todo := todo - {k};
    }
  }

  // ----- sums per class or teacher -----

  /** The entries of one class or teacher. */
  ghost function Of(m: map<(Uuid, u8), nat>, id: Uuid): (r: map<(Uuid, u8), nat>) {
    map k | k in m && k.0 == id :: m[k]
  }

  ghost function OwnerSum(m: map<(Uuid, u8), nat>, id: Uuid): nat {
    MapSum<(Uuid, u8)>(Of(m, id))
  }

  ghost function Owners(keys: set<(Uuid, u8)>): set<Uuid> {
    set k | k in keys :: k.0
  }

  ghost predicate HasDay(m: map<(Uuid, u8), nat>, id: Uuid) {
    exists d: u8 :: (id, d) in m
  }

  lemma OwnerSumStep(m: map<(Uuid, u8), nat>, k: (Uuid, u8), g: nat, id: Uuid)
    requires k !in m
    ensures OwnerSum(m[k := g], id) == OwnerSum(m, id) + if id == k.0 then g else 0
    ensures HasDay(m[k := g], id) <==> id == k.0 || HasDay(m, id)
    ensures !HasDay(m, id) ==> OwnerSum(m, id) == 0
  {
    var grown := m[k := g];
    if id == k.0 {
      assert Of(grown, id) == Of(m, id)[k := g];
      MapSumInsert<(Uuid, u8)>(Of(m, id), k, g);
      assert (id, k.1) in grown;
    } else {
      assert Of(grown, id) == Of(m, id);
      if d: u8 :| (id, d) in m { assert (id, d) in grown; }
    }
    if Of(m, id).Keys != {} {
      var e :| e in Of(m, id).Keys;
      assert (id, e.1) in m;
    }
  }

  // ----- gap totals -----

  /** Gap-hours per (class or teacher, day). */
  ghost function GapMap(sm: SlotMap): (r: map<(Uuid, u8), nat>) {
    map k | k in sm :: |Missing(sm[k])|
  }

  ghost function GapHours(sm: SlotMap): nat {
    MapSum<(Uuid, u8)>(GapMap(sm))
  }

  lemma GapCountsExact(m: Partition, sm: SlotMap)
    requires Represents(m, sm) && Deduped(m)
    ensures forall k :: k in m ==> GapCount(m[k]) == GapMap(sm)[k]
  {
    forall k | k in m ensures GapMap(sm)[k] == GapCount(m[k]) {
      GapCountCountsMissing(m[k]);
    }
  }

  /** The gap counts of all days, added in any order. */
  method SumGaps(m: Partition, ghost sm: SlotMap) returns (total: u32)
    requires Represents(m, sm) && Deduped(m)
    ensures total == Wrap(GapHours(sm))
  {
    var gaps: map<(Uuid, u8), u32> := map k | k in m :: GapCount(m[k]);
    GapCountsExact(m, sm);
    assert gaps == GapMap(sm);
    total := SumValues(gaps);
  }

  /** Plain u32 addition of all values, in any order. */
  method SumValues<K(==)>(m: map<K, u32>) returns (total: u32)
    ensures total == Wrap(MapSum<K>(m))
  {
    total := 0;
    var todo := m;
    ghost var exact: nat := 0;
    while todo.Keys != {}
      invariant total == Wrap(exact) && exact + MapSum<K>(todo) == MapSum<K>(m)
      decreases todo.Keys
    {
      var k :| k in todo.Keys;
      MapSumRemove<K>(todo, k);
      WrapAddAbsorbs(exact, todo[k]);
      total := WrapAdd(total, todo[k]);
      exact := exact + todo[k];
      todo := todo - {k};
    }
  }
}
