/** Independent measurements of the same timetable: the bench gap metric
    (solver-bench/src/quality.rs), the worst-class metrics (score.rs) and the attributed
    report (quality.rs). */
module GapMetrics {
  import opened Machine
  import opened Collections
  import opened Sorting
  import opened Types
  import opened Gaps
  import opened Balance
  import opened Timetable
  import opened Objective
  import opened AxisPasses
  import opened BalanceForms
  import opened Score
  import opened Quality
  import Parity

  // ----- the bench metric -----

  lemma CappedInsert(done: map<(Uuid, u8), nat>, k: (Uuid, u8), gaps: u32)
    requires k !in done
    ensures SatAdd(Cap(MapSum<(Uuid, u8)>(done)), gaps) == Cap(MapSum<(Uuid, u8)>(done[k := gaps]))
  {
    MapSumInsert<(Uuid, u8)>(done, k, gaps);
    CapAbsorbs(MapSum<(Uuid, u8)>(done), gaps);
  }

  /** Span less occupied positions, summed over all class days. */
  method TotalInteriorGaps(pr: Problem, ps: seq<Placement>) returns (total: u32)
    ensures total == Cap(MapSum<(Uuid, u8)>(SpanGapMap(ClassSlots(Meetings(pr, ps)))))
  {
    var positions := CollectClassPositions(pr, ps);
    ghost var sm := ClassSlots(Meetings(pr, ps));
    ClassSlotsNonEmpty(Meetings(pr, ps));
    total := 0;
    var todo := positions.Keys;
    ghost var done: map<(Uuid, u8), nat> := map[];
    while todo != {}
      invariant todo <= sm.Keys && Represents(positions, sm)
      invariant done.Keys == sm.Keys - todo && forall k :: k in done ==> done[k] == SpanGaps(sm[k])
      invariant total == Cap(MapSum<(Uuid, u8)>(done))
      decreases todo
    {
      var k :| k in todo;
      SortDedupCanonical(positions[k]);
      positions := positions[k := SortDedup(positions[k])];
      todo := todo - {k};
      SpanGapsExact(positions[k]);
      var gaps := SpanGapsOf(positions[k]);
      CappedInsert(done, k, gaps);
      total := SatAdd(total, gaps);
      done := done[k := gaps];
    }
    assert done == SpanGapMap(sm);
  }

  // ----- when span and missing ordinals agree -----

  /** A class day whose u8 span wraps: both ends of the position range are taken and some
      position between them is free. */
  ghost predicate SpanWraps(s: set<int>) {
    0 in s && 255 in s && Missing(s) != {}
  }

  lemma SpanGapsVsMissing(s: set<int>)
    ensures SpanGaps(s) <= |Missing(s)|
    ensures SpanGaps(s) == |Missing(s)| <==> !SpanWraps(s)
  {}

  /** The bench total equals the report's class gap hours if and only if no class day wraps
      its span. The gap hours fit a u32 for up to 16909320 class days; see `GapHoursFit`. */
  lemma BenchTotalAgreesIff(sm: SlotMap)
    requires GapHours(sm) <= U32_MAX
    ensures Cap(MapSum<(Uuid, u8)>(SpanGapMap(sm))) == Wrap(GapHours(sm)) <==> forall k :: k in sm ==> !SpanWraps(sm[k])
  {
    var spans, gaps := SpanGapMap(sm), GapMap(sm);
    forall k | k in sm ensures spans[k] <= gaps[k] && (spans[k] == gaps[k] <==> !SpanWraps(sm[k])) {
      SpanGapsVsMissing(sm[k]);
    }
    MapSumMonotone<(Uuid, u8)>(spans, gaps);
    WrapSmall(GapHours(sm));
    if forall k :: k in sm ==> !SpanWraps(sm[k]) {
      assert spans == gaps;
    }
  }

  /** Every occupied position is a u8. */
  ghost predicate U8Slots(sm: SlotMap) {
    forall k :: k in sm ==> forall q :: q in sm[k] ==> 0 <= q < 256
  }

  lemma ClassSlotsAreU8(ms: seq<Meeting>)
    ensures U8Slots(ClassSlots(ms))
  {
    forall k: (Uuid, u8), q | k in ClassSlots(ms) && q in ClassSlots(ms)[k] ensures 0 <= q < 256 {
      Parity.SlotsAreU8(ms, k.0, k.1);
    }
  }

  lemma GapHoursFit(sm: SlotMap)
    requires U8Slots(sm) && |sm| <= 16909320
    ensures GapHours(sm) <= U32_MAX
  {
    var gaps := GapMap(sm);
    forall k | k in gaps ensures gaps[k] <= 254 {
      MissingBound(sm[k]);
    }
    assert |gaps| == |sm| by { assert gaps.Keys == sm.Keys; }
    MapSumBound<(Uuid, u8)>(gaps, 254);
  }

  method BenchMatchesReport(pr: Problem, ps: seq<Placement>, violations: nat, w: ConstraintWeights)
    returns (total: u32, report: QualityReport)
    requires Resolves(pr, ps) && GapHours(ClassSlots(Meetings(pr, ps))) <= U32_MAX
    ensures Reports(report, pr, ps, violations, w)
    ensures total == report.classGapHours <==>
      forall k :: k in ClassSlots(Meetings(pr, ps)) ==> !SpanWraps(ClassSlots(Meetings(pr, ps))[k])
  {
    total := TotalInteriorGaps(pr, ps);
    report := BuildQualityReport(pr, ps, violations, w);
    BenchTotalAgreesIff(ClassSlots(Meetings(pr, ps)));
  }

  // ----- per class: worst interior gaps against the attribution -----

  lemma {:induction false} OwnerKeys(keys: set<(Uuid, u8)>, id: Uuid, n: nat)
    requires n <= 256 && forall k :: k in keys ==> k.0 == id && k.1 < n
    ensures |keys| <= n
  {
    if n == 0 {
      assert keys == {};
    } else {
      var last: (Uuid, u8) := (id, n - 1);
      OwnerKeys(keys - {last}, id, n - 1);
      if last in keys {
        assert keys == keys - {last} + {last};
      } else {
        assert keys == keys - {last};
      }
    }
  }

  /** One owner's gap hours fit a u32: at most 256 days of at most 254 gaps. */
  lemma OwnerGapBound(sm: SlotMap, id: Uuid)
    requires U8Slots(sm)
    ensures OwnerSum(GapMap(sm), id) <= 65024
    ensures OwnerSum(SpanGapMap(sm), id) <= OwnerSum(GapMap(sm), id)
    ensures OwnerSum(SpanGapMap(sm), id) == OwnerSum(GapMap(sm), id) <==>
      forall k :: k in sm && k.0 == id ==> !SpanWraps(sm[k])
  {
    OwnerGapTotal(sm, id);
    OwnerSpansVsGaps(sm, id);
  }

  lemma OwnerGapTotal(sm: SlotMap, id: Uuid)
    requires U8Slots(sm)
    ensures OwnerSum(GapMap(sm), id) <= 65024
  {
    var gaps := Of(GapMap(sm), id);
    forall k | k in gaps ensures gaps[k] <= 254 {
      MissingBound(sm[k]);
    }
    OwnerKeys(gaps.Keys, id, 256);
    MapSumBound<(Uuid, u8)>(gaps, 254);
  }

  lemma OwnerSpansVsGaps(sm: SlotMap, id: Uuid)
    ensures OwnerSum(SpanGapMap(sm), id) <= OwnerSum(GapMap(sm), id)
    ensures OwnerSum(SpanGapMap(sm), id) == OwnerSum(GapMap(sm), id) <==>
      forall k :: k in sm && k.0 == id ==> !SpanWraps(sm[k])
  {
    var spans, gaps := Of(SpanGapMap(sm), id), Of(GapMap(sm), id);
    forall k | k in gaps ensures spans[k] <= gaps[k] && (spans[k] == gaps[k] <==> !SpanWraps(sm[k])) {
      SpanGapsVsMissing(sm[k]);
    }
    assert spans.Keys == gaps.Keys;
    MapSumMonotone<(Uuid, u8)>(spans, gaps);
    if forall k :: k in sm && k.0 == id ==> !SpanWraps(sm[k]) {
      assert spans == gaps;
    }
  }

  ghost predicate NoSpanWraps(sm: SlotMap, id: Uuid) {
    forall k :: k in sm && k.0 == id ==> !SpanWraps(sm[k])
  }

  function Entry(m: map<SchoolClassId, u32>, id: Uuid): u32 {
    if id in m then m[id] else 0
  }

  lemma EntryIsOwnerSum(sm: SlotMap, byClass: map<SchoolClassId, u32>, id: Uuid)
    requires U8Slots(sm) && Tallies(byClass, Attribution(GapMap(sm)))
    ensures id in byClass ==> id in Owners(sm.Keys)
    ensures id in Owners(sm.Keys) ==> Entry(byClass, id) == OwnerSum(GapMap(sm), id)
  {
    OwnerGapBound(sm, id);
    WrapSmall(OwnerSum(GapMap(sm), id));
    assert GapMap(sm).Keys == sm.Keys;
  }

  lemma InteriorIsOwnerSum(sm: SlotMap, id: Uuid)
    requires U8Slots(sm)
    ensures id in InteriorMap(sm) <==> id in Owners(sm.Keys)
    ensures id in InteriorMap(sm) ==> InteriorMap(sm)[id] == OwnerSum(SpanGapMap(sm), id)
  {
    OwnerGapBound(sm, id);
    WrapSmall(OwnerSum(SpanGapMap(sm), id));
  }

  /** One class's interior gaps never exceed its attributed gap hours, and equal them exactly
      when none of its days wraps. */
  lemma InteriorVsAttribution(sm: SlotMap, byClass: map<SchoolClassId, u32>, id: Uuid)
    requires U8Slots(sm) && Tallies(byClass, Attribution(GapMap(sm)))
    ensures id in byClass ==> id in InteriorMap(sm)
    ensures id in InteriorMap(sm) ==> InteriorMap(sm)[id] <= Entry(byClass, id)
    ensures id in InteriorMap(sm) ==> (InteriorMap(sm)[id] == Entry(byClass, id) <==> NoSpanWraps(sm, id))
  {
    EntryIsOwnerSum(sm, byClass, id);
    InteriorIsOwnerSum(sm, id);
    OwnerGapBound(sm, id);
  }

  /** The class has the most gap hours. */
  ghost predicate MostGaps(sm: SlotMap, id: Uuid) {
    && id in Owners(sm.Keys)
    && forall j: Uuid :: j in Owners(sm.Keys) ==> OwnerSum(GapMap(sm), j) <= OwnerSum(GapMap(sm), id)
  }

  /** The worst interior gap count is the largest entry of the report's per-class attribution
      (0 when it is empty) if and only if there is no class day at all or some class with the most
      gap hours has no day whose span wraps. */
  lemma WorstInteriorIsLargestAttributionIff(sm: SlotMap, byClass: map<SchoolClassId, u32>)
    requires U8Slots(sm) && Tallies(byClass, Attribution(GapMap(sm)))
    ensures WorstInterior(sm) == MapMax<SchoolClassId>(byClass) <==>
      Owners(sm.Keys) == {} || exists id :: MostGaps(sm, id) && NoSpanWraps(sm, id)
    ensures (forall k :: k in sm ==> !SpanWraps(sm[k])) ==> WorstInterior(sm) == MapMax<SchoolClassId>(byClass)
  {
    var r := MapMax<SchoolClassId>(byClass);
    forall id: Uuid
      ensures id in byClass ==> id in InteriorMap(sm)
      ensures id in InteriorMap(sm) ==> InteriorMap(sm)[id] <= Entry(byClass, id) <= r
      ensures id in InteriorMap(sm) ==> (InteriorMap(sm)[id] == Entry(byClass, id) <==> NoSpanWraps(sm, id))
    {
      InteriorVsAttribution(sm, byClass, id);
    }
    WorstOfDominated(sm, byClass, InteriorMap(sm), r, WorstInterior(sm));
    if WorstInterior(sm) == r {
      LargestEntryHasMostGaps(sm, byClass, r);
    }
    if id: Uuid :| MostGaps(sm, id) && NoSpanWraps(sm, id) {
      MostGapsIsLargestEntry(sm, byClass, r, id);
    }
    if Owners(sm.Keys) == {} {
      NoOwnersNoEntries(sm, byClass);
    }
    if r > 0 && forall k :: k in sm ==> !SpanWraps(sm[k]) {
      var id: Uuid :| id in byClass && byClass[id] == r;
      assert NoSpanWraps(sm, id);
    }
  }

  /** The same of the code's worst interior gaps and the report's per-class map for one problem. */
  method WorstGapsMatchReport(pr: Problem, ps: seq<Placement>, violations: nat, w: ConstraintWeights)
    returns (worst: u32, report: QualityReport)
    requires Resolves(pr, ps)
    ensures Reports(report, pr, ps, violations, w)
    ensures var sm := ClassSlots(Meetings(pr, ps));
      && (worst == MapMax<SchoolClassId>(report.classGapHoursByClass) <==>
            Owners(sm.Keys) == {} || exists id :: MostGaps(sm, id) && NoSpanWraps(sm, id))
      && ((forall k :: k in sm ==> !SpanWraps(sm[k])) ==> worst == MapMax<SchoolClassId>(report.classGapHoursByClass))
  {
    worst := WorstClassInteriorGaps(pr, ps);
    report := BuildQualityReport(pr, ps, violations, w);
    ClassSlotsAreU8(Meetings(pr, ps));
    WorstInteriorIsLargestAttributionIff(ClassSlots(Meetings(pr, ps)), report.classGapHoursByClass);
  }

  lemma NoOwnersNoEntries(sm: SlotMap, byClass: map<SchoolClassId, u32>)
    requires U8Slots(sm) && Tallies(byClass, Attribution(GapMap(sm))) && Owners(sm.Keys) == {}
    ensures MapMax<SchoolClassId>(byClass) == 0
  {
    forall id: Uuid ensures id !in byClass {
      EntryIsOwnerSum(sm, byClass, id);
    }
  }

  lemma MostGapsIsLargestEntry(sm: SlotMap, byClass: map<SchoolClassId, u32>, r: nat, id: Uuid)
    requires U8Slots(sm) && Tallies(byClass, Attribution(GapMap(sm))) && IsMapMax<SchoolClassId>(byClass, r)
    requires MostGaps(sm, id)
    ensures Entry(byClass, id) == r
  {
    EntryIsOwnerSum(sm, byClass, id);
    if r > 0 {
      var j: Uuid :| j in byClass && byClass[j] == r;
      EntryIsOwnerSum(sm, byClass, j);
      assert OwnerSum(GapMap(sm), j) <= OwnerSum(GapMap(sm), id);
    }
  }

  /** With no gap hours at all no day wraps, so every class qualifies. */
  lemma LargestEntryHasMostGaps(sm: SlotMap, byClass: map<SchoolClassId, u32>, r: nat)
    requires U8Slots(sm) && Tallies(byClass, Attribution(GapMap(sm))) && IsMapMax<SchoolClassId>(byClass, r)
    requires r == 0 || exists id :: id in byClass && byClass[id] == r && NoSpanWraps(sm, id)
    ensures Owners(sm.Keys) == {} || exists id :: MostGaps(sm, id) && NoSpanWraps(sm, id)
  {
    if Owners(sm.Keys) != {} {
      var id: Uuid :| id in Owners(sm.Keys) && (r > 0 ==> id in byClass && byClass[id] == r && NoSpanWraps(sm, id)) by {
        if r > 0 {
          var id: Uuid :| id in byClass && byClass[id] == r && NoSpanWraps(sm, id);
          EntryIsOwnerSum(sm, byClass, id);
        }
      }
      forall j: Uuid | j in Owners(sm.Keys) ensures OwnerSum(GapMap(sm), j) <= r {
        EntryIsOwnerSum(sm, byClass, j);
      }
      EntryIsOwnerSum(sm, byClass, id);
      OwnerGapBound(sm, id);
      assert MostGaps(sm, id) && NoSpanWraps(sm, id);
    }
  }

  lemma WorstOfDominated(sm: SlotMap, byClass: map<SchoolClassId, u32>, interior: map<Uuid, nat>, r: nat, worst: nat)
    requires IsMapMax<SchoolClassId>(byClass, r) && IsMapMax<Uuid>(interior, worst)
    requires forall id: Uuid :: id in byClass ==> id in interior
    requires forall id: Uuid :: id in interior ==> interior[id] <= Entry(byClass, id) <= r
    requires forall id: Uuid :: id in interior ==> (interior[id] == Entry(byClass, id) <==> NoSpanWraps(sm, id))
    ensures worst <= r
    ensures worst == r <==> r == 0 || exists id :: id in byClass && byClass[id] == r && NoSpanWraps(sm, id)
  {
    if worst > 0 {
      var id: Uuid :| id in interior && interior[id] == worst;
      assert interior[id] <= Entry(byClass, id) <= r;
      if worst == r { assert id in byClass && byClass[id] == r; }
    }
    if id :| id in byClass && byClass[id] == r && NoSpanWraps(sm, id) {
      assert interior[id] == r;
    }
  }

  // ----- worst spread against day balance -----

  /** The meeting puts the class into that day. */
  predicate Joins(m: Meeting, c: SchoolClassId, day: u8) {
    m.day == day && c in m.classes
  }

  /** The member list names the class more than once. */
  ghost predicate NamedTwice(classes: seq<SchoolClassId>, c: SchoolClassId) {
    exists i, j :: 0 <= i < j < |classes| && classes[i] == c && classes[j] == c
  }

  /** Some meeting of the class on that day takes the position. */
  ghost predicate Meets(ms: seq<Meeting>, c: SchoolClassId, day: u8, position: u8) {
    exists i :: 0 <= i < |ms| && Joins(ms[i], c, day) && ms[i].position == position
  }

  /** Two meetings of the class take one position of the day. */
  ghost predicate TwoInOneSlot(ms: seq<Meeting>, c: SchoolClassId, day: u8) {
    exists i, j :: 0 <= i < j < |ms|
      && Joins(ms[i], c, day) && Joins(ms[j], c, day) && ms[i].position == ms[j].position
  }

  /** A meeting of that day names the class twice. */
  ghost predicate TwiceInOneMeeting(ms: seq<Meeting>, c: SchoolClassId, day: u8) {
    exists i :: 0 <= i < |ms| && ms[i].day == day && NamedTwice(ms[i].classes, c)
  }

  /** The class has two placements in one slot of the day. */
  ghost predicate SharesSlot(ms: seq<Meeting>, c: SchoolClassId, day: u8) {
    TwoInOneSlot(ms, c, day) || TwiceInOneMeeting(ms, c, day)
  }

  lemma {:induction false} NamedCount(classes: seq<SchoolClassId>, c: SchoolClassId)
    ensures multiset(classes)[c] > 0 <==> c in classes
    ensures multiset(classes)[c] > 1 <==> NamedTwice(classes, c)
  {
    if classes == [] {
    } else {
      var n := |classes| - 1;
      var front := classes[..n];
      NamedCount(front, c);
      assert classes == front + [classes[n]];
      if NamedTwice(front, c) {
        var i, j :| 0 <= i < j < n && front[i] == c && front[j] == c;
        assert classes[i] == c && classes[j] == c;
      }
      if classes[n] == c && c in front {
        var i :| 0 <= i < n && front[i] == c;
        assert classes[i] == c && classes[n] == c;
      }
      if NamedTwice(classes, c) {
        var i, j :| 0 <= i < j < |classes| && classes[i] == c && classes[j] == c;
        assert front[i] == c;
        assert j < n ==> front[j] == c;
      }
    }
  }

  lemma TwoInOneSlotStep(ms: seq<Meeting>, m: Meeting, c: SchoolClassId, day: u8)
    ensures TwoInOneSlot(ms + [m], c, day)
       <==> TwoInOneSlot(ms, c, day) || (Joins(m, c, day) && Meets(ms, c, day, m.position))
  {
    var all, n := ms + [m], |ms|;
    if TwoInOneSlot(ms, c, day) {
      var i, j :| 0 <= i < j < n && Joins(ms[i], c, day) && Joins(ms[j], c, day) && ms[i].position == ms[j].position;
      assert all[i] == ms[i] && all[j] == ms[j];
    }
    if Joins(m, c, day) && Meets(ms, c, day, m.position) {
      var i :| 0 <= i < n && Joins(ms[i], c, day) && ms[i].position == m.position;
      assert all[i] == ms[i] && all[n] == m;
    }
    if TwoInOneSlot(all, c, day) {
      var i, j :| 0 <= i < j < |all|
        && Joins(all[i], c, day) && Joins(all[j], c, day) && all[i].position == all[j].position;
      assert ms[i] == all[i];
      if j < n {
        assert ms[j] == all[j];
      } else {
        assert Meets(ms, c, day, m.position);
      }
    }
  }

  lemma TwiceInOneMeetingStep(ms: seq<Meeting>, m: Meeting, c: SchoolClassId, day: u8)
    ensures TwiceInOneMeeting(ms + [m], c, day)
       <==> TwiceInOneMeeting(ms, c, day) || (m.day == day && NamedTwice(m.classes, c))
  {
    var all, n := ms + [m], |ms|;
    if TwiceInOneMeeting(ms, c, day) {
      var i :| 0 <= i < n && ms[i].day == day && NamedTwice(ms[i].classes, c);
      assert all[i] == ms[i];
    }
    if m.day == day && NamedTwice(m.classes, c) {
      assert all[n] == m;
    }
    if TwiceInOneMeeting(all, c, day) {
      var i :| 0 <= i < |all| && all[i].day == day && NamedTwice(all[i].classes, c);
      assert i < n ==> ms[i] == all[i];
    }
  }

  lemma MeetsIsOccupied(ms: seq<Meeting>, c: SchoolClassId, day: u8, position: u8)
    ensures Meets(ms, c, day, position) <==> position as int in Occupied(ClassSlots(ms), (c, day))
  {
    ClassSlotsMember(ms, c, day);
    if Meets(ms, c, day, position) {
      var i :| 0 <= i < |ms| && Joins(ms[i], c, day) && ms[i].position == position;
      assert ms[i] in ms;
    }
    if ClassMeets(ms, c, day, position) {
      var m :| m in ms && c in m.classes && m.day == day && m.position == position;
      var i :| 0 <= i < |ms| && ms[i] == m;
    }
  }

  /** What one more meeting adds to the two daily counts. */
  lemma CountsStep(ms: seq<Meeting>, m: Meeting, c: SchoolClassId, day: u8)
    ensures RawCount(ms + [m], c, day) == RawCount(ms, c, day) + if m.day == day then multiset(m.classes)[c] else 0
    ensures |Occupied(ClassSlots(ms + [m]), (c, day))| == |Occupied(ClassSlots(ms), (c, day))|
          + if Joins(m, c, day) && !Meets(ms, c, day, m.position) then 1 else 0
  {
    var k := (c, day);
    assert (ms + [m])[..|ms|] == ms;
    AddSlotsMember(ClassSlots(ms), m.classes, m.day, m.position, k);
    MeetsIsOccupied(ms, c, day, m.position);
    OneMoreSlot(Occupied(ClassSlots(ms), k), m.position);
    assert Occupied(ClassSlots(ms), k) + {} == Occupied(ClassSlots(ms), k);
  }

  lemma OneMoreSlot(s: set<int>, q: int)
    ensures |s + {q}| == |s| + if q in s then 0 else 1
  {
    if q in s {
      assert s + {q} == s;
    }
  }

  /** A class has at least as many placements on a day as slots, and as many exactly when no two of
      its placements share a slot. */
  lemma {:induction false} RawCountIsSlotCountIff(ms: seq<Meeting>, c: SchoolClassId, day: u8)
    ensures RawCount(ms, c, day) >= |Occupied(ClassSlots(ms), (c, day))|
    ensures RawCount(ms, c, day) == |Occupied(ClassSlots(ms), (c, day))| <==> !SharesSlot(ms, c, day)
  {
    if ms == [] {
    } else {
      var n := |ms| - 1;
      var front, m := ms[..n], ms[n];
      assert ms == front + [m];
      RawCountIsSlotCountIff(front, c, day);
      CountsStep(front, m, c, day);
      TwoInOneSlotStep(front, m, c, day);
      TwiceInOneMeetingStep(front, m, c, day);
      NamedCount(m.classes, c);
    }
  }

  /** No class has two placements in one slot of the first five days. */
  ghost predicate NoSharedSlots(ms: seq<Meeting>) {
    forall c, day: u8 :: day < 5 ==> !SharesSlot(ms, c, day)
  }

  /** The daily counts as the comment on the spread describes them: distinct slots. */
  function SlotDays(ms: seq<Meeting>, c: SchoolClassId): (r: seq<u32>)
    ensures |r| == 5
  {
    seq(5, d requires 0 <= d < 5 => Wrap(|Occupied(ClassSlots(ms), (c, d))|))
  }

  /** The worst spread of those counts. */
  ghost function SlotSpread(ms: seq<Meeting>): nat {
    MapMax<SchoolClassId>(map c | c in FiveDayClasses(ms) :: Spread(SlotDays(ms, c)))
  }

  /** The counted days are the described ones if and only if the class shares no slot, as long as
      the plain u32 counters do not overflow. */
  lemma CountedDaysIff(ms: seq<Meeting>, c: SchoolClassId)
    requires forall d :: 0 <= d < 5 ==> RawCount(ms, c, d) <= U32_MAX
    ensures FiveDayCounts(ms, c) == SlotDays(ms, c) <==> forall day: u8 :: day < 5 ==> !SharesSlot(ms, c, day)
  {
    var raw, slots := FiveDayCounts(ms, c), SlotDays(ms, c);
    forall day: u8 | day < 5 ensures raw[day] == slots[day] <==> !SharesSlot(ms, c, day) {
      RawCountIsSlotCountIff(ms, c, day);
      Parity.SlotsAreU8(ms, c, day);
      WrapSmall(RawCount(ms, c, day));
    }
  }

  lemma CountedDaysOfClass(ms: seq<Meeting>, c: SchoolClassId)
    requires forall day: u8 :: day < 5 ==> !SharesSlot(ms, c, day)
    ensures FiveDayCounts(ms, c) == SlotDays(ms, c)
    ensures forall d :: 0 <= d < 5 ==> SlotDays(ms, c)[d] == SlotCounts(ClassSlots(ms), c, 5)[d]
  {
    forall day: u8 | day < 5
      ensures RawCount(ms, c, day) == SlotCounts(ClassSlots(ms), c, 5)[day] == SlotDays(ms, c)[day] <= U32_MAX
    {
      RawCountIsSlotCountIff(ms, c, day);
      Parity.SlotsAreU8(ms, c, day);
      WrapSmall(RawCount(ms, c, day));
    }
  }

  /** Without shared slots the worst spread is the one described. */
  lemma WorstSpreadIsSlotSpread(ms: seq<Meeting>)
    requires NoSharedSlots(ms)
    ensures WorstSpread(ms) == SlotSpread(ms)
  {
    forall c | c in FiveDayClasses(ms) ensures Spread(FiveDayCounts(ms, c)) == Spread(SlotDays(ms, c)) {
      CountedDaysOfClass(ms, c);
    }
    assert SpreadMap(ms) == map c | c in FiveDayClasses(ms) :: Spread(SlotDays(ms, c));
  }

  lemma FiveDaySpreadZeroIffEven(ms: seq<Meeting>, c: SchoolClassId)
    requires forall day: u8 :: day < 5 ==> !SharesSlot(ms, c, day)
    ensures Spread(FiveDayCounts(ms, c)) == 0 <==> AllEqual(SlotCounts(ClassSlots(ms), c, 5))
  {
    var raw, slots := FiveDayCounts(ms, c), SlotCounts(ClassSlots(ms), c, 5);
    CountedDaysOfClass(ms, c);
    if Spread(raw) == 0 {
      forall i, j | 0 <= i < 5 && 0 <= j < 5 ensures slots[i] == slots[j] {
        assert MinOf(raw) <= raw[i] <= MaxOf(raw) && MinOf(raw) <= raw[j] <= MaxOf(raw);
      }
    }
    if AllEqual(slots) {
      var i :| 0 <= i < 5 && raw[i] == MaxOf(raw);
      var j :| 0 <= j < 5 && raw[j] == MinOf(raw);
      assert slots[i] == slots[j];
    }
  }

  lemma {:induction false} FiveDayMember(ms: seq<Meeting>, c: SchoolClassId)
    ensures c in FiveDayClasses(ms) <==> exists m :: m in ms && m.day < 5 && c in m.classes
    ensures c !in FiveDayClasses(ms) ==> forall d :: 0 <= d < 5 ==> RawCount(ms, c, d) == 0
  {
    if ms == [] {
    } else {
      var n := |ms| - 1;
      FiveDayMember(ms[..n], c);
      assert ms == ms[..n] + [ms[n]];
      if m :| m in ms[..n] && m.day < 5 && c in m.classes { assert m in ms; }
      if ms[n].day < 5 && c in ms[n].classes { assert ms[n] in ms; }
      assert c in ms[n].classes <==> multiset(ms[n].classes)[c] > 0;
    }
  }

  lemma {:induction false} SumZero(xs: seq<nat>)
    ensures Sum(xs) == 0 <==> forall i :: 0 <= i < |xs| ==> xs[i] == 0
  {
    if xs == [] {
    } else {
      SumZero(xs[..|xs| - 1]);
    }
  }

  /** On a five-day week where no class has two placements in one slot and every class that meets is
      listed, the school's day-balance cost is 0 exactly when the worst class spread is 0. */
  lemma EvenWeekByBothMetrics(ms: seq<Meeting>, classes: seq<SchoolClass>)
    requires NoSharedSlots(ms)
    requires forall c :: c in FiveDayClasses(ms) ==> exists i :: 0 <= i < |classes| && classes[i].id == c
    ensures Sum(SlotCosts(ClassSlots(ms), classes, 5)) == 0 <==> WorstSpread(ms) == 0
  {
    var sm, costs := ClassSlots(ms), SlotCosts(ClassSlots(ms), classes, 5);
    SumZero(costs);
    forall i | 0 <= i < |classes| ensures costs[i] == 0 <==> Spread(FiveDayCounts(ms, classes[i].id)) == 0 {
      CostZeroIffEven(SlotCounts(sm, classes[i].id, 5));
      FiveDaySpreadZeroIffEven(ms, classes[i].id);
    }
    if Sum(costs) == 0 {
      forall c | c in SpreadMap(ms) ensures SpreadMap(ms)[c] == 0 {
        var i :| 0 <= i < |classes| && classes[i].id == c;
        assert costs[i] == 0;
      }
      assert WorstSpread(ms) == 0;
    }
    if WorstSpread(ms) == 0 {
      forall i | 0 <= i < |classes| ensures costs[i] == 0 {
        var c := classes[i].id;
        FiveDayMember(ms, c);
        if c in FiveDayClasses(ms) {
          assert SpreadMap(ms)[c] == 0;
        } else {
          IdleClassSpread(ms, c);
        }
      }
    }
  }

  /** Every class with a placement on the first five days is in the problem's list. */
  ghost predicate MeetingClassesListed(pr: Problem, ms: seq<Meeting>) {
    forall c :: c in FiveDayClasses(ms) ==> exists i :: 0 <= i < |pr.schoolClasses| && pr.schoolClasses[i].id == c
  }

  /** The same of the code's two figures for one problem. */
  method EvenWeekByBothPasses(pr: Problem, ps: seq<Placement>) returns (balance: u32, worst: u32)
    requires (forall p :: p in ps ==> Known(pr, p)) && Days(pr) == 5
    ensures var ms := Meetings(pr, ps);
      NoSharedSlots(ms) && MeetingClassesListed(pr, ms) ==> (balance == 0 <==> worst == 0)
    ensures worst == WorstSpread(Meetings(pr, ps))
    ensures balance == Cap(Sum(SlotCosts(ClassSlots(Meetings(pr, ps)), pr.schoolClasses, Days(pr))))
  {
    ghost var sm := ClassSlots(Meetings(pr, ps));
    var byClassDay, byTeacherDay := CollectPartitions(pr, ps);
    byClassDay := SortDedupAll(byClassDay, sm);
    balance := ClassDayBalanceCost(byClassDay, pr.schoolClasses, Days(pr));
    SchoolBalanceExact(byClassDay, sm, pr.schoolClasses, Days(pr));
    worst := WorstClassSpread(pr, ps);
    if NoSharedSlots(Meetings(pr, ps)) && MeetingClassesListed(pr, Meetings(pr, ps)) {
      EvenWeekByBothMetrics(Meetings(pr, ps), pr.schoolClasses);
    }
  }

  lemma IdleClassSpread(ms: seq<Meeting>, c: SchoolClassId)
    requires forall d :: 0 <= d < 5 ==> RawCount(ms, c, d) == 0
    ensures Spread(FiveDayCounts(ms, c)) == 0
  {
    var raw := FiveDayCounts(ms, c);
    assert forall i :: 0 <= i < 5 ==> raw[i] == 0;
  }

  /** The condition matters. A second placement of a meeting that is already there changes no
      slot, hence no gap and no balance cost, but raises the counts behind the worst spread. */
  lemma CoPlacedMeetingCountsTwice(ms: seq<Meeting>, m: Meeting, c: SchoolClassId)
    requires m in ms && c in m.classes
    ensures ClassSlots(ms + [m]) == ClassSlots(ms)
    ensures RawCount(ms + [m], c, m.day) > RawCount(ms, c, m.day)
  {
    var more := ms + [m];
    assert more[..|ms|] == ms;
    assert multiset(m.classes)[c] > 0;
    forall k: (Uuid, u8)
      ensures k in ClassSlots(more) <==> k in ClassSlots(ms)
      ensures Occupied(ClassSlots(more), k) == Occupied(ClassSlots(ms), k)
    {
      SameSlots(ms, m, k);
    }
  }

  lemma SameSlots(ms: seq<Meeting>, m: Meeting, k: (Uuid, u8))
    requires m in ms
    ensures k in ClassSlots(ms + [m]) <==> k in ClassSlots(ms)
    ensures Occupied(ClassSlots(ms + [m]), k) == Occupied(ClassSlots(ms), k)
  {
    assert (ms + [m])[..|ms|] == ms;
    AddSlotsMember(ClassSlots(ms), m.classes, m.day, m.position, k);
    ClassSlotsMember(ms, k.0, k.1);
    if k.0 in m.classes && k.1 == m.day {
      assert ClassMeets(ms, k.0, k.1, m.position);
      assert k == (k.0, k.1);
    }
  }
}
