/** The placement order in terms of the lessons, the blocked rows and the rooms (ordering.rs). */
module OrderMeaning {
  import opened Machine
  import opened Collections
  import opened Sorting
  import opened Types
  import opened Index
  import opened Ordering
  import opened LessonOrder
  import opened HomeRooms

  // ----- which lesson comes first -----

  /** Of two lessons the earlier has no more candidate teachers; with equally many no more viable pairs;
      with equally many of those no more home pairs; and with equally many of those no larger id. */
  lemma EarlierIsScarcer(pr: Problem, order: seq<nat>, i: nat, j: nat)
    requires IsFfdOrder(pr, order) && i < j < |order|
    requires forall l :: l in pr.lessons ==> |l.teacherCandidates| <= U32_MAX
    ensures order[i] < |pr.lessons| && order[j] < |pr.lessons|
    ensures var a, b := pr.lessons[order[i]], pr.lessons[order[j]];
      && |a.teacherCandidates| <= |b.teacherCandidates|
      && (|a.teacherCandidates| == |b.teacherCandidates| ==>
            && Metric(pr, a, false) <= Metric(pr, b, false)
            && (Metric(pr, a, false) == Metric(pr, b, false) ==>
                  && Metric(pr, a, true) <= Metric(pr, b, true)
                  && (Metric(pr, a, true) == Metric(pr, b, true) ==> a.id <= b.id)))
  {
    var a, b := pr.lessons[order[i]], pr.lessons[order[j]];
    assert RankLe(Ranks(pr)[order[i]], Ranks(pr)[order[j]]);
    assert a in pr.lessons && b in pr.lessons;
    WrapSmall(|a.teacherCandidates|);
    WrapSmall(|b.teacherCandidates|);
  }

  lemma {:induction false} IndicesOnce(n: nat, k: nat)
    ensures multiset(Indices(n))[k] == if k < n then 1 else 0
  {
    if n == 0 {
    } else {
      IndicesOnce(n - 1, k);
      assert Indices(n) == Indices(n - 1) + [n - 1];
    }
  }

  /** Every lesson is listed exactly once. */
  lemma OrderListsEachOnce(pr: Problem, order: seq<nat>, k: nat)
    requires IsFfdOrder(pr, order) && k < |pr.lessons|
    ensures exists i :: 0 <= i < |order| && order[i] == k
    ensures forall i, j :: 0 <= i < j < |order| && order[i] == k ==> order[j] != k
  {
    IndicesOnce(|pr.lessons|, k);
    assert k in multiset(order);
    forall i, j | 0 <= i < j < |order| && order[i] == k ensures order[j] != k {
      if order[j] == k {
        TwiceCounted(order, i, j);
      }
    }
  }

  lemma TwiceCounted(order: seq<nat>, i: int, j: int)
    requires 0 <= i < j < |order| && order[i] == order[j]
    ensures multiset(order)[order[i]] >= 2
  {
    assert order == order[..i] + [order[i]] + order[i + 1..j] + [order[j]] + order[j + 1..];
  }

  // ----- viable pairs -----

  /** The lesson's pinned teacher, or its first candidate without a pin. */
  predicate TaughtBy(l: Lesson, t: TeacherId) {
    l.teacherPin == Some(t) || (l.teacherPin.None? && l.teacherCandidates != [] && l.teacherCandidates[0] == t)
  }

  /** No blocked row for the teacher or the room names the block. */
  predicate Unblocked(pr: Problem, t: TeacherId, r: RoomId, tb: TimeBlock) {
    TeacherBlockedTime(t, tb.id) !in pr.teacherBlockedTimes && RoomBlockedTime(r, tb.id) !in pr.roomBlockedTimes
  }

  /** From block `s` of the day on, `n` blocks in a row are unblocked. */
  ghost predicate FreeFrom(pr: Problem, t: TeacherId, r: RoomId, day: seq<TimeBlock>, n: nat, s: int) {
    0 <= s && s + n <= |day| && forall k :: s <= k < s + n ==> Unblocked(pr, t, r, day[k])
  }

  /** The room is listed for the subject, or for no subject at all. */
  predicate Suitable(pr: Problem, r: RoomId, s: SubjectId) {
    || RoomSubjectSuitability(r, s) in pr.roomSubjectSuitabilities
    || forall i :: 0 <= i < |pr.roomSubjectSuitabilities| ==> pr.roomSubjectSuitabilities[i].roomId != r
  }

  /** A (day, room) pair is viable exactly when the room is suitable and some run of blocks of the
      lesson's size is unblocked for its teacher and the room. */
  lemma ViableMeaning(pr: Problem, l: Lesson, day: seq<TimeBlock>, r: RoomId, t: TeacherId)
    requires TaughtBy(l, t)
    ensures Viable(pr, l, day, r) <==>
      Suitable(pr, r, l.subjectId) && exists s :: FreeFrom(pr, t, r, day, l.preferredBlockSize, s)
  {
    var free := FreeSlots(pr, t, r, day);
    var n := l.preferredBlockSize;
    assert forall k :: 0 <= k < |day| ==> (free[k] <==> Unblocked(pr, t, r, day[k]));
    if s :| WindowAt(free, n, s) {
      assert FreeFrom(pr, t, r, day, n, s);
    }
    if s :| FreeFrom(pr, t, r, day, n, s) {
      assert WindowAt(free, n, s);
    }
  }

  /** The rooms of one day that count. */
  ghost function CountedRooms(pr: Problem, l: Lesson, day: seq<TimeBlock>, rooms: seq<RoomId>, homeOnly: bool)
    : set<nat>
  {
    set j: nat | j < |rooms| && Viable(pr, l, day, rooms[j]) && (homeOnly ==> InHome(pr, l, rooms[j]))
  }

  lemma {:induction false} ViableRoomsMeaning(pr: Problem, l: Lesson, day: seq<TimeBlock>, rooms: seq<RoomId>,
                                              homeOnly: bool)
    ensures ViableRooms(pr, l, day, rooms, homeOnly) == |CountedRooms(pr, l, day, rooms, homeOnly)|
  {
    if rooms == [] {
      assert CountedRooms(pr, l, day, rooms, homeOnly) == {};
    } else {
      var n := |rooms| - 1;
      ViableRoomsMeaning(pr, l, day, rooms[..n], homeOnly);
      if Viable(pr, l, day, rooms[n]) && (homeOnly ==> InHome(pr, l, rooms[n])) {
        assert CountedRooms(pr, l, day, rooms, homeOnly) == CountedRooms(pr, l, day, rooms[..n], homeOnly) + {n};
      } else {
        assert CountedRooms(pr, l, day, rooms, homeOnly) == CountedRooms(pr, l, day, rooms[..n], homeOnly);
      }
    }
  }

  /** The (day, room) pairs that count. */
  ghost function CountedPairs(pr: Problem, l: Lesson, days: seq<DayBlocks>, homeOnly: bool): set<(nat, nat)> {
    set i: nat, j: nat | i < |days| && j < |pr.rooms| && Viable(pr, l, days[i].1, pr.rooms[j])
      && (homeOnly ==> InHome(pr, l, pr.rooms[j])) :: (i, j)
  }

  lemma CountedPairsSplit(pr: Problem, l: Lesson, days: seq<DayBlocks>, n: nat, homeOnly: bool)
    requires |days| == n + 1
    ensures CountedPairs(pr, l, days, homeOnly)
         == CountedPairs(pr, l, days[..n], homeOnly) + Tagged(n, CountedRooms(pr, l, days[n].1, pr.rooms, homeOnly))
  {
    assert forall i :: 0 <= i < n ==> days[..n][i] == days[i];
  }

  /** The metric counts the viable (day, room) pairs, or those with a kept home room. */
  lemma {:induction false} ViablePairsMeaning(pr: Problem, l: Lesson, days: seq<DayBlocks>, homeOnly: bool)
    ensures ViablePairs(pr, l, days, homeOnly) == |CountedPairs(pr, l, days, homeOnly)|
  {
    if days == [] {
      assert CountedPairs(pr, l, days, homeOnly) == {};
    } else {
      var n := |days| - 1;
      var today := CountedRooms(pr, l, days[n].1, pr.rooms, homeOnly);
      ViablePairsMeaning(pr, l, days[..n], homeOnly);
      ViableRoomsMeaning(pr, l, days[n].1, pr.rooms, homeOnly);
      CountedPairsSplit(pr, l, days, n, homeOnly);
      DisjointSize(CountedPairs(pr, l, days[..n], homeOnly), Tagged(n, today));
      TaggedSize(n, today);
    }
  }

  /** The figure the order compares: the number of counted pairs, capped, and 0 for a block size of 0. */
  lemma MetricMeaning(pr: Problem, l: Lesson, homeOnly: bool)
    ensures Metric(pr, l, homeOnly)
         == if l.preferredBlockSize > 0 then Cap(|CountedPairs(pr, l, LessonDays(pr), homeOnly)|) else 0
  {
    ViablePairsMeaning(pr, l, LessonDays(pr), homeOnly);
  }

  /** The blocks of each day come by ascending position. */
  lemma DaysAscend(pr: Problem, i: nat, j: nat, k: nat)
    requires i < |LessonDays(pr)| && j < k < |LessonDays(pr)[i].1|
    ensures LessonDays(pr)[i].1[j].position <= LessonDays(pr)[i].1[k].position
  {
    LessonDaysExact(pr);
    assert PositionLe(LessonDays(pr)[i].1[j], LessonDays(pr)[i].1[k]);
  }

  // ----- which home rooms are kept -----

  /** Class `i` of the list is the first with that id and a home room, which is `r`. */
  ghost predicate FirstHomeOf(classes: seq<SchoolClass>, i: int, c: SchoolClassId, r: RoomId) {
    && 0 <= i < |classes| && classes[i].id == c && classes[i].homeRoomId == Some(r)
    && forall j :: 0 <= j < i && classes[j].id == c ==> classes[j].homeRoomId.None?
  }

  lemma {:induction false} FirstRoomAppend(pairs: seq<(SchoolClassId, RoomId)>, p: (SchoolClassId, RoomId),
                                           c: SchoolClassId)
    ensures FirstRoom(pairs + [p], c)
         == if FirstRoom(pairs, c).Some? then FirstRoom(pairs, c) else if p.0 == c then Some(p.1) else None
  {
    if pairs == [] {
      assert ([] + [p])[1..] == [];
      assert pairs + [p] == [p];
    } else {
      assert (pairs + [p])[1..] == pairs[1..] + [p];
      FirstRoomAppend(pairs[1..], p, c);
    }
  }

  /** The home room found for a class is that of its first listing with one. */
  lemma {:induction false} FoundRoomMeaning(classes: seq<SchoolClass>, c: SchoolClassId)
    ensures FirstRoom(HomeRoomPairs(classes), c).Some? ==>
      exists i :: FirstHomeOf(classes, i, c, FirstRoom(HomeRoomPairs(classes), c).value)
    ensures FirstRoom(HomeRoomPairs(classes), c).None? ==>
      forall i :: 0 <= i < |classes| && classes[i].id == c ==> classes[i].homeRoomId.None?
  {
    if classes == [] {
    } else {
      var n := |classes| - 1;
      var front, last := classes[..n], classes[n];
      FoundRoomMeaning(front, c);
      assert forall i :: 0 <= i < n ==> front[i] == classes[i];
      if last.homeRoomId.Some? {
        FirstRoomAppend(HomeRoomPairs(front), (last.id, last.homeRoomId.value), c);
      }
      var found := FirstRoom(HomeRoomPairs(front), c);
      if found.Some? {
        var i :| FirstHomeOf(front, i, c, found.value);
        assert FirstHomeOf(classes, i, c, found.value);
      } else if last.id == c && last.homeRoomId.Some? {
        assert FirstHomeOf(classes, n, c, last.homeRoomId.value);
      }
    }
  }

  /** The home room of a member class stands right after those of the members before it. */
  lemma {:induction false} RoomsInMemberOrder(members: seq<SchoolClassId>, pairs: seq<(SchoolClassId, RoomId)>, j: nat)
    requires j < |members|
    ensures var room := FirstRoom(pairs, members[j]);
      AllHomeRooms(members[..j], pairs) + (if room.Some? then [room.value] else []) <= AllHomeRooms(members, pairs)
  {
    var n := |members| - 1;
    if j < n {
      RoomsInMemberOrder(members[..n], pairs, j);
      assert members[..n][..j] == members[..j];
    }
  }

  /** Kept are the first four of the lesson's home rooms. */
  lemma KeptMeaning(pr: Problem, l: Lesson, r: RoomId)
    ensures InHome(pr, l, r) <==>
      exists m :: 0 <= m < 4 && m < |AllRooms(pr, l)| && AllRooms(pr, l)[m] == r
  {
    var all, kept := AllRooms(pr, l), KeptRooms(pr, l);
    assert forall m :: 0 <= m < |kept| ==> kept[m] == all[m];
    if m :| 0 <= m < 4 && m < |all| && all[m] == r {
      assert kept[m] == r;
    }
  }
}
