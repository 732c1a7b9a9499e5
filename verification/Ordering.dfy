/** First-fit-decreasing lesson order (ordering.rs): most constrained lesson first. */
module Ordering {
  import opened Machine
  import opened Collections
  import opened Sorting
  import opened Types
  import opened Index

  // ----- lesson blocks per day -----

  type DayBlocks = (u8, seq<TimeBlock>)

  /** Push into the first entry of that day, or open a new one. */
  function PushBlock(days: seq<DayBlocks>, tb: TimeBlock): seq<DayBlocks> {
    if days == [] then [(tb.dayOfWeek, [tb])]
    else if days[0].0 == tb.dayOfWeek then [(days[0].0, days[0].1 + [tb])] + days[1..]
    else [days[0]] + PushBlock(days[1..], tb)
  }

  /** Lesson-kind blocks grouped by day in order of first appearance; breaks are left out. */
  function GroupByDay(tbs: seq<TimeBlock>): seq<DayBlocks> {
    if tbs == [] then []
    else
      var front, tb := GroupByDay(tbs[..|tbs| - 1]), tbs[|tbs| - 1];
      if tb.kind == LessonBlock then PushBlock(front, tb) else front
  }

  predicate PositionLe(a: TimeBlock, b: TimeBlock) {
    a.position <= b.position
  }

  function SortDays(days: seq<DayBlocks>): (r: seq<DayBlocks>)
    ensures |r| == |days|
  {
    seq(|days|, i requires 0 <= i < |days| => (days[i].0, Sort(PositionLe, days[i].1)))
  }

  function LessonDays(pr: Problem): seq<DayBlocks> {
    SortDays(GroupByDay(pr.timeBlocks))
  }

  ghost predicate DistinctDays(days: seq<DayBlocks>) {
    forall i, j :: 0 <= i < j < |days| ==> days[i].0 != days[j].0
  }

  /** Some entry for day `d` lists block `b`. */
  ghost predicate Holds(days: seq<DayBlocks>, d: u8, b: TimeBlock) {
    exists i :: 0 <= i < |days| && days[i].0 == d && b in days[i].1
  }

  lemma HoldsCons(days: seq<DayBlocks>, d: u8, b: TimeBlock)
    requires days != []
    ensures Holds(days, d, b) <==> (days[0].0 == d && b in days[0].1) || Holds(days[1..], d, b)
  {
    if i :| 0 <= i < |days[1..]| && days[1..][i].0 == d && b in days[1..][i].1 { assert days[i + 1] == days[1..][i]; }
    if i :| 1 <= i < |days| && days[i].0 == d && b in days[i].1 { assert days[1..][i - 1] == days[i]; }
  }

  lemma {:induction false} PushBlockHolds(days: seq<DayBlocks>, tb: TimeBlock, d: u8, b: TimeBlock)
    ensures Holds(PushBlock(days, tb), d, b) <==> Holds(days, d, b) || (d == tb.dayOfWeek && b == tb)
  {
    var r := PushBlock(days, tb);
    HoldsCons(r, d, b);
    if days == [] {
    } else {
      HoldsCons(days, d, b);
      if days[0].0 == tb.dayOfWeek {
        assert r[1..] == days[1..];
      } else {
        assert r[1..] == PushBlock(days[1..], tb);
        PushBlockHolds(days[1..], tb, d, b);
      }
    }
  }

  lemma {:induction false} PushBlockDistinct(days: seq<DayBlocks>, tb: TimeBlock)
    requires DistinctDays(days)
    ensures DistinctDays(PushBlock(days, tb))
    ensures forall i :: 0 <= i < |PushBlock(days, tb)| ==>
      PushBlock(days, tb)[i].0 == tb.dayOfWeek || exists j :: 0 <= j < |days| && days[j].0 == PushBlock(days, tb)[i].0
  {
    if days != [] && days[0].0 != tb.dayOfWeek {
      PushBlockDistinct(days[1..], tb);
      var rest := PushBlock(days[1..], tb);
      forall i | 0 <= i < |rest|
        ensures rest[i].0 != days[0].0
        ensures rest[i].0 == tb.dayOfWeek || exists j :: 0 <= j < |days| && days[j].0 == rest[i].0
      {
        if rest[i].0 != tb.dayOfWeek {
          var j :| 0 <= j < |days[1..]| && days[1..][j].0 == rest[i].0;
          assert days[j + 1].0 == rest[i].0;
        }
      }
    }
  }

  lemma {:induction false} GroupByDayExact(tbs: seq<TimeBlock>)
    ensures DistinctDays(GroupByDay(tbs))
    ensures forall d, b :: Holds(GroupByDay(tbs), d, b) <==> b in tbs && b.kind == LessonBlock && b.dayOfWeek == d
  {
    if tbs == [] {
    } else {
      var n := |tbs| - 1;
      GroupByDayExact(tbs[..n]);
      assert tbs == tbs[..n] + [tbs[n]];
      if tbs[n].kind == LessonBlock {
        PushBlockDistinct(GroupByDay(tbs[..n]), tbs[n]);
        forall d, b
          ensures Holds(GroupByDay(tbs), d, b)
             <==> Holds(GroupByDay(tbs[..n]), d, b) || (d == tbs[n].dayOfWeek && b == tbs[n])
        {
          PushBlockHolds(GroupByDay(tbs[..n]), tbs[n], d, b);
        }
      }
    }
  }

  /** The lesson blocks of one day, in list order. */
  function LessonBlocksOn(tbs: seq<TimeBlock>, d: u8): seq<TimeBlock> {
    if tbs == [] then []
    else
      var front, tb := LessonBlocksOn(tbs[..|tbs| - 1], d), tbs[|tbs| - 1];
      if tb.kind == LessonBlock && tb.dayOfWeek == d then front + [tb] else front
  }

  lemma {:induction false} LessonBlocksOnMember(tbs: seq<TimeBlock>, d: u8, b: TimeBlock)
    requires b in LessonBlocksOn(tbs, d)
    ensures b in tbs && b.kind == LessonBlock && b.dayOfWeek == d
  {
    var n := |tbs| - 1;
    assert tbs == tbs[..n] + [tbs[n]];
    if b in LessonBlocksOn(tbs[..n], d) {
      LessonBlocksOnMember(tbs[..n], d, b);
    }
  }

  lemma {:induction false} PushBlockAt(days: seq<DayBlocks>, tb: TimeBlock, i: nat)
    requires DistinctDays(days) && i < |PushBlock(days, tb)|
    ensures var r := PushBlock(days, tb)[i];
      if i < |days| then r == (days[i].0, if days[i].0 == tb.dayOfWeek then days[i].1 + [tb] else days[i].1)
      else r == (tb.dayOfWeek, [tb]) && forall j :: 0 <= j < |days| ==> days[j].0 != tb.dayOfWeek
  {
    if days != [] && days[0].0 != tb.dayOfWeek && i > 0 {
      PushBlockAt(days[1..], tb, i - 1);
      if i >= |days| {
        forall j | 0 <= j < |days| ensures days[j].0 != tb.dayOfWeek {
          if j > 0 { assert days[1..][j - 1].0 != tb.dayOfWeek; }
        }
      }
    }
  }

  /** Grouping neither loses nor repeats a block: each group is the day's blocks in list order. */
  lemma {:induction false} GroupsAreComplete(tbs: seq<TimeBlock>, i: nat)
    requires i < |GroupByDay(tbs)|
    ensures GroupByDay(tbs)[i].1 == LessonBlocksOn(tbs, GroupByDay(tbs)[i].0)
  {
    var n := |tbs| - 1;
    var front, tb := tbs[..n], tbs[n];
    var groups := GroupByDay(front);
    GroupByDayExact(front);
    if tb.kind != LessonBlock {
      GroupsAreComplete(front, i);
    } else {
      PushBlockAt(groups, tb, i);
      if i < |groups| {
        GroupsAreComplete(front, i);
      } else {
        NoGroupNoBlocks(front, tb.dayOfWeek);
      }
    }
  }

  lemma NoGroupNoBlocks(tbs: seq<TimeBlock>, d: u8)
    requires forall j :: 0 <= j < |GroupByDay(tbs)| ==> GroupByDay(tbs)[j].0 != d
    ensures LessonBlocksOn(tbs, d) == []
  {
    GroupByDayExact(tbs);
    if |LessonBlocksOn(tbs, d)| > 0 {
      var b := LessonBlocksOn(tbs, d)[0];
      LessonBlocksOnMember(tbs, d, b);
      assert !Holds(GroupByDay(tbs), d, b);
    }
  }

  /** Each day appears once and holds exactly that day's lesson blocks, none lost or repeated, in
      position order. */
  lemma LessonDaysExact(pr: Problem)
    ensures DistinctDays(LessonDays(pr)) && |LessonDays(pr)| <= 256
    ensures forall d, b ::
      Holds(LessonDays(pr), d, b) <==> b in pr.timeBlocks && b.kind == LessonBlock && b.dayOfWeek == d
    ensures forall i :: 0 <= i < |LessonDays(pr)| ==>
      && SortedBy(PositionLe, LessonDays(pr)[i].1)
      && multiset(LessonDays(pr)[i].1) == multiset(LessonBlocksOn(pr.timeBlocks, LessonDays(pr)[i].0))
  {
    var groups, days := GroupByDay(pr.timeBlocks), LessonDays(pr);
    GroupByDayExact(pr.timeBlocks);
    forall i | 0 <= i < |days|
      ensures SortedBy(PositionLe, days[i].1) && days[i].0 == groups[i].0
      ensures multiset(days[i].1) == multiset(LessonBlocksOn(pr.timeBlocks, days[i].0))
      ensures forall b :: b in days[i].1 <==> b in groups[i].1
    {
      SortSorts(PositionLe, groups[i].1);
      SortPermutes(PositionLe, groups[i].1);
      GroupsAreComplete(pr.timeBlocks, i);
    }
    forall d, b ensures Holds(days, d, b) <==> Holds(groups, d, b) {
      if i :| 0 <= i < |days| && days[i].0 == d && b in days[i].1 { assert groups[i].0 == d && b in groups[i].1; }
      if i :| 0 <= i < |groups| && groups[i].0 == d && b in groups[i].1 { assert days[i].0 == d && b in days[i].1; }
    }
    DistinctDayCount(days, 256);
  }

  lemma {:induction false} DistinctDayCount(days: seq<DayBlocks>, n: nat)
    requires DistinctDays(days) && n <= 256 && forall i :: 0 <= i < |days| ==> days[i].0 < n
    ensures |days| <= n
  {
    if days != [] { assert days[0].0 < n; }
    if n == 0 {
    } else {
      if i :| 0 <= i < |days| && days[i].0 == n - 1 {
        var rest := days[..i] + days[i + 1..];
        DistinctDayCount(rest, n - 1);
      } else {
        DistinctDayCount(days, n - 1);
      }
    }
  }

  // ----- free windows -----

  /** Neither the teacher nor the room is blocked. */
  predicate Free(pr: Problem, t: TeacherId, r: RoomId, tb: TimeBlock) {
    !ListsTeacherBlocked(pr, t, tb.id) && !ListsRoomBlocked(pr, r, tb.id)
  }

  function FreeSlots(pr: Problem, t: TeacherId, r: RoomId, day: seq<TimeBlock>): (free: seq<bool>)
    ensures |free| == |day|
  {
    seq(|day|, i requires 0 <= i < |day| => Free(pr, t, r, day[i]))
  }

  ghost predicate WindowAt(free: seq<bool>, n: nat, s: int) {
    0 <= s && s + n <= |free| && forall k :: s <= k < s + n ==> free[k]
  }

  /** Some `n` consecutive entries are all free. */
  ghost predicate HasWindow(free: seq<bool>, n: nat) {
    exists s :: WindowAt(free, n, s)
  }

  /** The run counter succeeds exactly when a free window of length `n` exists. */
  method RunFits(pr: Problem, idx: Indexed, t: TeacherId, r: RoomId, day: seq<TimeBlock>, n: nat) returns (fits: bool)
    requires Answers(idx, pr) && n > 0
    ensures fits <==> HasWindow(FreeSlots(pr, t, r, day), n)
  {
    ghost var free := FreeSlots(pr, t, r, day);
    var run := 0;
    fits := false;
    for i := 0 to |day|
      invariant 0 <= run <= i && run < n && !fits
      invariant forall k :: i - run <= k < i ==> free[k]
      invariant run == i || !free[i - run - 1]
      invariant forall s :: WindowAt(free, n, s) ==> s + n > i
    {
      if !idx.TeacherBlocked(t, day[i].id) && !idx.RoomBlocked(r, day[i].id) {
        assert free[i];
        run := run + 1;
        if run >= n {
          fits := true;
          assert WindowAt(free, n, i + 1 - run);
          break;
        }
        assert run == i + 1 || !free[i - run];
      } else {
        assert !free[i];
        run := 0;
      }
    }
  }

  // ----- home rooms -----

  /** The (class, home room) pairs of the classes that have one. */
  function HomeRoomPairs(classes: seq<SchoolClass>): seq<(SchoolClassId, RoomId)> {
    if classes == [] then []
    else
      var front, c := HomeRoomPairs(classes[..|classes| - 1]), classes[|classes| - 1];
      if c.homeRoomId.Some? then front + [(c.id, c.homeRoomId.value)] else front
  }

  /** The room of the first pair for this class. */
  function FirstRoom(pairs: seq<(SchoolClassId, RoomId)>, c: SchoolClassId): Option<RoomId> {
    if pairs == [] then None
    else if pairs[0].0 == c then Some(pairs[0].1)
    else FirstRoom(pairs[1..], c)
  }

  /** The home rooms of a lesson's classes, in class order. */
  function AllHomeRooms(classes: seq<SchoolClassId>, pairs: seq<(SchoolClassId, RoomId)>): seq<RoomId> {
    if classes == [] then []
    else
      var front, room := AllHomeRooms(classes[..|classes| - 1], pairs), FirstRoom(pairs, classes[|classes| - 1]);
      if room.Some? then front + [room.value] else front
  }

  function KeptHomeRooms(classes: seq<SchoolClassId>, pairs: seq<(SchoolClassId, RoomId)>): seq<RoomId> {
    var all := AllHomeRooms(classes, pairs);
    if |all| <= 4 then all else all[..4]
  }

  method FindRoom(pairs: seq<(SchoolClassId, RoomId)>, c: SchoolClassId) returns (room: Option<RoomId>)
    ensures room == FirstRoom(pairs, c)
  {
    for i := 0 to |pairs|
      invariant FirstRoom(pairs, c) == FirstRoom(pairs[i..], c)
    {
      if pairs[i].0 == c {
        return Some(pairs[i].1);
      }
    }
    room := None;
  }

  /** A four-slot buffer: home rooms after the fourth are dropped. */
  method LessonHomeRooms(classes: seq<SchoolClassId>, pairs: seq<(SchoolClassId, RoomId)>)
    returns (rooms: seq<Option<RoomId>>, count: nat)
    ensures |rooms| == 4 && count <= 4
    ensures count == |KeptHomeRooms(classes, pairs)|
    ensures forall i :: 0 <= i < count ==> rooms[i] == Some(KeptHomeRooms(classes, pairs)[i])
  {
    rooms, count := [None, None, None, None], 0;
    for j := 0 to |classes|
      invariant |rooms| == 4 && count <= 4 && count == |KeptHomeRooms(classes[..j], pairs)|
      invariant forall i :: 0 <= i < count ==> rooms[i] == Some(KeptHomeRooms(classes[..j], pairs)[i])
    {
      assert classes[..j + 1][..j] == classes[..j];
      var room := FindRoom(pairs, classes[j]);
      if room.Some? && count < 4 {
        rooms := rooms[count := room];
        count := count + 1;
      }
    }
    assert classes[..|classes|] == classes;
  }

  function HomeRoomsContain(rooms: seq<Option<RoomId>>, count: nat, room: RoomId): bool
    requires count <= |rooms|
  {
    exists i :: 0 <= i < count && rooms[i] == Some(room)
  }

  /** The buffer recognises every home room of the lesson if and only if each home room past
      the fourth repeats one of the first four; up to four home rooms none is lost. */
  lemma FourHomeRoomsSuffice(classes: seq<SchoolClassId>, pairs: seq<(SchoolClassId, RoomId)>)
    ensures var all := AllHomeRooms(classes, pairs);
      (forall r :: r in KeptHomeRooms(classes, pairs) <==> r in all)
      <==> |all| <= 4 || forall j :: 4 <= j < |all| ==> all[j] in all[..4]
  {
    var all := AllHomeRooms(classes, pairs);
    if |all| > 4 {
      if forall r :: r in all[..4] <==> r in all {
        forall j | 4 <= j < |all| ensures all[j] in all[..4] {
          assert all[j] in all;
        }
      }
    }
  }
}
