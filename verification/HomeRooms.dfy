/** The home-room axis in terms of the class list and the placements (score.rs, quality.rs). */
module HomeRooms {
  import opened Machine
  import opened Collections
  import opened Types
  import opened Timetable
  import opened Objective
  import opened Score
  import opened Quality
  import opened UnitTotals

  // ----- which member is away from home -----

  /** Class `i` of the list is the last with its id; the lookup tables keep that one. */
  ghost predicate LastListing(pr: Problem, i: int) {
    && 0 <= i < |pr.schoolClasses|
    && forall j :: i < j < |pr.schoolClasses| ==> pr.schoolClasses[j].id != pr.schoolClasses[i].id
  }

  /** The class is listed with a home room, and that is another room. */
  ghost predicate HomeElsewhere(pr: Problem, c: SchoolClassId, room: RoomId) {
    exists i :: LastListing(pr, i) && pr.schoolClasses[i].id == c
      && pr.schoolClasses[i].homeRoomId.Some? && pr.schoolClasses[i].homeRoomId.value != room
  }

  lemma AwayFromHomeMeaning(pr: Problem, c: SchoolClassId, room: RoomId)
    ensures AwayFromHome(pr, c, room) <==> HomeElsewhere(pr, c, room)
  {
    var key := (x: SchoolClass) => x.id;
    if c in ClassesById(pr) {
      var i := LastOf(pr.schoolClasses, key, c);
      CollectByLast(pr.schoolClasses, key, i);
      assert LastListing(pr, i) by {
        assert forall j :: i < j < |pr.schoolClasses| ==> key(pr.schoolClasses[j]) != key(pr.schoolClasses[i]);
      }
    }
    if HomeElsewhere(pr, c, room) {
      var i :| LastListing(pr, i) && pr.schoolClasses[i].id == c
        && pr.schoolClasses[i].homeRoomId.Some? && pr.schoolClasses[i].homeRoomId.value != room;
      assert IsLast(pr.schoolClasses, key, i);
      CollectByLast(pr.schoolClasses, key, i);
    }
  }

  /** With unique class ids any listing will do. */
  lemma HomeElsewhereUnique(pr: Problem, c: SchoolClassId, room: RoomId)
    requires UniqueClassIds(pr)
    ensures HomeElsewhere(pr, c, room) <==>
      exists i :: 0 <= i < |pr.schoolClasses| && pr.schoolClasses[i].id == c
        && pr.schoolClasses[i].homeRoomId.Some? && pr.schoolClasses[i].homeRoomId.value != room
  {
    var key := (x: SchoolClass) => x.id;
    forall i | 0 <= i < |pr.schoolClasses| ensures LastListing(pr, i) {
      assert forall j :: i < j < |pr.schoolClasses| ==> key(pr.schoolClasses[i]) != key(pr.schoolClasses[j]);
    }
  }

  // ----- counting them -----

  /** The listed members that are away from home. */
  ghost function AwayMembers(pr: Problem, classes: seq<SchoolClassId>, room: RoomId): set<nat> {
    set j: nat | j < |classes| && HomeElsewhere(pr, classes[j], room)
  }

  lemma {:induction false} AwayCountMeaning(pr: Problem, classes: seq<SchoolClassId>, room: RoomId)
    ensures AwayCount(pr, classes, room) == |AwayMembers(pr, classes, room)|
  {
    if classes == [] {
      assert AwayMembers(pr, classes, room) == {};
    } else {
      var n := |classes| - 1;
      AwayCountMeaning(pr, classes[..n], room);
      AwayFromHomeMeaning(pr, classes[n], room);
      if HomeElsewhere(pr, classes[n], room) {
        assert AwayMembers(pr, classes, room) == AwayMembers(pr, classes[..n], room) + {n};
      } else {
        assert AwayMembers(pr, classes, room) == AwayMembers(pr, classes[..n], room);
      }
    }
  }

  /** The listed members that are class `c`, if `c` is away from home. */
  ghost function AwayListings(pr: Problem, classes: seq<SchoolClassId>, room: RoomId, c: SchoolClassId): set<nat> {
    set j: nat | j < |classes| && classes[j] == c && HomeElsewhere(pr, c, room)
  }

  function EntryOf(m: map<Uuid, nat>, c: Uuid): nat {
    if c in m then m[c] else 0
  }

  ghost predicate AllPositive(m: map<Uuid, nat>) {
    forall id :: id in m ==> m[id] > 0
  }

  lemma {:induction false} CountAwayEntry(acc: map<Uuid, nat>, pr: Problem, classes: seq<SchoolClassId>, room: RoomId,
                                          c: SchoolClassId)
    requires AllPositive(acc)
    ensures AllPositive(CountAway(acc, pr, classes, room))
    ensures EntryOf(CountAway(acc, pr, classes, room), c) == EntryOf(acc, c) + |AwayListings(pr, classes, room, c)|
  {
    if classes == [] {
      assert AwayListings(pr, classes, room, c) == {};
    } else {
      var n := |classes| - 1;
      CountAwayEntry(acc, pr, classes[..n], room, c);
      AwayFromHomeMeaning(pr, classes[n], room);
      if classes[n] == c && HomeElsewhere(pr, c, room) {
        assert AwayListings(pr, classes, room, c) == AwayListings(pr, classes[..n], room, c) + {n};
      } else {
        assert AwayListings(pr, classes, room, c) == AwayListings(pr, classes[..n], room, c);
      }
    }
  }

  ghost function Tagged(n: nat, js: set<nat>): set<(nat, nat)> {
    set j | j in js :: (n, j)
  }

  lemma {:induction false} TaggedSize(n: nat, js: set<nat>)
    ensures |Tagged(n, js)| == |js|
  {
    if js == {} {
      assert Tagged(n, js) == {};
    } else {
      var j: nat :| j in js;
      TaggedSize(n, js - {j});
      assert Tagged(n, js) == Tagged(n, js - {j}) + {(n, j)};
    }
  }

  // ----- per class -----

  /** The (placement, member) pairs in which class `c` is the member and is away from home. */
  ghost function AwayPairs(pr: Problem, ps: seq<Placement>, c: SchoolClassId): set<(nat, nat)>
    requires forall p :: p in ps ==> Known(pr, p)
  {
    set i: nat, j: nat | i < |ps| && j < |Members(pr, ps[i])| && Members(pr, ps[i])[j] == c
      && HomeElsewhere(pr, c, ps[i].roomId) :: (i, j)
  }

  lemma AwayPairsStep(pr: Problem, ps: seq<Placement>, n: nat, c: SchoolClassId)
    requires |ps| == n + 1 && forall p :: p in ps ==> Known(pr, p)
    ensures |AwayPairs(pr, ps, c)|
         == |AwayPairs(pr, ps[..n], c)| + |AwayListings(pr, Members(pr, ps[n]), ps[n].roomId, c)|
  {
    var before, now := AwayPairs(pr, ps[..n], c), AwayListings(pr, Members(pr, ps[n]), ps[n].roomId, c);
    AwayPairsSplit(pr, ps, n, c);
    DisjointSize(before, Tagged(n, now));
    TaggedSize(n, now);
  }

  lemma AwayPairsSplit(pr: Problem, ps: seq<Placement>, n: nat, c: SchoolClassId)
    requires |ps| == n + 1 && forall p :: p in ps ==> Known(pr, p)
    ensures AwayPairs(pr, ps, c)
         == AwayPairs(pr, ps[..n], c) + Tagged(n, AwayListings(pr, Members(pr, ps[n]), ps[n].roomId, c))
  {
    assert forall i :: 0 <= i < n ==> ps[..n][i] == ps[i];
  }

  /** The attribution has an entry for a class exactly when one of its placements is away from home,
      and the entry is the number of such (placement, member) pairs. */
  lemma {:induction false} AwayByClassMeaning(pr: Problem, ps: seq<Placement>, c: SchoolClassId)
    requires forall p :: p in ps ==> Known(pr, p)
    ensures AllPositive(AwayByClass(pr, ps))
    ensures EntryOf(AwayByClass(pr, ps), c) == |AwayPairs(pr, ps, c)|
    ensures c in AwayByClass(pr, ps) <==> AwayPairs(pr, ps, c) != {}
  {
    if ps == [] {
      assert AwayPairs(pr, ps, c) == {};
    } else {
      var n := |ps| - 1;
      AwayByClassMeaning(pr, ps[..n], c);
      CountAwayEntry(AwayByClass(pr, ps[..n]), pr, Members(pr, ps[n]), ps[n].roomId, c);
      AwayPairsStep(pr, ps, n, c);
    }
  }

  /** The report's per-class home-room misses. */
  lemma ReportedMissesByClass(r: QualityReport, pr: Problem, ps: seq<Placement>, violations: nat, w: ConstraintWeights,
                              c: SchoolClassId)
    requires Resolves(pr, ps) && (forall p :: p in ps ==> Known(pr, p)) && Reports(r, pr, ps, violations, w)
    ensures c in r.homeRoomMissesByClass <==> AwayPairs(pr, ps, c) != {}
    ensures c in r.homeRoomMissesByClass ==> r.homeRoomMissesByClass[c] == Wrap(|AwayPairs(pr, ps, c)|)
  {
    AwayByClassMeaning(pr, ps, c);
  }

  // ----- all classes -----

  /** All (placement, member) pairs away from home. */
  ghost function AllAwayPairs(pr: Problem, ps: seq<Placement>): set<(nat, nat)>
    requires forall p :: p in ps ==> Known(pr, p)
  {
    set i: nat, j: nat | i < |ps| && j < |Members(pr, ps[i])|
      && HomeElsewhere(pr, Members(pr, ps[i])[j], ps[i].roomId) :: (i, j)
  }

  lemma AllAwayPairsStep(pr: Problem, ps: seq<Placement>, n: nat)
    requires |ps| == n + 1 && forall p :: p in ps ==> Known(pr, p)
    ensures |AllAwayPairs(pr, ps)|
         == |AllAwayPairs(pr, ps[..n])| + |AwayMembers(pr, Members(pr, ps[n]), ps[n].roomId)|
  {
    var before, now := AllAwayPairs(pr, ps[..n]), AwayMembers(pr, Members(pr, ps[n]), ps[n].roomId);
    AllAwayPairsSplit(pr, ps, n);
    DisjointSize(before, Tagged(n, now));
    TaggedSize(n, now);
  }

  lemma AllAwayPairsSplit(pr: Problem, ps: seq<Placement>, n: nat)
    requires |ps| == n + 1 && forall p :: p in ps ==> Known(pr, p)
    ensures AllAwayPairs(pr, ps)
         == AllAwayPairs(pr, ps[..n]) + Tagged(n, AwayMembers(pr, Members(pr, ps[n]), ps[n].roomId))
  {
    assert forall i :: 0 <= i < n ==> ps[..n][i] == ps[i];
  }

  /** The misses of all placements are the pairs away from home. */
  lemma {:induction false} TotalMissesMeaning(pr: Problem, ps: seq<Placement>)
    requires forall p :: p in ps ==> Known(pr, p)
    ensures Sum(AwayCounts(pr, ps)) == |AllAwayPairs(pr, ps)|
  {
    if ps == [] {
      assert AllAwayPairs(pr, ps) == {};
    } else {
      var n := |ps| - 1;
      TotalMissesMeaning(pr, ps[..n]);
      AwayCountMeaning(pr, Members(pr, ps[n]), ps[n].roomId);
      AllAwayPairsStep(pr, ps, n);
      assert AwayCounts(pr, ps)[..n] == AwayCounts(pr, ps[..n]);
    }
  }

  /** The home-room axis of the score is the weight for every pair away from home, as long as the
      total fits a u32. */
  lemma HomeRoomAxisMeaning(pr: Problem, ps: seq<Placement>, w: ConstraintWeights)
    requires Resolves(pr, ps) && forall p :: p in ps ==> Known(pr, p)
    requires Times(w.preferHomeRoom, |AllAwayPairs(pr, ps)|) <= U32_MAX
    ensures PinFreeAxes(pr, ps, w).homeRoom == w.preferHomeRoom * |AllAwayPairs(pr, ps)|
  {
    TotalMissesMeaning(pr, ps);
    PenaltiesAreCapped(pr, ps, w);
    SmallSumUncapped(HomeRoomTerms(pr, ps, w), ExactPenalties(pr, ps, w));
    WrapSmall(Sum(HomeRoomTerms(pr, ps, w)));
    TimesIsProduct(w.preferHomeRoom, |AllAwayPairs(pr, ps)|);
  }
}
