/** The break-supervision rota (supervision.rs): a min-load greedy over the break slots in
    (day, position, id) order. */
module Supervision {
  import opened Machine
  import opened Collections
  import opened Sorting
  import opened Types

  datatype SupervisionAssignment = SupervisionAssignment(timeBlockId: TimeBlockId, teacherId: TeacherId)

  /** The violation recorded for a break nobody can staff; its reason names day and position. */
  datatype SupervisionGap = SupervisionGap(day: u8, position: u8)

  datatype Slot = Slot(day: u8, position: u8, id: TimeBlockId)

  predicate SlotLe(a: Slot, b: Slot) {
    a.day < b.day || (a.day == b.day && (a.position < b.position || (a.position == b.position && a.id <= b.id)))
  }

  // ----- who can supervise which break -----

  function BreakList(tbs: seq<TimeBlock>): seq<Slot> {
    FilterMap(tbs, (tb: TimeBlock) => tb.kind == BreakBlock, (tb: TimeBlock) => Slot(tb.dayOfWeek, tb.position, tb.id))
  }

  function BreakSlots(pr: Problem): seq<Slot> {
    Sort(SlotLe, BreakList(pr.timeBlocks))
  }

  /** Teachers with a placement at this day and position. */
  ghost function Teaching(pr: Problem, ps: seq<Placement>, day: int, position: int): set<TeacherId> {
    set p | p in ps && TakesPlaceAt(pr, p, day, position) :: p.teacherId
  }

  predicate TakesPlaceAt(pr: Problem, p: Placement, day: int, position: int) {
    && p.timeBlockId in Blocks(pr)
    && Blocks(pr)[p.timeBlockId].dayOfWeek == day && Blocks(pr)[p.timeBlockId].position == position
  }

  /** Free at the break and teaching right before or right after it. */
  ghost predicate CanSupervise(pr: Problem, ps: seq<Placement>, s: Slot, t: TeacherId) {
    && t in pr.teachers
    && t !in Teaching(pr, ps, s.day, s.position)
    && (t in Teaching(pr, ps, s.day, s.position - 1) || t in Teaching(pr, ps, s.day, s.position + 1))
  }

  ghost function Eligible(pr: Problem, ps: seq<Placement>, s: Slot): set<TeacherId> {
    set t | t in pr.teachers && CanSupervise(pr, ps, s, t)
  }

  ghost function EligibleSets(pr: Problem, ps: seq<Placement>, slots: seq<Slot>): seq<set<TeacherId>> {
    seq(|slots|, i requires 0 <= i < |slots| => Eligible(pr, ps, slots[i]))
  }

  // ----- the greedy on a run of eligible sets -----

  type Rota = seq<Option<TeacherId>>

  function Load(rota: Rota, t: TeacherId): nat {
    if rota == [] then 0 else Load(rota[..|rota| - 1], t) + if rota[|rota| - 1] == Some(t) then 1 else 0
  }

  /** Lower running load first, then smaller id. */
  predicate Before(rota: Rota, t: TeacherId, u: TeacherId) {
    Load(rota, t) < Load(rota, u) || (Load(rota, t) == Load(rota, u) && t <= u)
  }

  ghost predicate LeastLoaded(eligible: set<TeacherId>, rota: Rota, t: TeacherId) {
    t in eligible && forall u :: u in eligible ==> Before(rota, t, u)
  }

  lemma {:induction false} LeastLoadedExists(eligible: set<TeacherId>, rota: Rota)
    requires eligible != {}
    ensures exists t :: LeastLoaded(eligible, rota, t)
    decreases |eligible|
  {
    var x: TeacherId :| x in eligible;
    var rest := eligible - {x};
    assert forall u :: u in eligible <==> u == x || u in rest;
    if rest == {} {
      assert LeastLoaded(eligible, rota, x);
    } else {
      LeastLoadedExists(rest, rota);
      var t :| LeastLoaded(rest, rota, t);
      var best := if Before(rota, x, t) then x else t;
      assert LeastLoaded(eligible, rota, best);
    }
  }

  ghost function Pick(eligible: set<TeacherId>, rota: Rota): Option<TeacherId> {
    if eligible == {} then None
    else
      LeastLoadedExists(eligible, rota);
      var t :| LeastLoaded(eligible, rota, t);
      Some(t)
  }

  ghost function Greedy(eligible: seq<set<TeacherId>>): (rota: Rota)
    ensures |rota| == |eligible|
  {
    if eligible == [] then []
    else
      var front := Greedy(eligible[..|eligible| - 1]);
      front + [Pick(eligible[|eligible| - 1], front)]
  }

  ghost function LoadMap(rota: Rota): (m: map<TeacherId, nat>)
    ensures forall t :: t in m <==> Some(t) in rota
    ensures forall t :: t in m ==> m[t] == Load(rota, t)
  {
    var named := set i | 0 <= i < |rota| && rota[i].Some? :: rota[i].value;
    assert forall t :: t in named <==> Some(t) in rota by {
      forall t | Some(t) in rota ensures t in named {
        var i :| 0 <= i < |rota| && rota[i] == Some(t);
      }
    }
    map t | t in named :: Load(rota, t)
  }

  /** Difference between the busiest and the least busy supervising teacher. */
  ghost function LoadSpread(rota: Rota): int {
    MapMax<TeacherId>(LoadMap(rota)) - MapMin<TeacherId>(LoadMap(rota))
  }

  // ----- properties of every run -----

  lemma {:induction false} LoadPositive(rota: Rota, t: TeacherId)
    ensures Load(rota, t) > 0 <==> Some(t) in rota
    ensures Load(rota, t) <= |rota|
  {
    if rota == [] {
    } else {
      var n := |rota| - 1;
      LoadPositive(rota[..n], t);
      assert rota == rota[..n] + [rota[n]];
    }
  }

  /** Greedy fairness: if `u` could have taken every break that `t` took, then `t` ends at
      most one break ahead of `u`. */
  lemma {:induction false} NeverMoreThanOneAhead(eligible: seq<set<TeacherId>>, t: TeacherId, u: TeacherId)
    requires forall i :: 0 <= i < |eligible| && Greedy(eligible)[i] == Some(t) ==> u in eligible[i]
    ensures Load(Greedy(eligible), t) <= Load(Greedy(eligible), u) + 1
  {
    if eligible == [] {
    } else {
      var n := |eligible| - 1;
      var front := eligible[..n];
      forall i | 0 <= i < n && Greedy(front)[i] == Some(t) ensures u in front[i] {
        assert Greedy(eligible)[i] == Some(t);
      }
      NeverMoreThanOneAhead(front, t, u);
      if Greedy(eligible)[n] == Some(t) {
        assert LeastLoaded(eligible[n], Greedy(front), t) && u in eligible[n];
      }
    }
  }

  /** If every staffed break has the same eligible teachers, the spread is at most 1. */
  lemma SharedPoolSpread(eligible: seq<set<TeacherId>>, pool: set<TeacherId>)
    requires forall i :: 0 <= i < |eligible| ==> eligible[i] == {} || eligible[i] == pool
    ensures 0 <= LoadSpread(Greedy(eligible)) <= 1
  {
    var rota := Greedy(eligible);
    var m := LoadMap(rota);
    if m.Keys != {} {
      var t :| t in m && m[t] == MapMin(m);
      if MapMax(m) > 0 {
        var s :| s in m && m[s] == MapMax(m);
        forall i | 0 <= i < |eligible| && rota[i] == Some(s) ensures t in eligible[i] {
          ChosenWasEligible(eligible, i);
          var j :| 0 <= j < |rota| && rota[j] == Some(t);
          ChosenWasEligible(eligible, j);
        }
        NeverMoreThanOneAhead(eligible, s, t);
      }
    }
  }

  /** Each break gets the least loaded eligible teacher, measured on the breaks before it;
      it stays open exactly when nobody is eligible. */
  lemma {:induction false} ChosenWasEligible(eligible: seq<set<TeacherId>>, i: nat)
    requires i < |eligible|
    ensures Greedy(eligible)[i].None? <==> eligible[i] == {}
    ensures Greedy(eligible)[i].Some? ==>
      LeastLoaded(eligible[i], Greedy(eligible)[..i], Greedy(eligible)[i].value)
  {
    var n := |eligible| - 1;
    var rota := Greedy(eligible);
    if i < n {
      ChosenWasEligible(eligible[..n], i);
      assert rota[..i] == Greedy(eligible[..n])[..i];
    } else {
      assert rota[..i] == Greedy(eligible[..n]);
    }
  }

  lemma PickIsUnique(eligible: set<TeacherId>, rota: Rota, t: TeacherId)
    requires LeastLoaded(eligible, rota, t)
    ensures Pick(eligible, rota) == Some(t)
  {
    LeastLoadedExists(eligible, rota);
    var u := Pick(eligible, rota).value;
    assert LeastLoaded(eligible, rota, u);
    assert Before(rota, t, u) && Before(rota, u, t);
  }

  lemma LoadStep(rota: Rota, pick: Option<TeacherId>, t: TeacherId)
    ensures Load(rota + [pick], t) == Load(rota, t) + if pick == Some(t) then 1 else 0
  {
    assert (rota + [pick])[..|rota|] == rota;
  }

  lemma LoadMapTaken(rota: Rota, t: TeacherId)
    ensures LoadMap(rota + [Some(t)]) == LoadMap(rota)[t := (if t in LoadMap(rota) then LoadMap(rota)[t] else 0) + 1]
  {
    LoadPositive(rota, t);
    forall u ensures Load(rota + [Some(t)], u) == Load(rota, u) + if u == t then 1 else 0 {
      LoadStep(rota, Some(t), u);
    }
  }

  lemma LoadMapOpen(rota: Rota)
    ensures LoadMap(rota + [None]) == LoadMap(rota)
  {
    forall u ensures Load(rota + [None], u) == Load(rota, u) {
      LoadStep(rota, None, u);
    }
  }

  function Staffed(rota: Rota): nat {
    if rota == [] then 0 else Staffed(rota[..|rota| - 1]) + if rota[|rota| - 1].Some? then 1 else 0
  }

  /** The running counts add up to the number of assignments. */
  lemma {:induction false} LoadsSumToAssignments(rota: Rota)
    ensures MapSum<TeacherId>(LoadMap(rota)) == Staffed(rota)
  {
    if rota == [] {
      assert LoadMap(rota).Keys == {};
    } else {
      var n := |rota| - 1;
      LoadsSumToAssignments(rota[..n]);
      assert rota == rota[..n] + [rota[n]];
      match rota[n]
      case None => LoadMapOpen(rota[..n]);
      case Some(t) =>
        LoadMapTaken(rota[..n], t);
        var before := LoadMap(rota[..n]);
        MapSumInsert<TeacherId>(before, t, (if t in before then before[t] else 0) + 1);
    }
  }

  /** The spread is a count of breaks. */
  lemma SpreadBound(rota: Rota)
    ensures 0 <= LoadSpread(rota) <= |rota|
  {
    var m := LoadMap(rota);
    if m.Keys != {} {
      var t: TeacherId :| t in m && m[t] == MapMin<TeacherId>(m);
      assert m[t] <= MapMax<TeacherId>(m);
      if MapMax<TeacherId>(m) > 0 {
        var s: TeacherId :| s in m && m[s] == MapMax<TeacherId>(m);
        LoadPositive(rota, s);
      }
    }
  }

  lemma BreakCount(pr: Problem)
    ensures |BreakSlots(pr)| <= |pr.timeBlocks|
  {
    SortPermutes(SlotLe, BreakList(pr.timeBlocks));
    FilterMapLength(pr.timeBlocks, (tb: TimeBlock) => tb.kind == BreakBlock,
                    (tb: TimeBlock) => Slot(tb.dayOfWeek, tb.position, tb.id));
  }

  // ----- the input order does not matter -----

  lemma SlotLeSeparates()
    ensures TotalPreorder(SlotLe)
    ensures forall a, b :: SlotLe(a, b) && SlotLe(b, a) ==> a == b
  {}

  /** With unique block ids, permuting time blocks, teachers and placements changes neither
      the order of the breaks nor who is eligible for them; hence nor the rota, the gaps and
      the spread, which are functions of these two. */
  lemma InputOrderIrrelevant(a: Problem, b: Problem, ps: seq<Placement>, qs: seq<Placement>)
    requires UniqueBlockIds(a)
    requires multiset(a.timeBlocks) == multiset(b.timeBlocks)
    requires multiset(a.teachers) == multiset(b.teachers)
    requires multiset(ps) == multiset(qs)
    ensures BreakSlots(a) == BreakSlots(b)
    ensures EligibleSets(a, ps, BreakSlots(a)) == EligibleSets(b, qs, BreakSlots(b))
  {
    FilterMapPermuted(a.timeBlocks, b.timeBlocks, (tb: TimeBlock) => tb.kind == BreakBlock,
                      (tb: TimeBlock) => Slot(tb.dayOfWeek, tb.position, tb.id));
    SlotLeSeparates();
    SortForgetsOrder(SlotLe, BreakList(a.timeBlocks), BreakList(b.timeBlocks));
    CollectByPermuted(a.timeBlocks, b.timeBlocks, (tb: TimeBlock) => tb.id);
    assert Blocks(a) == Blocks(b);
    SameEntries(a.teachers, b.teachers);
    SameEntries(ps, qs);
    forall s: Slot ensures Eligible(a, ps, s) == Eligible(b, qs, s) {
      forall d: int, q: int ensures Teaching(a, ps, d, q) == Teaching(b, qs, d, q) {}
    }
  }
}
