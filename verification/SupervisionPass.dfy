/** `compute_inner` and its two entry points (supervision.rs), proved against the greedy. */
module SupervisionPass {
  import opened Machine
  import opened Collections
  import opened Sorting
  import opened Types
  import opened Supervision

  type Occupancy = map<(u8, u8), set<TeacherId>>

  function At(occ: Occupancy, day: u8, position: int): set<TeacherId> {
    if 0 <= position < 256 && (day, position) in occ then occ[(day, position)] else {}
  }

  /** The assignments of a rota, in slot order. */
  function Assignments(slots: seq<Slot>, rota: Rota): (r: seq<SupervisionAssignment>)
    requires |slots| == |rota|
  {
    if slots == [] then []
    else
      var n := |slots| - 1;
      var front := Assignments(slots[..n], rota[..n]);
      if rota[n].Some? then front + [SupervisionAssignment(slots[n].id, rota[n].value)] else front
  }

  /** The breaks a rota leaves open, in slot order. */
  function OpenBreaks(slots: seq<Slot>, rota: Rota): (r: seq<SupervisionGap>)
    requires |slots| == |rota|
  {
    if slots == [] then []
    else
      var n := |slots| - 1;
      var front := OpenBreaks(slots[..n], rota[..n]);
      if rota[n].None? then front + [SupervisionGap(slots[n].day, slots[n].position)] else front
  }

  /** The rota of a problem and its placements. */
  ghost function RotaOf(pr: Problem, ps: seq<Placement>): (rota: Rota)
    ensures |rota| == |BreakSlots(pr)|
  {
    Greedy(EligibleSets(pr, ps, BreakSlots(pr)))
  }

  ghost function SpreadOf(pr: Problem, ps: seq<Placement>): int {
    LoadSpread(RotaOf(pr, ps))
  }

  // ----- the passes of compute_inner -----

  method IndexPositions(pr: Problem) returns (tbPosition: map<TimeBlockId, (u8, u8)>)
    ensures tbPosition == map id | id in Blocks(pr) :: (Blocks(pr)[id].dayOfWeek, Blocks(pr)[id].position)
  {
    var key := (tb: TimeBlock) => tb.id;
    tbPosition := map[];
    for i := 0 to |pr.timeBlocks|
      invariant tbPosition.Keys == CollectBy(pr.timeBlocks[..i], key).Keys
      invariant forall id :: id in tbPosition ==>
        var tb := CollectBy(pr.timeBlocks[..i], key)[id]; tbPosition[id] == (tb.dayOfWeek, tb.position)
    {
      var tb := pr.timeBlocks[i];
      CollectByStep(pr.timeBlocks, i, key);
      tbPosition := tbPosition[tb.id := (tb.dayOfWeek, tb.position)];
    }
    assert pr.timeBlocks[..|pr.timeBlocks|] == pr.timeBlocks;
    assert CollectBy(pr.timeBlocks, key) == Blocks(pr);
  }

  lemma TeachingStep(pr: Problem, ps: seq<Placement>, p: Placement, day: int, position: int)
    ensures Teaching(pr, ps + [p], day, position)
         == Teaching(pr, ps, day, position) + if TakesPlaceAt(pr, p, day, position) then {p.teacherId} else {}
  {
    forall q | q in ps ensures q in ps + [p] {}
    assert p in ps + [p];
  }

  method BuildOccupancy(pr: Problem, ps: seq<Placement>) returns (occ: Occupancy)
    ensures forall day: u8, position: int :: At(occ, day, position) == Teaching(pr, ps, day, position)
  {
    var tbPosition := IndexPositions(pr);
    occ := map[];
    for i := 0 to |ps|
      invariant forall day: u8, position: int :: At(occ, day, position) == Teaching(pr, ps[..i], day, position)
    {
      var p := ps[i];
      ghost var before := occ;
      if p.timeBlockId in tbPosition {
        var slot := tbPosition[p.timeBlockId];
        occ := occ[slot := At(occ, slot.0, slot.1) + {p.teacherId}];
      }
      assert ps[..i + 1] == ps[..i] + [p];
      forall day: u8, position: int
        ensures At(occ, day, position) == Teaching(pr, ps[..i + 1], day, position)
      {
        TeachingStep(pr, ps[..i], p, day, position);
        assert At(before, day, position) == Teaching(pr, ps[..i], day, position);
      }
    }
    assert ps[..|ps|] == ps;
  }

  method EligibleTeachers(pr: Problem, ghost ps: seq<Placement>, occ: Occupancy, sorted: seq<TeacherId>, s: Slot)
    returns (eligible: seq<TeacherId>)
    requires forall day: u8, position: int :: At(occ, day, position) == Teaching(pr, ps, day, position)
    requires forall t :: t in sorted <==> t in pr.teachers
    ensures forall t :: t in eligible <==> t in Eligible(pr, ps, s)
  {
    var busyHere := At(occ, s.day, s.position);
    var prev := At(occ, s.day, s.position - 1);
    var next := At(occ, s.day, s.position + 1);
    eligible := [];
    for j := 0 to |sorted|
      invariant forall t :: t in eligible <==> t in sorted[..j] && CanSupervise(pr, ps, s, t)
    {
      var t := sorted[j];
      assert sorted[..j + 1] == sorted[..j] + [t];
      if t in busyHere {
        continue;
      }
      if t in prev || t in next {
        eligible := eligible + [t];
      }
    }
    assert sorted[..|sorted|] == sorted;
  }

  /** The teacher with the least count so far, the smallest id among equals. */
  method MinByLoad(eligible: seq<TeacherId>, counts: map<TeacherId, nat>, ghost rota: Rota) returns (chosen: TeacherId)
    requires eligible != []
    requires counts == LoadMap(rota)
    ensures chosen in eligible && forall u :: u in eligible ==> Before(rota, chosen, u)
  {
    forall t ensures Load(rota, t) == if t in counts then counts[t] else 0 {
      LoadPositive(rota, t);
    }
    chosen := eligible[0];
    for j := 1 to |eligible|
      invariant chosen in eligible && forall u :: u in eligible[..j] ==> Before(rota, chosen, u)
    {
      var t := eligible[j];
      var loadT := if t in counts then counts[t] else 0;
      var loadC := if chosen in counts then counts[chosen] else 0;
      assert eligible[..j + 1] == eligible[..j] + [t];
      if loadT < loadC || (loadT == loadC && t < chosen) {
        chosen := t;
      }
    }
    assert eligible[..|eligible|] == eligible;
  }

  /** Largest less smallest running count, 0 for an empty pool. */
  method CountSpread(counts: map<TeacherId, nat>) returns (spread: nat)
    ensures spread == MapMax(counts) - MapMin(counts)
  {
    if counts.Keys == {} {
      return 0;
    }
    var first :| first in counts.Keys;
    var hi, lo := counts[first], counts[first];
    var todo := counts.Keys;
    while todo != {}
      invariant todo <= counts.Keys
      invariant forall t :: t in counts && t !in todo ==> lo <= counts[t] <= hi
      invariant lo <= counts[first] <= hi
      invariant exists t :: t in counts && counts[t] == hi
      invariant exists t :: t in counts && counts[t] == lo
      decreases todo
    {
      var t :| t in todo;
      if counts[t] > hi {
        hi := counts[t];
      }
      if counts[t] < lo {
        lo := counts[t];
      }
      todo := todo - {t};
    }
    MapMaxUnique(counts, hi, MapMax(counts));
    MapMinUnique(counts, lo, MapMin(counts));
    spread := hi - lo;
  }

  lemma GreedyStep(es: seq<set<TeacherId>>, i: nat)
    requires i < |es|
    ensures Greedy(es[..i + 1]) == Greedy(es[..i]) + [Pick(es[i], Greedy(es[..i]))]
  {
    assert es[..i + 1][..i] == es[..i];
  }

  lemma RowsStep(slots: seq<Slot>, i: nat, rota: Rota, pick: Option<TeacherId>)
    requires i < |slots| && |rota| == i
    ensures Assignments(slots[..i + 1], rota + [pick]) == Assignments(slots[..i], rota)
         + if pick.Some? then [SupervisionAssignment(slots[i].id, pick.value)] else []
    ensures OpenBreaks(slots[..i + 1], rota + [pick]) == OpenBreaks(slots[..i], rota)
         + if pick.None? then [SupervisionGap(slots[i].day, slots[i].position)] else []
  {
    assert slots[..i + 1][..i] == slots[..i] && (rota + [pick])[..i] == rota;
  }

  /** One break: the teacher taken, if any, and the counts after it. */
  method StaffBreak(pr: Problem, ghost ps: seq<Placement>, occ: Occupancy, sorted: seq<TeacherId>, s: Slot,
                    counts: map<TeacherId, nat>, ghost rota: Rota)
    returns (pick: Option<TeacherId>, after: map<TeacherId, nat>)
    requires forall day: u8, position: int :: At(occ, day, position) == Teaching(pr, ps, day, position)
    requires forall t :: t in sorted <==> t in pr.teachers
    requires counts == LoadMap(rota)
    ensures pick == Pick(Eligible(pr, ps, s), rota) && after == LoadMap(rota + [pick])
  {
    var eligible := EligibleTeachers(pr, ps, occ, sorted, s);
    if |eligible| == 0 {
      assert Eligible(pr, ps, s) == {};
      LoadMapOpen(rota);
      return None, counts;
    }
    var chosen := MinByLoad(eligible, counts, rota);
    PickIsUnique(Eligible(pr, ps, s), rota, chosen);
    LoadMapTaken(rota, chosen);
    after := counts[chosen := (if chosen in counts then counts[chosen] else 0) + 1];
    pick := Some(chosen);
  }

  /** The shared pass: with `collect` the whole rota, without it only the spread. */
  method ComputeInner(pr: Problem, ps: seq<Placement>, collect: bool)
    returns (assignments: seq<SupervisionAssignment>, gaps: seq<SupervisionGap>, spread: nat)
    ensures spread == SpreadOf(pr, ps)
    ensures assignments == if collect then Assignments(BreakSlots(pr), RotaOf(pr, ps)) else []
    ensures gaps == if collect then OpenBreaks(BreakSlots(pr), RotaOf(pr, ps)) else []
  {
    var occ := BuildOccupancy(pr, ps);
    var slots := BreakSlots(pr);
    var sorted := Sort(UuidLe, pr.teachers);
    SortPermutes(UuidLe, pr.teachers);
    ghost var es := EligibleSets(pr, ps, slots);
    ghost var rota: Rota := [];
    var counts: map<TeacherId, nat> := map[];
    assignments, gaps := [], [];
    for i := 0 to |slots|
      invariant rota == Greedy(es[..i]) && |rota| == i
      invariant counts == LoadMap(rota)
      invariant assignments == if collect then Assignments(slots[..i], rota) else []
      invariant gaps == if collect then OpenBreaks(slots[..i], rota) else []
    {
      var s := slots[i];
      var pick;
      pick, counts := StaffBreak(pr, ps, occ, sorted, s, counts, rota);
      if collect {
        assignments, gaps := AddRow(slots, i, rota, pick, assignments, gaps);
      }
      GreedyStep(es, i);
      rota := rota + [pick];
    }
    assert es[..|slots|] == es && slots[..|slots|] == slots;
    spread := CountSpread(counts);
  }

  /** The row of one break: an assignment, or a gap when nobody was taken. */
  method AddRow(slots: seq<Slot>, i: nat, ghost rota: Rota, pick: Option<TeacherId>,
                assignments: seq<SupervisionAssignment>, gaps: seq<SupervisionGap>)
    returns (assignments2: seq<SupervisionAssignment>, gaps2: seq<SupervisionGap>)
    requires i < |slots| && |rota| == i
    requires assignments == Assignments(slots[..i], rota) && gaps == OpenBreaks(slots[..i], rota)
    ensures assignments2 == Assignments(slots[..i + 1], rota + [pick])
    ensures gaps2 == OpenBreaks(slots[..i + 1], rota + [pick])
  {
    RowsStep(slots, i, rota, pick);
    assignments2, gaps2 := assignments, gaps;
    match pick
    case None => gaps2 := gaps + [SupervisionGap(slots[i].day, slots[i].position)];
    case Some(chosen) => assignments2 := assignments + [SupervisionAssignment(slots[i].id, chosen)];
  }

  method ComputeSupervisionFull(pr: Problem, ps: seq<Placement>)
    returns (assignments: seq<SupervisionAssignment>, gaps: seq<SupervisionGap>, spread: nat)
    ensures assignments == Assignments(BreakSlots(pr), RotaOf(pr, ps))
    ensures gaps == OpenBreaks(BreakSlots(pr), RotaOf(pr, ps))
    ensures spread == SpreadOf(pr, ps)
  {
    assignments, gaps, spread := ComputeInner(pr, ps, true);
  }

  method ComputeSupervisionSpread(pr: Problem, ps: seq<Placement>) returns (spread: nat)
    ensures spread == SpreadOf(pr, ps)
  {
    var _, _, s := ComputeInner(pr, ps, false);
    spread := s;
  }

  // ----- what the passes deliver -----

  /** The row of break `i` is listed: its assignment, or its gap when nobody was taken. */
  predicate HasRow(slots: seq<Slot>, rota: Rota, i: nat)
    requires |slots| == |rota| && i < |slots|
  {
    match rota[i]
    case Some(t) => SupervisionAssignment(slots[i].id, t) in Assignments(slots, rota)
    case None => SupervisionGap(slots[i].day, slots[i].position) in OpenBreaks(slots, rota)
  }

  lemma {:induction false} OneRowPerBreak(slots: seq<Slot>, rota: Rota)
    requires |slots| == |rota|
    ensures |Assignments(slots, rota)| + |OpenBreaks(slots, rota)| == |slots|
    ensures |Assignments(slots, rota)| == Staffed(rota)
    ensures forall i :: 0 <= i < |slots| ==> HasRow(slots, rota, i)
  {
    if slots == [] {
    } else {
      var n := |slots| - 1;
      OneRowPerBreak(slots[..n], rota[..n]);
      forall i | 0 <= i < |slots| ensures HasRow(slots, rota, i) {
        if i < n {
          assert HasRow(slots[..n], rota[..n], i);
        }
      }
    }
  }

  /** Every break slot yields exactly one row. A staffed break is assigned to a teacher of
      least running load (smallest id among equals) who is free there and teaches right
      before or after; a break stays open exactly when no teacher qualifies. The running
      counts add up to the assignments. */
  lemma RotaCoversBreaks(pr: Problem, ps: seq<Placement>)
    ensures var slots, rota := BreakSlots(pr), RotaOf(pr, ps);
      && multiset(slots) == multiset(BreakList(pr.timeBlocks))
      && |Assignments(slots, rota)| + |OpenBreaks(slots, rota)| == |slots|
      && MapSum<TeacherId>(LoadMap(rota)) == |Assignments(slots, rota)|
      && (forall i :: 0 <= i < |slots| ==>
            (rota[i].None? <==> forall t :: t in pr.teachers ==> !CanSupervise(pr, ps, slots[i], t)))
      && (forall i :: 0 <= i < |slots| && rota[i].Some? ==>
            && CanSupervise(pr, ps, slots[i], rota[i].value)
            && forall u :: CanSupervise(pr, ps, slots[i], u) ==> Before(rota[..i], rota[i].value, u))
  {
    var slots, rota := BreakSlots(pr), RotaOf(pr, ps);
    var es := EligibleSets(pr, ps, slots);
    SortPermutes(SlotLe, BreakList(pr.timeBlocks));
    OneRowPerBreak(slots, rota);
    LoadsSumToAssignments(rota);
    forall i | 0 <= i < |slots|
      ensures rota[i].None? <==> forall t :: t in pr.teachers ==> !CanSupervise(pr, ps, slots[i], t)
      ensures rota[i].Some? ==>
        && CanSupervise(pr, ps, slots[i], rota[i].value)
        && forall u :: CanSupervise(pr, ps, slots[i], u) ==> Before(rota[..i], rota[i].value, u)
    {
      ChosenWasEligible(es, i);
      if t :| t in pr.teachers && CanSupervise(pr, ps, slots[i], t) {
        assert t in es[i];
      }
    }
  }

  /** The rota, the open breaks and the spread do not depend on the input order. */
  lemma RotaForgetsInputOrder(a: Problem, b: Problem, ps: seq<Placement>, qs: seq<Placement>)
    requires UniqueBlockIds(a)
    requires multiset(a.timeBlocks) == multiset(b.timeBlocks)
    requires multiset(a.teachers) == multiset(b.teachers)
    requires multiset(ps) == multiset(qs)
    ensures BreakSlots(a) == BreakSlots(b) && RotaOf(a, ps) == RotaOf(b, qs) && SpreadOf(a, ps) == SpreadOf(b, qs)
  {
    InputOrderIrrelevant(a, b, ps, qs);
  }
}
