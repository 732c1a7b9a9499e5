/** The break-supervision rota in terms of the time blocks, the teachers and the placements
    (supervision.rs). */
module RotaMeaning {
  import opened Machine
  import opened Collections
  import opened Sorting
  import opened Types
  import opened Supervision
  import opened SupervisionPass

  // ----- the break slots -----

  /** Block `i` of the list is a break at that slot. */
  predicate IsBreakAt(pr: Problem, i: int, s: Slot) {
    && 0 <= i < |pr.timeBlocks|
    && pr.timeBlocks[i].kind == BreakBlock
    && pr.timeBlocks[i].dayOfWeek == s.day && pr.timeBlocks[i].position == s.position && pr.timeBlocks[i].id == s.id
  }

  ghost function BreakIndices(pr: Problem): set<nat> {
    set i: nat | i < |pr.timeBlocks| && pr.timeBlocks[i].kind == BreakBlock
  }

  /** Earlier day, then earlier position, then smaller id. */
  ghost predicate InSlotOrder(a: Slot, b: Slot) {
    || a.day < b.day
    || (a.day == b.day && a.position < b.position)
    || (a.day == b.day && a.position == b.position && a.id <= b.id)
  }

  /** The slots are the break blocks, one for each, by day, position and id. */
  lemma BreakSlotsMeaning(pr: Problem)
    ensures forall s :: s in BreakSlots(pr) <==> exists i :: IsBreakAt(pr, i, s)
    ensures |BreakSlots(pr)| == |BreakIndices(pr)|
    ensures forall i, j :: 0 <= i < j < |BreakSlots(pr)| ==> InSlotOrder(BreakSlots(pr)[i], BreakSlots(pr)[j])
  {
    var keep := (tb: TimeBlock) => tb.kind == BreakBlock;
    var f := (tb: TimeBlock) => Slot(tb.dayOfWeek, tb.position, tb.id);
    var tbs := pr.timeBlocks;
    FilterMapMeaning(tbs, keep, f);
    SortPermutes(SlotLe, BreakList(tbs));
    SlotLeSeparates();
    SortSorts(SlotLe, BreakList(tbs));
    assert BreakIndices(pr) == KeptIndices(tbs, keep);
    assert BreakList(tbs) == FilterMap(tbs, keep, f);
    forall s ensures s in BreakSlots(pr) <==> exists i :: IsBreakAt(pr, i, s) {
      if s in BreakSlots(pr) {
        var i :| 0 <= i < |tbs| && keep(tbs[i]) && f(tbs[i]) == s;
        assert IsBreakAt(pr, i, s);
      }
      if i :| IsBreakAt(pr, i, s) {
        assert keep(tbs[i]) && f(tbs[i]) == s;
      }
    }
  }

  // ----- who can stand there -----

  /** Block `i` of the list is the last with its id; the lookup table keeps that one. */
  ghost predicate LastBlock(pr: Problem, i: int) {
    0 <= i < |pr.timeBlocks| && forall j :: i < j < |pr.timeBlocks| ==> pr.timeBlocks[j].id != pr.timeBlocks[i].id
  }

  /** Block `i` is the one the id stands for, at that day and position. */
  ghost predicate BlockAt(pr: Problem, i: int, id: TimeBlockId, day: int, position: int) {
    && LastBlock(pr, i)
    && pr.timeBlocks[i].id == id && pr.timeBlocks[i].dayOfWeek == day && pr.timeBlocks[i].position == position
  }

  /** The teacher has a placement at that day and position. */
  ghost predicate PlacedAt(pr: Problem, ps: seq<Placement>, t: TeacherId, day: int, position: int) {
    exists p, i :: p in ps && p.teacherId == t && BlockAt(pr, i, p.timeBlockId, day, position)
  }

  lemma TakesPlaceMeaning(pr: Problem, p: Placement, day: int, position: int)
    ensures TakesPlaceAt(pr, p, day, position) <==> exists i :: BlockAt(pr, i, p.timeBlockId, day, position)
  {
    var key := (tb: TimeBlock) => tb.id;
    if TakesPlaceAt(pr, p, day, position) {
      var i := LastOf(pr.timeBlocks, key, p.timeBlockId);
      CollectByLast(pr.timeBlocks, key, i);
      assert LastBlock(pr, i) by {
        assert forall j :: i < j < |pr.timeBlocks| ==> key(pr.timeBlocks[j]) != key(pr.timeBlocks[i]);
      }
      assert BlockAt(pr, i, p.timeBlockId, day, position);
    }
    if i :| BlockAt(pr, i, p.timeBlockId, day, position) {
      assert IsLast(pr.timeBlocks, key, i);
      CollectByLast(pr.timeBlocks, key, i);
    }
  }

  lemma TeachingMeaning(pr: Problem, ps: seq<Placement>, t: TeacherId, day: int, position: int)
    ensures t in Teaching(pr, ps, day, position) <==> PlacedAt(pr, ps, t, day, position)
  {
    forall p: Placement
      ensures TakesPlaceAt(pr, p, day, position) <==> exists i :: BlockAt(pr, i, p.timeBlockId, day, position)
    {
      TakesPlaceMeaning(pr, p, day, position);
    }
  }

  /** Listed, free at the slot, and placed one position before or after it on the same day. */
  ghost predicate CanStand(pr: Problem, ps: seq<Placement>, s: Slot, t: TeacherId) {
    && t in pr.teachers
    && !PlacedAt(pr, ps, t, s.day, s.position)
    && (PlacedAt(pr, ps, t, s.day, s.position - 1) || PlacedAt(pr, ps, t, s.day, s.position + 1))
  }

  lemma CanStandMeaning(pr: Problem, ps: seq<Placement>, s: Slot, t: TeacherId)
    ensures CanSupervise(pr, ps, s, t) <==> CanStand(pr, ps, s, t)
  {
    TeachingMeaning(pr, ps, t, s.day, s.position);
    TeachingMeaning(pr, ps, t, s.day, s.position - 1);
    TeachingMeaning(pr, ps, t, s.day, s.position + 1);
  }

  // ----- loads -----

  /** The breaks among the first `n` that the teacher has taken. */
  ghost function TakenBy(rota: Rota, n: nat, t: TeacherId): set<nat>
    requires n <= |rota|
  {
    set k: nat | k < n && rota[k] == Some(t)
  }

  lemma {:induction false} LoadMeaning(rota: Rota, n: nat, t: TeacherId)
    requires n <= |rota|
    ensures Load(rota[..n], t) == |TakenBy(rota, n, t)|
  {
    if n == 0 {
      assert TakenBy(rota, n, t) == {};
    } else {
      LoadMeaning(rota, n - 1, t);
      assert rota[..n][..n - 1] == rota[..n - 1];
      if rota[n - 1] == Some(t) {
        assert TakenBy(rota, n, t) == TakenBy(rota, n - 1, t) + {n - 1};
      } else {
        assert TakenBy(rota, n, t) == TakenBy(rota, n - 1, t);
      }
    }
  }

  /** The chosen teacher has taken no more breaks so far than `u`, and has the smaller id if they have
      taken equally many. */
  ghost predicate ChosenOver(rota: Rota, i: nat, t: TeacherId, u: TeacherId)
    requires i <= |rota|
  {
    || |TakenBy(rota, i, t)| < |TakenBy(rota, i, u)|
    || (|TakenBy(rota, i, t)| == |TakenBy(rota, i, u)| && t <= u)
  }

  /** Who takes break `i`: nobody exactly when nobody can stand there, otherwise the one who can that is
      chosen over all others who can. */
  lemma ChoiceMeaning(pr: Problem, ps: seq<Placement>, i: nat)
    requires i < |BreakSlots(pr)|
    ensures var s, rota := BreakSlots(pr)[i], RotaOf(pr, ps);
      && (rota[i].None? <==> forall t :: !CanStand(pr, ps, s, t))
      && (rota[i].Some? ==>
            && CanStand(pr, ps, s, rota[i].value)
            && forall u :: CanStand(pr, ps, s, u) ==> ChosenOver(rota, i, rota[i].value, u))
  {
    var s, rota := BreakSlots(pr)[i], RotaOf(pr, ps);
    var es := EligibleSets(pr, ps, BreakSlots(pr));
    ChosenWasEligible(es, i);
    forall t ensures t in es[i] <==> CanStand(pr, ps, s, t) {
      CanStandMeaning(pr, ps, s, t);
    }
    if rota[i].Some? {
      var t := rota[i].value;
      forall u | CanStand(pr, ps, s, u) ensures ChosenOver(rota, i, t, u) {
        assert Before(rota[..i], t, u);
        LoadMeaning(rota, i, t);
        LoadMeaning(rota, i, u);
      }
    }
  }

  // ----- the rows -----

  lemma {:induction false} RowsComeFromSlots(slots: seq<Slot>, rota: Rota)
    requires |slots| == |rota|
    ensures forall a :: a in Assignments(slots, rota) ==>
      exists i :: 0 <= i < |slots| && a.timeBlockId == slots[i].id && rota[i] == Some(a.teacherId)
    ensures forall g :: g in OpenBreaks(slots, rota) ==>
      exists i :: 0 <= i < |slots| && g.day == slots[i].day && g.position == slots[i].position && rota[i].None?
  {
    if slots == [] {
    } else {
      var n := |slots| - 1;
      RowsComeFromSlots(slots[..n], rota[..n]);
      assert forall i :: 0 <= i < n ==> slots[..n][i] == slots[i] && rota[..n][i] == rota[i];
    }
  }

  /** Some break block of the problem is at that slot. */
  ghost predicate IsBreakSlot(pr: Problem, s: Slot) {
    exists i :: IsBreakAt(pr, i, s)
  }

  /** The block has its row: an assignment with its id, or a gap at its day and position. */
  ghost predicate BlockHasRow(tb: TimeBlock, rows: seq<SupervisionAssignment>, gs: seq<SupervisionGap>) {
    (exists a :: a in rows && a.timeBlockId == tb.id) || SupervisionGap(tb.dayOfWeek, tb.position) in gs
  }

  ghost predicate AssignmentOfBreak(pr: Problem, a: SupervisionAssignment) {
    exists tb :: tb in pr.timeBlocks && tb.kind == BreakBlock && tb.id == a.timeBlockId
  }

  ghost predicate GapOfBreak(pr: Problem, g: SupervisionGap) {
    exists tb :: tb in pr.timeBlocks && tb.kind == BreakBlock && tb.dayOfWeek == g.day && tb.position == g.position
  }

  lemma BreakBlockHasRow(pr: Problem, rota: Rota, tb: TimeBlock)
    requires |rota| == |BreakSlots(pr)| && tb in pr.timeBlocks && tb.kind == BreakBlock
    ensures BlockHasRow(tb, Assignments(BreakSlots(pr), rota), OpenBreaks(BreakSlots(pr), rota))
  {
    var slots := BreakSlots(pr);
    var s := Slot(tb.dayOfWeek, tb.position, tb.id);
    var k :| 0 <= k < |pr.timeBlocks| && pr.timeBlocks[k] == tb;
    assert IsBreakAt(pr, k, s);
    BreakSlotsMeaning(pr);
    assert s in slots;
    var i :| 0 <= i < |slots| && slots[i] == s;
    OneRowPerBreak(slots, rota);
    assert HasRow(slots, rota, i);
  }

  lemma RowsAreOfBreaks(pr: Problem, rota: Rota)
    requires |rota| == |BreakSlots(pr)|
    ensures forall a :: a in Assignments(BreakSlots(pr), rota) ==> AssignmentOfBreak(pr, a)
    ensures forall g :: g in OpenBreaks(BreakSlots(pr), rota) ==> GapOfBreak(pr, g)
  {
    var slots := BreakSlots(pr);
    BreakSlotsMeaning(pr);
    RowsComeFromSlots(slots, rota);
    forall a | a in Assignments(slots, rota) ensures AssignmentOfBreak(pr, a) {
      var i :| 0 <= i < |slots| && a.timeBlockId == slots[i].id;
      assert slots[i] in slots;
      var k :| IsBreakAt(pr, k, slots[i]);
      assert pr.timeBlocks[k] in pr.timeBlocks;
    }
    forall g | g in OpenBreaks(slots, rota) ensures GapOfBreak(pr, g) {
      var i :| 0 <= i < |slots| && g.day == slots[i].day && g.position == slots[i].position;
      assert slots[i] in slots;
      var k :| IsBreakAt(pr, k, slots[i]);
      assert pr.timeBlocks[k] in pr.timeBlocks;
    }
  }

  /** Every break block of the problem has a row, every row is that of a break block, and there are as
      many rows as break blocks. */
  lemma RowsMeaning(pr: Problem, ps: seq<Placement>)
    ensures var rows, gs := Assignments(BreakSlots(pr), RotaOf(pr, ps)), OpenBreaks(BreakSlots(pr), RotaOf(pr, ps));
      && (forall tb :: tb in pr.timeBlocks && tb.kind == BreakBlock ==> BlockHasRow(tb, rows, gs))
      && (forall a :: a in rows ==> AssignmentOfBreak(pr, a))
      && (forall g :: g in gs ==> GapOfBreak(pr, g))
      && |rows| + |gs| == |BreakIndices(pr)|
  {
    var rota := RotaOf(pr, ps);
    BreakSlotsMeaning(pr);
    OneRowPerBreak(BreakSlots(pr), rota);
    RowsAreOfBreaks(pr, rota);
    forall tb | tb in pr.timeBlocks && tb.kind == BreakBlock
      ensures BlockHasRow(tb, Assignments(BreakSlots(pr), rota), OpenBreaks(BreakSlots(pr), rota))
    {
      BreakBlockHasRow(pr, rota, tb);
    }
  }

  // ----- the spread -----

  /** The spread is the difference in breaks taken between two teachers of the rota. */
  ghost predicate SpreadBetween(rota: Rota, spread: int, t: TeacherId, u: TeacherId) {
    Some(t) in rota && Some(u) in rota && spread == |TakenBy(rota, |rota|, t)| - |TakenBy(rota, |rota|, u)|
  }

  /** The spread is the largest difference in breaks taken between two teachers of the rota, 0 without
      any. */
  lemma SpreadMeaning(pr: Problem, ps: seq<Placement>)
    ensures var rota := RotaOf(pr, ps);
      && (forall t, u :: Some(t) in rota && Some(u) in rota ==>
            |TakenBy(rota, |rota|, t)| - |TakenBy(rota, |rota|, u)| <= SpreadOf(pr, ps))
      && (if forall i :: 0 <= i < |rota| ==> rota[i].None? then SpreadOf(pr, ps) == 0
          else exists t, u :: SpreadBetween(rota, SpreadOf(pr, ps), t, u))
  {
    var rota := RotaOf(pr, ps);
    var m := LoadMap(rota);
    assert rota[..|rota|] == rota;
    forall t ensures Load(rota, t) == |TakenBy(rota, |rota|, t)| {
      LoadMeaning(rota, |rota|, t);
    }
    if m.Keys == {} {
      forall i | 0 <= i < |rota| ensures rota[i].None? {
        if rota[i].Some? {
          TakenInMap(rota, i);
        }
      }
    } else {
      var t: TeacherId :| t in m && m[t] == MapMin<TeacherId>(m);
      var u := Busiest(rota);
      assert SpreadBetween(rota, SpreadOf(pr, ps), u, t);
    }
  }

  lemma TakenInMap(rota: Rota, i: int)
    requires 0 <= i < |rota| && rota[i].Some?
    ensures rota[i].value in LoadMap(rota).Keys
  {
    assert Some(rota[i].value) in rota;
  }

  lemma Busiest(rota: Rota) returns (u: TeacherId)
    requires LoadMap(rota).Keys != {}
    ensures Some(u) in rota && Load(rota, u) == MapMax<TeacherId>(LoadMap(rota))
  {
    var m := LoadMap(rota);
    var t: TeacherId :| t in m;
    if MapMax<TeacherId>(m) == 0 {
      assert m[t] <= MapMax<TeacherId>(m);
      u := t;
    } else {
      u :| u in m && m[u] == MapMax<TeacherId>(m);
    }
  }
}
