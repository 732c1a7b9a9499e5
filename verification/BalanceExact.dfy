/** On deduplicated partitions the u32 forms are exact: nothing saturates, and every
    incremental form equals a recount of the changed partition. */
module BalanceExact {
  import opened Machine
  import opened Collections
  import opened Types
  import opened Sorting
  import opened Gaps
  import opened Balance
  import opened BalanceForms

  /** Every day list is sorted and free of duplicates. */
  ghost predicate Deduped(m: Partition) {
    forall k :: k in m ==> StrictlySorted(m[k])
  }

  function Positions(m: Partition, c: SchoolClassId, day: u8): seq<u8> {
    if (c, day) in m then m[(c, day)] else []
  }

  lemma DayCountExact(m: Partition, c: SchoolClassId, day: u8)
    requires Deduped(m)
    ensures DayCount(m, c, day) == |Positions(m, c, day)| == |Elems(Positions(m, c, day))| <= 256
  {
    var v := Positions(m, c, day);
    StrictSize(v);
    if v != [] {
      StrictSpan(v);
    }
  }

  lemma {:induction false} SumBound(cs: seq<nat>, b: nat)
    requires forall i :: 0 <= i < |cs| ==> cs[i] <= b
    ensures Sum(cs) <= |cs| * b
  {
    if cs == [] {
    } else {
      SumBound(cs[..|cs| - 1], b);
      MulSucc(|cs| - 1, b);
    }
  }

  lemma BoundNumbers(d: nat, s: nat)
    requires 0 < d <= 255 && s <= d * 512
    ensures s <= 130560 && 2 * (s * (d - 1)) <= U32_MAX
  {
    MulMono(d - 1, 254, s);
  }

  lemma ImbalanceFits(cs: seq<nat>)
    requires 0 < |cs| <= 255 && forall i :: 0 <= i < |cs| ==> cs[i] <= 512
    ensures Sum(cs) <= 130560 && Imbalance(cs) <= U32_MAX
  {
    SumBound(cs, 512);
    CostUpperBound(cs);
    BoundNumbers(|cs|, Sum(cs));
  }

  /** The dearest week of one class; see `CostBound` and `FullestWeekCosts`. */
  const MAX_CLASS_COST: nat := 32639

  /** The most classes whose costs always fit a u32. */
  const MAX_CLASSES: nat := 131590

  lemma SplitDays(d: nat, k: nat)
    requires k <= d && 0 < d <= 255
    ensures 512 * (k * (d - k)) < 32640 * d
  {
    if d == 255 {
      SplitOddWeek(k);
    } else {
      SplitInHalf(d, k);
      MulMono(d, 254, d);
    }
  }

  lemma SplitOddWeek(k: int)
    ensures k * (255 - k) <= 16256
  {
    var j := 127 - k;
    MulDistributes(127, -j, 128 + j);
    assert k * (255 - k) == 16256 - (j + j * j);
    assert j + j * j >= 0 by {
      if j >= 0 { MulMono(0, j, j); } else { MulMono(j, -1, -j); }
    }
  }

  lemma SplitInHalf(d: int, k: int)
    ensures 4 * (k * (d - k)) <= d * d
  {
    var e := d - 2 * k;
    assert 4 * (k * (d - k)) == d * d - e * e;
    assert e * e >= 0;
  }

  /** At most 256 slots a day on at most 255 days cost at most 32639. */
  lemma CostBound(cs: seq<nat>)
    requires 0 < |cs| <= 255 && forall i :: 0 <= i < |cs| ==> cs[i] <= 256
    ensures Cost(cs) <= MAX_CLASS_COST
  {
    var d := |cs|;
    var k := CappedImbalance(cs, 256);
    SplitDays(d, k);
    QuotientBelow(Imbalance(cs), d);
  }

  lemma QuotientBelow(a: nat, d: nat)
    requires d > 0 && a < 32640 * d
    ensures a / d <= 32639
  {
    var k := a / d;
    assert a == k * d + a % d;
    if k >= 32640 {
      MulMono(32640, k, d);
    }
  }

  /** 127 days with every position taken, the others empty. */
  function FullestWeek(n: nat): (cs: seq<nat>) {
    seq(n, i => if i < 127 then 256 else 0)
  }

  lemma {:induction false} FullestWeekNumbers(n: nat)
    ensures Sum(FullestWeek(n)) == 256 * Min(n, 127)
    ensures Distance(Scale(FullestWeek(n), 255), 32512) == 32768 * Min(n, 127) + 32512 * Max(n - 127, 0)
  {
    if n == 0 {
    } else {
      FullestWeekNumbers(n - 1);
      assert FullestWeek(n)[..n - 1] == FullestWeek(n - 1);
      assert Scale(FullestWeek(n), 255)[..n - 1] == Scale(FullestWeek(n - 1), 255);
    }
  }

  /** Both limits are sharp. */
  lemma FullestWeekCosts(n: nat)
    requires n == 255
    ensures Cost(FullestWeek(n)) == MAX_CLASS_COST
    ensures MAX_CLASSES * MAX_CLASS_COST <= U32_MAX < (MAX_CLASSES + 1) * MAX_CLASS_COST
  {
    FullestWeekNumbers(n);
    assert Imbalance(FullestWeek(n)) == 8323072;
  }

  lemma ScaledFits(c: u32, d: u8)
    requires c <= 512
    ensures SatMul(c, d) == c * d
  {
    TimesIsProduct(c, d);
    MulMono(c, 512, d);
  }

  /** With at most 512 slots a day and at most 255 days no saturating operation saturates. A day
      list holds at most 256 slots, and adding a u8 more stays below 512. */
  lemma NothingSaturates(cs: seq<u32>, days: u8)
    requires |cs| == days && forall i :: 0 <= i < |cs| ==> cs[i] <= 512
    ensures Cap(Sum(cs)) == Sum(cs) && SatScale(cs, days) == Scale(cs, days)
    ensures days > 0 ==> Cap(Imbalance(cs)) == Imbalance(cs)
    ensures SatCost(cs, Cap(Sum(cs)), days) == Cost(cs)
    ensures (forall i :: 0 <= i < |cs| ==> cs[i] <= 256) ==> Cost(cs) <= MAX_CLASS_COST
  {
    forall i | 0 <= i < |cs| ensures SatScale(cs, days)[i] == Scale(cs, days)[i] {
      ScaledFits(cs[i], days);
    }
    assert SatScale(cs, days) == Scale(cs, days);
    if days > 0 {
      ImbalanceFits(cs);
      if Sum(cs) == 0 {
        CostUpperBound(cs);
      }
      if forall i :: 0 <= i < |cs| ==> cs[i] <= 256 {
        CostBound(cs);
      }
    }
  }

  lemma CountsFit(m: Partition, c: SchoolClassId, days: u8)
    requires Deduped(m)
    ensures forall day :: 0 <= day < days ==> Counts(m, c, days)[day] == |Elems(Positions(m, c, day))| <= 256
  {
    forall day: u8 | day < days ensures Counts(m, c, days)[day] == |Elems(Positions(m, c, day))| <= 256 {
      DayCountExact(m, c, day);
    }
  }

  /** One class's u32 cost is the exact cost of its day counts. */
  lemma ClassCostExact(m: Partition, c: SchoolClassId, days: u8)
    requires Deduped(m)
    ensures ClassCost(m, c, days) == Cost(Counts(m, c, days)) <= MAX_CLASS_COST
    ensures forall day :: 0 <= day < days ==> Counts(m, c, days)[day] == |Elems(Positions(m, c, day))|
  {
    CountsFit(m, c, days);
    NothingSaturates(Counts(m, c, days), days);
  }

  /** The u32 cost is 0 exactly when the class has the same number of slots on every day. */
  lemma ClassCostZeroIffEven(m: Partition, c: SchoolClassId, days: u8)
    requires Deduped(m)
    ensures ClassCost(m, c, days) == 0 <==> AllEqual(Counts(m, c, days))
  {
    ClassCostExact(m, c, days);
    CostZeroIffEven(Counts(m, c, days));
  }

  /** The school total is the plain sum of the exact class costs whenever that sum fits a u32,
      as it does for up to 131590 classes. */
  lemma SchoolCostExact(m: Partition, classes: seq<SchoolClass>, days: u8)
    requires Deduped(m)
    ensures forall i :: 0 <= i < |classes| ==>
      ClassCosts(m, classes, days)[i] == Cost(Counts(m, classes[i].id, days))
    ensures var costs := ClassCosts(m, classes, days);
      (Cap(Sum(costs)) == Sum(costs) <==> Sum(costs) <= U32_MAX) && (|classes| <= MAX_CLASSES ==> Sum(costs) <= U32_MAX)
  {
    var costs := ClassCosts(m, classes, days);
    forall i | 0 <= i < |classes| ensures costs[i] == Cost(Counts(m, classes[i].id, days)) <= MAX_CLASS_COST {
      ClassCostExact(m, classes[i].id, days);
    }
    CostsFit(costs);
  }

  lemma CostsFit(costs: seq<nat>)
    requires forall i :: 0 <= i < |costs| ==> costs[i] <= MAX_CLASS_COST
    ensures |costs| <= MAX_CLASSES ==> Sum(costs) <= U32_MAX
  {
    SumBound(costs, MAX_CLASS_COST);
  }

  // ----- the incremental forms -----

  /** The partition without class `c`'s slot at (day, p). */
  function Lifted(m: Partition, c: SchoolClassId, day: u8, p: u8): Partition {
    m[(c, day) := Without(Positions(m, c, day), p)]
  }

  /** The partition after class `c`'s slot at (oldDay, p) moves to (newDay, q). */
  function MoveSlot(m: Partition, c: SchoolClassId, oldDay: u8, p: u8, newDay: u8, q: u8): Partition {
    var lifted := Lifted(m, c, oldDay, p);
    lifted[(c, newDay) := SortDedup(Positions(lifted, c, newDay) + [q])]
  }

  /** The slot the class moves to is not taken by another of its slots. */
  predicate TargetFree(m: Partition, c: SchoolClassId, oldDay: u8, p: u8, newDay: u8, q: u8) {
    q !in Positions(Lifted(m, c, oldDay, p), c, newDay)
  }

  function LiftedSet(m: Partition, c: SchoolClassId, oldDay: u8, p: u8, day: u8): set<int> {
    Elems(Positions(m, c, day)) - if day == oldDay then {p as int} else {}
  }

  lemma LiftedList(m: Partition, c: SchoolClassId, oldDay: u8, p: u8, day: u8)
    requires Deduped(m)
    ensures Deduped(Lifted(m, c, oldDay, p))
    ensures Elems(Positions(Lifted(m, c, oldDay, p), c, day)) == LiftedSet(m, c, oldDay, p, day)
  {
    WithoutExact(Positions(m, c, oldDay), p);
  }

  lemma MoveSlotList(m: Partition, c: SchoolClassId, oldDay: u8, p: u8, newDay: u8, q: u8, day: u8)
    requires Deduped(m)
    ensures Deduped(MoveSlot(m, c, oldDay, p, newDay, q))
    ensures Elems(Positions(MoveSlot(m, c, oldDay, p, newDay, q), c, day))
         == LiftedSet(m, c, oldDay, p, day) + if day == newDay then {q as int} else {}
    ensures TargetFree(m, c, oldDay, p, newDay, q) <==> q as int !in LiftedSet(m, c, oldDay, p, newDay)
  {
    LiftedList(m, c, oldDay, p, day);
    LiftedList(m, c, oldDay, p, newDay);
    var lifted := Positions(Lifted(m, c, oldDay, p), c, newDay);
    InsertIsCanonical(lifted, q);
    assert q in lifted <==> q as int in Elems(lifted);
  }

  lemma AddedElement(s: set<int>, x: int)
    ensures |s + {x}| == if x in s then |s| else |s| + 1
    ensures |s - {x}| == if x in s then |s| - 1 else |s|
  {
    if x in s {
      assert s + {x} == s;
    } else {
      assert s - {x} == s;
    }
  }

  /** The day count as the swap form sees it. */
  function FormCount(raw: u32, day: int, oldDay: u8, newDay: u8): u32 {
    if oldDay == newDay then raw else SwappedCount(raw, day, oldDay, newDay)
  }

  lemma MovedSize(s: set<int>, out: set<int>, q: int)
    requires out <= s
    ensures |s - out| == |s| - |out|
    ensures |s - out + {q}| == |s| - |out| + if q in s - out then 0 else 1
  {
    assert s == (s - out) + out;
    DisjointSize(s - out, out);
    AddedElement(s - out, q);
  }

  lemma MoveSlotSize(m: Partition, c: SchoolClassId, oldDay: u8, p: u8, newDay: u8, q: u8, day: u8)
    requires Deduped(m) && p in Positions(m, c, oldDay)
    ensures Deduped(MoveSlot(m, c, oldDay, p, newDay, q))
    ensures |Elems(Positions(MoveSlot(m, c, oldDay, p, newDay, q), c, day))|
         == |Elems(Positions(m, c, day))| - (if day == oldDay then 1 else 0)
          + if day == newDay && TargetFree(m, c, oldDay, p, newDay, q) then 1 else 0
    ensures day == oldDay ==> |Elems(Positions(m, c, day))| >= 1
    ensures day == oldDay == newDay && !TargetFree(m, c, oldDay, p, newDay, q) ==> |Elems(Positions(m, c, day))| >= 2
  {
    var s: set<int> := Elems(Positions(m, c, day));
    var out: set<int> := if day == oldDay then {p as int} else {};
    MoveSlotList(m, c, oldDay, p, newDay, q, day);
    assert p as int in Elems(Positions(m, c, oldDay));
    MovedSize(s, out, q);
    if day == oldDay == newDay && !TargetFree(m, c, oldDay, p, newDay, q) {
      assert q as int in s - out;
      assert |s - out| > 0;
    }
  }

  lemma MoveSlotCount(m: Partition, c: SchoolClassId, oldDay: u8, p: u8, newDay: u8, q: u8, day: u8)
    requires Deduped(m) && p in Positions(m, c, oldDay)
    ensures DayCount(MoveSlot(m, c, oldDay, p, newDay, q), c, day)
         == FormCount(DayCount(m, c, day), day, oldDay, newDay) as int
          - if day == newDay && !TargetFree(m, c, oldDay, p, newDay, q) then 1 else 0
  {
    MoveSlotSize(m, c, oldDay, p, newDay, q, day);
    DayCountExact(m, c, day);
    DayCountExact(MoveSlot(m, c, oldDay, p, newDay, q), c, day);
  }

  /** The swap form, also for a move within one day, equals a recount of the moved partition
      whenever the target slot is free for the class. Its virtual counts are the recounted ones if
      and only if it is free: on a shared slot the deduplicated list is one shorter. */
  lemma SwapFormExact(m: Partition, c: SchoolClassId, days: u8, oldDay: u8, p: u8, newDay: u8, q: u8)
    requires Deduped(m) && oldDay < days && newDay < days
    requires p in Positions(m, c, oldDay)
    ensures var cs, m2 := Counts(m, c, days), MoveSlot(m, c, oldDay, p, newDay, q);
      && (Counts(m2, c, days) == Swapped(cs, oldDay, newDay) <==> TargetFree(m, c, oldDay, p, newDay, q))
      && (TargetFree(m, c, oldDay, p, newDay, q) ==>
            SatCost(Swapped(cs, oldDay, newDay), Cap(Sum(cs)), days) == ClassCost(m2, c, days))
  {
    MovedCounts(m, c, days, oldDay, p, newDay, q);
    if TargetFree(m, c, oldDay, p, newDay, q) {
      SwapKeepsTotal(m, c, days, oldDay, p, newDay);
    }
  }

  lemma FormKeepsTarget(m: Partition, c: SchoolClassId, days: u8, oldDay: u8, p: u8, newDay: u8)
    requires Deduped(m) && oldDay < days && newDay < days && p in Positions(m, c, oldDay)
    ensures Swapped(Counts(m, c, days), oldDay, newDay)[newDay] > 0
    ensures forall day: u8 :: day < days ==>
      Swapped(Counts(m, c, days), oldDay, newDay)[day] == FormCount(DayCount(m, c, day), day, oldDay, newDay)
  {
    DayCountExact(m, c, newDay);
  }

  lemma MovedCounts(m: Partition, c: SchoolClassId, days: u8, oldDay: u8, p: u8, newDay: u8, q: u8)
    requires Deduped(m) && oldDay < days && newDay < days && p in Positions(m, c, oldDay)
    ensures var form := Swapped(Counts(m, c, days), oldDay, newDay);
      var recount := Counts(MoveSlot(m, c, oldDay, p, newDay, q), c, days);
      && form[newDay] > 0
      && recount == if TargetFree(m, c, oldDay, p, newDay, q) then form else form[newDay := form[newDay] - 1]
  {
    var form := Swapped(Counts(m, c, days), oldDay, newDay);
    var m2 := MoveSlot(m, c, oldDay, p, newDay, q);
    FormKeepsTarget(m, c, days, oldDay, p, newDay);
    var expected := if TargetFree(m, c, oldDay, p, newDay, q) then form else form[newDay := form[newDay] - 1];
    forall day: u8 | day < days ensures DayCount(m2, c, day) == expected[day] {
      MoveSlotCount(m, c, oldDay, p, newDay, q, day);
    }
    assert Counts(m2, c, days) == expected;
  }

  lemma SwapKeepsTotal(m: Partition, c: SchoolClassId, days: u8, oldDay: u8, p: u8, newDay: u8)
    requires Deduped(m) && oldDay < days && newDay < days
    requires p in Positions(m, c, oldDay)
    ensures Sum(Swapped(Counts(m, c, days), oldDay, newDay)) == Sum(Counts(m, c, days))
  {
    var cs := Counts(m, c, days);
    DayCountExact(m, c, oldDay);
    DayCountExact(m, c, newDay);
    if oldDay != newDay {
      SwappedKeepsSum(cs, oldDay, newDay);
    }
  }

  lemma SwappedIsTwoUpdates(cs: seq<u32>, oldDay: u8, newDay: u8)
    requires oldDay < |cs| && newDay < |cs| && oldDay != newDay
    requires cs[oldDay] > 0 && cs[newDay] < U32_MAX
    ensures Swapped(cs, oldDay, newDay) == cs[oldDay := cs[oldDay] - 1][newDay := cs[newDay] + 1]
  {}

  lemma SwappedKeepsSum(cs: seq<u32>, oldDay: u8, newDay: u8)
    requires oldDay < |cs| && newDay < |cs| && oldDay != newDay
    requires cs[oldDay] > 0 && cs[newDay] < U32_MAX
    ensures Sum(Swapped(cs, oldDay, newDay)) == Sum(cs)
  {
    SwappedIsTwoUpdates(cs, oldDay, newDay);
    MovedOneKeepsSum(cs, oldDay, newDay);
  }

  lemma MovedOneKeepsSum(cs: seq<nat>, i: nat, j: nat)
    requires i < |cs| && j < |cs| && i != j && cs[i] > 0
    ensures Sum(cs[i := cs[i] - 1][j := cs[j] + 1]) == Sum(cs)
  {
    TwoSumUpdates(cs, i, cs[i] - 1, j, cs[j] + 1);
  }

  lemma TwoSumUpdates(cs: seq<nat>, i: nat, x: nat, j: nat, y: nat)
    requires i < |cs| && j < |cs| && i != j
    ensures Sum(cs[i := x][j := y]) == Sum(cs) - cs[i] + x - cs[j] + y
  {
    SumUpdate(cs, i, x);
    SumUpdate(cs[i := x], j, y);
  }

  lemma SumUpdate(cs: seq<nat>, i: nat, x: nat)
    requires i < |cs|
    ensures Sum(cs[i := x]) == Sum(cs) - cs[i] + x
  {
    DistanceUpdate(cs, i, x, 0);
  }

  /** The swap form ranks fairly: a move to a strictly emptier day is never priced above staying. */
  lemma SwapFormRanksFairly(m: Partition, c: SchoolClassId, days: u8, from: u8, to: u8)
    requires Deduped(m) && from < days && to < days
    requires DayCount(m, c, to) < DayCount(m, c, from)
    ensures SatCost(Swapped(Counts(m, c, days), from, to), Cap(Sum(Counts(m, c, days))), days) <= ClassCost(m, c, days)
  {
    var cs := Counts(m, c, days);
    CountsFit(m, c, days);
    SwappedIsTwoUpdates(cs, from, to);
    SwappedKeepsSum(cs, from, to);
    NothingSaturates(cs, days);
    NothingSaturates(Swapped(cs, from, to), days);
    MoveToEmptierDay(cs, from, to);
  }

  /** The add form ranks fairly: adding on a lighter day is never priced above a heavier one. */
  lemma AddFormRanksFairly(m: Partition, c: SchoolClassId, days: u8, light: u8, heavy: u8, n: u8)
    requires Deduped(m) && light < days && heavy < days
    requires DayCount(m, c, light) <= DayCount(m, c, heavy)
    ensures var cs := Counts(m, c, days); var total := SatAdd(Cap(Sum(cs)), n);
      SatCost(Added(cs, light, n), total, days) <= SatCost(Added(cs, heavy, n), total, days)
  {
    var cs := Counts(m, c, days);
    CountsFit(m, c, days);
    AddFormIsCost(cs, days, light, n);
    AddFormIsCost(cs, days, heavy, n);
    AddToLighterDay(cs, light, heavy, n);
  }

  lemma AddFormIsCost(cs: seq<u32>, days: u8, addDay: u8, n: u8)
    requires |cs| == days && addDay < days && forall i :: 0 <= i < |cs| ==> cs[i] <= 256
    ensures SatCost(Added(cs, addDay, n), SatAdd(Cap(Sum(cs)), n), days) == Cost(cs[addDay := cs[addDay] + n])
  {
    AddedTotal(cs, addDay, n);
    CapAbsorbs(Sum(cs), n);
    NothingSaturates(Added(cs, addDay, n), days);
    assert Added(cs, addDay, n) == cs[addDay := cs[addDay] + n];
  }

  /** Two one-slot days at one position: the form moves a slot, a recount loses one. */
  lemma OntoSharedSlot(m: Partition, c: SchoolClassId, x: u32, y: u32, z: u32)
    requires Deduped(m) && Counts(m, c, 5) == [1, 1, x, y, z]
    requires 0 in Positions(m, c, 0) && 0 in Positions(m, c, 1)
    ensures Swapped(Counts(m, c, 5), 0, 1) == [0, 2, x, y, z]
    ensures Counts(MoveSlot(m, c, 0, 0, 1, 0), c, 5) == [0, 1, x, y, z]
  {
    MovedCounts(m, c, 5, 0, 0, 1, 0);
    MoveSlotList(m, c, 0, 0, 1, 0, 1);
    assert 0 in Elems(Positions(m, c, 1));
    assert Swapped(Counts(m, c, 5), 0, 1) == [0, 2, x, y, z];
  }

  const SHARED_SLOT: Partition := map[(7, 0) := [0], (7, 1) := [0]]

  /** Moving onto a slot the class already occupies: the form answers 3, a recount 1. */
  lemma SwapFormOnSharedSlot()
    ensures SatCost(Swapped(Counts(SHARED_SLOT, 7, 5), 0, 1), Cap(Sum(Counts(SHARED_SLOT, 7, 5))), 5) == 3
    ensures ClassCost(MoveSlot(SHARED_SLOT, 7, 0, 0, 1, 0), 7, 5) == 1
  {
    assert Counts(SHARED_SLOT, 7, 5) == [1, 1, 0, 0, 0];
    OntoSharedSlot(SHARED_SLOT, 7, 0, 0, 0);
    SumOfFive(1, 1, 0, 0, 0);
    ScaledFiveDays(0, 2, 0, 0, 0, 2);
    SumOfFive(0, 1, 0, 0, 0);
    ScaledFiveDays(0, 1, 0, 0, 0, 1);
  }

  const CROWDED_WEEK: Partition :=
    map[(7, 0) := [0], (7, 1) := [0], (7, 2) := [0, 1], (7, 3) := [0, 1], (7, 4) := [0, 1]]

  /** The costs alone cannot tell. Onto a shared slot of this week, form and recount have different
      counts and imbalances (16 and 18), but both are floored to 3. */
  lemma SharedSlotCostsCoincide()
    ensures var cs, m2 := Counts(CROWDED_WEEK, 7, 5), MoveSlot(CROWDED_WEEK, 7, 0, 0, 1, 0);
      && Distance(SatScale(Swapped(cs, 0, 1), 5), Sum(cs)) == 16
      && Distance(SatScale(Counts(m2, 7, 5), 5), Sum(Counts(m2, 7, 5))) == 18
      && SatCost(Swapped(cs, 0, 1), Cap(Sum(cs)), 5) == 3 == ClassCost(m2, 7, 5)
  {
    CrowdedCounts();
    OntoSharedSlot(CROWDED_WEEK, 7, 2, 2, 2);
    SumOfFive(1, 1, 2, 2, 2);
    ScaledFiveDays(0, 2, 2, 2, 2, 8);
    SumOfFive(0, 1, 2, 2, 2);
    ScaledFiveDays(0, 1, 2, 2, 2, 7);
  }

  lemma CrowdedCounts()
    ensures Counts(CROWDED_WEEK, 7, 5) == [1, 1, 2, 2, 2]
  {
    var cs := Counts(CROWDED_WEEK, 7, 5);
    assert cs[0] == 1 && cs[1] == 1 && cs[2] == 2 && cs[3] == 2 && cs[4] == 2;
  }

  lemma ScaledFiveDays(a: u32, b: u32, c: u32, d: u32, e: u32, s: nat)
    requires a < 256 && b < 256 && c < 256 && d < 256 && e < 256
    ensures Distance(SatScale([a, b, c, d, e], 5), s)
         == AbsDiff(5 * a, s) + AbsDiff(5 * b, s) + AbsDiff(5 * c, s) + AbsDiff(5 * d, s) + AbsDiff(5 * e, s)
  {
    ScaledFits(a, 5);
    ScaledFits(b, 5);
    ScaledFits(c, 5);
    ScaledFits(d, 5);
    ScaledFits(e, 5);
    assert SatScale([a, b, c, d, e], 5) == [5 * a, 5 * b, 5 * c, 5 * d, 5 * e];
    DistanceOfFive(5 * a, 5 * b, 5 * c, 5 * d, 5 * e, s);
  }

  lemma SumOfFive(a: nat, b: nat, c: nat, d: nat, e: nat)
    ensures Sum([a, b, c, d, e]) == a + b + c + d + e
  {
    assert [a, b, c, d, e][..4] == [a, b, c, d] && [a, b, c, d][..3] == [a, b, c];
    assert [a, b, c][..2] == [a, b] && [a, b][..1] == [a];
    assert Sum([a]) == a && Sum([a, b]) == a + b && Sum([a, b, c]) == a + b + c;
    assert Sum([a, b, c, d]) == a + b + c + d;
  }

  lemma DistanceOfFive(a: nat, b: nat, c: nat, d: nat, e: nat, s: nat)
    ensures Distance([a, b, c, d, e], s)
         == AbsDiff(a, s) + AbsDiff(b, s) + AbsDiff(c, s) + AbsDiff(d, s) + AbsDiff(e, s)
  {
    assert [a, b, c, d, e][..4] == [a, b, c, d] && [a, b, c, d][..3] == [a, b, c];
    assert [a, b, c][..2] == [a, b] && [a, b][..1] == [a];
    assert Distance([a], s) == AbsDiff(a, s) && Distance([a, b], s) == AbsDiff(a, s) + AbsDiff(b, s);
    assert Distance([a, b, c], s) == AbsDiff(a, s) + AbsDiff(b, s) + AbsDiff(c, s);
    assert Distance([a, b, c, d], s) == Distance([a, b, c], s) + AbsDiff(d, s);
  }

  lemma UnionSize(a: set<int>, b: set<int>)
    ensures |a + b| <= |a| + |b|
    ensures |a + b| == |a| + |b| <==> a !! b
  {
    assert a + b == a + (b - a);
    assert b == (b - a) + (b * a);
    DisjointSize(a, b - a);
    DisjointSize(b - a, b * a);
    assert a !! b <==> b * a == {};
  }

  lemma AddedDayCount(m: Partition, c: SchoolClassId, addDay: u8, added: set<int>, w: seq<u8>)
    requires Deduped(m) && |added| <= 255
    requires StrictlySorted(w) && Elems(w) == Elems(Positions(m, c, addDay)) + added
    ensures DayCount(m, c, addDay) <= 256
    ensures DayCount(m[(c, addDay) := w], c, addDay) == DayCount(m, c, addDay) + |added|
       <==> added !! Elems(Positions(m, c, addDay))
  {
    DayCountExact(m, c, addDay);
    DayCountExact(m[(c, addDay) := w], c, addDay);
    UnionSize(Elems(Positions(m, c, addDay)), added);
  }

  lemma AddedCounts(m: Partition, c: SchoolClassId, days: u8, addDay: u8, added: set<int>, w: seq<u8>)
    requires Deduped(m) && addDay < days && |added| <= 255
    requires StrictlySorted(w) && Elems(w) == Elems(Positions(m, c, addDay)) + added
    ensures var grown, form := Counts(m[(c, addDay) := w], c, days), Added(Counts(m, c, days), addDay, |added|);
      grown == form <==> added !! Elems(Positions(m, c, addDay))
  {
    var m2 := m[(c, addDay) := w];
    var form, grown := Added(Counts(m, c, days), addDay, |added|), Counts(m2, c, days);
    AddedDayCount(m, c, addDay, added, w);
    forall day: u8 | day < days && day != addDay ensures grown[day] == form[day] {
      assert (c, day) != (c, addDay);
    }
    assert grown == form <==> grown[addDay] == form[addDay];
  }

  lemma AddedTotal(cs: seq<u32>, addDay: u8, n: u8)
    requires addDay < |cs| && cs[addDay] <= 256
    ensures Added(cs, addDay, n) == cs[addDay := cs[addDay] + n]
    ensures Sum(Added(cs, addDay, n)) == Sum(cs) + n
  {
    assert Added(cs, addDay, n) == cs[addDay := cs[addDay] + n];
    SumUpdate(cs, addDay, cs[addDay] + n);
  }

  /** After `n` positions join the list of `addDay`, the add form's counts are the recounted ones if
      and only if none of them was taken already, and then the form equals a recount. */
  lemma AddFormExact(m: Partition, c: SchoolClassId, days: u8, addDay: u8, added: set<int>, w: seq<u8>)
    requires Deduped(m) && addDay < days && |added| <= 255
    requires StrictlySorted(w) && Elems(w) == Elems(Positions(m, c, addDay)) + added
    ensures var cs, m2 := Counts(m, c, days), m[(c, addDay) := w];
      && (Counts(m2, c, days) == Added(cs, addDay, |added|) <==> added !! Elems(Positions(m, c, addDay)))
      && (added !! Elems(Positions(m, c, addDay)) ==>
            SatCost(Added(cs, addDay, |added|), SatAdd(Cap(Sum(cs)), |added|), days) == ClassCost(m2, c, days))
  {
    AddedCounts(m, c, days, addDay, added, w);
    DayCountExact(m, c, addDay);
    AddedCap(Counts(m, c, days), addDay, |added|);
  }

  lemma AddedCap(cs: seq<u32>, addDay: u8, n: u8)
    requires addDay < |cs| && cs[addDay] <= 256
    ensures SatAdd(Cap(Sum(cs)), n) == Cap(Sum(Added(cs, addDay, n)))
  {
    AddedTotal(cs, addDay, n);
    CapAbsorbs(Sum(cs), n);
  }

  // ----- the form on given counts -----

  function Zeros(n: nat): (r: seq<u32>) {
    seq(n, i => 0)
  }

  lemma {:induction false} PaddingKeepsSum(cs: seq<u32>, n: nat)
    ensures Sum(cs + Zeros(n)) == Sum(cs)
  {
    if n == 0 {
      assert cs + Zeros(0) == cs;
    } else {
      PaddingKeepsSum(cs, n - 1);
      assert (cs + Zeros(n))[..|cs| + n - 1] == cs + Zeros(n - 1);
    }
  }

  lemma {:induction false} PaddingAddsMean(cs: seq<u32>, n: nat, d: u8, s: nat)
    ensures Distance(SatScale(cs + Zeros(n), d), s) == Distance(SatScale(cs, d), s) + s * n
  {
    if n == 0 {
      assert cs + Zeros(0) == cs;
    } else {
      PaddingAddsMean(cs, n - 1, d, s);
      var xs := SatScale(cs + Zeros(n), d);
      assert xs[..|cs| + n - 1] == SatScale(cs + Zeros(n - 1), d);
      TimesZero(d);
      MulSucc(n - 1, s);
    }
  }

  /** The form on a list that agrees with the partition on every day is the class cost; further
      entries are ignored. */
  lemma FromCountsExact(m: Partition, c: SchoolClassId, days: u8, counts: seq<u32>)
    requires |counts| >= days && forall day: u8 :: day < days ==> counts[day] == DayCount(m, c, day)
    ensures var taken := counts[..Min(days, |counts|)];
      SatCost(taken, Cap(Sum(taken)), days) == ClassCost(m, c, days)
  {
    assert counts[..days] == Counts(m, c, days);
  }

  /** A list shorter than `days` stands for empty days at its end, but each of them is missing from
      the distance by the full total: the form is never above a recount of the padded list, and the
      distances agree only if nothing is counted at all. */
  lemma FromShortCounts(counts: seq<u32>, days: u8)
    requires |counts| < days
    ensures var padded := counts + Zeros(days - |counts|); var s := Sum(counts);
      && Sum(padded) == s && |padded| == days
      && Distance(SatScale(padded, days), s) == Distance(SatScale(counts, days), s) + s * (days - |counts|)
      && (Distance(SatScale(padded, days), s) == Distance(SatScale(counts, days), s) <==> s == 0)
      && SatCost(counts, Cap(s), days) <= SatCost(padded, Cap(s), days)
  {
    var n := days - |counts|;
    PaddingKeepsSum(counts, n);
    PaddingAddsMean(counts, n, days, Sum(counts));
    PaddingAddsMean(counts, n, days, Cap(Sum(counts)));
    MulMono(1, n, Sum(counts));
    MulMono(0, n, Cap(Sum(counts)));
    DivMono(Cap(Distance(SatScale(counts, days), Cap(Sum(counts)))),
            Cap(Distance(SatScale(counts + Zeros(n), days), Cap(Sum(counts)))), days);
  }
}
