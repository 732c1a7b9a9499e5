/** The five u32 forms of the day-balance cost (score.rs): the school total, one class, and
    the three that price a change without applying it. */
module BalanceForms {
  import opened Machine
  import opened Collections
  import opened Types
  import opened Balance

  /** Occupied positions per (class, day). */
  type Partition = map<(SchoolClassId, u8), seq<u8>>

  function DayCount(m: Partition, c: SchoolClassId, day: u8): u32 {
    if (c, day) in m then Wrap(|m[(c, day)]|) else 0
  }

  function Counts(m: Partition, c: SchoolClassId, days: u8): (cs: seq<u32>)
    ensures |cs| == days
  {
    seq(days, d requires 0 <= d < days => DayCount(m, c, d))
  }

  function SatScale(cs: seq<u32>, d: u8): (xs: seq<nat>) {
    seq(|cs|, i requires 0 <= i < |cs| => SatMul(cs[i], d))
  }

  function Share(scaled: u32, days: u8): u32
    requires days > 0
  {
    scaled / days
  }

  /** The cost as the code accumulates it: saturating, against a given total. */
  function SatCost(cs: seq<u32>, sum: u32, days: u8): u32 {
    if days == 0 || sum == 0 then 0 else Share(Cap(Distance(SatScale(cs, days), sum)), days)
  }

  function ClassCost(m: Partition, c: SchoolClassId, days: u8): u32 {
    SatCost(Counts(m, c, days), Cap(Sum(Counts(m, c, days))), days)
  }

  function SwappedCount(raw: u32, day: int, oldDay: u8, newDay: u8): u32 {
    if day == oldDay then SatSub(raw, 1) else if day == newDay then SatAdd(raw, 1) else raw
  }

  /** One slot virtually moved from `oldDay` to `newDay`. */
  function Swapped(cs: seq<u32>, oldDay: u8, newDay: u8): (r: seq<u32>) {
    if oldDay == newDay then cs
    else seq(|cs|, d requires 0 <= d < |cs| => SwappedCount(cs[d], d, oldDay, newDay))
  }

  /** `n` slots virtually added on `addDay`. */
  function Added(cs: seq<u32>, addDay: u8, n: u8): (r: seq<u32>) {
    seq(|cs|, d requires 0 <= d < |cs| => if d == addDay then SatAdd(cs[d], n) else cs[d])
  }

  // ----- the accumulators of the loops -----

  function TotalUpTo(cs: seq<u32>, n: nat): u32
    requires n <= |cs|
  {
    if n == 0 then 0 else SatAdd(TotalUpTo(cs, n - 1), cs[n - 1])
  }

  function AddDeviation(scaled: u32, c: u32, d: u8, sum: u32): u32 {
    SatAdd(scaled, AbsDiff(SatMul(c, d), sum))
  }

  function DistanceUpTo(cs: seq<u32>, d: u8, sum: u32, n: nat): u32
    requires n <= |cs|
  {
    if n == 0 then 0 else AddDeviation(DistanceUpTo(cs, d, sum, n - 1), cs[n - 1], d, sum)
  }

  lemma {:induction false} TotalUpToIsSum(cs: seq<u32>, n: nat)
    requires n <= |cs|
    ensures TotalUpTo(cs, n) == Cap(Sum(cs[..n]))
    ensures n == |cs| ==> TotalUpTo(cs, n) == Cap(Sum(cs))
  {
    if n > 0 {
      TotalUpToIsSum(cs, n - 1);
      SumStep(cs, n - 1);
      CapAbsorbs(Sum(cs[..n - 1]), cs[n - 1]);
    }
    if n == |cs| { assert cs[..n] == cs; }
  }

  lemma {:induction false} DistanceUpToIsDistance(cs: seq<u32>, d: u8, sum: u32, n: nat)
    requires n <= |cs|
    ensures DistanceUpTo(cs, d, sum, n) == Cap(Distance(SatScale(cs, d)[..n], sum))
    ensures n == |cs| ==> DistanceUpTo(cs, d, sum, n) == Cap(Distance(SatScale(cs, d), sum))
  {
    var xs := SatScale(cs, d);
    if n > 0 {
      DistanceUpToIsDistance(cs, d, sum, n - 1);
      assert xs[..n][..n - 1] == xs[..n - 1];
      CapAbsorbs(Distance(xs[..n - 1], sum), AbsDiff(xs[n - 1], sum));
    }
    if n == |cs| { assert xs[..n] == xs; }
  }

  // ----- the five forms -----

  method TotalOverDays(c: SchoolClassId, days: u8, m: Partition) returns (sum: u32)
    ensures sum == Cap(Sum(Counts(m, c, days)))
  {
    ghost var cs := Counts(m, c, days);
    sum := 0;
    for day := 0 to days
      invariant sum == TotalUpTo(cs, day)
    {
      sum := SatAdd(sum, DayCount(m, c, day));
    }
    TotalUpToIsSum(cs, days);
  }

  method ClassDayBalanceCostForClass(c: SchoolClassId, days: u8, m: Partition) returns (cost: u32)
    ensures cost == ClassCost(m, c, days)
  {
    if days == 0 {
      return 0;
    }
    var sum := TotalOverDays(c, days, m);
    if sum == 0 {
      return 0;
    }
    ghost var cs := Counts(m, c, days);
    var scaled: u32 := 0;
    for day := 0 to days
      invariant scaled == DistanceUpTo(cs, days, sum, day)
    {
      var count := DayCount(m, c, day);
      scaled := AddDeviation(scaled, count, days, sum);
    }
    DistanceUpToIsDistance(cs, days, sum, |cs|);
    cost := Share(scaled, days);
  }

  method ClassDayBalanceCostForClassWithSwap(c: SchoolClassId, days: u8, m: Partition, oldDay: u8, newDay: u8)
    returns (cost: u32)
    ensures cost == SatCost(Swapped(Counts(m, c, days), oldDay, newDay), Cap(Sum(Counts(m, c, days))), days)
  {
    if days == 0 || oldDay == newDay {
      cost := ClassDayBalanceCostForClass(c, days, m);
      return;
    }
    var sum := TotalOverDays(c, days, m);
    if sum == 0 {
      return 0;
    }
    ghost var cs := Swapped(Counts(m, c, days), oldDay, newDay);
    var scaled: u32 := 0;
    for day := 0 to days
      invariant scaled == DistanceUpTo(cs, days, sum, day)
    {
      var raw := DayCount(m, c, day);
      var count := SwappedCount(raw, day, oldDay, newDay);
      scaled := AddDeviation(scaled, count, days, sum);
    }
    DistanceUpToIsDistance(cs, days, sum, |cs|);
    cost := Share(scaled, days);
  }

  method ClassDayBalanceCostForClassAfterAdd(c: SchoolClassId, days: u8, m: Partition, addDay: u8, addN: u8)
    returns (cost: u32)
    ensures cost == SatCost(Added(Counts(m, c, days), addDay, addN), SatAdd(Cap(Sum(Counts(m, c, days))), addN), days)
  {
    if days == 0 {
      return 0;
    }
    var sum := TotalOverDays(c, days, m);
    sum := SatAdd(sum, addN);
    if sum == 0 {
      return 0;
    }
    ghost var cs := Added(Counts(m, c, days), addDay, addN);
    var scaled: u32 := 0;
    for day := 0 to days
      invariant scaled == DistanceUpTo(cs, days, sum, day)
    {
      var raw := DayCount(m, c, day);
      var count := if day == addDay then SatAdd(raw, addN) else raw;
      scaled := AddDeviation(scaled, count, days, sum);
    }
    DistanceUpToIsDistance(cs, days, sum, |cs|);
    cost := Share(scaled, days);
  }

  /** The scaled distances of the counts from the total, added with saturation. */
  method ScaledDistance(counts: seq<u32>, days: u8, sum: u32) returns (scaled: u32)
    ensures scaled == Cap(Distance(SatScale(counts, days), sum))
  {
    scaled := 0;
    for i := 0 to |counts|
      invariant scaled == DistanceUpTo(counts, days, sum, i)
    {
      scaled := AddDeviation(scaled, counts[i], days, sum);
    }
    DistanceUpToIsDistance(counts, days, sum, |counts|);
  }

  method ClassDayBalanceCostForClassFromCounts(days: u8, counts: seq<u32>) returns (cost: u32)
    ensures var taken := counts[..Min(days, |counts|)]; cost == SatCost(taken, Cap(Sum(taken)), days)
  {
    if days == 0 || |counts| == 0 {
      return 0;
    }
    var taken := counts[..Min(days, |counts|)];
    var sum: u32 := 0;
    for i := 0 to |taken|
      invariant sum == TotalUpTo(taken, i)
    {
      sum := SatAdd(sum, taken[i]);
    }
    TotalUpToIsSum(taken, |taken|);
    if sum == 0 {
      return 0;
    }
    var scaled := ScaledDistance(taken, days, sum);
    cost := Share(scaled, days);
  }

  /** The per-class costs in list order. */
  function ClassCosts(m: Partition, classes: seq<SchoolClass>, days: u8): (r: seq<nat>) {
    seq(|classes|, i requires 0 <= i < |classes| => ClassCost(m, classes[i].id, days))
  }

  /** One turn of the school loop: the class's counts are collected first. */
  method CostFromCollectedCounts(m: Partition, c: SchoolClassId, days: u8) returns (cost: u32)
    requires days > 0
    ensures cost == ClassCost(m, c, days)
  {
    ghost var cs := Counts(m, c, days);
    var sum: u32 := 0;
    var counts: seq<u32> := [];
    for day := 0 to days
      invariant counts == cs[..day] && sum == TotalUpTo(cs, day)
    {
      counts := counts + [DayCount(m, c, day)];
      sum := SatAdd(sum, DayCount(m, c, day));
    }
    assert counts == cs;
    TotalUpToIsSum(cs, days);
    if sum == 0 {
      return 0;
    }
    var scaled := ScaledDistance(counts, days, sum);
    cost := Share(scaled, days);
  }

  method ClassDayBalanceCost(m: Partition, classes: seq<SchoolClass>, days: u8) returns (total: u32)
    ensures total == Cap(Sum(ClassCosts(m, classes, days)))
  {
    ghost var costs := ClassCosts(m, classes, days);
    if days == 0 {
      AllZeroSum(costs);
      return 0;
    }
    total := 0;
    for k := 0 to |classes|
      invariant total == Cap(Sum(costs[..k]))
    {
      var cost := CostFromCollectedCounts(m, classes[k].id, days);
      SumStep(costs, k);
      CapAbsorbs(Sum(costs[..k]), costs[k]);
      total := SatAdd(total, cost);
    }
    assert costs[..|classes|] == costs;
  }

  lemma {:induction false} AllZeroSum(xs: seq<nat>)
    requires forall i :: 0 <= i < |xs| ==> xs[i] == 0
    ensures Sum(xs) == 0
  {
    if xs == [] {
    } else {
      AllZeroSum(xs[..|xs| - 1]);
    }
  }
}
