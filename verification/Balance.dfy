/** The day-balance axis on unbounded integers: how unevenly a class's slots spread over
    the days of the week (score.rs). The u32 forms are in BalanceForms. */
module Balance {
  import opened Machine
  import opened Collections

  /** Every count times the number of days, so that the mean becomes the integer `Sum(cs)`. */
  function Scale(cs: seq<nat>, d: nat): (xs: seq<nat>) {
    seq(|cs|, i requires 0 <= i < |cs| => cs[i] * d)
  }

  /** L1 distance of the entries from `s`. */
  function Distance(xs: seq<nat>, s: nat): nat {
    if xs == [] then 0 else Distance(xs[..|xs| - 1], s) + AbsDiff(xs[|xs| - 1], s)
  }

  /** One class's scaled imbalance, before the division. */
  function Imbalance(cs: seq<nat>): nat {
    Distance(Scale(cs, |cs|), Sum(cs))
  }

  /** The cost of one class: `sum |c * D - S| / D`. */
  function Cost(cs: seq<nat>): nat {
    if cs == [] then 0 else Imbalance(cs) / |cs|
  }

  function Deviations(cs: seq<nat>): (r: seq<nat>) {
    seq(|cs|, i requires 0 <= i < |cs| =>
      if cs[i] * |cs| < Sum(cs) then Sum(cs) - cs[i] * |cs| else cs[i] * |cs| - Sum(cs))
  }

  lemma {:induction false} DistanceIsSum(cs: seq<nat>, n: nat)
    requires n <= |cs|
    ensures Distance(Scale(cs, |cs|)[..n], Sum(cs)) == Sum(Deviations(cs)[..n])
  {
    if n == 0 {
    } else {
      DistanceIsSum(cs, n - 1);
      assert Scale(cs, |cs|)[..n][..n - 1] == Scale(cs, |cs|)[..n - 1];
      SumStep(Deviations(cs), n - 1);
    }
  }

  /** The cost is the sum of the scaled counts' deviations from the total, divided by the days. */
  lemma CostMeaning(cs: seq<nat>)
    requires cs != []
    ensures Cost(cs) == Sum(Deviations(cs)) / |cs|
  {
    DistanceIsSum(cs, |cs|);
    assert Scale(cs, |cs|)[..|cs|] == Scale(cs, |cs|) && Deviations(cs)[..|cs|] == Deviations(cs);
  }

  ghost predicate AllEqual(cs: seq<nat>) {
    forall i, j :: 0 <= i < |cs| && 0 <= j < |cs| ==> cs[i] == cs[j]
  }

  // ----- arithmetic helpers -----

  lemma MulMono(a: int, b: int, k: nat)
    requires a <= b
    ensures a * k <= b * k
  {}

  lemma MulDistributes(a: int, b: int, k: int)
    ensures (a + b) * k == a * k + b * k
  {}

  lemma MulSucc(a: int, k: int)
    ensures (a + 1) * k == a * k + k && (a - 1) * k == a * k - k
    ensures k * (a + 1) == k * a + k && k * (a - 1) == k * a - k
  {}

  lemma DivMono(a: nat, b: nat, d: nat)
    requires a <= b && d > 0
    ensures a / d <= b / d
  {
    assert a == d * (a / d) + a % d && b == d * (b / d) + b % d;
    if b / d + 1 <= a / d {
      MulMono(b / d + 1, a / d, d);
    }
  }

  lemma MultipleModulo(q: int, d: nat)
    requires d > 0
    ensures (q * d) % d == 0
  {
    var k, r := (q * d) / d, (q * d) % d;
    assert (q - k) * d == r;
    if q >= k + 1 { MulMono(1, q - k, d); }
    if q <= k - 1 { MulMono(q - k, -1, d); }
  }

  // ----- both sides of the mean -----

  function Above(xs: seq<nat>, s: nat): nat {
    if xs == [] then 0
    else Above(xs[..|xs| - 1], s) + if xs[|xs| - 1] > s then xs[|xs| - 1] - s else 0
  }

  function Below(xs: seq<nat>, s: nat): nat {
    if xs == [] then 0
    else Below(xs[..|xs| - 1], s) + if xs[|xs| - 1] > s then 0 else s - xs[|xs| - 1]
  }

  /** How many days are fuller than the mean. */
  function FullDays(xs: seq<nat>, s: nat): nat {
    if xs == [] then 0 else FullDays(xs[..|xs| - 1], s) + if xs[|xs| - 1] > s then 1 else 0
  }

  lemma {:induction false} DistanceSplits(xs: seq<nat>, s: nat)
    ensures Distance(xs, s) == Above(xs, s) + Below(xs, s)
    ensures FullDays(xs, s) <= |xs|
    ensures Above(xs, s) <= if Sum(xs) > s then Sum(xs) - s else 0
  {
    if xs == [] {
    } else {
      DistanceSplits(xs[..|xs| - 1], s);
    }
  }

  lemma {:induction false} NetDistance(xs: seq<nat>, s: nat)
    ensures Above(xs, s) - Below(xs, s) == Sum(xs) - s * |xs|
  {
    if xs == [] {
    } else {
      NetDistance(xs[..|xs| - 1], s);
      MulSucc(|xs| - 1, s);
    }
  }

  lemma {:induction false} SumOfScaled(cs: seq<nat>, d: nat)
    ensures Sum(Scale(cs, d)) == Sum(cs) * d
  {
    if cs == [] {
    } else {
      var n := |cs| - 1;
      SumOfScaled(cs[..n], d);
      assert Scale(cs, d)[..n] == Scale(cs[..n], d);
      MulDistributes(Sum(cs[..n]), cs[n], d);
    }
  }

  /** Around the class's own mean the two sides cancel. */
  lemma SidesCancel(cs: seq<nat>)
    ensures Above(Scale(cs, |cs|), Sum(cs)) == Below(Scale(cs, |cs|), Sum(cs))
    ensures Imbalance(cs) == 2 * Above(Scale(cs, |cs|), Sum(cs))
  {
    var d, s := |cs|, Sum(cs);
    SumOfScaled(cs, d);
    NetDistance(Scale(cs, d), s);
    DistanceSplits(Scale(cs, d), s);
  }

  /** The largest possible imbalance puts every slot on one day. */
  lemma CostUpperBound(cs: seq<nat>)
    requires cs != []
    ensures Imbalance(cs) <= 2 * (Sum(cs) * (|cs| - 1))
    ensures Cost(cs) <= 2 * (Sum(cs) * (|cs| - 1)) / |cs|
  {
    var top := Product(Sum(cs), |cs| - 1);
    ImbalanceUpperBound(cs, top);
    CostAtMost(cs, 2 * top);
  }

  lemma ImbalanceUpperBound(cs: seq<nat>, top: nat)
    requires cs != [] && top == Sum(cs) * (|cs| - 1)
    ensures Imbalance(cs) <= 2 * top
  {
    var d, s := |cs|, Sum(cs);
    SidesCancel(cs);
    SumOfScaled(cs, d);
    DistanceSplits(Scale(cs, d), s);
    MulSucc(d, s);
  }

  lemma CostAtMost(cs: seq<nat>, top: nat)
    requires cs != [] && Imbalance(cs) <= top
    ensures Cost(cs) <= top / |cs|
  {
    DivMono(Imbalance(cs), top, |cs|);
  }

  /** With at most `b` slots a day and `k` days above the mean. */
  lemma CappedImbalance(cs: seq<nat>, b: nat) returns (k: nat)
    requires forall i :: 0 <= i < |cs| ==> cs[i] <= b
    ensures k <= |cs| && Imbalance(cs) <= 2 * (b * (k * (|cs| - k)))
  {
    var d, s := |cs|, Sum(cs);
    k := FullDays(Scale(cs, d), s);
    SidesCancel(cs);
    AboveAsProduct(cs, d, s);
    FullDaySlotsBound(cs, d, s, b);
    SurplusBound(FullDaySlots(cs, d, s), s, d, k, b);
  }

  lemma SurplusBound(slots: nat, s: nat, d: nat, k: nat, b: nat)
    requires slots <= s && k <= d && slots <= b * k
    ensures slots * d - k * s <= b * (k * (d - k))
  {
    MulMono(slots, s, k);
    assert k * s == s * k;
    assert slots * d - slots * k == slots * (d - k);
    MulMono(slots, b * k, d - k);
    assert b * k * (d - k) == b * (k * (d - k));
  }

  // ----- what the floor division drops -----

  /** The slots on days fuller than the mean. */
  function FullDaySlots(cs: seq<nat>, d: nat, s: nat): nat {
    if cs == [] then 0
    else
      var n := |cs| - 1;
      FullDaySlots(cs[..n], d, s) + if cs[n] * d > s then cs[n] else 0
  }

  lemma {:induction false} AboveAsProduct(cs: seq<nat>, d: nat, s: nat)
    ensures Above(Scale(cs, d), s) == FullDaySlots(cs, d, s) * d - FullDays(Scale(cs, d), s) * s
  {
    if cs == [] {
    } else {
      var n := |cs| - 1;
      AboveAsProduct(cs[..n], d, s);
      assert Scale(cs, d)[..n] == Scale(cs[..n], d);
      MulDistributes(FullDaySlots(cs[..n], d, s), cs[n], d);
      MulSucc(FullDays(Scale(cs[..n], d), s), s);
    }
  }

  lemma {:induction false} FullDaySlotsBound(cs: seq<nat>, d: nat, s: nat, b: nat)
    requires forall i :: 0 <= i < |cs| ==> cs[i] <= b
    ensures FullDaySlots(cs, d, s) <= Sum(cs) && FullDays(Scale(cs, d), s) <= |cs|
    ensures FullDaySlots(cs, d, s) <= b * FullDays(Scale(cs, d), s)
  {
    if cs == [] {
    } else {
      var n := |cs| - 1;
      FullDaySlotsBound(cs[..n], d, s, b);
      assert Scale(cs, d)[..n] == Scale(cs[..n], d);
      MulSucc(FullDays(Scale(cs[..n], d), s), b);
    }
  }

  lemma DivisibleTogether(a: nat, cut: nat, q: nat, d: nat)
    requires d > 0 && a == q * d - cut
    ensures a % d == 0 <==> cut % d == 0
  {
    assert a == (a / d) * d + a % d && cut == (cut / d) * d + cut % d;
    if a % d == 0 {
      assert (q - a / d) * d == cut;
      MultipleModulo(q - a / d, d);
    }
    if cut % d == 0 {
      assert (q - cut / d) * d == a;
      MultipleModulo(q - cut / d, d);
    }
  }

  /** The division is exact precisely when D divides twice the total times the number of
      days fuller than the mean. */
  lemma FloorLossExact(cs: seq<nat>)
    requires cs != []
    ensures Imbalance(cs) % |cs| == 0
       <==> (2 * (FullDays(Scale(cs, |cs|), Sum(cs)) * Sum(cs))) % |cs| == 0
  {
    var d, s := |cs|, Sum(cs);
    SidesCancel(cs);
    var slots := FullDaySlots(cs, d, s);
    AboveAsProduct(cs, d, s);
    var cut := Product(FullDays(Scale(cs, d), s), s);
    DoubledDivisible(Above(Scale(cs, d), s), slots, cut, d);
  }

  lemma Product(a: nat, b: nat) returns (p: nat)
    ensures p == a * b
  {
    p := a * b;
  }

  lemma DoubledDivisible(above: nat, slots: nat, full: nat, d: nat)
    requires d > 0 && above == slots * d - full
    ensures (2 * above) % d == 0 <==> (2 * full) % d == 0
  {
    MulDistributes(slots, slots, d);
    DivisibleTogether(2 * above, 2 * full, slots + slots, d);
  }

  /** The division is lossy: one slot in a five-day week has imbalance 8, so 8/5 is reported
      as 1. */
  lemma FloorLossExample()
    ensures Imbalance([1, 0, 0, 0, 0]) == 8 && Cost([1, 0, 0, 0, 0]) == 1
  {
    var w: seq<nat> := [1, 0, 0, 0, 0];
    var x: seq<nat> := [5, 0, 0, 0, 0];
    assert Scale(w, 5) == x;
    assert w[..4] == [1, 0, 0, 0] && w[..4][..3] == [1, 0, 0] && [1, 0, 0][..2] == [1, 0] && [1, 0][..1] == [1];
    assert Sum([1]) == 1 && Sum([1, 0]) == 1 && Sum([1, 0, 0]) == 1 && Sum(w) == 1;
    assert x[..4] == [5, 0, 0, 0] && x[..4][..3] == [5, 0, 0] && [5, 0, 0][..2] == [5, 0] && [5, 0][..1] == [5];
    assert Distance([5], 1) == 4 && Distance([5, 0], 1) == 5 && Distance([5, 0, 0], 1) == 6;
    assert Distance([5, 0, 0, 0], 1) == 7;
  }

  // ----- zero cost means an even week -----

  lemma {:induction false} EvenWeek(cs: seq<nat>, c: nat, d: nat)
    requires forall i :: 0 <= i < |cs| ==> cs[i] == c
    ensures Sum(cs) == |cs| * c
    ensures Distance(Scale(cs, d), c * d) == 0
  {
    if cs == [] {
    } else {
      var n := |cs| - 1;
      EvenWeek(cs[..n], c, d);
      assert Scale(cs, d)[..n] == Scale(cs[..n], d);
      assert (n + 1) * c == n * c + c;
    }
  }

  /** If every entry above `s` exceeds it by at least `p`, the first contributes `p` and each
      further one at least 1; dually below. */
  lemma {:induction false} SidesAtLeast(xs: seq<nat>, s: nat, p: nat, r: nat)
    requires p >= 1 && r >= 1
    requires forall i :: 0 <= i < |xs| ==> xs[i] >= s + p || xs[i] + r <= s
    ensures var full := FullDays(xs, s);
            && full <= |xs|
            && (full > 0 ==> Above(xs, s) >= full + p - 1)
            && (full < |xs| ==> Below(xs, s) >= (|xs| - full) + r - 1)
            && (full == 0 ==> Above(xs, s) == 0)
            && (full == |xs| ==> Below(xs, s) == 0)
  {
    if xs == [] {
    } else {
      SidesAtLeast(xs[..|xs| - 1], s, p, r);
    }
  }

  lemma {:induction false} DistanceHasEntry(xs: seq<nat>, s: nat, i: nat)
    requires i < |xs|
    ensures Distance(xs, s) >= AbsDiff(xs[i], s)
  {
    if i < |xs| - 1 {
      DistanceHasEntry(xs[..|xs| - 1], s, i);
    }
  }

  /** A count is a whole number of days' shares away from a mean that leaves remainder `r`. */
  lemma ScaledEntryGap(c: nat, d: nat, m: nat, r: nat)
    requires 0 <= r < d
    ensures c > m ==> c * d >= m * d + d
    ensures c < m ==> c * d + d <= m * d
    ensures c * d >= (m * d + r) + (d - r) || c * d + r <= m * d + r
  {
    if c > m { MulMono(m + 1, c, d); assert (m + 1) * d == m * d + d; }
    if c < m { MulMono(c + 1, m, d); assert (c + 1) * d == c * d + d; }
  }

  lemma UnevenWholeMean(cs: seq<nat>, d: nat, m: nat)
    requires !AllEqual(cs) && d > 0
    ensures Distance(Scale(cs, d), m * d) >= d
  {
    var i, j :| 0 <= i < |cs| && 0 <= j < |cs| && cs[i] != cs[j];
    var k := if cs[i] != m then i else j;
    ScaledEntryGap(cs[k], d, m, 0);
    DistanceHasEntry(Scale(cs, d), m * d, k);
  }

  lemma UnevenFractionalMean(cs: seq<nat>, m: nat, r: nat)
    requires 0 < r < |cs| && Sum(cs) == m * |cs| + r
    ensures Imbalance(cs) >= |cs|
  {
    var d, s, xs := |cs|, Sum(cs), Scale(cs, |cs|);
    forall i | 0 <= i < d ensures xs[i] >= s + (d - r) || xs[i] + r <= s {
      ScaledEntryGap(cs[i], d, m, r);
    }
    SidesAtLeast(xs, s, d - r, r);
    SidesCancel(cs);
  }

  lemma QuotientAndRest(s: nat, d: nat) returns (m: nat, r: nat)
    requires d > 0
    ensures s == m * d + r && r < d
  {
    m, r := s / d, s % d;
  }

  /** The floor never turns an uneven week into cost zero. */
  lemma UnevenWeekCosts(cs: seq<nat>)
    requires !AllEqual(cs)
    ensures Imbalance(cs) >= |cs|
  {
    var d, s := |cs|, Sum(cs);
    var m, r := QuotientAndRest(s, d);
    if r == 0 {
      UnevenWholeMean(cs, d, m);
    } else {
      UnevenFractionalMean(cs, m, r);
    }
  }

  /** The cost is 0 exactly when every day carries the same count. */
  lemma CostZeroIffEven(cs: seq<nat>)
    ensures Cost(cs) == 0 <==> AllEqual(cs)
  {
    if cs != [] {
      if AllEqual(cs) {
        EvenWeek(cs, cs[0], |cs|);
        assert |cs| * cs[0] == cs[0] * |cs|;
      } else {
        UnevenWeekCosts(cs);
        DivMono(|cs|, Imbalance(cs), |cs|);
      }
    }
  }

  // ----- moving and adding slots -----

  lemma {:induction false} DistanceUpdate(xs: seq<nat>, i: nat, x: nat, s: nat)
    requires i < |xs|
    ensures Distance(xs[i := x], s) == Distance(xs, s) - AbsDiff(xs[i], s) + AbsDiff(x, s)
    ensures Sum(xs[i := x]) == Sum(xs) - xs[i] + x
  {
    var n := |xs| - 1;
    if i == n {
      assert xs[i := x][..n] == xs[..n];
    } else {
      assert xs[i := x][..n] == xs[..n][i := x];
      DistanceUpdate(xs[..n], i, x, s);
    }
  }

  /** The distance after replacing one day's count. */
  lemma ScaledUpdate(cs: seq<nat>, i: nat, c: nat, d: nat, s: nat)
    requires i < |cs|
    ensures Distance(Scale(cs[i := c], d), s)
         == Distance(Scale(cs, d), s) - AbsDiff(cs[i] * d, s) + AbsDiff(c * d, s)
    ensures Sum(cs[i := c]) == Sum(cs) - cs[i] + c
  {
    assert Scale(cs[i := c], d) == Scale(cs, d)[i := c * d];
    DistanceUpdate(Scale(cs, d), i, c * d, s);
    DistanceUpdate(cs, i, c, s);
  }

  lemma CostFollowsImbalance(a: seq<nat>, b: seq<nat>)
    requires |a| == |b| && Imbalance(a) <= Imbalance(b)
    ensures Cost(a) <= Cost(b)
  {
    if a != [] {
      DivMono(Imbalance(a), Imbalance(b), |a|);
    }
  }

  lemma CloserTogether(x: nat, y: nat, d: nat, s: nat)
    requires y < x
    ensures AbsDiff((x - 1) * d, s) + AbsDiff((y + 1) * d, s) <= AbsDiff(x * d, s) + AbsDiff(y * d, s)
  {
    MulSucc(x, d);
    MulSucc(y, d);
    MulMono(y + 1, x, d);
  }

  lemma MoveImbalance(cs: seq<nat>, from: nat, to: nat, x: nat, y: nat, moved: seq<nat>)
    requires from < |cs| && to < |cs| && x == cs[from] && y == cs[to] && y < x
    requires moved == cs[from := x - 1][to := y + 1]
    ensures Imbalance(moved) <= Imbalance(cs)
  {
    var d, s := |cs|, Sum(cs);
    var mid := cs[from := x - 1];
    ScaledUpdate(cs, from, x - 1, d, s);
    ScaledUpdate(mid, to, y + 1, d, s);
    CloserTogether(x, y, d, s);
    assert Sum(moved) == s && |moved| == d && mid[to] == y;
  }

  /** Moving one slot from a fuller day to a strictly emptier day never raises the cost. */
  lemma MoveToEmptierDay(cs: seq<nat>, from: nat, to: nat)
    requires from < |cs| && to < |cs| && cs[to] < cs[from]
    ensures Cost(cs[from := cs[from] - 1][to := cs[to] + 1]) <= Cost(cs)
  {
    var moved := cs[from := cs[from] - 1][to := cs[to] + 1];
    MoveImbalance(cs, from, to, cs[from], cs[to], moved);
    CostFollowsImbalance(moved, cs);
  }

  /** Adding n slots to a lighter day never costs more than adding them to a heavier day. */
  lemma AddToLighterDay(cs: seq<nat>, light: nat, heavy: nat, n: nat)
    requires light < |cs| && heavy < |cs| && cs[light] <= cs[heavy]
    ensures Cost(cs[light := cs[light] + n]) <= Cost(cs[heavy := cs[heavy] + n])
  {
    var a, b := cs[light := cs[light] + n], cs[heavy := cs[heavy] + n];
    var d, s := |cs|, Sum(cs) + n;
    UpdatedImbalance(cs, light, cs[light] + n, d, s);
    UpdatedImbalance(cs, heavy, cs[heavy] + n, d, s);
    AddedDeviation(cs[light], cs[heavy], n, d, s);
    CostFollowsImbalance(a, b);
  }

  lemma UpdatedImbalance(cs: seq<nat>, i: nat, c: nat, d: nat, s: nat)
    requires i < |cs| == d && s == Sum(cs) - cs[i] + c
    ensures Imbalance(cs[i := c]) == Distance(Scale(cs, d), s) - AbsDiff(cs[i] * d, s) + AbsDiff(c * d, s)
  {
    ScaledUpdate(cs, i, c, d, s);
  }

  lemma AddedDeviation(x: nat, y: nat, n: nat, d: nat, s: nat)
    requires x <= y
    ensures AbsDiff((x + n) * d, s) + AbsDiff(y * d, s) <= AbsDiff((y + n) * d, s) + AbsDiff(x * d, s)
  {
    MulDistributes(x, n, d);
    MulDistributes(y, n, d);
    MulMono(x, y, d);
    MulMono(0, n, d);
  }
}
