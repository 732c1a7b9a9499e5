/** The recommended sweep point (solver-bench/src/main.rs). Means are compared after an arbitrary
    rounding, of which the nearest f64 is one. */
module Recommend {
  import opened Machine
  import opened Collections
  import opened Sorting
  import opened CellRunner
  import opened Sweep

  /** A sweep cell with the fixture it ran on. */
  datatype RrCell = RrCell(fixture: string, cell: CellResult)

  datatype Sample = Sample(fixture: string, soft: u32)

  /** Cells that contribute a sample: both parameters, a feasible seed and a score. */
  predicate Usable(c: RrCell) {
    IsSweepCell(c.cell) && c.cell.feasibilityCount > 0 && c.cell.softScoreMedian.Some?
  }

  function TupleOf(c: RrCell): SweepTuple {
    CandidateOf(c.cell).tuple
  }

  function SampleOf(c: RrCell): Sample {
    Sample(c.fixture, if c.cell.softScoreMedian.Some? then c.cell.softScoreMedian.value else 0)
  }

  function Samples(cells: seq<RrCell>, t: SweepTuple): seq<Sample> {
    FilterMap(cells, (c: RrCell) => Usable(c) && TupleOf(c) == t, SampleOf)
  }

  function SampleFixtures(samples: seq<Sample>): set<string> {
    set x | x in samples :: x.fixture
  }

  function Total(samples: seq<Sample>): nat {
    if samples == [] then 0 else Total(samples[..|samples| - 1]) + samples[|samples| - 1].soft
  }

  function Mean(samples: seq<Sample>): real
    requires samples != []
  {
    Total(samples) as real / |samples| as real
  }

  /** Has samples, from at least `fixtureCount` distinct fixtures. */
  predicate EligibleTuple(cells: seq<RrCell>, fixtureCount: nat, t: SweepTuple) {
    Samples(cells, t) != [] && |SampleFixtures(Samples(cells, t))| >= fixtureCount
  }

  /** How a quotient is rounded to the numbers that are compared. */
  type Rounding = real -> real

  ghost predicate Monotone(round: Rounding) {
    forall x: real, y: real :: x <= y ==> round(x) <= round(y)
  }

  /** `a` is a better choice than `b`, or the same one. */
  predicate NoWorse(cells: seq<RrCell>, round: Rounding, a: SweepTuple, b: SweepTuple)
    requires Samples(cells, a) != [] && Samples(cells, b) != []
  {
    var x, y := round(Mean(Samples(cells, a))), round(Mean(Samples(cells, b)));
    x < y || (x == y && TupleLe(a, b))
  }

  /** The recommendation among the grid points of `upTo`. */
  ghost predicate IsRecommendation(cells: seq<RrCell>, round: Rounding, fixtureCount: nat, upTo: set<SweepTuple>,
                                   r: Option<SweepTuple>) {
    match r
    case None => forall t :: t in upTo ==> !EligibleTuple(cells, fixtureCount, t)
    case Some(best) =>
      best in upTo && EligibleTuple(cells, fixtureCount, best)
      && forall t :: t in upTo && EligibleTuple(cells, fixtureCount, t) ==> NoWorse(cells, round, best, t)
  }

  /** At most one point, or none, is the recommendation. */
  lemma RecommendationUnique(cells: seq<RrCell>, round: Rounding, fixtureCount: nat, upTo: set<SweepTuple>,
                             r: Option<SweepTuple>, q: Option<SweepTuple>)
    requires IsRecommendation(cells, round, fixtureCount, upTo, r)
    requires IsRecommendation(cells, round, fixtureCount, upTo, q)
    ensures r == q
  {}

  /** Monotone rounding only blurs ties: no eligible point has a smaller exact mean than the
      recommended one, unless the two means round to one number and that point comes later. */
  lemma RoundingOnlyBlursTies(cells: seq<RrCell>, round: Rounding, fixtureCount: nat, upTo: set<SweepTuple>,
                              best: SweepTuple, t: SweepTuple)
    requires Monotone(round) && IsRecommendation(cells, round, fixtureCount, upTo, Some(best))
    requires t in upTo && EligibleTuple(cells, fixtureCount, t)
    requires Mean(Samples(cells, t)) < Mean(Samples(cells, best))
    ensures round(Mean(Samples(cells, t))) == round(Mean(Samples(cells, best))) && TupleLt(best, t)
  {
    assert NoWorse(cells, round, best, t);
  }

  // ----- the choice in terms of the cells -----

  /** Cell `i` was run at the point, with a feasible seed and a median score. */
  predicate CountsFor(cells: seq<RrCell>, i: int, t: SweepTuple) {
    && 0 <= i < |cells|
    && cells[i].cell.rrPeriod == Some(t.period) && cells[i].cell.rrK == Some(t.k)
    && cells[i].cell.feasibilityCount > 0 && cells[i].cell.softScoreMedian.Some?
  }

  ghost function CountedCells(cells: seq<RrCell>, t: SweepTuple): set<nat> {
    set i: nat | i < |cells| && CountsFor(cells, i, t)
  }

  /** The fixtures of the point's cells. */
  ghost function CountedFixtures(cells: seq<RrCell>, t: SweepTuple): set<string> {
    set i: nat | i < |cells| && CountsFor(cells, i, t) :: cells[i].fixture
  }

  /** The scores of the point's cells among the first `n`, added up. */
  function ScoreSum(cells: seq<RrCell>, t: SweepTuple, n: nat): nat
    requires n <= |cells|
  {
    if n == 0 then 0
    else ScoreSum(cells, t, n - 1) + if CountsFor(cells, n - 1, t) then cells[n - 1].cell.softScoreMedian.value else 0
  }

  /** The counting cells among the first `n`. */
  ghost function CountedUpTo(cells: seq<RrCell>, t: SweepTuple, n: nat): set<nat> {
    set i: nat | i < n && CountsFor(cells, i, t)
  }

  lemma SamplesStep(cells: seq<RrCell>, t: SweepTuple, n: nat)
    requires n < |cells|
    ensures Samples(cells[..n + 1], t)
         == Samples(cells[..n], t) + if CountsFor(cells, n, t) then [SampleOf(cells[n])] else []
  {
    assert cells[..n + 1][..n] == cells[..n];
  }

  lemma {:induction false} SampleCount(cells: seq<RrCell>, t: SweepTuple, n: nat)
    requires n <= |cells|
    ensures |Samples(cells[..n], t)| == |CountedUpTo(cells, t, n)|
  {
    if n == 0 {
      assert CountedUpTo(cells, t, n) == {};
    } else {
      SampleCount(cells, t, n - 1);
      SamplesStep(cells, t, n - 1);
      CountedStep(cells, t, n - 1);
    }
  }

  lemma CountedStep(cells: seq<RrCell>, t: SweepTuple, n: nat)
    ensures |CountedUpTo(cells, t, n + 1)| == |CountedUpTo(cells, t, n)| + if CountsFor(cells, n, t) then 1 else 0
  {
    if CountsFor(cells, n, t) {
      assert CountedUpTo(cells, t, n + 1) == CountedUpTo(cells, t, n) + {n};
    } else {
      assert CountedUpTo(cells, t, n + 1) == CountedUpTo(cells, t, n);
    }
  }

  lemma {:induction false} SampleTotal(cells: seq<RrCell>, t: SweepTuple, n: nat)
    requires n <= |cells|
    ensures Total(Samples(cells[..n], t)) == ScoreSum(cells, t, n)
  {
    if n == 0 {
    } else {
      SampleTotal(cells, t, n - 1);
      TotalStep(cells, t, n - 1);
    }
  }

  lemma TotalStep(cells: seq<RrCell>, t: SweepTuple, n: nat)
    requires n < |cells|
    ensures Total(Samples(cells[..n + 1], t))
         == Total(Samples(cells[..n], t)) + if CountsFor(cells, n, t) then cells[n].cell.softScoreMedian.value else 0
  {
    var front := Samples(cells[..n], t);
    SamplesStep(cells, t, n);
    if CountsFor(cells, n, t) {
      AppendedSample(front, SampleOf(cells[n]));
    } else {
      assert front + [] == front;
    }
  }

  lemma FixturesMeaning(cells: seq<RrCell>, t: SweepTuple)
    ensures SampleFixtures(Samples(cells, t)) == CountedFixtures(cells, t)
  {
    forall f ensures f in SampleFixtures(Samples(cells, t)) <==> f in CountedFixtures(cells, t) {
      SamplesCover(cells, t, f);
      if RanOn(cells, t, f) {
        var c :| c in cells && Usable(c) && TupleOf(c) == t && c.fixture == f;
        var i :| 0 <= i < |cells| && cells[i] == c;
        assert CountsFor(cells, i, t);
      }
      if i: nat :| i < |cells| && CountsFor(cells, i, t) && cells[i].fixture == f {
        assert cells[i] in cells && Usable(cells[i]) && TupleOf(cells[i]) == t;
      }
    }
  }

  lemma AppendedSample(samples: seq<Sample>, x: Sample)
    ensures Total(samples + [x]) == Total(samples) + x.soft
  {
    assert (samples + [x])[..|samples|] == samples;
  }

  /** A point is eligible exactly when it has a counting cell and those cells cover enough fixtures; its
      mean is the sum of their scores over their number. */
  lemma EligibleMeaning(cells: seq<RrCell>, fixtureCount: nat, t: SweepTuple)
    ensures EligibleTuple(cells, fixtureCount, t) <==>
      CountedCells(cells, t) != {} && |CountedFixtures(cells, t)| >= fixtureCount
    ensures Samples(cells, t) != [] ==>
      |CountedCells(cells, t)| > 0
      && Mean(Samples(cells, t)) == ScoreSum(cells, t, |cells|) as real / |CountedCells(cells, t)| as real
  {
    SampleCount(cells, t, |cells|);
    SampleTotal(cells, t, |cells|);
    FixturesMeaning(cells, t);
    assert cells[..|cells|] == cells;
    assert CountedCells(cells, t) == CountedUpTo(cells, t, |cells|);
  }

  /** The mean of the point's scores, 0 without any. */
  ghost function MeanScore(cells: seq<RrCell>, t: SweepTuple): real {
    if CountedCells(cells, t) == {} then 0.0
    else ScoreSum(cells, t, |cells|) as real / |CountedCells(cells, t)| as real
  }

  ghost predicate Covers(cells: seq<RrCell>, fixtureCount: nat, t: SweepTuple) {
    CountedCells(cells, t) != {} && |CountedFixtures(cells, t)| >= fixtureCount
  }

  /** The recommendation covers the fixtures, and no covering point has a smaller rounded mean, or an equal
      one with a smaller period, or with an equal period and a smaller K. Without a recommendation no
      point covers the fixtures. */
  lemma RecommendationMeaning(cells: seq<RrCell>, round: Rounding, fixtureCount: nat, r: Option<SweepTuple>)
    requires IsRecommendation(cells, round, fixtureCount, set c | c in cells :: TupleOf(c), r)
    requires r.None? ==> forall t :: !EligibleTuple(cells, fixtureCount, t)
    ensures match r
      case None => forall t :: !Covers(cells, fixtureCount, t)
      case Some(best) =>
        && Covers(cells, fixtureCount, best)
        && forall t :: Covers(cells, fixtureCount, t) ==>
             var x, y := round(MeanScore(cells, best)), round(MeanScore(cells, t));
             || x < y
             || (x == y && best.period < t.period)
             || (x == y && best.period == t.period && best.k <= t.k)
  {
    forall t ensures EligibleTuple(cells, fixtureCount, t) <==> Covers(cells, fixtureCount, t) {
      EligibleMeaning(cells, fixtureCount, t);
    }
    if r.Some? {
      EligibleMeaning(cells, fixtureCount, r.value);
      forall t | Covers(cells, fixtureCount, t)
        ensures t in (set c | c in cells :: TupleOf(c)) && NoWorse(cells, round, r.value, t)
        ensures Mean(Samples(cells, t)) == MeanScore(cells, t)
      {
        EligibleMeaning(cells, fixtureCount, t);
        var i: nat :| i in CountedCells(cells, t);
        assert cells[i] in cells && TupleOf(cells[i]) == t;
      }
    }
  }

  // ----- what "on every fixture" comes to -----

  ghost predicate NoRepeatedFixture(fixtures: seq<string>) {
    forall i, j :: 0 <= i < j < |fixtures| ==> fixtures[i] != fixtures[j]
  }

  /** The point has a usable cell on that fixture. */
  ghost predicate RanOn(cells: seq<RrCell>, t: SweepTuple, fixture: string) {
    exists c :: c in cells && Usable(c) && TupleOf(c) == t && c.fixture == fixture
  }

  lemma {:induction false} SamplesCover(cells: seq<RrCell>, t: SweepTuple, fixture: string)
    ensures fixture in SampleFixtures(Samples(cells, t)) <==> RanOn(cells, t, fixture)
  {
    if cells == [] {
    } else {
      var n := |cells| - 1;
      SamplesCover(cells[..n], t, fixture);
      assert cells == cells[..n] + [cells[n]];
      var keep := (c: RrCell) => Usable(c) && TupleOf(c) == t;
      var front := Samples(cells[..n], t);
      assert Samples(cells, t) == if keep(cells[n]) then front + [SampleOf(cells[n])] else front;
      if keep(cells[n]) {
        assert SampleFixtures(front + [SampleOf(cells[n])]) == SampleFixtures(front) + {cells[n].fixture};
      }
    }
  }

  lemma {:induction false} DistinctFixtures(fixtures: seq<string>)
    ensures |set f | f in fixtures| <= |fixtures|
    ensures |set f | f in fixtures| == |fixtures| <==> NoRepeatedFixture(fixtures)
  {
    if fixtures == [] {
    } else {
      var n := |fixtures| - 1;
      DistinctFixtures(fixtures[..n]);
      assert fixtures == fixtures[..n] + [fixtures[n]];
      var before := set f | f in fixtures[..n];
      assert (set f | f in fixtures) == before + {fixtures[n]};
      if fixtures[n] in before {
        assert before + {fixtures[n]} == before;
      }
    }
  }

  /** With every cell run on a listed fixture, a point is eligible exactly when it ran feasibly on
      every listed fixture and no fixture is listed twice. */
  lemma EligibleIff(cells: seq<RrCell>, fixtures: seq<string>, t: SweepTuple)
    requires fixtures != [] && forall c :: c in cells ==> c.fixture in fixtures
    ensures EligibleTuple(cells, |fixtures|, t) <==>
      NoRepeatedFixture(fixtures) && forall f :: f in fixtures ==> RanOn(cells, t, f)
  {
    var listed := set f | f in fixtures;
    var ran := SampleFixtures(Samples(cells, t));
    forall f ensures f in ran <==> RanOn(cells, t, f) {
      SamplesCover(cells, t, f);
    }
    assert ran <= listed;
    SubsetSize(ran, listed);
    DistinctFixtures(fixtures);
    if NoRepeatedFixture(fixtures) && forall f :: f in fixtures ==> RanOn(cells, t, f) {
      assert ran == listed;
      assert fixtures[0] in ran;
    }
    if EligibleTuple(cells, |fixtures|, t) {
      assert ran == listed;
    }
  }

  /** Naming a fixture twice on the command line leaves no point eligible. */
  lemma RepeatedFixtureBlocksAll(cells: seq<RrCell>, round: Rounding, fixtures: seq<string>, r: Option<SweepTuple>)
    requires fixtures != [] && forall c :: c in cells ==> c.fixture in fixtures
    requires !NoRepeatedFixture(fixtures)
    requires IsRecommendation(cells, round, |fixtures|, set c | c in cells :: TupleOf(c), r)
    ensures r == None
  {
    if r.Some? {
      EligibleIff(cells, fixtures, r.value);
    }
  }

  // ----- the search -----

  /** Group the usable samples by grid point. */
  method GroupSamples(cells: seq<RrCell>) returns (grouped: map<SweepTuple, seq<Sample>>)
    ensures forall t :: t in grouped <==> Samples(cells, t) != []
    ensures forall t :: t in grouped ==> grouped[t] == Samples(cells, t)
  {
    grouped := map[];
    for i := 0 to |cells|
      invariant forall t :: t in grouped <==> Samples(cells[..i], t) != []
      invariant forall t :: t in grouped ==> grouped[t] == Samples(cells[..i], t)
    {
      assert cells[..i + 1][..i] == cells[..i];
      if Usable(cells[i]) {
        var t := TupleOf(cells[i]);
        grouped := grouped[t := (if t in grouped then grouped[t] else []) + [SampleOf(cells[i])]];
      }
    }
    assert cells[..|cells|] == cells;
  }

  /** Collect the fixture names, sort them, drop repetitions, count. */
  method DistinctCount(samples: seq<Sample>) returns (n: nat)
    ensures n == |SampleFixtures(samples)|
  {
    var names := MapSeq(samples, (x: Sample) => x.fixture);
    var distinct := Dedup(Sort(StringLe, names));
    n := |distinct|;
    StringLeOrders();
    SortDedupCounts(StringLe, names);
    assert forall i :: 0 <= i < |samples| ==> names[i] == samples[i].fixture;
    assert (set f | f in names) == SampleFixtures(samples) by {
      forall f | f in SampleFixtures(samples) ensures f in names {
        var i :| 0 <= i < |samples| && samples[i].fixture == f;
        assert names[i] == f;
      }
    }
  }

  // ----- the order of names -----

  predicate StringLe(a: string, b: string) {
    a == [] || (b != [] && (a[0] < b[0] || (a[0] == b[0] && StringLe(a[1..], b[1..]))))
  }

  lemma {:induction false} StringLeTotal(a: string, b: string)
    ensures StringLe(a, b) || StringLe(b, a)
    ensures StringLe(a, b) && StringLe(b, a) ==> a == b
  {
    if a != [] && b != [] && a[0] == b[0] {
      StringLeTotal(a[1..], b[1..]);
      assert a == [a[0]] + a[1..] && b == [b[0]] + b[1..];
    }
  }

  lemma {:induction false} StringLeTransitive(a: string, b: string, c: string)
    requires StringLe(a, b) && StringLe(b, c)
    ensures StringLe(a, c)
  {
    if a != [] && a[0] == b[0] && b[0] == c[0] {
      StringLeTransitive(a[1..], b[1..], c[1..]);
    }
  }

  lemma StringLeOrders()
    ensures TotalPreorder(StringLe)
    ensures forall a, b :: StringLe(a, b) && StringLe(b, a) ==> a == b
  {
    forall a, b ensures (StringLe(a, b) || StringLe(b, a)) && (StringLe(a, b) && StringLe(b, a) ==> a == b) {
      StringLeTotal(a, b);
    }
    forall a, b, c | StringLe(a, b) && StringLe(b, c) ensures StringLe(a, c) {
      StringLeTransitive(a, b, c);
    }
  }

  lemma {:induction false} DedupDistinct(le: (string, string) -> bool, v: seq<string>)
    requires SortedBy(le, v) && forall a, b :: le(a, b) && le(b, a) ==> a == b
    ensures NoRepeatedFixture(Dedup(v))
  {
    if |v| < 2 {
    } else {
      DedupDistinct(le, v[1..]);
      DedupKeepsElements(v[1..]);
      if v[0] != v[1] {
        var rest := Dedup(v[1..]);
        forall k | 0 <= k < |rest| ensures rest[k] != v[0] {
          assert rest[k] in rest;
          var j :| 0 <= j < |v[1..]| && v[1..][j] == rest[k];
          assert le(v[0], v[1]) && (j > 0 ==> le(v[1], v[j + 1]));
        }
      }
    }
  }

  lemma SortDedupCounts(le: (string, string) -> bool, v: seq<string>)
    requires TotalPreorder(le) && forall a, b :: le(a, b) && le(b, a) ==> a == b
    ensures |Dedup(Sort(le, v))| == |set x | x in v|
  {
    SortSorts(le, v);
    SortPermutes(le, v);
    DedupDistinct(le, Sort(le, v));
    DedupKeepsElements(Sort(le, v));
    DistinctFixtures(Dedup(Sort(le, v)));
    assert (set x | x in v) == (set x | x in Dedup(Sort(le, v)));
  }

  // ----- the choice -----

  method LeastKey(keys: set<SweepTuple>) returns (least: SweepTuple)
    requires keys != {}
    ensures least in keys && forall t :: t in keys ==> TupleLe(least, t)
  {
    least :| least in keys;
    var rest := keys - {least};
    while rest != {}
      invariant rest <= keys && least in keys
      invariant forall t :: t in keys && t !in rest ==> TupleLe(least, t)
      decreases |rest|
    {
      var t :| t in rest;
      if !TupleLe(least, t) { least := t; }
      rest := rest - {t};
    }
  }

  method MeanSoft(samples: seq<Sample>) returns (mean: real)
    requires samples != []
    ensures mean == Mean(samples)
  {
    var sum := 0;
    for i := 0 to |samples|
      invariant sum == Total(samples[..i])
    {
      assert samples[..i + 1][..i] == samples[..i];
      sum := sum + samples[i].soft;
    }
    assert samples[..|samples|] == samples;
    mean := sum as real / |samples| as real;
  }

  /** The eligible point of least rounded mean, ties to the smallest period and then the smallest K;
      nothing when no point is eligible. */
  method SweepRecommend(cells: seq<RrCell>, round: Rounding, fixtureCount: nat) returns (r: Option<SweepTuple>)
    ensures IsRecommendation(cells, round, fixtureCount, set c | c in cells :: TupleOf(c), r)
    ensures r.None? ==> forall t :: !EligibleTuple(cells, fixtureCount, t)
  {
    var grouped := GroupSamples(cells);
    var todo := grouped.Keys;
    r := None;
    while todo != {}
      invariant todo <= grouped.Keys
      invariant IsRecommendation(cells, round, fixtureCount, grouped.Keys - todo, r)
      decreases |todo|
    {
      var t := LeastKey(todo);
      todo := todo - {t};
      var samples := grouped[t];
      var distinct := DistinctCount(samples);
      if distinct >= fixtureCount {
        if r.None? {
          r := Some(t);
        } else {
          var mean := MeanSoft(samples);
          var best := MeanSoft(grouped[r.value]);
          mean, best := round(mean), round(best);
          if mean < best || (mean == best && TupleLt(t, r.value)) {
            r := Some(t);
          }
        }
      }
    }
    WidenToRun(cells, round, fixtureCount, grouped.Keys, r);
  }

  /** Only points some cell ran at have samples. */
  lemma GroupsAreRun(cells: seq<RrCell>, keys: set<SweepTuple>)
    requires forall t :: t in keys <==> Samples(cells, t) != []
    ensures forall t :: t in keys ==> t in set c | c in cells :: TupleOf(c)
  {
    forall t | t in keys ensures t in set c | c in cells :: TupleOf(c) {
      var s := Samples(cells, t)[0];
      SamplesCover(cells, t, s.fixture);
      assert s.fixture in SampleFixtures(Samples(cells, t));
    }
  }

  lemma WidenToRun(cells: seq<RrCell>, round: Rounding, fixtureCount: nat, keys: set<SweepTuple>, r: Option<SweepTuple>)
    requires forall t :: t in keys <==> Samples(cells, t) != []
    requires IsRecommendation(cells, round, fixtureCount, keys, r)
    ensures IsRecommendation(cells, round, fixtureCount, set c | c in cells :: TupleOf(c), r)
    ensures r.None? ==> forall t :: !EligibleTuple(cells, fixtureCount, t)
  {
    GroupsAreRun(cells, keys);
  }
}
