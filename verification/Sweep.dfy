/** Choosing among the (period, K) points of a parameter sweep (solver-bench/src/main.rs). */
module Sweep {
  import opened Machine
  import opened Collections
  import opened Sorting
  import opened CellRunner

  datatype SweepTuple = SweepTuple(period: u32, k: u32)

  /** The derived order: by period, then by K. */
  predicate TupleLe(a: SweepTuple, b: SweepTuple) {
    a.period < b.period || (a.period == b.period && a.k <= b.k)
  }

  const TUPLE_ORDER: (SweepTuple, SweepTuple) -> bool := (a, b) => TupleLe(a, b)

  predicate TupleLt(a: SweepTuple, b: SweepTuple) {
    TupleLe(a, b) && a != b
  }

  ghost predicate StrictlyAscending(ts: seq<SweepTuple>) {
    forall i, j :: 0 <= i < j < |ts| ==> TupleLt(ts[i], ts[j])
  }

  // ----- dominance -----

  /** One sweep cell: its grid point, its feasible seeds and its median score, `None` when no
      seed was feasible. */
  datatype Candidate = Candidate(tuple: SweepTuple, feasibility: nat, soft: Option<u32>)

  predicate SoftLe(a: Option<u32>, b: Option<u32>) {
    match (a, b)
    case (Some(x), Some(y)) => x <= y
    case (Some(_), None) => true
    case (None, Some(_)) => false
    case (None, None) => true
  }

  predicate SoftLt(a: Option<u32>, b: Option<u32>) {
    match (a, b)
    case (Some(x), Some(y)) => x < y
    case (Some(_), None) => true
    case (None, _) => false
  }

  predicate Dominates(a: Candidate, b: Candidate) {
    || (a.feasibility > b.feasibility && SoftLe(a.soft, b.soft))
    || (a.feasibility >= b.feasibility && SoftLt(a.soft, b.soft))
  }

  /** A missing score stands for one above every u32. */
  function Softness(s: Option<u32>): nat {
    match s
    case Some(x) => x
    case None => 0x1_0000_0000
  }

  /** The rule is Pareto dominance: at least as good on both axes and better on one. */
  lemma DominanceIsPareto(a: Candidate, b: Candidate)
    ensures Dominates(a, b) <==>
      a.feasibility >= b.feasibility && Softness(a.soft) <= Softness(b.soft)
      && (a.feasibility, Softness(a.soft)) != (b.feasibility, Softness(b.soft))
  {}

  lemma DominanceIsStrictOrder(a: Candidate, b: Candidate, c: Candidate)
    ensures !Dominates(a, a)
    ensures Dominates(a, b) ==> !Dominates(b, a)
    ensures Dominates(a, b) && Dominates(b, c) ==> Dominates(a, c)
  {}

  /** The cells of the sweep: those run with both parameters. */
  predicate IsSweepCell(c: CellResult) {
    c.rrK.Some? && c.rrPeriod.Some?
  }

  function CandidateOf(c: CellResult): Candidate {
    Candidate(
      SweepTuple(if c.rrPeriod.Some? then c.rrPeriod.value else 0, if c.rrK.Some? then c.rrK.value else 0),
      c.feasibilityCount, c.softScoreMedian)
  }

  function Candidates(cells: seq<CellResult>): seq<Candidate> {
    FilterMap(cells, IsSweepCell, CandidateOf)
  }

  ghost predicate Dominated(c: Candidate, cs: seq<Candidate>) {
    exists d :: d in cs && Dominates(d, c)
  }

  /** The grid points with a non-dominated cell. */
  ghost predicate OnFrontier(t: SweepTuple, cs: seq<Candidate>) {
    exists c :: c in cs && c.tuple == t && !Dominated(c, cs)
  }

  /** How much a candidate leaves to improve; every dominating step lowers it. */
  function Room(c: Candidate, top: nat): int {
    top - c.feasibility + Softness(c.soft)
  }

  ghost predicate FeasibilityUpTo(cs: seq<Candidate>, top: nat) {
    forall c :: c in cs ==> c.feasibility <= top
  }

  lemma {:induction false} ClimbToFrontier(c: Candidate, cs: seq<Candidate>, top: nat) returns (best: Candidate)
    requires FeasibilityUpTo(cs, top) && c in cs
    ensures best in cs && !Dominated(best, cs) && OnFrontier(best.tuple, cs)
    ensures best == c || Dominates(best, c)
    decreases Room(c, top)
  {
    if Dominated(c, cs) {
      var d :| d in cs && Dominates(d, c);
      best := ClimbToFrontier(d, cs, top);
      DominanceIsStrictOrder(best, d, c);
    } else {
      best := c;
    }
  }

  lemma {:induction false} TopFeasibility(cs: seq<Candidate>) returns (top: nat)
    ensures FeasibilityUpTo(cs, top)
  {
    top := 0;
    for i := 0 to |cs|
      invariant forall j :: 0 <= j < i ==> cs[j].feasibility <= top
    {
      if cs[i].feasibility > top { top := cs[i].feasibility; }
    }
  }

  /** Every dominated candidate is beaten by a cell whose grid point is on the frontier. */
  lemma DominatedByFrontier(c: Candidate, cs: seq<Candidate>) returns (best: Candidate)
    requires c in cs && Dominated(c, cs)
    ensures best in cs && Dominates(best, c) && !Dominated(best, cs) && OnFrontier(best.tuple, cs)
  {
    var top := TopFeasibility(cs);
    best := ClimbToFrontier(c, cs, top);
  }

  /** The frontier is empty exactly when there is no sweep cell at all, feasible or not. */
  lemma FrontierEmptyIff(cs: seq<Candidate>)
    ensures (forall t :: !OnFrontier(t, cs)) <==> cs == []
  {
    if cs != [] {
      var top := TopFeasibility(cs);
      var best := ClimbToFrontier(cs[0], cs, top);
    }
  }

  /** A grid point without a feasible seed is reported only while no cell beats zero seeds or
      has a score. */
  lemma InfeasibleOnFrontierIff(c: Candidate, cs: seq<Candidate>)
    requires c in cs && c.feasibility == 0 && c.soft.None?
    ensures !Dominated(c, cs) <==> forall d :: d in cs ==> d.feasibility == 0 && d.soft.None?
  {}

  /** The frontier depends on the set of cells only, not on their order or repetition. */
  lemma FrontierForgetsOrder(cs: seq<Candidate>, ds: seq<Candidate>, t: SweepTuple)
    requires forall c :: c in cs <==> c in ds
    ensures OnFrontier(t, cs) <==> OnFrontier(t, ds)
  {
    if OnFrontier(t, cs) {
      var c :| c in cs && c.tuple == t && !Dominated(c, cs);
      assert c in ds && !Dominated(c, ds);
    }
    if OnFrontier(t, ds) {
      var c :| c in ds && c.tuple == t && !Dominated(c, ds);
      assert c in cs && !Dominated(c, cs);
    }
  }

  /** A frontier list is determined by its members, so the report is too. */
  lemma {:induction false} AscendingUnique(a: seq<SweepTuple>, b: seq<SweepTuple>)
    requires StrictlyAscending(a) && StrictlyAscending(b)
    requires forall t :: t in a <==> t in b
    ensures a == b
  {
    if a != [] && b != [] {
      AscendingHeads(a, b);
      forall t ensures t in a[1..] <==> t in b[1..] {
        AscendingTail(a, t);
        AscendingTail(b, t);
      }
      AscendingUnique(a[1..], b[1..]);
      assert a == [a[0]] + a[1..] && b == [b[0]] + b[1..];
    } else if a != [] {
      HasMember(a);
    } else if b != [] {
      HasMember(b);
    }
  }

  lemma HasMember(a: seq<SweepTuple>)
    requires a != []
    ensures exists t :: t in a
  {
    assert a[0] in a;
  }

  lemma AscendingTail(a: seq<SweepTuple>, t: SweepTuple)
    requires StrictlyAscending(a) && a != []
    ensures t in a[1..] <==> t in a && t != a[0]
  {
    assert a == [a[0]] + a[1..];
  }

  lemma AscendingHeads(a: seq<SweepTuple>, b: seq<SweepTuple>)
    requires StrictlyAscending(a) && StrictlyAscending(b) && a != [] && b != []
    requires forall t :: t in a <==> t in b
    ensures a[0] == b[0]
  {
    assert a[0] in b && b[0] in a;
    var i :| 0 <= i < |b| && b[i] == a[0];
    var j :| 0 <= j < |a| && a[j] == b[0];
    assert i > 0 ==> TupleLt(b[0], a[0]);
    assert j > 0 ==> TupleLt(a[0], b[0]);
  }

  /** Reordering the cells does not change what a correct frontier list can be. */
  lemma FrontierListForgetsOrder(cells: seq<CellResult>, others: seq<CellResult>, a: seq<SweepTuple>,
                                 b: seq<SweepTuple>)
    requires multiset(cells) == multiset(others)
    requires StrictlyAscending(a) && forall t :: t in a <==> OnFrontier(t, Candidates(cells))
    requires StrictlyAscending(b) && forall t :: t in b <==> OnFrontier(t, Candidates(others))
    ensures a == b
  {
    var cs, ds := Candidates(cells), Candidates(others);
    FilterMapPermuted(cells, others, IsSweepCell, CandidateOf);
    forall c ensures c in cs <==> c in ds {
      assert c in cs <==> c in multiset(cs);
    }
    forall t ensures t in a <==> t in b {
      FrontierForgetsOrder(cs, ds, t);
    }
    AscendingUnique(a, b);
  }

  // ----- the frontier in terms of the cells -----

  /** The cell was run with exactly these two parameters. */
  predicate RunsAt(c: CellResult, period: u32, k: u32) {
    c.rrPeriod == Some(period) && c.rrK == Some(k)
  }

  /** The median score, above every u32 when there is none. */
  function ScoreOf(c: CellResult): nat {
    if c.softScoreMedian.Some? then c.softScoreMedian.value else 0x1_0000_0000
  }

  /** At least as good in feasible seeds and in score, and better in one of them. */
  predicate Beats(a: CellResult, b: CellResult) {
    && a.feasibilityCount >= b.feasibilityCount && ScoreOf(a) <= ScoreOf(b)
    && (a.feasibilityCount > b.feasibilityCount || ScoreOf(a) < ScoreOf(b))
  }

  /** No cell that was run with both parameters beats this one. */
  ghost predicate Unbeaten(cells: seq<CellResult>, c: CellResult) {
    forall j :: 0 <= j < |cells| && cells[j].rrPeriod.Some? && cells[j].rrK.Some? ==> !Beats(cells[j], c)
  }

  /** Some unbeaten cell was run at the grid point. */
  ghost predicate HasUnbeatenCell(cells: seq<CellResult>, t: SweepTuple) {
    exists i :: 0 <= i < |cells| && RunsAt(cells[i], t.period, t.k) && Unbeaten(cells, cells[i])
  }

  lemma CandidateMeaning(a: CellResult, b: CellResult)
    ensures Dominates(CandidateOf(a), CandidateOf(b)) <==> Beats(a, b)
    ensures forall t :: IsSweepCell(a) && CandidateOf(a).tuple == t <==> RunsAt(a, t.period, t.k)
  {}

  lemma DominatedMeaning(cells: seq<CellResult>, c: CellResult)
    ensures Dominated(CandidateOf(c), Candidates(cells)) <==> !Unbeaten(cells, c)
  {
    FilterMapMeaning(cells, IsSweepCell, CandidateOf);
    forall j | 0 <= j < |cells| ensures Dominates(CandidateOf(cells[j]), CandidateOf(c)) <==> Beats(cells[j], c) {
      CandidateMeaning(cells[j], c);
    }
    if j :| 0 <= j < |cells| && cells[j].rrPeriod.Some? && cells[j].rrK.Some? && Beats(cells[j], c) {
      assert IsSweepCell(cells[j]) && CandidateOf(cells[j]) in Candidates(cells);
    }
  }

  /** A grid point is on the frontier exactly when some unbeaten cell was run there. */
  lemma FrontierMeaning(cells: seq<CellResult>, t: SweepTuple)
    ensures OnFrontier(t, Candidates(cells)) <==> HasUnbeatenCell(cells, t)
  {
    FilterMapMeaning(cells, IsSweepCell, CandidateOf);
    forall i | 0 <= i < |cells|
      ensures Dominated(CandidateOf(cells[i]), Candidates(cells)) <==> !Unbeaten(cells, cells[i])
      ensures IsSweepCell(cells[i]) && CandidateOf(cells[i]).tuple == t <==> RunsAt(cells[i], t.period, t.k)
    {
      DominatedMeaning(cells, cells[i]);
      CandidateMeaning(cells[i], cells[i]);
    }
    if HasUnbeatenCell(cells, t) {
      var i :| 0 <= i < |cells| && RunsAt(cells[i], t.period, t.k) && Unbeaten(cells, cells[i]);
      assert CandidateOf(cells[i]) in Candidates(cells);
    }
  }

  // ----- the filter -----

  /** Does the candidate at another position dominate candidate `i`? */
  method IsDominated(cs: seq<Candidate>, i: nat) returns (dominated: bool)
    requires i < |cs|
    ensures dominated <==> Dominated(cs[i], cs)
  {
    dominated := false;
    var j := 0;
    while j < |cs| && !dominated
      invariant j <= |cs|
      invariant dominated ==> Dominated(cs[i], cs)
      invariant !dominated ==> forall k :: 0 <= k < j ==> !Dominates(cs[k], cs[i])
    {
      dominated := i != j && Dominates(cs[j], cs[i]);
      j := j + 1;
    }
  }

  ghost predicate NoRepeats(ts: seq<SweepTuple>) {
    forall i, j :: 0 <= i < j < |ts| ==> ts[i] != ts[j]
  }

  lemma SortAscends(ts: seq<SweepTuple>)
    requires NoRepeats(ts)
    ensures StrictlyAscending(Sort(TUPLE_ORDER, ts))
    ensures forall t :: t in Sort(TUPLE_ORDER, ts) <==> t in ts
  {
    var r := Sort(TUPLE_ORDER, ts);
    SortPermutes(TUPLE_ORDER, ts);
    SortSorts(TUPLE_ORDER, ts);
    RepeatsAreCounted(ts, r);
  }

  lemma {:induction false} Multiplicity(ts: seq<SweepTuple>, i: nat)
    requires NoRepeats(ts) && i < |ts|
    ensures multiset(ts)[ts[i]] == 1
  {
    var a, b := ts[..i], ts[i + 1..];
    assert ts == a + [ts[i]] + b;
    assert ts[i] !in a && ts[i] !in b;
  }

  lemma RepeatsAreCounted(ts: seq<SweepTuple>, r: seq<SweepTuple>)
    requires NoRepeats(ts) && multiset(ts) == multiset(r)
    ensures NoRepeats(r)
  {
    forall i, j | 0 <= i < j < |r| ensures r[i] != r[j] {
      if r[i] == r[j] {
        assert r == r[..i] + [r[i]] + r[i + 1..j] + [r[j]] + r[j + 1..];
        assert multiset(r)[r[i]] >= 2;
        assert r[i] in multiset(ts);
        var k :| 0 <= k < |ts| && ts[k] == r[i];
        Multiplicity(ts, k);
      }
    }
  }

  /** Exactly the grid points with a non-dominated cell, each once, in ascending order. */
  method SweepParetoNonDominated(cells: seq<CellResult>) returns (frontier: seq<SweepTuple>)
    ensures forall t :: t in frontier <==> OnFrontier(t, Candidates(cells))
    ensures forall t :: t in frontier <==> HasUnbeatenCell(cells, t)
    ensures StrictlyAscending(frontier)
    ensures forall i, j :: 0 <= i < j < |frontier| ==>
      || frontier[i].period < frontier[j].period
      || (frontier[i].period == frontier[j].period && frontier[i].k < frontier[j].k)
  {
    var cs := Candidates(cells);
    var found: seq<SweepTuple> := [];
    for i := 0 to |cs|
      invariant NoRepeats(found)
      invariant forall t :: t in found <==> exists k :: 0 <= k < i && cs[k].tuple == t && !Dominated(cs[k], cs)
    {
      var dominated := IsDominated(cs, i);
      if !dominated && cs[i].tuple !in found {
        found := found + [cs[i].tuple];
      }
    }
    SortAscends(found);
    frontier := Sort(TUPLE_ORDER, found);
    forall t ensures OnFrontier(t, Candidates(cells)) <==> HasUnbeatenCell(cells, t) {
      FrontierMeaning(cells, t);
    }
  }
}
