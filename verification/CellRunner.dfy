/** Running the cells of a bench plan, one after the other or on a worker pool, and rendering
    the report rows (solver-bench/src/main.rs). */
module CellRunner {
  import opened Machine
  import opened Collections
  import opened WorkerPool

  datatype Backend = Lahc | LahcRr | LahcKempe | LahcRrKempe | CpSat

  datatype CellSpec = CellSpec(
    fixture: string,
    backend: Backend,
    rrK: Option<u32>,
    rrPeriod: Option<u32>,
    kempeMaxChain: Option<u32>,
    homeRoomPeriod: Option<u32>)

  datatype CellResult = CellResult(
    feasibilityCount: nat,
    softScoreMedian: Option<u32>,
    rrK: Option<u32>,
    rrPeriod: Option<u32>)

  datatype CellOutcome = Ok(cell: CellResult) | Err(reason: string)

  /** A rendered table row: what the formatters read of the spec and the outcome. */
  datatype Row =
    | CellRow(fixture: string, backend: Backend, cell: CellResult)
    | PanicRow(fixture: string, backend: Backend)

  type Runner = CellSpec -> CellOutcome

  function RowOf(spec: CellSpec, outcome: CellOutcome): Row {
    match outcome
    case Ok(cell) => CellRow(spec.fixture, spec.backend, cell)
    case Err(_) => PanicRow(spec.fixture, spec.backend)
  }

  /** What one plan entry contributes to the table. */
  function RowFor(runner: Runner): CellSpec -> Row {
    spec => RowOf(spec, runner(spec))
  }

  /** The successful cells, in plan order. */
  function Successes(plan: seq<CellSpec>, runner: Runner): seq<(CellSpec, CellResult)> {
    if plan == [] then []
    else
      var n := |plan| - 1;
      Successes(plan[..n], runner) + (if runner(plan[n]).Ok? then [(plan[n], runner(plan[n]).cell)] else [])
  }

  /** A successful plan entry stands right after the successes before it. */
  lemma {:induction false} SuccessesInPlanOrder(plan: seq<CellSpec>, runner: Runner, i: nat)
    requires i < |plan| && runner(plan[i]).Ok?
    ensures Successes(plan[..i], runner) + [(plan[i], runner(plan[i]).cell)] <= Successes(plan, runner)
  {
    var n := |plan| - 1;
    if i < n {
      SuccessesInPlanOrder(plan[..n], runner, i);
      assert plan[..n][..i] == plan[..i];
    }
  }

  /** Nothing else is listed: the k-th entry is the plan entry with k successes before it. */
  lemma {:induction false} SuccessComesFromPlan(plan: seq<CellSpec>, runner: Runner, k: nat) returns (i: nat)
    requires k < |Successes(plan, runner)|
    ensures i < |plan| && runner(plan[i]).Ok? && |Successes(plan[..i], runner)| == k
  {
    var n := |plan| - 1;
    if k < |Successes(plan[..n], runner)| {
      i := SuccessComesFromPlan(plan[..n], runner, k);
      assert plan[..n][..i] == plan[..i];
    } else {
      i := n;
    }
  }

  /** Report rows match the plan line by line: a panic row exactly where the runner failed. */
  lemma RowsFollowPlan(plan: seq<CellSpec>, runner: Runner, i: nat)
    requires i < |plan|
    ensures var row := MapSeq(plan, RowFor(runner))[i];
      && row.fixture == plan[i].fixture && row.backend == plan[i].backend
      && (row.PanicRow? <==> runner(plan[i]).Err?)
      && (row.CellRow? ==> row.cell == runner(plan[i]).cell && (plan[i], row.cell) in Successes(plan, runner))
  {
    if runner(plan[i]).Ok? {
      SuccessesInPlanOrder(plan, runner, i);
      assert Successes(plan, runner)[|Successes(plan[..i], runner)|] == (plan[i], runner(plan[i]).cell);
    }
  }

  // ----- executing the plan -----

  method RunCellsSerial(plan: seq<CellSpec>, runner: Runner) returns (outcomes: seq<CellOutcome>)
    ensures outcomes == MapSeq(plan, runner)
  {
    outcomes := [];
    for k := 0 to |plan|
      invariant outcomes == MapSeq(plan[..k], runner)
    {
      outcomes := outcomes + [runner(plan[k])];
    }
    assert plan[..|plan|] == plan;
  }

  /** The actions of the main thread. */
  const MAIN_ACTIONS: seq<Action> := [Send, DropWork, Spawn, DropResults, JoinAll, Drain, Finish]

  /** The actions of one worker. */
  function ActionsOf(w: nat): seq<Action> {
    [Acquire(w), Receive(w), Release(w), Run(w), Report(w), Exit(w)]
  }

  /** Every action the main thread and `n` workers could be offered. */
  function Actions(n: nat): seq<Action> {
    if n == 0 then MAIN_ACTIONS else Actions(n - 1) + ActionsOf(n - 1)
  }

  lemma {:induction false} ActionIsListed(n: nat, a: Action)
    requires a in MAIN_ACTIONS || exists w :: 0 <= w < n && a in ActionsOf(w)
    ensures a in Actions(n)
  {
    if n > 0 && a !in ActionsOf(n - 1) {
      ActionIsListed(n - 1, a);
    }
  }

  lemma EnabledIsListed(cfg: Config<CellSpec, CellOutcome>, s: State<CellOutcome>, a: Action)
    requires Enabled(cfg, s, a)
    ensures a in Actions(|s.workers|)
  {
    match a {
      case Acquire(w) => assert a in ActionsOf(w);
      case Receive(w) => assert a in ActionsOf(w);
      case Release(w) => assert a in ActionsOf(w);
      case Run(w) => assert a in ActionsOf(w);
      case Report(w) => assert a in ActionsOf(w);
      case Exit(w) => assert a in ActionsOf(w);
      case _ => assert a in MAIN_ACTIONS;
    }
    ActionIsListed(|s.workers|, a);
  }

  /** The scheduler: any step that some thread can take now. */
  method PickStep(cfg: Config<CellSpec, CellOutcome>, s: State<CellOutcome>) returns (a: Action)
    requires cfg.DropsBoth() && Inv(cfg, s) && !s.main.Done?
    ensures Enabled(cfg, s, a)
  {
    var offered := Actions(|s.workers|);
    ghost var some := NeverDeadlocks(cfg, s);
    EnabledIsListed(cfg, s, some);
    var k :| 0 <= k < |offered| && Enabled(cfg, s, offered[k]);
    a := offered[k];
  }

  /** The pool under an arbitrary scheduler: it always ends, every slot is filled by then, and
      the outcomes are the serial loop's. */
  method RunCellsParallel(plan: seq<CellSpec>, runner: Runner, jobs: nat) returns (outcomes: seq<CellOutcome>)
    requires jobs > 0
    ensures outcomes == MapSeq(plan, runner)
  {
    var cfg := Config(plan, runner, jobs, true, true);
    var s := Init(cfg);
    InitInv(cfg);
    while !s.main.Done?
      invariant Inv(cfg, s)
      decreases StepsLeft(cfg, s)
    {
      var a := PickStep(cfg, s);
      StepInv(cfg, s, a);
      StepCountsDown(cfg, s, a);
      RestNonNegative(cfg, s);
      s := Apply(cfg, s, a);
    }
    FinishedOutcomes(cfg, s);
    outcomes := [];
    for k := 0 to |s.outcomes|
      invariant outcomes == MapSeq(plan[..k], runner)
    {
      outcomes := outcomes + [s.outcomes[k].value];
    }
    assert plan[..|plan|] == plan;
  }

  // ----- rendering -----

  /** The two buffers the renderer appends to. */
  class Report {
    var rows: seq<Row>
    var results: seq<(CellSpec, CellResult)>

    constructor ()
      ensures rows == [] && results == []
    {
      rows, results := [], [];
    }

    /** Whatever the number of jobs and the interleaving: the rows, the collected results and the
        success count are functions of the plan and the runner alone. */
    method RenderCells(plan: seq<CellSpec>, runner: Runner, effectiveJobs: nat) returns (successes: nat)
      requires effectiveJobs > 0
      modifies this
      ensures rows == old(rows) + MapSeq(plan, RowFor(runner))
      ensures results == old(results) + Successes(plan, runner)
      ensures successes == |Successes(plan, runner)|
    {
      var outcomes;
      if effectiveJobs == 1 {
        outcomes := RunCellsSerial(plan, runner);
      } else {
        outcomes := RunCellsParallel(plan, runner, effectiveJobs);
      }
      successes := 0;
      for k := 0 to |plan|
        invariant rows == old(rows) + MapSeq(plan[..k], RowFor(runner))
        invariant results == old(results) + Successes(plan[..k], runner)
        invariant successes == |Successes(plan[..k], runner)|
      {
        assert plan[..k + 1][..k] == plan[..k];
        match outcomes[k] {
          case Ok(cell) =>
            rows := rows + [CellRow(plan[k].fixture, plan[k].backend, cell)];
            results := results + [(plan[k], cell)];
            successes := successes + 1;
          case Err(_) =>
            rows := rows + [PanicRow(plan[k].fixture, plan[k].backend)];
        }
      }
      assert plan[..|plan|] == plan;
    }
  }
}
