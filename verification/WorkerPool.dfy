/** The concurrent cell runner (solver-bench/src/main.rs) as a state machine: worker threads
    share a mutex-guarded work channel and a result channel with the main thread. Receiving
    from an empty channel blocks while a sender of that channel is alive. */
module WorkerPool {
  import opened Collections

  /** The plan, the runner as a function of the cell spec, the number of workers, and whether main
      drops its sender of each channel. The code drops both; the other pools are here to show what
      the drops are for. */
  datatype Config<!S, !R> = Config(plan: seq<S>, runner: S -> R, jobs: nat, dropsWork: bool, dropsResults: bool)
  {
    predicate DropsBoth() {
      dropsWork && dropsResults
    }

    function Outcome(i: nat): R
      requires i < |plan|
    {
      runner(plan[i])
    }
  }

  datatype Worker<R> =
    | AtLock                      // wants the mutex
    | Holding                     // owns the mutex, about to receive
    | Got(next: Option<nat>)      // received, guard not yet dropped
    | Running(index: nat)
    | Reporting(index: nat, outcome: R)
    | Leaving                     // left the loop, result sender not yet dropped
    | Exited

  datatype Main = Feeding(sent: nat) | Spawning | Joining | Draining | Done

  datatype State<R> = State(
    queue: seq<nat>,              // work channel
    workSenders: nat,             // live senders of the work channel
    holder: Option<nat>,          // worker that owns the mutex
    workers: seq<Worker<R>>,      // threads spawned so far
    results: seq<(nat, R)>,       // result channel
    resSenders: nat,              // live senders of the result channel
    outcomes: seq<Option<R>>,     // one slot per plan index
    main: Main)

  datatype Action =
    | Send | DropWork | Spawn | DropResults | JoinAll | Drain | Finish
    | Acquire(w: nat) | Receive(w: nat) | Release(w: nat) | Run(w: nat) | Report(w: nat) | Exit(w: nat)

  predicate ByMain(a: Action) {
    a.Send? || a.DropWork? || a.Spawn? || a.DropResults? || a.JoinAll? || a.Drain? || a.Finish?
  }

  predicate ByWorker(a: Action, w: nat) {
    a == Acquire(w) || a == Receive(w) || a == Release(w) || a == Run(w) || a == Report(w) || a == Exit(w)
  }

  /** Both channels exist, with one sender each in the main thread. */
  function Init<S, R>(cfg: Config<S, R>): State<R> {
    State([], 1, None, [], [], 1, seq(|cfg.plan|, i => None), Feeding(0))
  }

  // ----- one step -----

  predicate AllExited<R>(workers: seq<Worker<R>>) {
    forall w :: 0 <= w < |workers| ==> workers[w].Exited?
  }

  /** A receive returns: there is an element, or nobody is left to send one. */
  predicate Ready<T>(channel: seq<T>, senders: nat) {
    |channel| > 0 || senders == 0
  }

  /** The action can happen now: the mutex is free, the channel answers, the thread is at that
      point of its code. */
  predicate Enabled<S, R>(cfg: Config<S, R>, s: State<R>, a: Action) {
    match a
    case Send => s.main.Feeding? && s.main.sent < |cfg.plan|
    case DropWork => s.main.Feeding? && s.main.sent >= |cfg.plan| && s.workSenders > 0
    case Spawn => s.main.Spawning? && |s.workers| < cfg.jobs
    case DropResults => s.main.Spawning? && |s.workers| == cfg.jobs && s.resSenders > 0
    case JoinAll => s.main.Joining? && AllExited(s.workers)
    case Drain => s.main.Draining? && |s.results| > 0 && s.results[0].0 < |s.outcomes|
    case Finish => s.main.Draining? && |s.results| == 0 && Ready(s.results, s.resSenders)
    case Acquire(w) => w < |s.workers| && s.workers[w].AtLock? && s.holder.None?
    case Receive(w) => w < |s.workers| && s.workers[w].Holding? && Ready(s.queue, s.workSenders)
    case Release(w) => w < |s.workers| && s.workers[w].Got?
    case Run(w) => w < |s.workers| && s.workers[w].Running? && s.workers[w].index < |cfg.plan|
    case Report(w) => w < |s.workers| && s.workers[w].Reporting?
    case Exit(w) => w < |s.workers| && s.workers[w].Leaving? && s.resSenders > 0
  }

  function SetWorker<R>(s: State<R>, w: nat, x: Worker<R>): State<R>
    requires w < |s.workers|
  {
    s.(workers := s.workers[w := x])
  }

  function Apply<S, R>(cfg: Config<S, R>, s: State<R>, a: Action): State<R>
    requires Enabled(cfg, s, a)
  {
    match a
    case Send => s.(queue := s.queue + [s.main.sent], main := Feeding(s.main.sent + 1))
    case DropWork => s.(workSenders := Dropped(s.workSenders, cfg.dropsWork), main := Spawning)
    case Spawn => s.(workers := s.workers + [AtLock], resSenders := s.resSenders + 1)
    case DropResults => s.(resSenders := Dropped(s.resSenders, cfg.dropsResults), main := Joining)
    case JoinAll => s.(main := Draining)
    case Drain =>
      s.(outcomes := s.outcomes[s.results[0].0 := Some(s.results[0].1)], results := s.results[1..])
    case Finish => s.(main := Done)
    case Acquire(w) => SetWorker(s, w, Holding).(holder := Some(w))
    case Receive(w) =>
      if |s.queue| == 0 then SetWorker(s, w, Got(None))
      else SetWorker(s, w, Got(Some(s.queue[0]))).(queue := s.queue[1..])
    case Release(w) =>
      SetWorker(s, w, AfterRelease(s.workers[w].next)).(holder := None)
    case Run(w) => SetWorker(s, w, Reporting(s.workers[w].index, cfg.Outcome(s.workers[w].index)))
    case Report(w) =>
      SetWorker(s, w, AtLock).(results := s.results + [(s.workers[w].index, s.workers[w].outcome)])
    case Exit(w) => SetWorker(s, w, Exited).(resSenders := s.resSenders - 1)
  }

  /** The sender count after main's drop, or after going on without it. */
  function Dropped(senders: nat, drops: bool): nat
    requires senders > 0
  {
    if drops then senders - 1 else senders
  }

  /** With an index the worker runs it; after a disconnect it leaves the loop. */
  function AfterRelease<R>(next: Option<nat>): Worker<R> {
    match next
    case Some(i) => Running(i)
    case None => Leaving
  }

  // ----- where each plan index is -----

  /** The index a worker has taken out of the queue and not yet sent. */
  function Holds<R>(x: Worker<R>, i: nat): nat {
    match x
    case Got(Some(j)) => if j == i then 1 else 0
    case Running(j) => if j == i then 1 else 0
    case Reporting(j, _) => if j == i then 1 else 0
    case _ => 0
  }

  function InFlight<R>(workers: seq<Worker<R>>, i: nat): nat {
    if workers == [] then 0 else InFlight(workers[..|workers| - 1], i) + Holds(workers[|workers| - 1], i)
  }

  function Reported<R>(results: seq<(nat, R)>, i: nat): nat {
    if results == [] then 0 else (if results[0].0 == i then 1 else 0) + Reported(results[1..], i)
  }

  function Queued(queue: seq<nat>, i: nat): nat {
    if queue == [] then 0 else (if queue[0] == i then 1 else 0) + Queued(queue[1..], i)
  }

  function Stored<R>(s: State<R>, i: nat): nat {
    if i < |s.outcomes| && s.outcomes[i].Some? then 1 else 0
  }

  function Unsent<S, R>(cfg: Config<S, R>, s: State<R>, i: nat): nat {
    if s.main.Feeding? && s.main.sent <= i < |cfg.plan| then 1 else 0
  }

  /** How many places of the system hold plan index `i`. */
  function Places<S, R>(cfg: Config<S, R>, s: State<R>, i: nat): nat {
    Unsent(cfg, s, i) + Queued(s.queue, i) + InFlight(s.workers, i) + Reported(s.results, i) + Stored(s, i)
  }

  lemma {:induction false} InFlightUpdate<R>(workers: seq<Worker<R>>, w: nat, x: Worker<R>, i: nat)
    requires w < |workers|
    ensures InFlight(workers[w := x], i) == InFlight(workers, i) - Holds(workers[w], i) + Holds(x, i)
  {
    var n := |workers| - 1;
    if w == n {
      assert workers[w := x][..n] == workers[..n];
    } else {
      assert workers[w := x][..n] == workers[..n][w := x];
      InFlightUpdate(workers[..n], w, x, i);
    }
  }

  lemma {:induction false} InFlightExited<R>(workers: seq<Worker<R>>, i: nat)
    requires AllExited(workers)
    ensures InFlight(workers, i) == 0
  {
    if workers == [] {
    } else {
      InFlightExited(workers[..|workers| - 1], i);
    }
  }

  lemma {:induction false} ReportedAppend<R>(results: seq<(nat, R)>, r: (nat, R), i: nat)
    ensures Reported(results + [r], i) == Reported(results, i) + if r.0 == i then 1 else 0
  {
    if results == [] {
      assert [r][1..] == [];
    } else {
      assert (results + [r])[1..] == results[1..] + [r];
      ReportedAppend(results[1..], r, i);
    }
  }

  lemma {:induction false} QueuedAppend(queue: seq<nat>, j: nat, i: nat)
    ensures Queued(queue + [j], i) == Queued(queue, i) + if j == i then 1 else 0
  {
    if queue == [] {
      assert [j][1..] == [];
    } else {
      assert (queue + [j])[1..] == queue[1..] + [j];
      QueuedAppend(queue[1..], j, i);
    }
  }

  /** Workers that still own a sender of the result channel. */
  function Live<R>(workers: seq<Worker<R>>): nat {
    if workers == [] then 0 else Live(workers[..|workers| - 1]) + Alive(workers[|workers| - 1])
  }

  function Alive<R>(x: Worker<R>): nat {
    if x.Exited? then 0 else 1
  }

  lemma {:induction false} LiveUpdate<R>(workers: seq<Worker<R>>, w: nat, x: Worker<R>)
    requires w < |workers|
    ensures Live(workers[w := x]) == Live(workers) - Alive(workers[w]) + Alive(x)
  {
    var n := |workers| - 1;
    if w == n {
      assert workers[w := x][..n] == workers[..n];
    } else {
      assert workers[w := x][..n] == workers[..n][w := x];
      LiveUpdate(workers[..n], w, x);
    }
  }

  /** Nobody is live exactly when everybody has exited. */
  lemma {:induction false} LiveZeroIffExited<R>(workers: seq<Worker<R>>)
    ensures Live(workers) == 0 <==> AllExited(workers)
  {
    if workers == [] {
    } else {
      var n := |workers| - 1;
      LiveZeroIffExited(workers[..n]);
      assert AllExited(workers) <==> AllExited(workers[..n]) && workers[n].Exited? by {
        forall w | 0 <= w < n ensures workers[..n][w] == workers[w] {}
      }
    }
  }

  // ----- the invariant -----

  /** Every index is in exactly one place, and nothing else is anywhere. */
  ghost predicate OnePlaceEach<S, R>(cfg: Config<S, R>, s: State<R>) {
    forall i: nat :: Places(cfg, s, i) == if i < |cfg.plan| then 1 else 0
  }

  ghost predicate MutexConsistent<R>(s: State<R>) {
    forall w :: 0 <= w < |s.workers| ==> (s.workers[w].Holding? || s.workers[w].Got? <==> s.holder == Some(w))
  }

  /** Main owns a work sender until it has sent the plan, and a result sender until it has
      spawned the workers, or for ever where it does not drop them; every worker owns a result
      sender until it exits. */
  ghost predicate SendersRight<S, R>(cfg: Config<S, R>, s: State<R>) {
    && s.workSenders == (if s.main.Feeding? || !cfg.dropsWork then 1 else 0)
    && s.resSenders == (if s.main.Feeding? || s.main.Spawning? || !cfg.dropsResults then 1 else 0) + Live(s.workers)
  }

  /** Every outcome in transit or stored is the runner's answer for its index. */
  ghost predicate OutcomesRight<S, R>(cfg: Config<S, R>, s: State<R>) {
    && (forall w :: 0 <= w < |s.workers| && s.workers[w].Reporting? ==>
          s.workers[w].index < |cfg.plan| && s.workers[w].outcome == cfg.Outcome(s.workers[w].index))
    && (forall k :: 0 <= k < |s.results| ==>
          s.results[k].0 < |cfg.plan| && s.results[k].1 == cfg.Outcome(s.results[k].0))
    && |s.outcomes| == |cfg.plan|
    && (forall i :: 0 <= i < |s.outcomes| && s.outcomes[i].Some? ==> s.outcomes[i].value == cfg.Outcome(i))
  }

  /** The worker has been told that no work is left. */
  predicate SawEnd<R>(x: Worker<R>) {
    x.Exited? || x.Leaving? || x == Got(None)
  }

  /** Main's progress; workers only leave once the queue is empty and its sender is gone, and main
      only ends once its result sender is. */
  ghost predicate PhasesRight<S, R>(cfg: Config<S, R>, s: State<R>) {
    && |s.workers| <= cfg.jobs
    && (s.main.Feeding? ==> s.workers == [] && s.main.sent <= |cfg.plan|)
    && (s.main.Joining? || s.main.Draining? || s.main.Done? ==> |s.workers| == cfg.jobs)
    && (s.main.Draining? || s.main.Done? ==> AllExited(s.workers))
    && (s.main.Done? ==> s.results == [])
    && (s.holder.Some? ==> s.holder.value < |s.workers|)
    && (forall w :: 0 <= w < |s.workers| && SawEnd(s.workers[w]) ==> s.queue == [] && cfg.dropsWork)
    && (s.main.Done? ==> cfg.dropsResults)
  }

  ghost predicate Inv<S, R>(cfg: Config<S, R>, s: State<R>) {
    OnePlaceEach(cfg, s) && MutexConsistent(s) && SendersRight(cfg, s) && OutcomesRight(cfg, s) && PhasesRight(cfg, s)
  }

  lemma InitInv<S, R>(cfg: Config<S, R>)
    ensures Inv(cfg, Init(cfg))
  {
    forall i: nat ensures Places(cfg, Init(cfg), i) == if i < |cfg.plan| then 1 else 0 {}
  }

  /** Moving an index between main and the channels. */
  lemma MainKeepsPlaces<S, R>(cfg: Config<S, R>, s: State<R>, a: Action, i: nat)
    requires Inv(cfg, s) && Enabled(cfg, s, a)
    requires ByMain(a)
    ensures Places(cfg, Apply(cfg, s, a), i) == Places(cfg, s, i)
  {
    match a
    case Send => QueuedAppend(s.queue, s.main.sent, i);
    case DropWork =>
    case Spawn => assert Apply(cfg, s, a).workers[..|s.workers|] == s.workers;
    case DropResults =>
    case JoinAll =>
    case Drain =>
      var j := s.results[0].0;
      assert Places(cfg, s, j) == 1 && Reported(s.results, j) >= 1;
    case Finish =>
  }

  /** Taking an element from the queue, or none when it is empty. */
  lemma ReceiveKeepsPlaces<S, R>(cfg: Config<S, R>, s: State<R>, w: nat, i: nat)
    requires Inv(cfg, s) && Enabled(cfg, s, Receive(w))
    ensures Places(cfg, Apply(cfg, s, Receive(w)), i) == Places(cfg, s, i)
  {
    InFlightUpdate(s.workers, w, Apply(cfg, s, Receive(w)).workers[w], i);
  }

  lemma ReportKeepsPlaces<S, R>(cfg: Config<S, R>, s: State<R>, w: nat, i: nat)
    requires Inv(cfg, s) && Enabled(cfg, s, Report(w))
    ensures Places(cfg, Apply(cfg, s, Report(w)), i) == Places(cfg, s, i)
  {
    InFlightUpdate(s.workers, w, AtLock, i);
    ReportedAppend(s.results, (s.workers[w].index, s.workers[w].outcome), i);
  }

  /** Moving an index between the channels and a worker. */
  lemma WorkerKeepsPlaces<S, R>(cfg: Config<S, R>, s: State<R>, a: Action, w: nat, i: nat)
    requires Inv(cfg, s) && Enabled(cfg, s, a)
    requires ByWorker(a, w)
    ensures Places(cfg, Apply(cfg, s, a), i) == Places(cfg, s, i)
  {
    if a == Receive(w) {
      ReceiveKeepsPlaces(cfg, s, w, i);
    } else if a == Report(w) {
      ReportKeepsPlaces(cfg, s, w, i);
    } else {
      InFlightUpdate(s.workers, w, Apply(cfg, s, a).workers[w], i);
    }
  }

  /** No step loses or duplicates a plan index. */
  lemma StepKeepsPlaces<S, R>(cfg: Config<S, R>, s: State<R>, a: Action, i: nat)
    requires Inv(cfg, s) && Enabled(cfg, s, a)
    ensures Places(cfg, Apply(cfg, s, a), i) == Places(cfg, s, i)
  {
    match a
    case Acquire(w) => WorkerKeepsPlaces(cfg, s, a, w, i);
    case Receive(w) => WorkerKeepsPlaces(cfg, s, a, w, i);
    case Release(w) => WorkerKeepsPlaces(cfg, s, a, w, i);
    case Run(w) => WorkerKeepsPlaces(cfg, s, a, w, i);
    case Report(w) => WorkerKeepsPlaces(cfg, s, a, w, i);
    case Exit(w) => WorkerKeepsPlaces(cfg, s, a, w, i);
    case _ => MainKeepsPlaces(cfg, s, a, i);
  }

  lemma StepKeepsMutex<S, R>(cfg: Config<S, R>, s: State<R>, a: Action)
    requires Inv(cfg, s) && Enabled(cfg, s, a)
    ensures MutexConsistent(Apply(cfg, s, a))
  {}

  lemma WorkerKeepsSenders<S, R>(cfg: Config<S, R>, s: State<R>, a: Action, w: nat)
    requires Inv(cfg, s) && Enabled(cfg, s, a)
    requires ByWorker(a, w)
    ensures SendersRight(cfg, Apply(cfg, s, a))
  {
    LiveUpdate(s.workers, w, Apply(cfg, s, a).workers[w]);
  }

  /** Sender counts stay exact: each clone and each drop is accounted for. */
  lemma StepKeepsSenders<S, R>(cfg: Config<S, R>, s: State<R>, a: Action)
    requires Inv(cfg, s) && Enabled(cfg, s, a)
    ensures SendersRight(cfg, Apply(cfg, s, a))
  {
    match a
    case Spawn => assert Apply(cfg, s, a).workers[..|s.workers|] == s.workers;
    case Acquire(w) => WorkerKeepsSenders(cfg, s, a, w);
    case Receive(w) => WorkerKeepsSenders(cfg, s, a, w);
    case Release(w) => WorkerKeepsSenders(cfg, s, a, w);
    case Run(w) => WorkerKeepsSenders(cfg, s, a, w);
    case Report(w) => WorkerKeepsSenders(cfg, s, a, w);
    case Exit(w) => WorkerKeepsSenders(cfg, s, a, w);
    case _ =>
  }

  lemma StepKeepsOutcomes<S, R>(cfg: Config<S, R>, s: State<R>, a: Action)
    requires Inv(cfg, s) && Enabled(cfg, s, a)
    ensures OutcomesRight(cfg, Apply(cfg, s, a))
  {}

  lemma StepKeepsPhases<S, R>(cfg: Config<S, R>, s: State<R>, a: Action)
    requires Inv(cfg, s) && Enabled(cfg, s, a)
    ensures PhasesRight(cfg, Apply(cfg, s, a))
  {}

  /** Every step of every thread keeps the invariant. */
  lemma StepInv<S, R>(cfg: Config<S, R>, s: State<R>, a: Action)
    requires Inv(cfg, s) && Enabled(cfg, s, a)
    ensures Inv(cfg, Apply(cfg, s, a))
  {
    forall i: nat ensures Places(cfg, Apply(cfg, s, a), i) == if i < |cfg.plan| then 1 else 0 {
      StepKeepsPlaces(cfg, s, a, i);
    }
    StepKeepsMutex(cfg, s, a);
    StepKeepsSenders(cfg, s, a);
    StepKeepsOutcomes(cfg, s, a);
    StepKeepsPhases(cfg, s, a);
  }

  // ----- deadlock freedom -----

  lemma {:induction false} HeldIndexInPlan<R>(workers: seq<Worker<R>>, w: nat, i: nat)
    requires w < |workers| && Holds(workers[w], i) == 1
    ensures InFlight(workers, i) >= 1
  {
    if w < |workers| - 1 {
      HeldIndexInPlan(workers[..|workers| - 1], w, i);
    }
  }

  lemma {:induction false} LiveWorker<R>(workers: seq<Worker<R>>, w: nat)
    requires w < |workers| && !workers[w].Exited?
    ensures Live(workers) >= 1
  {
    if w < |workers| - 1 {
      LiveWorker(workers[..|workers| - 1], w);
    }
  }

  /** A worker that has not exited can move, or waits for the mutex whose owner can. The owner is
      never stuck in its receive: main dropped the only work sender before it spawned anyone. */
  lemma WorkerCanMove<S, R>(cfg: Config<S, R>, s: State<R>, w: nat) returns (a: Action)
    requires cfg.dropsWork && Inv(cfg, s) && w < |s.workers| && !s.workers[w].Exited?
    ensures Enabled(cfg, s, a)
  {
    match s.workers[w]
    case AtLock =>
      if s.holder.None? {
        a := Acquire(w);
      } else {
        var h := s.holder.value;
        a := if s.workers[h].Holding? then Receive(h) else Release(h);
      }
    case Holding => a := Receive(w);
    case Got(_) => a := Release(w);
    case Running(i) =>
      HeldIndexInPlan(s.workers, w, i);
      assert Places(cfg, s, i) >= 1;
      a := Run(w);
    case Reporting(_, _) => a := Report(w);
    case Leaving =>
      LiveWorker(s.workers, w);
      a := Exit(w);
  }

  /** Main waits for workers that wait for work nobody will send. */
  predicate WaitsForWorkers<S, R>(cfg: Config<S, R>, s: State<R>) {
    s.main.Joining? && !cfg.dropsWork
  }

  /** Main waits for results nobody will send. */
  predicate WaitsForResults<S, R>(cfg: Config<S, R>, s: State<R>) {
    s.main.Draining? && |s.results| == 0 && !cfg.dropsResults
  }

  /** Until main is done, some thread can take a step, except where a sender was kept. */
  lemma MovesUnlessWaiting<S, R>(cfg: Config<S, R>, s: State<R>) returns (a: Action)
    requires Inv(cfg, s) && !s.main.Done?
    requires !WaitsForWorkers(cfg, s) && !WaitsForResults(cfg, s)
    ensures Enabled(cfg, s, a)
  {
    match s.main
    case Feeding(sent) => a := if sent < |cfg.plan| then Send else DropWork;
    case Spawning => a := if |s.workers| < cfg.jobs then Spawn else DropResults;
    case Draining =>
      LiveZeroIffExited(s.workers);
      a := if |s.results| == 0 then Finish else Drain;
    case Joining =>
      if AllExited(s.workers) {
        a := JoinAll;
      } else {
        var w :| 0 <= w < |s.workers| && !s.workers[w].Exited?;
        a := WorkerCanMove(cfg, s, w);
      }
  }

  /** With both drops some thread can take a step until main is done. Main never waits for results
      that cannot come: when it drains, every sender of the result channel is gone. */
  lemma NeverDeadlocks<S, R>(cfg: Config<S, R>, s: State<R>) returns (a: Action)
    requires cfg.DropsBoth() && Inv(cfg, s) && !s.main.Done?
    ensures Enabled(cfg, s, a)
  {
    a := MovesUnlessWaiting(cfg, s);
  }

  // ----- termination -----

  function Rest<R>(x: Worker<R>): nat {
    match x
    case AtLock => 4
    case Holding => 3
    case Got(next) => if next.Some? then 8 else 2
    case Running(_) => 7
    case Reporting(_, _) => 6
    case Leaving => 1
    case Exited => 0
  }

  function RestAll<R>(workers: seq<Worker<R>>): nat {
    if workers == [] then 0 else RestAll(workers[..|workers| - 1]) + Rest(workers[|workers| - 1])
  }

  function RestMain<S, R>(cfg: Config<S, R>, m: Main): int {
    match m
    case Feeding(sent) => 7 * (|cfg.plan| - sent) + 4
    case Spawning => 3
    case Joining => 2
    case Draining => 1
    case Done => 0
  }

  /** The number of steps still to come. */
  function StepsLeft<S, R>(cfg: Config<S, R>, s: State<R>): int {
    6 * |s.queue| + RestAll(s.workers) + 5 * (cfg.jobs - |s.workers|) + |s.results| + RestMain(cfg, s.main)
  }

  lemma {:induction false} RestUpdate<R>(workers: seq<Worker<R>>, w: nat, x: Worker<R>)
    requires w < |workers|
    ensures RestAll(workers[w := x]) == RestAll(workers) - Rest(workers[w]) + Rest(x)
  {
    var n := |workers| - 1;
    if w == n {
      assert workers[w := x][..n] == workers[..n];
    } else {
      assert workers[w := x][..n] == workers[..n][w := x];
      RestUpdate(workers[..n], w, x);
    }
  }

  /** A worker's step changes the number by what it changes for that worker. */
  lemma WorkerRest<S, R>(cfg: Config<S, R>, s: State<R>, w: nat, x: Worker<R>)
    requires w < |s.workers|
    ensures StepsLeft(cfg, SetWorker(s, w, x)) == StepsLeft(cfg, s) - Rest(s.workers[w]) + Rest(x)
  {
    RestUpdate(s.workers, w, x);
  }

  lemma ReceiveCountsDown<S, R>(cfg: Config<S, R>, s: State<R>, w: nat)
    requires Enabled(cfg, s, Receive(w))
    ensures StepsLeft(cfg, Apply(cfg, s, Receive(w))) == StepsLeft(cfg, s) - 1
  {
    if |s.queue| == 0 {
      WorkerRest(cfg, s, w, Got(None));
    } else {
      WorkerRest(cfg, s, w, Got(Some(s.queue[0])));
    }
  }

  lemma ReportCountsDown<S, R>(cfg: Config<S, R>, s: State<R>, w: nat)
    requires Enabled(cfg, s, Report(w))
    ensures StepsLeft(cfg, Apply(cfg, s, Report(w))) == StepsLeft(cfg, s) - 1
  {
    WorkerRest(cfg, s, w, AtLock);
  }

  lemma WorkerCountsDown<S, R>(cfg: Config<S, R>, s: State<R>, a: Action)
    requires Enabled(cfg, s, a) && !ByMain(a)
    ensures StepsLeft(cfg, Apply(cfg, s, a)) == StepsLeft(cfg, s) - 1
  {
    match a
    case Acquire(w) => WorkerRest(cfg, s, w, Holding);
    case Receive(w) => ReceiveCountsDown(cfg, s, w);
    case Release(w) => WorkerRest(cfg, s, w, AfterRelease(s.workers[w].next));
    case Run(w) => WorkerRest(cfg, s, w, Reporting(s.workers[w].index, cfg.Outcome(s.workers[w].index)));
    case Report(w) => ReportCountsDown(cfg, s, w);
    case Exit(w) => WorkerRest(cfg, s, w, Exited);
  }

  lemma MainCountsDown<S, R>(cfg: Config<S, R>, s: State<R>, a: Action)
    requires Inv(cfg, s) && Enabled(cfg, s, a) && ByMain(a)
    ensures StepsLeft(cfg, Apply(cfg, s, a)) == StepsLeft(cfg, s) - 1
  {
    if a == Spawn {
      SpawnCountsDown(cfg, s);
    }
  }

  lemma SpawnCountsDown<S, R>(cfg: Config<S, R>, s: State<R>)
    requires Enabled(cfg, s, Spawn)
    ensures StepsLeft(cfg, Apply(cfg, s, Spawn)) == StepsLeft(cfg, s) - 1
  {
    assert Apply(cfg, s, Spawn).workers[..|s.workers|] == s.workers;
  }

  /** Whatever the scheduler picks, every step uses up exactly one of the remaining steps. */
  lemma StepCountsDown<S, R>(cfg: Config<S, R>, s: State<R>, a: Action)
    requires Inv(cfg, s) && Enabled(cfg, s, a)
    ensures StepsLeft(cfg, Apply(cfg, s, a)) == StepsLeft(cfg, s) - 1
  {
    if ByMain(a) {
      MainCountsDown(cfg, s, a);
    } else {
      WorkerCountsDown(cfg, s, a);
    }
  }

  // ----- whole runs -----

  /** The schedule is a run: each action is enabled in the state reached before it. */
  ghost predicate IsRun<S, R>(cfg: Config<S, R>, schedule: seq<Action>)
    decreases |schedule|, 0
  {
    schedule == [] ||
    (var n := |schedule| - 1; IsRun(cfg, schedule[..n]) && Enabled(cfg, StateAfter(cfg, schedule[..n]), schedule[n]))
  }

  ghost function StateAfter<S, R>(cfg: Config<S, R>, schedule: seq<Action>): State<R>
    requires IsRun(cfg, schedule)
    decreases |schedule|, 1
  {
    if schedule == [] then Init(cfg)
    else
      var n := |schedule| - 1;
      Apply(cfg, StateAfter(cfg, schedule[..n]), schedule[n])
  }

  lemma {:induction false} RunInv<S, R>(cfg: Config<S, R>, schedule: seq<Action>)
    requires IsRun(cfg, schedule)
    ensures Inv(cfg, StateAfter(cfg, schedule))
    ensures StepsLeft(cfg, StateAfter(cfg, schedule)) == 7 * |cfg.plan| + 5 * cfg.jobs + 4 - |schedule|
  {
    if schedule == [] {
      InitInv(cfg);
    } else {
      var n := |schedule| - 1;
      RunInv(cfg, schedule[..n]);
      StepInv(cfg, StateAfter(cfg, schedule[..n]), schedule[n]);
      StepCountsDown(cfg, StateAfter(cfg, schedule[..n]), schedule[n]);
    }
  }

  lemma {:induction false} RestNonNegative<S, R>(cfg: Config<S, R>, s: State<R>)
    requires Inv(cfg, s)
    ensures StepsLeft(cfg, s) >= 0
    ensures StepsLeft(cfg, s) == 0 ==> s.main.Done?
  {}

  lemma {:induction false} RestOfExited<R>(workers: seq<Worker<R>>)
    requires AllExited(workers)
    ensures RestAll(workers) == 0
  {
    if workers == [] {
    } else {
      RestOfExited(workers[..|workers| - 1]);
    }
  }

  /** The collected outcomes of a finished pool, as the serial loop would list them. */
  lemma FinishedOutcomes<S, R>(cfg: Config<S, R>, s: State<R>)
    requires Inv(cfg, s) && s.main.Done? && cfg.jobs > 0
    ensures |s.outcomes| == |cfg.plan|
    ensures forall i :: 0 <= i < |cfg.plan| ==> s.outcomes[i] == Some(cfg.Outcome(i))
    ensures StepsLeft(cfg, s) == 0
  {
    assert s.workers[0].Exited? && s.queue == [];
    RestOfExited(s.workers);
    forall i | 0 <= i < |cfg.plan| ensures s.outcomes[i] == Some(cfg.Outcome(i)) {
      InFlightExited(s.workers, i);
      assert Places(cfg, s, i) == 1;
    }
  }

  /** Under every schedule and any positive number of workers: a run has at most
      7n + 5j + 4 steps; it can be extended unless main is done, which is exactly after that
      many steps; and then every slot holds the runner's answer for its plan index. */
  lemma EveryRunFinishes<S, R>(cfg: Config<S, R>, schedule: seq<Action>)
    requires cfg.DropsBoth() && cfg.jobs > 0 && IsRun(cfg, schedule)
    ensures var s := StateAfter(cfg, schedule);
      && |schedule| <= 7 * |cfg.plan| + 5 * cfg.jobs + 4
      && (s.main.Done? <==> |schedule| == 7 * |cfg.plan| + 5 * cfg.jobs + 4)
      && (!s.main.Done? ==> exists a :: Enabled(cfg, s, a))
      && (s.main.Done? ==>
            |s.outcomes| == |cfg.plan| && forall i :: 0 <= i < |cfg.plan| ==> s.outcomes[i] == Some(cfg.Outcome(i)))
  {
    var s := StateAfter(cfg, schedule);
    RunInv(cfg, schedule);
    RestNonNegative(cfg, s);
    if s.main.Done? {
      FinishedOutcomes(cfg, s);
    } else {
      var a := NeverDeadlocks(cfg, s);
    }
  }

  // ----- what the two drops are for -----

  /** No thread can take a step. */
  ghost predicate Stuck<S, R>(cfg: Config<S, R>, s: State<R>) {
    forall a :: !Enabled(cfg, s, a)
  }

  /** Every run of every pool extends to one after which nothing can move. */
  lemma {:induction false} ExtendsToStuck<S, R>(cfg: Config<S, R>, schedule: seq<Action>) returns (full: seq<Action>)
    requires IsRun(cfg, schedule)
    ensures schedule <= full && IsRun(cfg, full) && Stuck(cfg, StateAfter(cfg, full))
    decreases 7 * |cfg.plan| + 5 * cfg.jobs + 4 - |schedule|
  {
    var s := StateAfter(cfg, schedule);
    RunInv(cfg, schedule);
    RestNonNegative(cfg, s);
    if Stuck(cfg, s) {
      full := schedule;
    } else {
      var a :| Enabled(cfg, s, a);
      assert (schedule + [a])[..|schedule|] == schedule;
      RunInv(cfg, schedule + [a]);
      RestNonNegative(cfg, StateAfter(cfg, schedule + [a]));
      full := ExtendsToStuck(cfg, schedule + [a]);
    }
  }

  /** A pool of at least one worker only ends if both senders were dropped. */
  lemma DoneNeedsBothDrops<S, R>(cfg: Config<S, R>, schedule: seq<Action>)
    requires cfg.jobs > 0 && IsRun(cfg, schedule)
    ensures StateAfter(cfg, schedule).main.Done? ==> cfg.DropsBoth()
    ensures StateAfter(cfg, schedule).main.Draining? ==> cfg.dropsWork
  {
    var s := StateAfter(cfg, schedule);
    RunInv(cfg, schedule);
    if s.main.Done? || s.main.Draining? {
      assert SawEnd(s.workers[0]);
    }
  }

  /** Where a run of a pool can end: done with both drops; waiting for its workers if main kept its
      work sender; and otherwise waiting for results if it kept its result sender. */
  lemma StuckWhere<S, R>(cfg: Config<S, R>, schedule: seq<Action>)
    requires cfg.jobs > 0 && IsRun(cfg, schedule) && Stuck(cfg, StateAfter(cfg, schedule))
    ensures var s := StateAfter(cfg, schedule);
      && (s.main.Done? <==> cfg.DropsBoth())
      && (WaitsForWorkers(cfg, s) <==> !cfg.dropsWork)
      && (WaitsForResults(cfg, s) <==> cfg.dropsWork && !cfg.dropsResults)
  {
    var s := StateAfter(cfg, schedule);
    RunInv(cfg, schedule);
    DoneNeedsBothDrops(cfg, schedule);
    if !s.main.Done? && !WaitsForWorkers(cfg, s) && !WaitsForResults(cfg, s) {
      var a := MovesUnlessWaiting(cfg, s);
    }
  }

  /** The pool that keeps a sender hangs: whatever was scheduled so far, it goes on to a state in
      which nothing can move and main is not done. With both drops it goes on to the end. */
  lemma KeptSenderHangs<S, R>(cfg: Config<S, R>, schedule: seq<Action>) returns (full: seq<Action>)
    requires cfg.jobs > 0 && IsRun(cfg, schedule)
    ensures schedule <= full && IsRun(cfg, full) && Stuck(cfg, StateAfter(cfg, full))
    ensures StateAfter(cfg, full).main.Done? <==> cfg.DropsBoth()
    ensures !cfg.DropsBoth() ==> !StateAfter(cfg, schedule).main.Done?
  {
    full := ExtendsToStuck(cfg, schedule);
    StuckWhere(cfg, full);
    DoneNeedsBothDrops(cfg, schedule);
  }
}
