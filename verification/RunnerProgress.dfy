/** The test runner never blocks for ever, exactly when it has a worker or no job at all, and every
    interleaving is bounded by a measure that each step decreases. */
module RunnerProgress {
  import opened RunnerProtocol
  import opened RunnerSafety

  // The number of worker threads started for a processor count and the value of --jobs (0 when absent).
  function WorkerCount(processors: int, limit: int): int {
    if limit != 0 && !(processors < limit) then limit else processors
  }

  ghost predicate Done(c: Config, s: State) {
    s.pc == c.MainActions()
  }

  ghost predicate WorkerCanMove(c: Config, s: State) {
    exists w, code :: 0 <= w < c.workers && Enabled(c, s, WorkerStep(w, code))
  }

  // Some thread can move without waiting for another SIGINT.
  ghost predicate CanMove(c: Config, s: State) {
    Enabled(c, s, MainStep) || WorkerCanMove(c, s)
  }

  lemma QuietWorkers(c: Config, s: State, w: nat)
    requires Inv(c, s) && !WorkerCanMove(c, s) && w < c.workers
    ensures s.workers[w].Exited? || (s.workers[w].Idle? && s.inputQueue == [])
  {
    var worker := s.workers[w];
    var code := if worker.Running? && worker.job.id < c.N() then c.tests[worker.job.id].exitCode else 0;
    assert !Enabled(c, s, WorkerStep(w, code));
  }

  lemma CollectProgress(c: Config, s: State)
    requires Inv(c, s) && c.workers > 0
    requires MainAction(c, s.pc).Collect? && s.outputQueue == []
    ensures WorkerCanMove(c, s)
  {
    if !WorkerCanMove(c, s) {
      forall w | 0 <= w < |s.workers|
        ensures WorkerCharge(s.workers[w], TestCharge(c)) == 0
      {
        QuietWorkers(c, s, w);
        assert WorkerWellFormed(c, s.workers[w], s.signal);
      }
      WorkerSumBounds(s.workers, TestCharge(c));
      QueueSumConst(s.collected, Collected, TestCharge(c), 1);
      QuietWorkers(c, s, 0);
      assert s.inputQueue != [];
      assert Leaving(s.workers[0]);
      assert forall j | j in s.inputQueue :: WellFormed(c, j, Queued, s.signal);
      QueueSumConst(s.inputQueue, Queued, TestCharge(c), 0);
      assert false;
    }
  }

  lemma JoinProgress(c: Config, s: State)
    requires Inv(c, s)
    requires MainAction(c, s.pc).Join? && !Enabled(c, s, MainStep)
    ensures WorkerCanMove(c, s)
  {
    var k := MainAction(c, s.pc).k;
    if !WorkerCanMove(c, s) {
      QuietWorkers(c, s, k);
      forall w | 0 <= w < |s.workers|
        ensures 0 <= WorkerCharge(s.workers[w], TokenCharge(c)) <= 1
      {
        QuietWorkers(c, s, w);
      }
      assert WorkerCharge(s.workers[k], TokenCharge(c)) == 0;
      WorkerSumBounds(s.workers, TokenCharge(c));
      QueueSumConst(s.outputQueue, Reported, TokenCharge(c), 0);
      QueueSumConst(s.collected, Collected, TokenCharge(c), 0);
      assert false;
    }
  }

  lemma Progress(c: Config, s: State)
    requires Inv(c, s) && !Done(c, s)
    requires c.workers > 0 || c.N() == 0
    ensures CanMove(c, s)
  {
    if !Enabled(c, s, MainStep) {
      if MainAction(c, s.pc).Collect? {
        CollectProgress(c, s);
      } else {
        JoinProgress(c, s);
      }
    }
  }

  // With no worker the main thread dispatches everything and then waits for a result for ever.
  lemma {:induction false} NoWorkerRun(c: Config, k: nat)
    requires c.workers == 0 && k <= c.N()
    ensures exists s :: Reachable(c, s) && s.pc == k && s.outputQueue == [] && s.workers == []
  {
    if k == 0 {
      assert Run(c, Init(c), [], Init(c));
    } else {
      NoWorkerRun(c, k - 1);
      var s :| Reachable(c, s) && s.pc == k - 1 && s.outputQueue == [] && s.workers == [];
      var steps :| Run(c, Init(c), steps, s);
      var s' := Next(c, s, MainStep);
      RunOneMore(c, Init(c), steps, s, MainStep);
    }
  }

  /** No reachable state of any interleaving is stuck before every worker has been joined, whatever the
      timing of SIGINT, exactly when there is a worker or there is nothing to run. */
  lemma NeverStuckIff(c: Config)
    ensures (forall s :: Reachable(c, s) && !Done(c, s) ==> CanMove(c, s)) <==> (c.workers > 0 || c.N() == 0)
  {
    if c.workers > 0 || c.N() == 0 {
      forall s | Reachable(c, s) && !Done(c, s)
        ensures CanMove(c, s)
      {
        ReachableInv(c, s);
        Progress(c, s);
      }
    } else {
      NoWorkerRun(c, c.N());
      var s :| Reachable(c, s) && s.pc == c.N() && s.outputQueue == [] && s.workers == [];
      assert !CanMove(c, s);
    }
  }

  // range(n) is empty when n is negative, so a negative --jobs starts no thread at all.
  function Configure(processors: int, limit: int, tests: seq<Test>): Config {
    var threads := WorkerCount(processors, limit);
    Config(tests, if threads < 0 then 0 else threads)
  }

  ghost predicate CanHang(c: Config) {
    exists s :: Reachable(c, s) && !Done(c, s) && !CanMove(c, s)
  }

  /** On a machine with at least one processor the runner can hang exactly when --jobs is negative and
      there is something to run. */
  lemma HangsIffNegativeLimit(processors: int, limit: int, tests: seq<Test>)
    requires processors >= 1
    ensures CanHang(Configure(processors, limit, tests)) <==> (limit < 0 && tests != [])
  {
    NeverStuckIff(Configure(processors, limit, tests));
  }

  // ------------------------------------------------------------------ the measure

  function LeftCharge(c: Config): Charge {
    (j: Job, stage: Stage) =>
      match stage
      case Queued => if j.id < c.N() then 3 else 2
      case Held => if j.id < c.N() then 2 else 1
      case Started => 1
      case Decided => 1
      case Reported => 0
      case Collected => 0
      case Retired => 0
  }

  function MainLeft(c: Config, pc: nat): nat
    requires pc <= c.MainActions()
  {
    var n, m := c.N(), c.workers;
    if pc < n then 4 * (n - pc) + 4 * m + n
    else if pc < n + m then 3 * (n + m - pc) + n + m
    else 2 * n + 2 * m - pc
  }

  function SignalLeft(signal: Signal): nat {
    match signal
    case NoSignal => 2
    case Arrived => 1
    case Handled => 0
  }

  function Measure(c: Config, s: State): int
    requires s.pc <= c.MainActions()
  {
    MainLeft(c, s.pc) + Sum(s, LeftCharge(c)) + SignalLeft(s.signal)
  }

  lemma {:induction false} QueueSumNonNegative(q: seq<Job>, stage: Stage, charge: Charge)
    requires forall j | j in q :: charge(j, stage) >= 0
    ensures QueueSum(q, stage, charge) >= 0
  {
    if q != [] {
      QueueSumNonNegative(q[1..], stage, charge);
    }
  }

  lemma {:induction false} WorkerSumNonNegative(ws: seq<Worker>, charge: Charge)
    requires forall w | w in ws :: WorkerCharge(w, charge) >= 0
    ensures WorkerSum(ws, charge) >= 0
  {
    if ws != [] {
      WorkerSumNonNegative(ws[1..], charge);
    }
  }

  lemma MeasureNonNegative(c: Config, s: State)
    requires s.pc <= c.MainActions()
    ensures Measure(c, s) >= 0
  {
    QueueSumNonNegative(s.inputQueue, Queued, LeftCharge(c));
    WorkerSumNonNegative(s.workers, LeftCharge(c));
    QueueSumNonNegative(s.outputQueue, Reported, LeftCharge(c));
    QueueSumNonNegative(s.collected, Collected, LeftCharge(c));
  }

  lemma StepDecreases(c: Config, s: State, step: Step)
    requires Inv(c, s) && Enabled(c, s, step)
    ensures s.pc <= Next(c, s, step).pc <= c.MainActions()
    ensures 0 <= Measure(c, Next(c, s, step)) < Measure(c, s)
  {
    StepSum(c, s, step, LeftCharge(c));
    MeasureNonNegative(c, Next(c, s, step));
    if step.WorkerStep? {
      assert WorkerWellFormed(c, s.workers[step.w], s.signal);
    }
  }

  lemma {:induction false} RunDecreases(c: Config, s: State, steps: seq<Step>, s': State)
    requires Inv(c, s) && Run(c, s, steps, s')
    ensures Inv(c, s') && |steps| + Measure(c, s') <= Measure(c, s)
    decreases |steps|
  {
    if steps != [] {
      var last := |steps| - 1;
      var mid :| Run(c, s, steps[..last], mid) && Enabled(c, mid, steps[last]) && s' == Next(c, mid, steps[last]);
      RunDecreases(c, s, steps[..last], mid);
      StepInv(c, mid, steps[last]);
      StepDecreases(c, mid, steps[last]);
    }
  }

  /** Every interleaving has at most five steps per test, four per worker and two for the first SIGINT: its
      arrival and its handling. */
  lemma RunsAreBounded(c: Config, steps: seq<Step>, s: State)
    requires Run(c, Init(c), steps, s)
    ensures |steps| <= 5 * c.N() + 4 * c.workers + 2
  {
    InitInv(c);
    IdleSum(c.workers, LeftCharge(c));
    RunDecreases(c, Init(c), steps, s);
    MeasureNonNegative(c, s);
  }
}
