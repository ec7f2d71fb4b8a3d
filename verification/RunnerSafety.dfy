/** What every interleaving of the test runner keeps: conservation of jobs and stop tokens, the order of
    the input queue, and the integrity of every result. */
module RunnerSafety {
  import opened RunnerProtocol

  function IdCharge(i: nat): Charge { (j: Job, _) => if j.id == i then 1 else 0 }

  function TokenCharge(c: Config): Charge { (j: Job, _) => if j.id >= c.N() then 1 else 0 }

  function TestCharge(c: Config): Charge { (j: Job, _) => if j.id < c.N() then 1 else 0 }

  predicate WellFormed(c: Config, j: Job, stage: Stage, signal: Signal) {
    && j.id < c.N() + c.workers
    && (j.id < c.N() ==> j.isSkip == c.tests[j.id].isSkip)
    && match stage
       case Queued => j.isBreak == (j.id >= c.N())
       case Held => j.isBreak == (j.id >= c.N())
       case Started => j.id < c.N() && !j.isBreak && !j.isSkip
       case Decided => Settled(c, j, signal) && (j.isBreak || j.isSkip)
       case Reported => Settled(c, j, signal)
       case Collected => Settled(c, j, signal)
       case Retired => j.id >= c.N()
  }

  // A result is a job of a test that was skipped, was run to its end, or was given up after a SIGINT.
  predicate Settled(c: Config, j: Job, signal: Signal) {
    && j.id < c.N()
    && (j.isBreak ==> signal == Handled)
    && (!j.isBreak && !j.isSkip ==> MayReturn(c, j, j.returncode, signal))
  }

  predicate WorkerWellFormed(c: Config, w: Worker, signal: Signal) {
    match w
    case Idle => true
    case Holding(j) => WellFormed(c, j, Held, signal)
    case Running(j) => WellFormed(c, j, Started, signal)
    case Reporting(j) => WellFormed(c, j, Decided, signal)
    case Exited(j) => WellFormed(c, j, Retired, signal)
  }

  predicate QueueWellFormed(c: Config, q: seq<Job>, stage: Stage, signal: Signal) {
    forall j | j in q :: WellFormed(c, j, stage, signal)
  }

  predicate Leaving(w: Worker) {
    w.Exited? || (w.Holding? && w.job.isBreak)
  }

  // No job of a test is queued behind a stop token, nor anywhere once a worker has taken a token.
  predicate TokensLast(c: Config, s: State) {
    && (forall i, j | 0 <= i < j < |s.inputQueue| :: s.inputQueue[i].isBreak ==> s.inputQueue[j].isBreak)
    && (s.pc <= c.N() ==> forall i | 0 <= i < |s.inputQueue| :: !s.inputQueue[i].isBreak)
    && (forall w | 0 <= w < |s.workers| && Leaving(s.workers[w]) ::
          s.pc > c.N() && forall i | 0 <= i < |s.inputQueue| :: s.inputQueue[i].isBreak)
  }

  function Clamp(x: int, hi: nat): nat {
    if x < 0 then 0 else if x > hi then hi else x
  }

  predicate Counted(c: Config, s: State) {
    && Sum(s, TestCharge(c)) == Clamp(s.pc, c.N())
    && Sum(s, TokenCharge(c)) == Clamp(s.pc - c.N(), c.workers)
    && |s.collected| == Clamp(s.pc - c.N() - c.workers, c.N())
  }

  // The job the main thread creates in its i-th action is, ever after, in exactly one place.
  predicate Conserved(c: Config, s: State, i: nat) {
    Sum(s, IdCharge(i)) == if i < s.pc then 1 else 0
  }

  ghost predicate AllWellFormed(c: Config, s: State) {
    && QueueWellFormed(c, s.inputQueue, Queued, s.signal)
    && (forall w | 0 <= w < |s.workers| :: WorkerWellFormed(c, s.workers[w], s.signal))
    && QueueWellFormed(c, s.outputQueue, Reported, s.signal)
    && QueueWellFormed(c, s.collected, Collected, s.signal)
  }

  ghost predicate Inv(c: Config, s: State) {
    && |s.workers| == c.workers
    && s.pc <= c.MainActions()
    && AllWellFormed(c, s)
    && TokensLast(c, s)
    && Counted(c, s)
    && (forall i | 0 <= i < c.N() + c.workers :: Conserved(c, s, i))
    && (forall w | 0 <= w < s.pc - 2 * c.N() - c.workers :: s.workers[w].Exited?)
  }

  // ------------------------------------------------------------------ preservation

  lemma {:induction false} IdleSum(k: nat, charge: Charge)
    ensures WorkerSum(seq(k, _ => Idle), charge) == 0
  {
    if k > 0 {
      IdleSum(k - 1, charge);
      assert seq(k, _ => Idle)[1..] == seq(k - 1, _ => Idle);
    }
  }

  lemma InitSum(c: Config, charge: Charge)
    ensures Sum(Init(c), charge) == 0
  {
    IdleSum(c.workers, charge);
  }

  lemma InitShape(c: Config)
    ensures var s := Init(c);
      && |s.workers| == c.workers && s.pc <= c.MainActions()
      && AllWellFormed(c, s) && TokensLast(c, s)
  {
  }

  lemma NothingCounted(c: Config, s: State)
    requires s.pc == 0 && s.collected == [] && Sum(s, TestCharge(c)) == 0 && Sum(s, TokenCharge(c)) == 0
    ensures Counted(c, s)
  {
  }

  lemma InitInv(c: Config)
    ensures Inv(c, Init(c))
  {
    InitShape(c);
    InitSum(c, TestCharge(c));
    InitSum(c, TokenCharge(c));
    NothingCounted(c, Init(c));
    forall i | 0 <= i < c.N() + c.workers
      ensures Conserved(c, Init(c), i)
    {
      InitSum(c, IdCharge(i));
    }
  }

  // Which jobs a step creates, by kind and by identifier; no other step changes the count of either.
  lemma GainOfStep(c: Config, s: State, step: Step, i: nat)
    requires Inv(c, s) && Enabled(c, s, step)
    ensures Gain(c, s, step, TestCharge(c)) == if step.MainStep? && s.pc < c.N() then 1 else 0
    ensures Gain(c, s, step, TokenCharge(c)) == if step.MainStep? && c.N() <= s.pc < c.N() + c.workers then 1 else 0
    ensures Gain(c, s, step, IdCharge(i)) == if step.MainStep? && s.pc < c.N() + c.workers && i == s.pc then 1 else 0
  {
  }

  lemma TestsKept(c: Config, s: State, step: Step)
    requires Inv(c, s) && Enabled(c, s, step)
    ensures Sum(Next(c, s, step), TestCharge(c)) == Clamp(Next(c, s, step).pc, c.N())
  {
    GainOfStep(c, s, step, 0);
    StepSum(c, s, step, TestCharge(c));
  }

  lemma TokensKept(c: Config, s: State, step: Step)
    requires Inv(c, s) && Enabled(c, s, step)
    ensures Sum(Next(c, s, step), TokenCharge(c)) == Clamp(Next(c, s, step).pc - c.N(), c.workers)
  {
    GainOfStep(c, s, step, 0);
    StepSum(c, s, step, TokenCharge(c));
  }

  lemma CollectedKept(c: Config, s: State, step: Step)
    requires Inv(c, s) && Enabled(c, s, step)
    ensures |Next(c, s, step).collected| == Clamp(Next(c, s, step).pc - c.N() - c.workers, c.N())
  {
  }

  lemma CountedKept(c: Config, s: State, step: Step)
    requires Inv(c, s) && Enabled(c, s, step)
    ensures Counted(c, Next(c, s, step))
  {
    TestsKept(c, s, step);
    TokensKept(c, s, step);
    CollectedKept(c, s, step);
  }

  lemma ConservedKept(c: Config, s: State, step: Step, i: nat)
    requires Inv(c, s) && Enabled(c, s, step) && i < c.N() + c.workers
    ensures Conserved(c, Next(c, s, step), i)
  {
    assert Conserved(c, s, i);
    GainOfStep(c, s, step, i);
    StepSum(c, s, step, IdCharge(i));
  }

  lemma MainTokensLast(c: Config, s: State)
    requires Inv(c, s) && Enabled(c, s, MainStep)
    ensures TokensLast(c, Next(c, s, MainStep))
  {
  }

  lemma WorkerTokensLast(c: Config, s: State, w: nat, code: int)
    requires Inv(c, s) && Enabled(c, s, WorkerStep(w, code))
    ensures TokensLast(c, Next(c, s, WorkerStep(w, code)))
  {
    var s' := Next(c, s, WorkerStep(w, code));
    if s.workers[w].Idle? {
      assert forall i | 0 <= i < |s'.inputQueue| :: s'.inputQueue[i] == s.inputQueue[i + 1];
    } else {
      assert s'.inputQueue == s.inputQueue;
      assert forall v | 0 <= v < |s.workers| && Leaving(s'.workers[v]) :: Leaving(s.workers[v]);
    }
  }

  lemma TokensLastKept(c: Config, s: State, step: Step)
    requires Inv(c, s) && Enabled(c, s, step)
    ensures TokensLast(c, Next(c, s, step))
  {
    match step
    case Interrupt =>
    case Handle =>
    case MainStep => MainTokensLast(c, s);
    case WorkerStep(w, code) => WorkerTokensLast(c, s, w, code);
  }

  lemma MainWellFormed(c: Config, s: State)
    requires Inv(c, s) && Enabled(c, s, MainStep)
    ensures AllWellFormed(c, Next(c, s, MainStep))
  {
    var s' := Next(c, s, MainStep);
    forall j | j in s'.collected
      ensures WellFormed(c, j, Collected, s'.signal)
    {
      assert j in s.collected || (s.outputQueue != [] && j == s.outputQueue[0]);
      assert j in s.collected ==> WellFormed(c, j, Collected, s.signal);
      assert j !in s.collected ==> WellFormed(c, j, Reported, s.signal);
    }
  }

  lemma WorkerStepWellFormed(c: Config, s: State, w: nat, code: int)
    requires Inv(c, s) && Enabled(c, s, WorkerStep(w, code))
    ensures AllWellFormed(c, Next(c, s, WorkerStep(w, code)))
  {
    assert WorkerWellFormed(c, s.workers[w], s.signal);
    assert s.workers[w].Idle? ==> s.inputQueue[0] in s.inputQueue;
  }

  // A result stays a result when a signal arrives or is handled.
  lemma SignalWellFormed(c: Config, s: State, signal: Signal)
    requires Inv(c, s) && signal != NoSignal && (s.signal == Handled ==> signal == Handled)
    ensures AllWellFormed(c, s.(signal := signal))
  {
    forall w | 0 <= w < |s.workers|
      ensures WorkerWellFormed(c, s.workers[w], signal)
    {
      assert WorkerWellFormed(c, s.workers[w], s.signal);
    }
  }

  lemma WellFormedKept(c: Config, s: State, step: Step)
    requires Inv(c, s) && Enabled(c, s, step)
    ensures AllWellFormed(c, Next(c, s, step))
  {
    match step
    case Interrupt => SignalWellFormed(c, s, Arrived);
    case Handle => SignalWellFormed(c, s, Handled);
    case MainStep => MainWellFormed(c, s);
    case WorkerStep(w, code) => WorkerStepWellFormed(c, s, w, code);
  }

  lemma JoinedKept(c: Config, s: State, step: Step)
    requires Inv(c, s) && Enabled(c, s, step)
    ensures var s' := Next(c, s, step);
      && |s'.workers| == c.workers && s'.pc <= c.MainActions()
      && forall w | 0 <= w < s'.pc - 2 * c.N() - c.workers :: s'.workers[w].Exited?
  {
  }

  lemma StepInv(c: Config, s: State, step: Step)
    requires Inv(c, s) && Enabled(c, s, step)
    ensures Inv(c, Next(c, s, step))
  {
    var s' := Next(c, s, step);
    CountedKept(c, s, step);
    forall i | 0 <= i < c.N() + c.workers
      ensures Conserved(c, s', i)
    {
      ConservedKept(c, s, step, i);
    }
    TokensLastKept(c, s, step);
    WellFormedKept(c, s, step);
    JoinedKept(c, s, step);
  }

  lemma {:induction false} RunInv(c: Config, s: State, steps: seq<Step>, s': State)
    requires Inv(c, s) && Run(c, s, steps, s')
    ensures Inv(c, s')
    decreases |steps|
  {
    if steps != [] {
      var last := |steps| - 1;
      var mid :| Run(c, s, steps[..last], mid) && Enabled(c, mid, steps[last]) && s' == Next(c, mid, steps[last]);
      RunInv(c, s, steps[..last], mid);
      StepInv(c, mid, steps[last]);
    }
  }

  /** Every state of every interleaving satisfies the invariant. */
  lemma ReachableInv(c: Config, s: State)
    requires Reachable(c, s)
    ensures Inv(c, s)
  {
    var steps :| Run(c, Init(c), steps, s);
    InitInv(c);
    RunInv(c, Init(c), steps, s);
  }

  // ------------------------------------------------------------------ reading the sums

  lemma {:induction false} QueueSumConst(q: seq<Job>, stage: Stage, charge: Charge, v: int)
    requires forall j | j in q :: charge(j, stage) == v
    ensures QueueSum(q, stage, charge) == v * |q|
  {
    if q != [] {
      QueueSumConst(q[1..], stage, charge, v);
    }
  }

  lemma {:induction false} QueueSumSplit(c: Config, q: seq<Job>, stage: Stage)
    ensures QueueSum(q, stage, TestCharge(c)) + QueueSum(q, stage, TokenCharge(c)) == |q|
    ensures 0 <= QueueSum(q, stage, TestCharge(c)) && 0 <= QueueSum(q, stage, TokenCharge(c))
  {
    if q != [] {
      QueueSumSplit(c, q[1..], stage);
    }
  }

  lemma {:induction false} WorkerSumBounds(ws: seq<Worker>, charge: Charge)
    requires forall w | 0 <= w < |ws| :: 0 <= WorkerCharge(ws[w], charge) <= 1
    ensures 0 <= WorkerSum(ws, charge) <= |ws|
    ensures (forall w | 0 <= w < |ws| :: WorkerCharge(ws[w], charge) == 0) ==> WorkerSum(ws, charge) == 0
    ensures (forall w | 0 <= w < |ws| :: WorkerCharge(ws[w], charge) == 1) ==> WorkerSum(ws, charge) == |ws|
    ensures (exists w | 0 <= w < |ws| :: WorkerCharge(ws[w], charge) == 0) ==> WorkerSum(ws, charge) < |ws|
  {
    if ws != [] {
      assert forall w | 0 <= w < |ws[1..]| :: ws[1..][w] == ws[w + 1];
      WorkerSumBounds(ws[1..], charge);
      if w :| 0 <= w < |ws| && WorkerCharge(ws[w], charge) == 0 {
        if w > 0 { assert WorkerCharge(ws[1..][w - 1], charge) == 0; }
      }
    }
  }

  // An element of a queue is counted by its identifier.
  lemma {:induction false} QueueSumIds(q: seq<Job>, stage: Stage, i: nat)
    ensures 0 <= QueueSum(q, stage, IdCharge(i))
    ensures QueueSum(q, stage, IdCharge(i)) == 0 <==> forall k | 0 <= k < |q| :: q[k].id != i
    ensures QueueSum(q, stage, IdCharge(i)) <= 1 <==>
      forall k, l | 0 <= k < l < |q| :: !(q[k].id == i && q[l].id == i)
  {
    if q != [] {
      var t := q[1..];
      QueueSumIds(t, stage, i);
      assert forall k | 0 < k < |q| :: q[k] == t[k - 1];
      assert forall k | 0 <= k < |t| :: t[k] == q[k + 1];
      if q[0].id == i {
        if QueueSum(t, stage, IdCharge(i)) > 0 {
          var k :| 0 <= k < |t| && t[k].id == i;
          assert q[k + 1].id == i;
        }
      }
    }
  }

  lemma {:induction false} WorkerSumIds(ws: seq<Worker>, i: nat)
    ensures 0 <= WorkerSum(ws, IdCharge(i))
    ensures WorkerSum(ws, IdCharge(i)) == 0 ==> forall k | 0 <= k < |ws| :: WorkerCharge(ws[k], IdCharge(i)) == 0
    ensures WorkerSum(ws, IdCharge(i)) <= 1 ==>
      forall k, l | 0 <= k < l < |ws| :: WorkerCharge(ws[k], IdCharge(i)) + WorkerCharge(ws[l], IdCharge(i)) <= 1
  {
    if ws != [] {
      WorkerSumIds(ws[1..], i);
      assert forall k | 0 < k < |ws| :: ws[k] == ws[1..][k - 1];
    }
  }

  // ------------------------------------------------------------------ theorems

  /** Once any worker has exited, no job of a test is left in the input queue, and none arrives later. */
  lemma ExitedMeansDrained(c: Config, s: State, w: nat)
    requires Reachable(c, s)
    requires w < |s.workers| && s.workers[w].Exited?
    ensures s.pc > c.N()
    ensures forall j | j in s.inputQueue :: j.id >= c.N()
  {
    ReachableInv(c, s);
    assert Leaving(s.workers[w]);
  }

  /** In every reachable state each job dispatched so far (and each stop token put so far) is in exactly
      one of the input queue, a worker's hands, the output queue and the collected results. */
  lemma ExactlyOnePlace(c: Config, s: State, i: nat)
    requires Reachable(c, s)
    requires i < c.N() + c.workers
    ensures QueueSum(s.inputQueue, Queued, IdCharge(i)) + WorkerSum(s.workers, IdCharge(i))
          + QueueSum(s.outputQueue, Reported, IdCharge(i)) + QueueSum(s.collected, Collected, IdCharge(i))
          == if i < s.pc then 1 else 0
    ensures i >= c.N() ==> (forall j | j in s.outputQueue + s.collected :: j.id != i)
  {
    ReachableInv(c, s);
    assert Conserved(c, s, i);
    QueueSumIds(s.outputQueue, Reported, i);
    QueueSumIds(s.collected, Collected, i);
  }

  lemma FinishedQueuesEmpty(c: Config, s: State)
    requires Inv(c, s) && s.pc == c.MainActions()
    ensures s.inputQueue == [] && s.outputQueue == []
    ensures |s.collected| == c.N()
  {
    QueueSumSplit(c, s.inputQueue, Queued);
    QueueSumConst(s.outputQueue, Reported, TestCharge(c), 1);
    QueueSumConst(s.outputQueue, Reported, TokenCharge(c), 0);
    QueueSumConst(s.collected, Collected, TestCharge(c), 1);
    QueueSumConst(s.collected, Collected, TokenCharge(c), 0);
    forall w | 0 <= w < |s.workers|
      ensures WorkerCharge(s.workers[w], TestCharge(c)) == 0 && WorkerCharge(s.workers[w], TokenCharge(c)) == 1
    {
      assert WorkerWellFormed(c, s.workers[w], s.signal);
    }
    WorkerSumBounds(s.workers, TestCharge(c));
    WorkerSumBounds(s.workers, TokenCharge(c));
  }

  predicate Contains(q: seq<Job>, i: nat) {
    exists k :: 0 <= k < |q| && q[k].id == i
  }

  predicate HasOwnToken(c: Config, s: State, w: nat) {
    && w < |s.workers|
    && s.workers[w].Exited?
    && c.N() <= s.workers[w].token.id < c.N() + c.workers
    && forall v | 0 <= v < |s.workers| && v != w && s.workers[v].Exited? ::
         s.workers[v].token.id != s.workers[w].token.id
  }

  lemma CollectedOnce(c: Config, s: State, i: nat)
    requires Inv(c, s) && s.pc == c.MainActions() && i < c.N()
    ensures QueueSum(s.collected, Collected, IdCharge(i)) == 1
  {
    FinishedQueuesEmpty(c, s);
    assert Conserved(c, s, i);
    forall w | 0 <= w < |s.workers|
      ensures WorkerCharge(s.workers[w], IdCharge(i)) == 0
    {
      assert WorkerWellFormed(c, s.workers[w], s.signal);
    }
    WorkerSumBounds(s.workers, IdCharge(i));
  }

  lemma OwnToken(c: Config, s: State, w: nat)
    requires Inv(c, s) && s.pc == c.MainActions() && w < c.workers
    ensures HasOwnToken(c, s, w)
  {
    assert WorkerWellFormed(c, s.workers[w], s.signal);
    var i := s.workers[w].token.id;
    assert Conserved(c, s, i);
    QueueSumIds(s.inputQueue, Queued, i);
    QueueSumIds(s.outputQueue, Reported, i);
    QueueSumIds(s.collected, Collected, i);
    WorkerSumIds(s.workers, i);
    assert WorkerCharge(s.workers[w], IdCharge(i)) == 1;
    forall v | 0 <= v < |s.workers| && v != w && s.workers[v].Exited?
      ensures s.workers[v].token.id != i
    {
      var k, l := if v < w then v else w, if v < w then w else v;
      assert WorkerCharge(s.workers[k], IdCharge(i)) + WorkerCharge(s.workers[l], IdCharge(i)) <= 1;
    }
  }

  /** When the main thread has joined every worker: both queues are empty, every test's job was collected
      exactly once, and every worker has consumed a stop token of its own. */
  lemma FinalState(c: Config, s: State)
    requires Reachable(c, s) && s.pc == c.MainActions()
    ensures s.inputQueue == [] && s.outputQueue == []
    ensures |s.collected| == c.N()
    ensures forall i | 0 <= i < c.N() :: Contains(s.collected, i)
    ensures forall k, l | 0 <= k < l < |s.collected| :: s.collected[k].id != s.collected[l].id
    ensures forall w | 0 <= w < c.workers :: HasOwnToken(c, s, w)
  {
    ReachableInv(c, s);
    FinishedQueuesEmpty(c, s);
    forall w | 0 <= w < c.workers
      ensures HasOwnToken(c, s, w)
    {
      OwnToken(c, s, w);
    }
    forall i | 0 <= i < c.N()
      ensures Contains(s.collected, i)
    {
      CollectedOnce(c, s, i);
      QueueSumIds(s.collected, Collected, i);
    }
    forall k, l | 0 <= k < l < |s.collected|
      ensures s.collected[k].id != s.collected[l].id
    {
      assert s.collected[k] in s.collected;
      var i := s.collected[k].id;
      CollectedOnce(c, s, i);
      QueueSumIds(s.collected, Collected, i);
    }
  }
}
