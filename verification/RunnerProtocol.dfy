/** The parallel test runner as a transition system: one main thread, a number of worker threads, an
    input FIFO, an output FIFO and the flag set by the SIGINT handler.  A step is one atomic action of one
    thread, so a sequence of steps is one interleaving.  A SIGINT goes to the subprocesses too, and before
    the handler gets to set the flag: from then on a subprocess may return any code. */
module RunnerProtocol {

  // A test to run: whether it is to be skipped, and the code its subprocess returns if it is left alone.
  datatype Test = Test(isSkip: bool, exitCode: int)

  datatype Config = Config(tests: seq<Test>, workers: nat) {
    function N(): nat { |tests| }
    // The main thread performs this many actions: put every job, put one stop token per worker,
    // get one result per job, join every worker.
    function MainActions(): nat { 2 * |tests| + 2 * workers }
  }

  // Jobs of tests are numbered from 0; the stop tokens follow them.
  datatype Job = Job(id: nat, isBreak: bool, isSkip: bool, returncode: int)

  // A worker that is reporting has decided not to run its job, and will put it on the output queue.
  datatype Worker = Idle | Holding(job: Job) | Running(job: Job) | Reporting(job: Job) | Exited(token: Job)

  // The flag thread_exit is set when a SIGINT has been handled.
  datatype Signal = NoSignal | Arrived | Handled

  datatype State = State(
    pc: nat,
    inputQueue: seq<Job>,
    outputQueue: seq<Job>,
    workers: seq<Worker>,
    signal: Signal,
    collected: seq<Job>)

  datatype Action = Dispatch(k: nat) | PutStop(k: nat) | Collect(k: nat) | Join(k: nat) | Finished

  // A step of a worker brings the code returned, if it is the end of a subprocess.
  datatype Step = MainStep | WorkerStep(w: nat, code: int) | Interrupt | Handle

  function MainAction(c: Config, pc: nat): Action {
    if pc < c.N() then Dispatch(pc)
    else if pc < c.N() + c.workers then PutStop(pc - c.N())
    else if pc < 2 * c.N() + c.workers then Collect(pc - c.N() - c.workers)
    else if pc < c.MainActions() then Join(pc - 2 * c.N() - c.workers)
    else Finished
  }

  function NewJob(c: Config, k: nat): Job
    requires k < c.N()
  {
    Job(k, false, c.tests[k].isSkip, 0)
  }

  function StopToken(c: Config, k: nat): Job {
    Job(c.N() + k, true, false, 0)
  }

  function Init(c: Config): State {
    State(0, [], [], seq(c.workers, _ => Idle), NoSignal, [])
  }

  predicate MayReturn(c: Config, j: Job, code: int, signal: Signal) {
    signal == NoSignal && j.id < c.N() ==> code == c.tests[j.id].exitCode
  }

  predicate Enabled(c: Config, s: State, step: Step) {
    match step
    case MainStep =>
      (match MainAction(c, s.pc)
       case Dispatch(_) => true
       case PutStop(_) => true
       case Collect(_) => s.outputQueue != []
       case Join(k) => k < |s.workers| && s.workers[k].Exited?
       case Finished => false)
    case WorkerStep(w, code) =>
      w < |s.workers| &&
      (match s.workers[w]
       case Idle => s.inputQueue != []
       case Holding(_) => true
       case Running(j) => MayReturn(c, j, code, s.signal)
       case Reporting(_) => true
       case Exited(_) => false)
    case Interrupt => s.signal == NoSignal
    case Handle => s.signal == Arrived
  }

  function MainNext(c: Config, s: State): State
    requires Enabled(c, s, MainStep)
  {
    match MainAction(c, s.pc)
    case Dispatch(k) => s.(pc := s.pc + 1, inputQueue := s.inputQueue + [NewJob(c, k)])
    case PutStop(k) => s.(pc := s.pc + 1, inputQueue := s.inputQueue + [StopToken(c, k)])
    case Collect(_) =>
      s.(pc := s.pc + 1, outputQueue := s.outputQueue[1..], collected := s.collected + [s.outputQueue[0]])
    case Join(_) => s.(pc := s.pc + 1)
  }

  function WorkerNext(c: Config, s: State, w: nat, code: int): State
    requires Enabled(c, s, WorkerStep(w, code))
  {
    match s.workers[w]
    case Idle => s.(inputQueue := s.inputQueue[1..], workers := s.workers[w := Holding(s.inputQueue[0])])
    case Holding(j) =>
      if j.isBreak then
        s.(workers := s.workers[w := Exited(j)])
      else if s.signal == Handled then
        s.(workers := s.workers[w := Reporting(j.(isBreak := true))])
      else if j.isSkip then
        s.(workers := s.workers[w := Reporting(j)])
      else
        s.(workers := s.workers[w := Running(j)])
    case Running(j) =>
      s.(workers := s.workers[w := Idle], outputQueue := s.outputQueue + [j.(returncode := code)])
    case Reporting(j) => s.(workers := s.workers[w := Idle], outputQueue := s.outputQueue + [j])
  }

  function Next(c: Config, s: State, step: Step): State
    requires Enabled(c, s, step)
  {
    match step
    case MainStep => MainNext(c, s)
    case WorkerStep(w, code) => WorkerNext(c, s, w, code)
    case Interrupt => s.(signal := Arrived)
    case Handle => s.(signal := Handled)
  }

  // s' is reached from s by the given interleaving.
  ghost predicate Run(c: Config, s: State, steps: seq<Step>, s': State)
    decreases |steps|
  {
    if steps == [] then s' == s
    else
      var last := |steps| - 1;
      exists mid :: Run(c, s, steps[..last], mid) && Enabled(c, mid, steps[last]) && s' == Next(c, mid, steps[last])
  }

  lemma RunOneMore(c: Config, s: State, steps: seq<Step>, mid: State, step: Step)
    requires Run(c, s, steps, mid) && Enabled(c, mid, step)
    ensures Run(c, s, steps + [step], Next(c, mid, step))
  {
    var all, last := steps + [step], |steps|;
    assert all[..last] == steps && all[last] == step;
    assert Run(c, s, all[..last], mid) && Enabled(c, mid, all[last]) && Next(c, mid, step) == Next(c, mid, all[last]);
  }

  ghost predicate Reachable(c: Config, s: State) {
    exists steps :: Run(c, Init(c), steps, s)
  }

  // ------------------------------------------------------------------ charges

  /** A charge assigns a number to a job at a stage of its life.  The conserved quantities of the protocol
      and the measure that bounds its runs are all sums of charges over everything in flight. */
  datatype Stage = Queued | Held | Started | Decided | Reported | Collected | Retired

  type Charge = (Job, Stage) -> int

  function QueueSum(q: seq<Job>, stage: Stage, charge: Charge): int {
    if q == [] then 0 else charge(q[0], stage) + QueueSum(q[1..], stage, charge)
  }

  function WorkerCharge(w: Worker, charge: Charge): int {
    match w
    case Idle => 0
    case Holding(j) => charge(j, Held)
    case Running(j) => charge(j, Started)
    case Reporting(j) => charge(j, Decided)
    case Exited(j) => charge(j, Retired)
  }

  function WorkerSum(ws: seq<Worker>, charge: Charge): int {
    if ws == [] then 0 else WorkerCharge(ws[0], charge) + WorkerSum(ws[1..], charge)
  }

  function Sum(s: State, charge: Charge): int {
    QueueSum(s.inputQueue, Queued, charge) + WorkerSum(s.workers, charge)
    + QueueSum(s.outputQueue, Reported, charge) + QueueSum(s.collected, Collected, charge)
  }

  lemma {:induction false} QueueSumAppend(q: seq<Job>, j: Job, stage: Stage, charge: Charge)
    ensures QueueSum(q + [j], stage, charge) == QueueSum(q, stage, charge) + charge(j, stage)
  {
    if q == [] {
      assert q + [j] == [j];
    } else {
      QueueSumAppend(q[1..], j, stage, charge);
      assert (q + [j])[1..] == q[1..] + [j];
    }
  }

  lemma {:induction false} WorkerSumUpdate(ws: seq<Worker>, w: nat, x: Worker, charge: Charge)
    requires w < |ws|
    ensures WorkerSum(ws[w := x], charge)
      == WorkerSum(ws, charge) - WorkerCharge(ws[w], charge) + WorkerCharge(x, charge)
  {
    if w == 0 {
      assert ws[0 := x][1..] == ws[1..];
    } else {
      assert ws[w := x][1..] == ws[1..][w - 1 := x];
      WorkerSumUpdate(ws[1..], w - 1, x, charge);
    }
  }

  // What a step adds to the sum of a charge.
  function Gain(c: Config, s: State, step: Step, charge: Charge): int
    requires Enabled(c, s, step)
  {
    match step
    case Interrupt => 0
    case Handle => 0
    case MainStep =>
      (match MainAction(c, s.pc)
       case Dispatch(k) => charge(NewJob(c, k), Queued)
       case PutStop(k) => charge(StopToken(c, k), Queued)
       case Collect(_) => charge(s.outputQueue[0], Collected) - charge(s.outputQueue[0], Reported)
       case Join(_) => 0)
    case WorkerStep(w, code) =>
      match s.workers[w]
      case Idle => charge(s.inputQueue[0], Held) - charge(s.inputQueue[0], Queued)
      case Holding(j) =>
        (if j.isBreak then charge(j, Retired)
         else if s.signal == Handled then charge(j.(isBreak := true), Decided)
         else if j.isSkip then charge(j, Decided)
         else charge(j, Started)) - charge(j, Held)
      case Running(j) => charge(j.(returncode := code), Reported) - charge(j, Started)
      case Reporting(j) => charge(j, Reported) - charge(j, Decided)
  }

  lemma StepSum(c: Config, s: State, step: Step, charge: Charge)
    requires Enabled(c, s, step)
    ensures Sum(Next(c, s, step), charge) == Sum(s, charge) + Gain(c, s, step, charge)
  {
    var s' := Next(c, s, step);
    match step
    case Interrupt =>
    case Handle =>
    case MainStep =>
      match MainAction(c, s.pc) {
        case Dispatch(k) => QueueSumAppend(s.inputQueue, NewJob(c, k), Queued, charge);
        case PutStop(k) => QueueSumAppend(s.inputQueue, StopToken(c, k), Queued, charge);
        case Collect(_) => QueueSumAppend(s.collected, s.outputQueue[0], Collected, charge);
        case Join(_) =>
      }
    case WorkerStep(w, _) =>
      WorkerSumUpdate(s.workers, w, s'.workers[w], charge);
      if |s'.outputQueue| > |s.outputQueue| {
        QueueSumAppend(s.outputQueue, s'.outputQueue[|s.outputQueue|], Reported, charge);
      }
  }
}
