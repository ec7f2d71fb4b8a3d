/** The runner as a program: the body of the worker threads and the main thread's dispatch, stop-token,
    collect and join loops.  Between two actions of the main thread any number of actions of the workers
    and of the signal handler may happen, in any order. */
module TestRunner {
  import opened RunnerProtocol
  import opened RunnerSafety
  import opened RunnerProgress
  import opened RunnerTally

  class Runner {
    const config: Config
    var inputQueue: seq<Job>
    var outputQueue: seq<Job>
    var threads: seq<Worker>
    // The global thread_exit is true once this is Handled.
    var signal: Signal
    var passedTests: nat
    var failedTests: nat
    var valgrindErrors: nat
    var crashedTests: nat
    var skippedTests: nat
    ghost var pc: nat
    ghost var collected: seq<Job>
    ghost var history: seq<Step>

    ghost function Abs(): State
      reads this
    {
      State(pc, inputQueue, outputQueue, threads, signal, collected)
    }

    ghost predicate CountersMatch()
      reads this
    {
      && passedTests == Count(collected, Pass)
      && failedTests == Count(collected, Fail)
      && valgrindErrors == Count(collected, ValgrindError)
      && crashedTests == Count(collected, Crash)
      && skippedTests == Count(collected, Skip)
    }

    // The history is an interleaving of the protocol that leads to the present state.
    ghost predicate Valid()
      reads this
    {
      && Run(config, Init(config), history, Abs())
      && CountersMatch()
    }

    lemma ValidInv()
      requires Valid()
      ensures Inv(config, Abs())
      ensures Measure(config, Abs()) >= 0
    {
      InitInv(config);
      RunInv(config, Init(config), history, Abs());
      MeasureNonNegative(config, Abs());
    }

    // What is left to do; the loops that wait for other threads decrease it.
    ghost function Left(): nat
      requires Valid()
      reads this
    {
      ValidInv();
      Measure(config, Abs())
    }

    constructor (config: Config)
      ensures Valid() && this.config == config && pc == 0
    {
      this.config := config;
      inputQueue, outputQueue, signal := [], [], NoSignal;
      threads := seq(config.workers, _ => Idle);
      passedTests, failedTests, valgrindErrors, crashedTests, skippedTests := 0, 0, 0, 0, 0;
      pc, collected, history := 0, [], [];
    }

    ghost method Record(before: State, step: Step)
      requires Run(config, Init(config), history, before)
      requires Enabled(config, before, step) && Abs() == Next(config, before, step)
      requires CountersMatch()
      modifies this`history
      ensures Valid() && history == old(history) + [step]
    {
      RunOneMore(config, Init(config), history, before, step);
      history := history + [step];
    }

    // One atomic action of worker w: take a job, decide what to do with it, put it on the output
    // queue without running it, or finish running it with the code its subprocess returned.
    method WorkerTurn(w: nat, code: int)
      requires Valid() && Enabled(config, Abs(), WorkerStep(w, code))
      modifies this`inputQueue, this`outputQueue, this`threads, this`history
      ensures Valid() && Abs() == Next(config, old(Abs()), WorkerStep(w, code))
      ensures history == old(history) + [WorkerStep(w, code)] && old(outputQueue) <= outputQueue
    {
      ghost var before := Abs();
      match threads[w] {
        case Idle =>
          var job := inputQueue[0];
          inputQueue := inputQueue[1..];
          threads := threads[w := Holding(job)];
        case Holding(job) =>
          if job.isBreak {
            threads := threads[w := Exited(job)];
          } else if signal == Handled {
            threads := threads[w := Reporting(job.(isBreak := true))];
          } else if job.isSkip {
            threads := threads[w := Reporting(job)];
          } else {
            threads := threads[w := Running(job)];
          }
        case Running(job) =>
          threads := threads[w := Idle];
          outputQueue := outputQueue + [job.(returncode := code)];
        case Reporting(job) =>
          threads := threads[w := Idle];
          outputQueue := outputQueue + [job];
      }
      Record(before, WorkerStep(w, code));
    }

    // A SIGINT reaches the subprocesses and, some time later, its handler sets the flag.  A second signal
    // changes nothing.
    method SigintHook()
      requires Valid() && signal != Handled
      modifies this`signal, this`history
      ensures Valid()
      ensures signal == if old(signal) == NoSignal then Arrived else Handled
      ensures history == old(history) + [if old(signal) == NoSignal then Interrupt else Handle]
    {
      ghost var before := Abs();
      if signal == NoSignal {
        signal := Arrived;
        Record(before, Interrupt);
      } else {
        signal := Handled;
        Record(before, Handle);
      }
    }

    // Whether worker w can move now, with this code if it is waiting for a subprocess.
    predicate CanTurn(w: int, code: int): (can: bool)
      reads this
      ensures can <==> w >= 0 && Enabled(config, Abs(), WorkerStep(w, code))
    {
      && 0 <= w < |threads|
      && match threads[w]
         case Idle => inputQueue != []
         case Holding(_) => true
         case Running(job) => MayReturn(config, job, code, signal)
         case Reporting(_) => true
         case Exited(_) => false
    }

    // One action of another thread or of the signal handler, if the scheduler picks one that can move.
    method OtherTurn() returns (moved: bool)
      requires Valid()
      modifies this`inputQueue, this`outputQueue, this`threads, this`signal, this`history
      ensures Valid() && old(outputQueue) <= outputQueue
      ensures if moved then Left() < old(Left()) else Left() == old(Left()) && history == old(history)
    {
      ValidInv();
      var w: int, code: int := *, *;
      var interrupted: bool := *;
      if interrupted && signal != Handled {
        StepDecreases(config, Abs(), if signal == NoSignal then Interrupt else Handle);
        SigintHook();
        moved := true;
      } else if CanTurn(w, code) {
        StepDecreases(config, Abs(), WorkerStep(w, code));
        WorkerTurn(w, code);
        moved := true;
      } else {
        moved := false;
      }
    }

    // Any number of actions of the other threads and of the signal handler: the scheduler goes on as long
    // as it likes.
    method Interfere()
      requires Valid()
      modifies this`inputQueue, this`outputQueue, this`threads, this`signal, this`history
      ensures Valid() && old(outputQueue) <= outputQueue
    {
      var more: bool := *;
      while more
        invariant Valid() && old(outputQueue) <= outputQueue
        decreases Left(), more
      {
        var moved := OtherTurn();
        var again: bool := *;
        more := moved && again;
      }
    }

    // Another thread moves while the main thread waits; it can, because nothing is stuck.
    method WaitForOthers()
      requires Valid() && pc < config.MainActions() && !Enabled(config, Abs(), MainStep)
      requires config.workers > 0 || config.tests == []
      modifies this`inputQueue, this`outputQueue, this`threads, this`signal, this`history
      ensures Valid() && Left() < old(Left())
    {
      ValidInv();
      Progress(config, Abs());
      ghost var v, c :| 0 <= v < config.workers && Enabled(config, Abs(), WorkerStep(v, c));
      assert CanTurn(v, c);
      var w: nat, code: int :| CanTurn(w, code);
      assert CanTurn(w, code);
      StepDecreases(config, Abs(), WorkerStep(w, code));
      WorkerTurn(w, code);
    }

    method PutJob(k: nat)
      requires Valid() && k < config.N() && pc == k
      modifies this`inputQueue, this`pc, this`history
      ensures Valid() && pc == k + 1
    {
      ghost var before := Abs();
      inputQueue := inputQueue + [NewJob(config, k)];
      pc := pc + 1;
      Record(before, MainStep);
    }

    method PutStopToken(k: nat)
      requires Valid() && k < config.workers && pc == config.N() + k
      modifies this`inputQueue, this`pc, this`history
      ensures Valid() && pc == config.N() + k + 1
    {
      ghost var before := Abs();
      inputQueue := inputQueue + [StopToken(config, k)];
      pc := pc + 1;
      Record(before, MainStep);
    }

    // The blocking get on the output queue waits until there is a result.
    method AwaitResult()
      requires Valid() && MainAction(config, pc).Collect?
      requires config.workers > 0 || config.tests == []
      modifies this`inputQueue, this`outputQueue, this`threads, this`signal, this`history
      ensures Valid() && outputQueue != []
      ensures old(outputQueue) != [] ==> outputQueue[0] == old(outputQueue)[0]
    {
      while outputQueue == []
        invariant Valid()
        invariant old(outputQueue) != [] ==> outputQueue == old(outputQueue)
        decreases Left()
      {
        WaitForOthers();
      }
      Interfere();
    }

    // The blocking get on the output queue, followed by the counting of its verdict.
    method CollectOne()
      requires Valid() && MainAction(config, pc).Collect?
      requires config.workers > 0 || config.tests == []
      modifies this
      ensures Valid() && pc == old(pc) + 1
      ensures |collected| == |old(collected)| + 1 && old(collected) <= collected
      ensures CountsOne(collected[|old(collected)|])
      ensures old(outputQueue) != [] ==> collected[|old(collected)|] == old(outputQueue)[0]
    {
      AwaitResult();
      GetAndCount();
    }

    // One counter goes up by one, which the job and its return code decide; none for a job given up.
    twostate predicate CountsOne(job: Job)
      reads this
    {
      var ran := !job.isBreak && !job.isSkip;
      && passedTests == old(passedTests) + (if ran && job.returncode == 0 then 1 else 0)
      && failedTests == old(failedTests) + (if ran && job.returncode == 1 then 1 else 0)
      && valgrindErrors == old(valgrindErrors) + (if ran && job.returncode == 2 then 1 else 0)
      && crashedTests == old(crashedTests) + (if ran && job.returncode !in {0, 1, 2} then 1 else 0)
      && skippedTests == old(skippedTests) + (if !job.isBreak && job.isSkip then 1 else 0)
    }

    // Count the job under its verdict.
    method CountVerdict(job: Job)
      requires CountersMatch()
      modifies this`passedTests, this`failedTests, this`valgrindErrors, this`crashedTests,
        this`skippedTests, this`collected
      ensures CountersMatch() && collected == old(collected) + [job] && CountsOne(job)
    {
      CountAppend(collected, job);
      collected := collected + [job];
      if !job.isBreak {
        if job.isSkip {
          skippedTests := skippedTests + 1;
        } else if job.returncode == 0 {
          passedTests := passedTests + 1;
        } else if job.returncode == 1 {
          failedTests := failedTests + 1;
        } else if job.returncode == 2 {
          valgrindErrors := valgrindErrors + 1;
        } else {
          crashedTests := crashedTests + 1;
        }
      }
    }

    // Take a result off the output queue and count it.
    method GetAndCount()
      requires Valid() && MainAction(config, pc).Collect? && outputQueue != []
      modifies this`outputQueue, this`passedTests, this`failedTests, this`valgrindErrors, this`crashedTests,
        this`skippedTests, this`pc, this`collected, this`history
      ensures Valid() && pc == old(pc) + 1 && collected == old(collected) + [old(outputQueue)[0]]
      ensures CountsOne(old(outputQueue)[0])
    {
      ghost var before := Abs();
      ghost var after := Next(config, before, MainStep);
      var job := outputQueue[0];
      outputQueue := outputQueue[1..];
      pc := pc + 1;
      CountVerdict(job);
      assert Abs() == after;
      Record(before, MainStep);
    }

    method JoinThread(k: nat)
      requires Valid() && k < config.workers && pc == 2 * config.N() + config.workers + k
      modifies this`inputQueue, this`outputQueue, this`threads, this`signal, this`pc, this`history
      ensures Valid() && pc == old(pc) + 1
    {
      ValidInv();
      while !threads[k].Exited?
        invariant Valid() && |threads| == config.workers && pc == old(pc)
        decreases Left()
      {
        WaitForOthers();
        ValidInv();
      }
      ghost var before := Abs();
      pc := pc + 1;
      Record(before, MainStep);
    }

    // What the counters hold, told by the results alone.
    ghost predicate CountedByCode()
      reads this
    {
      && passedTests == |WithCode(collected, 0)|
      && failedTests == |WithCode(collected, 1)|
      && valgrindErrors == |WithCode(collected, 2)|
      && crashedTests == |WithOtherCode(collected, {0, 1, 2})|
      && skippedTests == |SkippedAt(collected)|
    }

    // What the counters hold when no test was interrupted, told by the tests alone.
    ghost predicate CountedByTests()
      reads this
    {
      && passedTests == |TestsWithCode(config.tests, 0)|
      && failedTests == |TestsWithCode(config.tests, 1)|
      && valgrindErrors == |TestsWithCode(config.tests, 2)|
      && crashedTests == |TestsWithOtherCode(config.tests, {0, 1, 2})|
      && skippedTests == |TestsSkipped(config.tests)|
    }

    // What the counters hold once every worker has been joined.
    lemma FinalCounts()
      requires Valid() && Done(config, Abs())
      ensures |collected| == |config.tests|
      ensures passedTests + failedTests + valgrindErrors + crashedTests + skippedTests
            + |GivenUpAt(collected)| == |config.tests|
      ensures CountedByCode() && (Interrupt !in history ==> CountedByTests())
      ensures passedTests + skippedTests == |config.tests| <==> Clean(config, collected)
      ensures Interrupt !in history ==>
        (Clean(config, collected) <==> forall t | t in config.tests :: t.isSkip || t.exitCode == 0)
    {
      ValidInv();
      FinishedQueuesEmpty(config, Abs());
      CountsSum(collected);
      CountsByCode(collected);
      ExpectedByCode(config.tests);
      ReturnsZeroIff(config, Abs());
      QuietIffNoInterrupt(config, Init(config), history, Abs());
      if signal == NoSignal {
        FinalCount(config, Abs(), Pass);
        FinalCount(config, Abs(), Fail);
        FinalCount(config, Abs(), ValgrindError);
        FinalCount(config, Abs(), Crash);
        FinalCount(config, Abs(), Skip);
        CleanIffTestsGood(config, Abs());
      }
    }

    /** A complete run.  It terminates whenever there is a worker or nothing to run; it ends in a final
        state of the protocol with every result counted, and its value tells whether all went well. */
    method RunTests() returns (result: int)
      requires Valid() && pc == 0
      requires config.workers > 0 || config.tests == []
      modifies this
      ensures Valid() && Done(config, Abs())
      ensures |collected| == |config.tests|
      ensures passedTests + failedTests + valgrindErrors + crashedTests + skippedTests
            + |GivenUpAt(collected)| == |config.tests|
      ensures CountedByCode() && (Interrupt !in history ==> CountedByTests())
      ensures result == 0 || result == 1
      ensures result == 0 <==> Clean(config, collected)
      ensures Interrupt !in history ==> (result == 0 <==> forall t | t in config.tests :: t.isSkip || t.exitCode == 0)
    {
      var jobs := 0;
      for k := 0 to |config.tests|
        invariant Valid() && pc == k == jobs
      {
        Interfere();
        PutJob(k);
        jobs := jobs + 1;
      }
      for k := 0 to config.workers
        invariant Valid() && pc == config.N() + k
      {
        Interfere();
        PutStopToken(k);
      }
      for k := 0 to jobs
        invariant Valid() && pc == config.N() + config.workers + k
      {
        Interfere();
        CollectOne();
      }
      for k := 0 to config.workers
        invariant Valid() && pc == 2 * config.N() + config.workers + k
      {
        Interfere();
        JoinThread(k);
      }
      FinalCounts();
      result := if passedTests + skippedTests == jobs then 0 else 1;
    }
  }
}
