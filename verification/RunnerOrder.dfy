/** The two queues of the test runner are first in, first out, every code counted was returned by a
    subprocess, and a SIGINT stops exactly the tests that have not been started when it is handled. */
module RunnerOrder {
  import opened RunnerProtocol
  import opened RunnerSafety
  import opened RunnerProgress
  import opened RunnerTally

  // ------------------------------------------------------------------ the queues

  // The input queue holds the jobs made last, in the order in which they were made.
  predicate InputInOrder(c: Config, s: State) {
    var made := if s.pc < c.N() + c.workers then s.pc else c.N() + c.workers;
    && |s.inputQueue| <= made
    && forall k | 0 <= k < |s.inputQueue| :: s.inputQueue[k].id == made - |s.inputQueue| + k
  }

  lemma StepKeepsInput(c: Config, s: State, step: Step)
    requires Enabled(c, s, step) && InputInOrder(c, s)
    ensures InputInOrder(c, Next(c, s, step))
  {
    if step.WorkerStep? && s.workers[step.w].Idle? {
      assert forall k | 0 <= k < |s.inputQueue| - 1 :: s.inputQueue[1..][k] == s.inputQueue[k + 1];
    }
  }

  // The results in the order in which they were reported; the first of them have been collected.
  function Results(s: State): seq<Job> {
    s.collected + s.outputQueue
  }

  lemma StepKeepsResults(c: Config, s: State, step: Step)
    requires Enabled(c, s, step)
    ensures Results(s) <= Results(Next(c, s, step))
  {
    var s' := Next(c, s, step);
    if step.MainStep? && MainAction(c, s.pc).Collect? {
      assert s.outputQueue == [s.outputQueue[0]] + s.outputQueue[1..];
      assert Results(s') == Results(s);
    } else {
      assert s'.collected == s.collected && s.outputQueue <= s'.outputQueue;
    }
  }

  /** Jobs are taken from the input queue in the order in which they were put there, and results are
      collected in the order in which they were reported. */
  lemma {:induction false} QueuesInOrder(c: Config, s: State, steps: seq<Step>, s': State)
    requires Run(c, s, steps, s') && InputInOrder(c, s)
    ensures InputInOrder(c, s') && Results(s) <= Results(s')
    decreases |steps|
  {
    if steps != [] {
      var last := |steps| - 1;
      var mid :| Run(c, s, steps[..last], mid) && Enabled(c, mid, steps[last]) && s' == Next(c, mid, steps[last]);
      QueuesInOrder(c, s, steps[..last], mid);
      StepKeepsInput(c, mid, steps[last]);
      StepKeepsResults(c, mid, steps[last]);
    }
  }

  lemma InitInOrder(c: Config)
    ensures InputInOrder(c, Init(c))
  {
  }

  // ------------------------------------------------------------------ return codes

  ghost predicate ReturnedIn(steps: seq<Step>, j: Job) {
    j.isBreak || j.isSkip || exists w :: WorkerStep(w, j.returncode) in steps
  }

  lemma NewResult(c: Config, s: State, step: Step, j: Job)
    requires Inv(c, s) && Enabled(c, s, step) && j in Results(Next(c, s, step)) && j !in Results(s)
    ensures ReturnedIn([step], j)
  {
    if step.WorkerStep? {
      assert WorkerWellFormed(c, s.workers[step.w], s.signal);
      assert j in Next(c, s, step).outputQueue && j !in s.outputQueue;
      assert step in [step];
    } else {
      StepKeepsResults(c, s, step);
      assert false;
    }
  }

  /** Every result that was neither given up nor skipped has the code that some subprocess returned. */
  lemma {:induction false} CodesAreReturned(c: Config, steps: seq<Step>, s: State, j: Job)
    requires Run(c, Init(c), steps, s) && j in Results(s)
    ensures ReturnedIn(steps, j)
    decreases |steps|
  {
    if steps != [] {
      var last := |steps| - 1;
      var mid :| Run(c, Init(c), steps[..last], mid) && Enabled(c, mid, steps[last]) && s == Next(c, mid, steps[last]);
      InitInv(c);
      RunInv(c, Init(c), steps[..last], mid);
      if j in Results(mid) {
        CodesAreReturned(c, steps[..last], mid, j);
        if w :| WorkerStep(w, j.returncode) in steps[..last] {
          assert WorkerStep(w, j.returncode) in steps;
        }
      } else {
        NewResult(c, mid, steps[last], j);
        if w :| WorkerStep(w, j.returncode) in [steps[last]] {
          assert WorkerStep(w, j.returncode) in steps;
        }
      }
    }
  }

  // ------------------------------------------------------------------ what a SIGINT stops

  // Test i has been started, or it has been decided to skip it.
  ghost predicate UnderWay(s: State, i: nat) {
    || (exists w :: 0 <= w < |s.workers| && WorkerHas(s.workers[w], i))
    || (exists j :: j in Results(s) && j.id == i && !j.isBreak)
  }

  predicate WorkerHas(w: Worker, i: nat) {
    (w.Running? && w.job.id == i) || (w.Reporting? && w.job.id == i && !w.job.isBreak)
  }

  lemma ResultStaysUnderWay(c: Config, s: State, step: Step, i: nat)
    requires Enabled(c, s, step) && exists j :: j in Results(s) && j.id == i && !j.isBreak
    ensures UnderWay(Next(c, s, step), i)
  {
    var j :| j in Results(s) && j.id == i && !j.isBreak;
    StepKeepsResults(c, s, step);
    var k :| 0 <= k < |Results(s)| && Results(s)[k] == j;
    assert Results(Next(c, s, step))[k] == j;
  }

  lemma WorkerStaysUnderWay(c: Config, s: State, step: Step, i: nat, w: nat)
    requires Inv(c, s) && Enabled(c, s, step) && w < |s.workers| && WorkerHas(s.workers[w], i)
    ensures UnderWay(Next(c, s, step), i)
  {
    var s' := Next(c, s, step);
    assert WorkerWellFormed(c, s.workers[w], s.signal);
    if step.WorkerStep? && step.w == w {
      var j := s'.outputQueue[|s'.outputQueue| - 1];
      assert j in Results(s') && j.id == i && !j.isBreak;
    } else {
      assert WorkerHas(s'.workers[w], i);
    }
  }

  // Once the signal has been handled nothing gets under way any more.
  lemma NothingStarts(c: Config, s: State, step: Step, i: nat)
    requires Inv(c, s) && Enabled(c, s, step) && s.signal == Handled && i < c.N() && !UnderWay(s, i)
    ensures !UnderWay(Next(c, s, step), i)
  {
    var s' := Next(c, s, step);
    forall w | 0 <= w < |s'.workers|
      ensures !WorkerHas(s'.workers[w], i)
    {
      assert !WorkerHas(s.workers[w], i);
      assert WorkerWellFormed(c, s.workers[w], s.signal);
    }
    forall j | j in Results(s') && j.id == i
      ensures j.isBreak
    {
      if j !in Results(s) {
        NewGivenUp(c, s, step, j);
      }
    }
  }

  lemma NewGivenUp(c: Config, s: State, step: Step, j: Job)
    requires Inv(c, s) && Enabled(c, s, step) && j in Results(Next(c, s, step)) && j !in Results(s)
    ensures j.isBreak || exists w :: 0 <= w < |s.workers| && WorkerHas(s.workers[w], j.id)
  {
    if step.WorkerStep? {
      assert WorkerWellFormed(c, s.workers[step.w], s.signal);
      assert j in Next(c, s, step).outputQueue && j !in s.outputQueue;
      assert j.isBreak || WorkerHas(s.workers[step.w], j.id);
    } else {
      StepKeepsResults(c, s, step);
      assert false;
    }
  }

  lemma {:induction false} UnderWayKept(c: Config, s: State, steps: seq<Step>, s': State, i: nat)
    requires Inv(c, s) && s.signal == Handled && i < c.N() && Run(c, s, steps, s')
    ensures Inv(c, s') && s'.signal == Handled
    ensures UnderWay(s', i) <==> UnderWay(s, i)
    decreases |steps|
  {
    if steps != [] {
      var last := |steps| - 1;
      var mid :| Run(c, s, steps[..last], mid) && Enabled(c, mid, steps[last]) && s' == Next(c, mid, steps[last]);
      UnderWayKept(c, s, steps[..last], mid, i);
      StepInv(c, mid, steps[last]);
      if UnderWay(mid, i) {
        if w :| 0 <= w < |mid.workers| && WorkerHas(mid.workers[w], i) {
          WorkerStaysUnderWay(c, mid, steps[last], i, w);
        } else {
          ResultStaysUnderWay(c, mid, steps[last], i);
        }
      } else {
        NothingStarts(c, mid, steps[last], i);
      }
    }
  }

  /** From the moment a SIGINT has been handled, whatever the schedule: the result of a test is given up in
      the end, exactly when the test is not under way at that moment. */
  lemma GivenUpIffNotUnderWay(c: Config, s: State, steps: seq<Step>, s': State, i: nat)
    requires Reachable(c, s) && s.signal == Handled && i < c.N() && Run(c, s, steps, s') && Done(c, s')
    ensures (exists j :: j in s'.collected && j.id == i && j.isBreak) <==> !UnderWay(s, i)
  {
    ReachableInv(c, s);
    UnderWayKept(c, s, steps, s', i);
    NonePassedOver(c, s', i);
    FinishedQueuesEmpty(c, s');
    var j :| j in s'.collected && j.id == i;
    assert Results(s') == s'.collected;
    forall w | 0 <= w < |s'.workers|
      ensures !WorkerHas(s'.workers[w], i)
    {
      assert s'.workers[w].Exited?;
    }
  }

  // ------------------------------------------------------------------ the number of threads

  /** One thread for each processor, unless --jobs asks for fewer; none if it asks for a negative number. */
  lemma ThreadsStarted(processors: int, limit: int, tests: seq<Test>)
    requires processors >= 1
    ensures Configure(processors, limit, tests).tests == tests
    ensures limit == 0 || limit >= processors ==> Configure(processors, limit, tests).workers == processors
    ensures 0 < limit < processors ==> Configure(processors, limit, tests).workers == limit
    ensures limit < 0 ==> Configure(processors, limit, tests).workers == 0
  {
  }
}
