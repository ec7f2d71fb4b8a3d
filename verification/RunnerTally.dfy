/** The counters of the summary: every collected result is counted once, the totals do not depend on the
    schedule, and the value returned by the runner is 0 exactly when nothing went wrong. */
module RunnerTally {
  import opened RunnerProtocol
  import opened RunnerSafety
  import opened RunnerProgress

  datatype Verdict = Pass | Fail | ValgrindError | Crash | Skip | Interrupted

  function VerdictOf(j: Job): Verdict {
    if j.isBreak then Interrupted
    else if j.isSkip then Skip
    else CodeVerdict(j.returncode)
  }

  function CodeVerdict(code: int): Verdict {
    if code == 0 then Pass else if code == 1 then Fail else if code == 2 then ValgrindError else Crash
  }

  // The verdict of a test that is not interrupted.
  function Expected(t: Test): Verdict {
    if t.isSkip then Skip else CodeVerdict(t.exitCode)
  }

  function Count(jobs: seq<Job>, v: Verdict): nat {
    if jobs == [] then 0 else Count(jobs[..|jobs| - 1], v) + if VerdictOf(jobs[|jobs| - 1]) == v then 1 else 0
  }

  function ExpectedCount(tests: seq<Test>, v: Verdict): nat {
    if tests == [] then 0
    else ExpectedCount(tests[..|tests| - 1], v) + if Expected(tests[|tests| - 1]) == v then 1 else 0
  }

  function ReturnValue(jobs: seq<Job>, total: nat): int {
    if Count(jobs, Pass) + Count(jobs, Skip) == total then 0 else 1
  }

  lemma CountAppend(jobs: seq<Job>, j: Job)
    ensures forall v :: Count(jobs + [j], v) == Count(jobs, v) + if VerdictOf(j) == v then 1 else 0
  {
    assert (jobs + [j])[..|jobs|] == jobs;
  }

  lemma {:induction false} CountsSum(jobs: seq<Job>)
    ensures Count(jobs, Pass) + Count(jobs, Fail) + Count(jobs, ValgrindError) + Count(jobs, Crash)
          + Count(jobs, Skip) + Count(jobs, Interrupted) == |jobs|
  {
    if jobs != [] {
      CountsSum(jobs[..|jobs| - 1]);
    }
  }

  lemma {:induction false} CountZeroIff(jobs: seq<Job>, v: Verdict)
    ensures Count(jobs, v) == 0 <==> forall j | j in jobs :: VerdictOf(j) != v
  {
    if jobs != [] {
      var rest := jobs[..|jobs| - 1];
      CountZeroIff(rest, v);
      assert jobs == rest + [jobs[|jobs| - 1]];
    }
  }

  // ------------------------------------------------------------------ what is counted

  // The positions of the results that were not given up and came with this code, with any other code than
  // these, that were skipped, and that were given up.
  function WithCode(jobs: seq<Job>, code: int): set<nat> {
    set k: nat | k < |jobs| && !jobs[k].isBreak && !jobs[k].isSkip && jobs[k].returncode == code
  }

  function WithOtherCode(jobs: seq<Job>, codes: set<int>): set<nat> {
    set k: nat | k < |jobs| && !jobs[k].isBreak && !jobs[k].isSkip && jobs[k].returncode !in codes
  }

  function SkippedAt(jobs: seq<Job>): set<nat> {
    set k: nat | k < |jobs| && !jobs[k].isBreak && jobs[k].isSkip
  }

  function GivenUpAt(jobs: seq<Job>): set<nat> {
    set k: nat | k < |jobs| && jobs[k].isBreak
  }

  // The tests whose subprocess exits with this code, with any other code than these, and those skipped.
  function TestsWithCode(tests: seq<Test>, code: int): set<nat> {
    set i: nat | i < |tests| && !tests[i].isSkip && tests[i].exitCode == code
  }

  function TestsWithOtherCode(tests: seq<Test>, codes: set<int>): set<nat> {
    set i: nat | i < |tests| && !tests[i].isSkip && tests[i].exitCode !in codes
  }

  function TestsSkipped(tests: seq<Test>): set<nat> {
    set i: nat | i < |tests| && tests[i].isSkip
  }

  lemma {:induction false} CountIs(jobs: seq<Job>, v: Verdict, s: set<nat>)
    requires forall k: nat :: k in s <==> k < |jobs| && VerdictOf(jobs[k]) == v
    ensures Count(jobs, v) == |s|
  {
    if jobs == [] {
      assert s == {};
    } else {
      var last := |jobs| - 1;
      CountIs(jobs[..last], v, s - {last});
      assert last !in s ==> s - {last} == s;
    }
  }

  lemma {:induction false} ExpectedIs(tests: seq<Test>, v: Verdict, s: set<nat>)
    requires forall i: nat :: i in s <==> i < |tests| && Expected(tests[i]) == v
    ensures ExpectedCount(tests, v) == |s|
  {
    if tests == [] {
      assert s == {};
    } else {
      var last := |tests| - 1;
      ExpectedIs(tests[..last], v, s - {last});
      assert last !in s ==> s - {last} == s;
    }
  }

  /** A result that was given up is interrupted; another is skipped if its test was; of the others, code 0 is
      a pass, 1 a failure, 2 an error found by valgrind, and any other code a crash. */
  lemma CountsByCode(jobs: seq<Job>)
    ensures Count(jobs, Pass) == |WithCode(jobs, 0)|
    ensures Count(jobs, Fail) == |WithCode(jobs, 1)|
    ensures Count(jobs, ValgrindError) == |WithCode(jobs, 2)|
    ensures Count(jobs, Crash) == |WithOtherCode(jobs, {0, 1, 2})|
    ensures Count(jobs, Skip) == |SkippedAt(jobs)|
    ensures Count(jobs, Interrupted) == |GivenUpAt(jobs)|
  {
    CountIs(jobs, Pass, WithCode(jobs, 0));
    CountIs(jobs, Fail, WithCode(jobs, 1));
    CountIs(jobs, ValgrindError, WithCode(jobs, 2));
    CountIs(jobs, Crash, WithOtherCode(jobs, {0, 1, 2}));
    CountIs(jobs, Skip, SkippedAt(jobs));
    CountIs(jobs, Interrupted, GivenUpAt(jobs));
  }

  /** The same for the tests, had none been interrupted. */
  lemma ExpectedByCode(tests: seq<Test>)
    ensures ExpectedCount(tests, Pass) == |TestsWithCode(tests, 0)|
    ensures ExpectedCount(tests, Fail) == |TestsWithCode(tests, 1)|
    ensures ExpectedCount(tests, ValgrindError) == |TestsWithCode(tests, 2)|
    ensures ExpectedCount(tests, Crash) == |TestsWithOtherCode(tests, {0, 1, 2})|
    ensures ExpectedCount(tests, Skip) == |TestsSkipped(tests)|
  {
    ExpectedIs(tests, Pass, TestsWithCode(tests, 0));
    ExpectedIs(tests, Fail, TestsWithCode(tests, 1));
    ExpectedIs(tests, ValgrindError, TestsWithCode(tests, 2));
    ExpectedIs(tests, Crash, TestsWithOtherCode(tests, {0, 1, 2}));
    ExpectedIs(tests, Skip, TestsSkipped(tests));
  }

  // ------------------------------------------------------------------ independence of the schedule

  // Counting the results of the tests with verdict v, test by test.
  function CountByTest(tests: seq<Test>, jobs: seq<Job>, v: Verdict): int {
    if tests == [] then 0
    else
      var last := |tests| - 1;
      CountByTest(tests[..last], jobs, v)
      + if Expected(tests[last]) == v then QueueSum(jobs, Collected, IdCharge(last)) else 0
  }

  lemma {:induction false} CountByTestAppend(tests: seq<Test>, jobs: seq<Job>, j: Job, v: Verdict)
    ensures CountByTest(tests, jobs + [j], v)
      == CountByTest(tests, jobs, v) + if j.id < |tests| && Expected(tests[j.id]) == v then 1 else 0
  {
    if tests != [] {
      var last := |tests| - 1;
      CountByTestAppend(tests[..last], jobs, j, v);
      QueueSumAppend(jobs, j, Collected, IdCharge(last));
    }
  }

  lemma {:induction false} CountByTestNone(tests: seq<Test>, v: Verdict)
    ensures CountByTest(tests, [], v) == 0
  {
    if tests != [] {
      CountByTestNone(tests[..|tests| - 1], v);
    }
  }

  lemma {:induction false} CountTwoWays(c: Config, jobs: seq<Job>, v: Verdict)
    requires QueueWellFormed(c, jobs, Collected, NoSignal)
    ensures Count(jobs, v) == CountByTest(c.tests, jobs, v)
  {
    if jobs == [] {
      CountByTestNone(c.tests, v);
    } else {
      var rest, j := jobs[..|jobs| - 1], jobs[|jobs| - 1];
      assert jobs == rest + [j];
      CountTwoWays(c, rest, v);
      CountByTestAppend(c.tests, rest, j, v);
      assert WellFormed(c, j, Collected, NoSignal);
    }
  }

  lemma {:induction false} CountByTestOnce(tests: seq<Test>, jobs: seq<Job>, v: Verdict)
    requires forall i | 0 <= i < |tests| :: QueueSum(jobs, Collected, IdCharge(i)) == 1
    ensures CountByTest(tests, jobs, v) == ExpectedCount(tests, v)
  {
    if tests != [] {
      CountByTestOnce(tests[..|tests| - 1], jobs, v);
    }
  }

  lemma FinalCount(c: Config, s: State, v: Verdict)
    requires Inv(c, s) && Done(c, s) && s.signal == NoSignal
    ensures Count(s.collected, v) == ExpectedCount(c.tests, v)
  {
    forall i | 0 <= i < c.N()
      ensures QueueSum(s.collected, Collected, IdCharge(i)) == 1
    {
      CollectedOnce(c, s, i);
    }
    CountTwoWays(c, s.collected, v);
    CountByTestOnce(c.tests, s.collected, v);
  }

  lemma StepSignal(c: Config, s: State, step: Step)
    requires Enabled(c, s, step)
    ensures Next(c, s, step).signal == NoSignal <==> s.signal == NoSignal && step != Interrupt
  {
  }

  lemma {:induction false} QuietIffNoInterrupt(c: Config, s: State, steps: seq<Step>, s': State)
    requires Run(c, s, steps, s')
    ensures s'.signal == NoSignal <==> s.signal == NoSignal && Interrupt !in steps
    decreases |steps|
  {
    if steps != [] {
      var last := |steps| - 1;
      var mid :| Run(c, s, steps[..last], mid) && Enabled(c, mid, steps[last]) && s' == Next(c, mid, steps[last]);
      QuietIffNoInterrupt(c, s, steps[..last], mid);
      StepSignal(c, mid, steps[last]);
      assert Interrupt in steps <==> Interrupt in steps[..last] || steps[last] == Interrupt by {
        assert steps == steps[..last] + [steps[last]];
      }
    }
  }

  /** Two complete runs without a SIGINT end with the same counts, whatever their schedules: the counts
      are those of the list of tests. */
  lemma ScheduleIndependent(c: Config, steps1: seq<Step>, s1: State, steps2: seq<Step>, s2: State, v: Verdict)
    requires Run(c, Init(c), steps1, s1) && Done(c, s1) && Interrupt !in steps1
    requires Run(c, Init(c), steps2, s2) && Done(c, s2) && Interrupt !in steps2
    ensures Count(s1.collected, v) == Count(s2.collected, v) == ExpectedCount(c.tests, v)
  {
    InitInv(c);
    RunInv(c, Init(c), steps1, s1);
    RunInv(c, Init(c), steps2, s2);
    QuietIffNoInterrupt(c, Init(c), steps1, s1);
    QuietIffNoInterrupt(c, Init(c), steps2, s2);
    FinalCount(c, s1, v);
    FinalCount(c, s2, v);
  }

  // ------------------------------------------------------------------ the value returned

  // The result of test i is among the jobs, was not given up, and was skipped or came with code 0.
  ghost predicate Succeeded(c: Config, jobs: seq<Job>, i: nat)
    requires i < c.N()
  {
    exists j :: j in jobs && j.id == i && !j.isBreak && (c.tests[i].isSkip || j.returncode == 0)
  }

  ghost predicate Clean(c: Config, jobs: seq<Job>) {
    forall i | 0 <= i < c.N() :: Succeeded(c, jobs, i)
  }

  lemma NonePassedOver(c: Config, s: State, i: nat)
    requires Inv(c, s) && Done(c, s) && i < c.N()
    ensures exists j :: j in s.collected && j.id == i
    ensures forall j, l | j in s.collected && l in s.collected && j.id == l.id == i :: j == l
  {
    CollectedOnce(c, s, i);
    QueueSumIds(s.collected, Collected, i);
    var k :| 0 <= k < |s.collected| && s.collected[k].id == i;
    assert s.collected[k] in s.collected;
  }

  lemma ZeroIffAllGood(jobs: seq<Job>)
    ensures ReturnValue(jobs, |jobs|) == 0 <==> forall j | j in jobs :: VerdictOf(j) == Pass || VerdictOf(j) == Skip
  {
    CountsSum(jobs);
    CountZeroIff(jobs, Fail);
    CountZeroIff(jobs, ValgrindError);
    CountZeroIff(jobs, Crash);
    CountZeroIff(jobs, Interrupted);
  }

  lemma GoodIffSucceeded(c: Config, s: State, j: Job)
    requires Inv(c, s) && Done(c, s) && j in s.collected
    ensures j.id < c.N()
    ensures VerdictOf(j) == Pass || VerdictOf(j) == Skip <==> Succeeded(c, s.collected, j.id)
  {
    assert WellFormed(c, j, Collected, s.signal);
    NonePassedOver(c, s, j.id);
  }

  /** The runner returns 0 exactly when, for every test, no result was given up after a SIGINT and the test
      was skipped or its subprocess exited with code 0. */
  lemma ReturnsZeroIff(c: Config, s: State)
    requires Inv(c, s) && Done(c, s)
    ensures ReturnValue(s.collected, c.N()) == 0 <==> Clean(c, s.collected)
  {
    FinishedQueuesEmpty(c, s);
    ZeroIffAllGood(s.collected);
    if ReturnValue(s.collected, c.N()) == 0 {
      forall i | 0 <= i < c.N()
        ensures Succeeded(c, s.collected, i)
      {
        NonePassedOver(c, s, i);
        var j :| j in s.collected && j.id == i;
        GoodIffSucceeded(c, s, j);
      }
    } else {
      var j :| j in s.collected && VerdictOf(j) != Pass && VerdictOf(j) != Skip;
      GoodIffSucceeded(c, s, j);
    }
  }

  /** Without a SIGINT that is a property of the list of tests. */
  lemma CleanIffTestsGood(c: Config, s: State)
    requires Inv(c, s) && Done(c, s) && s.signal == NoSignal
    ensures Clean(c, s.collected) <==> forall t | t in c.tests :: t.isSkip || t.exitCode == 0
  {
    forall i | 0 <= i < c.N()
      ensures Succeeded(c, s.collected, i) <==> c.tests[i].isSkip || c.tests[i].exitCode == 0
    {
      NonePassedOver(c, s, i);
      var j :| j in s.collected && j.id == i;
      assert WellFormed(c, j, Collected, s.signal);
      GoodIffSucceeded(c, s, j);
    }
  }
}
