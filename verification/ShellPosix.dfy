/** What a shell makes of a parsed pipeline: the left-to-right reading of its connectors (section 2.9.3 of
    the POSIX.1-2017 Shell Command Language), the pipes and redirections of its commands (2.7 and 2.9.2), and
    exactly when running the pipeline agrees with that. */
module ShellPosix {
  import opened Wrappers
  import opened ShellSyntax
  import opened ShellEval
  import opened ShellPaths

  // Whether the operand after a connector is run, given the status of the list so far.
  predicate Proceeds(op: Node, status: int) {
    if op == And then status == 0 else status != 0
  }

  // Whether the next operand is run, the status so far, the directory, and the processes started.
  datatype Reading = Reading(run: bool, status: int, cwd: string, started: seq<Launch>)

  // Whether the operand at position i stands behind a pipe; then it runs in a subshell.
  predicate ReadsPipe(ns: seq<Node>, i: nat)
    requires i <= |ns|
  {
    i > 0 && ns[i - 1] == Pipe
  }

  // A shell opens the files of a command in the directory that the command runs in.
  function ShellSink(target: Target, cwd: string): Sink {
    match target
    case Inherit => InheritedOutput
    case ToPipe => ToReader
    case ToStdout => WithOutput
    case ToFile(f) => if f == "/dev/null" then NullDevice else IntoFile(FileIn(cwd, f))
  }

  // The process a shell starts for the command at position i.  The pipe is assigned to its standard input
  // before its redirections are performed, so an input file takes the place of the pipe.
  function ShellLaunch(ns: seq<Node>, i: nat, cwd: string): Launch
    requires i < |ns| && i % 2 == 0 && ns[i].Command?
  {
    Launch(i,
           if cwd == "." then None else Some(cwd),
           if ns[i].stdin.Some? then FromFile(FileIn(cwd, ns[i].stdin.value))
           else if ReadsPipe(ns, i) then PipedFrom(i - 2)
           else InheritedInput,
           ShellSink(ns[i].stdout, cwd),
           ShellSink(ns[i].stderr, cwd))
  }

  // After the operand at position i; inside a piped group the status is still open.
  function AfterOperand(ns: seq<Node>, i: nat, r: Reading, oracle: Oracle): Reading
    requires Shaped(ns) && i < |ns| && i % 2 == 0
  {
    assert NodeOk(ns, i);
    if !r.run then r
    else if ns[i].Chdir? then
      r.(status := 0,
         cwd := if ns[i].dir.Some? && !ReadsPipe(ns, i) then JoinPath(r.cwd, ns[i].dir.value) else r.cwd)
    else
      var started := r.started + [ShellLaunch(ns, i, r.cwd)];
      if i + 1 < |ns| && ns[i + 1] == Pipe then r.(started := started)
      else r.(status := oracle(started, |started| - 1), started := started)
  }

  // A connector decides whether the operand after it is run; a pipe decides nothing.
  function AfterConnector(op: Node, r: Reading): Reading {
    if op == Pipe then r else r.(run := Proceeds(op, r.status))
  }

  /** The left-associative reading: every connector decides only about the operand after it, from the
      status of everything before it; an operand that is not run leaves the status alone.  A directory
      change that is run succeeds; at the end of a piped group it changes the directory of a subshell. */
  function Posix(ns: seq<Node>, i: nat, r: Reading, oracle: Oracle): Reading
    requires Shaped(ns) && i <= |ns| && i % 2 == 0
    decreases |ns| - i
  {
    if i == |ns| then r
    else if i + 1 == |ns| then AfterOperand(ns, i, r, oracle)
    else Posix(ns, i + 2, AfterConnector(ns[i + 1], AfterOperand(ns, i, r, oracle)), oracle)
  }

  function PosixRun(ns: seq<Node>, oracle: Oracle): Reading
    requires Shaped(ns)
  {
    Posix(ns, 0, Reading(true, 0, ".", []), oracle)
  }

  function OutcomeOf(r: Reading): Outcome {
    Outcome(Exit(r.status), r.started)
  }

  ghost predicate AgreesWithPosix(ns: seq<Node>, oracle: Oracle)
    requires Shaped(ns)
  {
    Eval(ns, 0, oracle) == OutcomeOf(PosixRun(ns, oracle))
  }

  // ------------------------------------------------------------------ where the readings can differ

  predicate ChdirInPipe(ns: seq<Node>, i: nat)
    requires i < |ns|
  {
    ns[i].Chdir? && ReadsPipe(ns, i)
  }

  predicate NoChdirInPipe(ns: seq<Node>) {
    forall i | 0 <= i < |ns| :: !ChdirInPipe(ns, i)
  }

  // A directory change that takes effect: it does not just name the directory it is in.
  predicate MovesAt(ns: seq<Node>, k: nat)
    requires k < |ns|
  {
    ns[k].Chdir? && ns[k].dir.Some? && !IsHere(ns[k].dir.value)
  }

  predicate MovedBefore(ns: seq<Node>, i: nat)
    requires i <= |ns|
  {
    exists k :: 0 <= k < i && MovesAt(ns, k)
  }

  predicate SamePlace(ns: seq<Node>, i: nat, file: string)
    requires i <= |ns|
  {
    IsAbsolute(file) || !MovedBefore(ns, i)
  }

  predicate SameTarget(ns: seq<Node>, i: nat, target: Target)
    requires i <= |ns|
  {
    target.ToFile? ==> target.file != "NUL:" && SamePlace(ns, i, target.file)
  }

  // A command that reads a pipe has no input file, no relative redirection follows a directory change that
  // took effect, and none writes to the file named NUL: .
  predicate SameStreams(ns: seq<Node>, i: nat)
    requires i < |ns|
  {
    ns[i].Command? ==>
      && (ns[i].stdin.Some? ==> !ReadsPipe(ns, i) && SamePlace(ns, i, ns[i].stdin.value))
      && SameTarget(ns, i, ns[i].stdout)
      && SameTarget(ns, i, ns[i].stderr)
  }

  predicate StreamsAgree(ns: seq<Node>) {
    forall i | 0 <= i < |ns| :: SameStreams(ns, i)
  }

  // The operand at position i is the same in both readings, if all before it are.
  predicate Alike(ns: seq<Node>, i: nat)
    requires i < |ns|
  {
    !ChdirInPipe(ns, i) && SameStreams(ns, i)
  }

  predicate AlikeBefore(ns: seq<Node>, j: nat)
    requires j <= |ns|
  {
    forall i | 0 <= i < j :: Alike(ns, i)
  }

  predicate Without(ns: seq<Node>, i: nat, op: Node) {
    forall k | i <= k < |ns| :: ns[k] != op
  }

  function FirstCommand(ns: seq<Node>, i: nat): (f: nat)
    requires i <= |ns|
    ensures i <= f <= |ns| && (f < |ns| ==> ns[f].Command?) && (forall k | i <= k < f :: !ns[k].Command?)
    decreases |ns| - i
  {
    if i == |ns| || ns[i].Command? then i else FirstCommand(ns, i + 1)
  }

  // Every connector after the leading directory changes is of one kind.
  predicate OneKind(ns: seq<Node>) {
    var f := FirstCommand(ns, 0);
    Without(ns, f, Or) || Without(ns, f, And)
  }

  // ------------------------------------------------------------------ one kind of connector

  // Where no directory change reads a pipe, the executor sees the pipe that a shell sees.
  lemma {:induction false} SameSource(ns: seq<Node>, i: nat)
    requires Shaped(ns) && i <= |ns| && i % 2 == 0 && AlikeBefore(ns, i)
    ensures PipeSource(ns, i) == if ReadsPipe(ns, i) then Some(i - 2) else None
  {
    if i > 0 && !ReadsPipe(ns, i) && ns[i - 2].Chdir? {
      assert Alike(ns, i - 2);
      SameSource(ns, i - 2);
    }
  }

  // The directory is the one it all started in, exactly when no change has taken effect.
  lemma {:induction false} HereIff(ns: seq<Node>, i: nat)
    requires Shaped(ns) && i <= |ns| && i % 2 == 0
    ensures DirBefore(ns, i) != ""
    ensures IsHere(DirBefore(ns, i)) <==> !MovedBefore(ns, i)
  {
    if i > 0 {
      HereIff(ns, i - 2);
      assert NodeOk(ns, i - 1);
      assert MovedBefore(ns, i) <==> MovedBefore(ns, i - 2) || MovesAt(ns, i - 2) by {
        if k :| 0 <= k < i && MovesAt(ns, k) {
          assert k != i - 1;
          assert k < i - 2 ==> MovedBefore(ns, i - 2);
        }
      }
      if ns[i - 2].Chdir? && ns[i - 2].dir.Some? {
        StaysHereIff(DirBefore(ns, i - 2), ns[i - 2].dir.value);
      }
    }
  }

  lemma SinkIff(ns: seq<Node>, i: nat, target: Target)
    requires Shaped(ns) && i <= |ns| && i % 2 == 0
    ensures ShellSink(target, DirBefore(ns, i)) == SinkOf(target) <==> SameTarget(ns, i, target)
  {
    HereIff(ns, i);
  }

  lemma SourceIff(ns: seq<Node>, i: nat)
    requires Shaped(ns) && i < |ns| && i % 2 == 0 && AlikeBefore(ns, i) && ns[i].Command?
    ensures ShellLaunch(ns, i, DirBefore(ns, i)).stdin == LaunchIn(ns, i, DirBefore(ns, i)).stdin
      <==> (ns[i].stdin.Some? ==> !ReadsPipe(ns, i) && SamePlace(ns, i, ns[i].stdin.value))
  {
    SameSource(ns, i);
    HereIff(ns, i);
  }

  lemma SameLaunchIff(ns: seq<Node>, i: nat)
    requires Shaped(ns) && i < |ns| && i % 2 == 0 && AlikeBefore(ns, i) && ns[i].Command?
    ensures ShellLaunch(ns, i, DirBefore(ns, i)) == LaunchIn(ns, i, DirBefore(ns, i)) <==> SameStreams(ns, i)
  {
    SourceIff(ns, i);
    SinkIff(ns, i, ns[i].stdout);
    SinkIff(ns, i, ns[i].stderr);
  }

  // After an early end every remaining operand is skipped, and the status stays.
  lemma {:induction false} SkipsRest(ns: seq<Node>, i: nat, r: Reading, oracle: Oracle)
    requires WellFormed(ns) && i <= |ns| && i % 2 == 0 && !r.run
    requires (r.status != 0 && Without(ns, i, Or)) || (r.status == 0 && Without(ns, i, And))
    ensures Posix(ns, i, r, oracle) == r
    decreases |ns| - i
  {
    if i + 1 < |ns| {
      assert NodeOk(ns, i + 1);
      SkipsRest(ns, i + 2, r, oracle);
    }
  }

  lemma ChdirMoves(ns: seq<Node>, i: nat)
    requires i < |ns| && i % 2 == 0 && ns[i].Chdir? && ns[i].dir.Some?
    ensures DirBefore(ns, i + 2) == JoinPath(DirBefore(ns, i), ns[i].dir.value)
    ensures AllLaunches(ns, i + 2) == AllLaunches(ns, i)
  {
  }

  // The reading of a run that nothing has ended before position i.
  function Onwards(ns: seq<Node>, i: nat, status: int): Reading
    requires i <= |ns| + 1 && i % 2 == 0
  {
    Reading(true, status, DirBefore(ns, i), AllLaunches(ns, i))
  }

  // One directory change, and one command, in both readings.
  lemma SameChdir(ns: seq<Node>, i: nat, status: int, oracle: Oracle)
    requires WellFormed(ns) && ChdirsUsable(ns) && i % 2 == 0 && i < |ns| && ns[i].Chdir? && !ReadsPipe(ns, i)
    ensures i + 1 < |ns| && ns[i + 1] == And && Eval(ns, i, oracle) == Eval(ns, i + 2, oracle)
    ensures AfterConnector(ns[i + 1], AfterOperand(ns, i, Onwards(ns, i, status), oracle)) == Onwards(ns, i + 2, 0)
  {
    assert NodeOk(ns, i);
    ChdirMoves(ns, i);
  }

  lemma SameCommand(ns: seq<Node>, i: nat, status: int, oracle: Oracle)
    requires WellFormed(ns) && i % 2 == 0 && i < |ns| && ns[i].Command? && AlikeBefore(ns, i + 1)
    ensures AfterOperand(ns, i, Onwards(ns, i, status), oracle)
      == Onwards(ns, i + 2, if i + 1 < |ns| && ns[i + 1] == Pipe then status else LastCode(ns, i + 2, oracle))
  {
    assert Alike(ns, i);
    SameLaunchIff(ns, i);
  }

  // From position i on the executor does what the reading says, if nothing has ended the run before.
  ghost predicate AgreesFrom(ns: seq<Node>, i: nat, status: int, oracle: Oracle)
    requires Shaped(ns) && i <= |ns| && i % 2 == 0
  {
    Eval(ns, i, oracle) == OutcomeOf(Posix(ns, i, Onwards(ns, i, status), oracle))
  }

  // The command at position i ends the run ...
  lemma AgreesAtEnd(ns: seq<Node>, i: nat, status: int, oracle: Oracle)
    requires WellFormed(ns) && i % 2 == 0 && i < |ns| && ns[i].Command? && AlikeBefore(ns, i + 1)
    requires Without(ns, i, Or) || Without(ns, i, And)
    requires EndsAt(ns, i, LastCode(ns, i + 2, oracle))
    ensures AgreesFrom(ns, i, status, oracle)
  {
    var code := LastCode(ns, i + 2, oracle);
    var r, next := Onwards(ns, i, status), Onwards(ns, i + 2, code);
    assert Eval(ns, i, oracle) == Outcome(Exit(code), AllLaunches(ns, i + 2)) by {
      EvalCommand(ns, i, oracle);
    }
    assert AfterOperand(ns, i, r, oracle) == next by {
      SameCommand(ns, i, status, oracle);
    }
    if i + 1 < |ns| {
      assert AfterConnector(ns[i + 1], next) == next.(run := false);
      SkipsRest(ns, i + 2, next.(run := false), oracle);
      assert Posix(ns, i, r, oracle) == next.(run := false);
    }
  }

  // ... or it does not.
  function StatusAfter(ns: seq<Node>, i: nat, status: int, oracle: Oracle): int
    requires i + 1 < |ns| && i % 2 == 0 && ns[i].Command?
  {
    if ns[i + 1] == Pipe then status else LastCode(ns, i + 2, oracle)
  }

  lemma SameStep(ns: seq<Node>, i: nat, status: int, oracle: Oracle)
    requires WellFormed(ns) && i % 2 == 0 && i + 1 < |ns| && ns[i].Command? && AlikeBefore(ns, i + 1)
    requires !EndsAt(ns, i, LastCode(ns, i + 2, oracle))
    ensures AfterConnector(ns[i + 1], AfterOperand(ns, i, Onwards(ns, i, status), oracle))
      == Onwards(ns, i + 2, StatusAfter(ns, i, status, oracle))
  {
    var next := Onwards(ns, i + 2, StatusAfter(ns, i, status, oracle));
    assert AfterOperand(ns, i, Onwards(ns, i, status), oracle) == next by {
      SameCommand(ns, i, status, oracle);
    }
    assert AfterConnector(ns[i + 1], next) == next by {
      assert NodeOk(ns, i + 1);
    }
  }

  lemma AgreesOnward(ns: seq<Node>, i: nat, status: int, oracle: Oracle)
    requires WellFormed(ns) && i % 2 == 0 && i + 1 < |ns| && ns[i].Command? && AlikeBefore(ns, i + 1)
    requires !EndsAt(ns, i, LastCode(ns, i + 2, oracle))
    requires AgreesFrom(ns, i + 2, StatusAfter(ns, i, status, oracle), oracle)
    ensures AgreesFrom(ns, i, status, oracle)
  {
    assert Eval(ns, i, oracle) == Eval(ns, i + 2, oracle) by {
      EvalCommand(ns, i, oracle);
    }
    SameStep(ns, i, status, oracle);
  }

  lemma {:induction false} AgreeFrom(ns: seq<Node>, i: nat, status: int, oracle: Oracle)
    requires WellFormed(ns) && ChdirsUsable(ns) && i < |ns| && i % 2 == 0
    requires i < FirstCommand(ns, 0) || Without(ns, i, Or) || Without(ns, i, And)
    requires OneKind(ns) && AlikeBefore(ns, |ns|)
    ensures AgreesFrom(ns, i, status, oracle)
    decreases |ns| - i
  {
    assert NodeOk(ns, i);
    assert Alike(ns, i);
    if ns[i].Chdir? {
      SameChdir(ns, i, status, oracle);
      AgreeFrom(ns, i + 2, 0, oracle);
    } else if EndsAt(ns, i, LastCode(ns, i + 2, oracle)) {
      AgreesAtEnd(ns, i, status, oracle);
    } else {
      AgreeFrom(ns, i + 2, StatusAfter(ns, i, status, oracle), oracle);
      AgreesOnward(ns, i, status, oracle);
    }
  }

  // ------------------------------------------------------------------ two kinds of connectors

  // Code first up to position c, and code last from there on.
  function Split(c: nat, first: int, last: int): Oracle {
    (started: seq<Launch>, k: nat) => if k < |started| && started[k].index < c then first else last
  }

  // Something runs, or will run, at or after position i.
  predicate Alive(ns: seq<Node>, i: nat, r: Reading, first: int, last: int) {
    && (r.status == first || r.status == last)
    && (r.run || r.status == last || !Without(ns, i, if last == 0 then Or else And))
  }

  lemma StaysAlive(ns: seq<Node>, i: nat, r: Reading, c: nat, first: int, last: int)
    requires WellFormed(ns) && ChdirsUsable(ns) && i + 1 < |ns| && i % 2 == 0 && c <= i
    requires (first, last) == (7, 0) || (first, last) == (0, 7)
    requires Alive(ns, i, r, first, last)
    ensures Alive(ns, i + 2, AfterConnector(ns[i + 1], AfterOperand(ns, i, r, Split(c, first, last))), first, last)
  {
    assert NodeOk(ns, i) && NodeOk(ns, i + 1);
    var op := if last == 0 then Or else And;
    if !Without(ns, i, op) {
      var k :| i <= k < |ns| && ns[k] == op;
      assert k >= i + 2 || ns[i + 1] == op;
    }
  }

  // Then the left-to-right reading ends with the last code.
  lemma {:induction false} EndsWithLast(ns: seq<Node>, i: nat, r: Reading, c: nat, first: int, last: int)
    requires WellFormed(ns) && ChdirsUsable(ns) && i < |ns| && i % 2 == 0 && c <= i
    requires (first, last) == (7, 0) || (first, last) == (0, 7)
    requires Alive(ns, i, r, first, last)
    ensures Posix(ns, i, r, Split(c, first, last)).status == last
    decreases |ns| - i
  {
    assert NodeOk(ns, i);
    if i + 1 < |ns| {
      StaysAlive(ns, i, r, c, first, last);
      EndsWithLast(ns, i + 2, AfterConnector(ns[i + 1], AfterOperand(ns, i, r, Split(c, first, last))), c, first, last);
    }
  }

  function FirstConnector(ns: seq<Node>, i: nat): (c: nat)
    requires i <= |ns|
    ensures i <= c <= |ns| && (c < |ns| ==> ns[c] == And || ns[c] == Or)
    ensures forall k | i <= k < c :: ns[k] != And && ns[k] != Or
    decreases |ns| - i
  {
    if i == |ns| || ns[i] == And || ns[i] == Or then i else FirstConnector(ns, i + 1)
  }

  lemma SplitCode(ns: seq<Node>, i: nat, r: Reading, c: nat, first: int, last: int)
    requires Shaped(ns) && i % 2 == 0 && i + 1 < |ns| && i < c && ns[i].Command? && r.run
    ensures LastCode(ns, i + 2, Split(c, first, last)) == first
    ensures ns[i + 1] != Pipe ==> AfterOperand(ns, i, r, Split(c, first, last)).status == first
  {
  }

  lemma AfterPipe(ns: seq<Node>, i: nat)
    requires WellFormed(ns) && NoChdirInPipe(ns) && i % 2 == 0 && i + 1 < |ns| && ns[i + 1] == Pipe
    ensures i + 2 < |ns| && ns[i + 2].Command?
  {
    assert NodeOk(ns, i + 2) && !ChdirInPipe(ns, i + 2);
  }

  lemma PartAt(ns: seq<Node>, r: Reading, c: nat, first: int, last: int)
    requires WellFormed(ns) && ChdirsUsable(ns) && r.run
    requires 0 < c < |ns| && c % 2 == 1 && ns[c - 1].Command? && (ns[c] == And || ns[c] == Or)
    requires (first, last) == if ns[c] == And then (7, 0) else (0, 7)
    requires !Without(ns, c + 1, if ns[c] == And then Or else And)
    ensures Posix(ns, c - 1, r, Split(c, first, last)).status == last
  {
    SplitCode(ns, c - 1, r, c, first, last);
    var next := AfterConnector(ns[c], AfterOperand(ns, c - 1, r, Split(c, first, last)));
    EndsWithLast(ns, c + 1, next, c, first, last);
  }

  // With the first group ending with a code that its connector stops at, the two readings part.
  lemma {:induction false} PartFrom(ns: seq<Node>, i: nat, r: Reading, c: nat, first: int, last: int)
    requires WellFormed(ns) && ChdirsUsable(ns) && NoChdirInPipe(ns) && r.run
    requires i % 2 == 0 && FirstCommand(ns, 0) <= i < c < |ns| && ns[i].Command?
    requires c == FirstConnector(ns, FirstCommand(ns, 0))
    requires (first, last) == if ns[c] == And then (7, 0) else (0, 7)
    requires !Without(ns, c + 1, if ns[c] == And then Or else And)
    ensures Eval(ns, i, Split(c, first, last)).status == Exit(first)
    ensures Posix(ns, i, r, Split(c, first, last)).status == last
    decreases |ns| - i
  {
    SplitCode(ns, i, r, c, first, last);
    EvalCommand(ns, i, Split(c, first, last));
    if i + 1 == c {
      PartAt(ns, r, c, first, last);
    } else {
      var next := AfterConnector(ns[i + 1], AfterOperand(ns, i, r, Split(c, first, last)));
      assert ns[i + 1] == Pipe by { assert NodeOk(ns, i + 1); }
      AfterPipe(ns, i);
      PartFrom(ns, i + 2, next, c, first, last);
    }
  }

  // Leading directory changes are the same in both readings.
  lemma {:induction false} LeadingChdirs(ns: seq<Node>, i: nat, status: int, oracle: Oracle) returns (status': int)
    requires WellFormed(ns) && ChdirsUsable(ns) && NoChdirInPipe(ns) && i % 2 == 0 && i <= FirstCommand(ns, 0)
    ensures FirstCommand(ns, 0) < |ns| && FirstCommand(ns, 0) % 2 == 0
    ensures var f := FirstCommand(ns, 0);
      && Eval(ns, i, oracle) == Eval(ns, f, oracle)
      && Posix(ns, i, Onwards(ns, i, status), oracle) == Posix(ns, f, Onwards(ns, f, status'), oracle)
    decreases |ns| - i
  {
    assert i < |ns| ==> NodeOk(ns, i);
    if i == FirstCommand(ns, 0) {
      status' := status;
    } else {
      assert !ChdirInPipe(ns, i);
      SameChdir(ns, i, status, oracle);
      status' := LeadingChdirs(ns, i + 2, 0, oracle);
    }
  }

  lemma TwoKindsPart(ns: seq<Node>)
    requires WellFormed(ns) && ChdirsUsable(ns) && NoChdirInPipe(ns) && !OneKind(ns)
    ensures exists oracle: Oracle :: !AgreesWithPosix(ns, oracle)
  {
    var f := FirstCommand(ns, 0);
    var c := FirstConnector(ns, f);
    var first, last := if ns[c] == And then 7 else 0, if ns[c] == And then 0 else 7;
    var status := LeadingChdirs(ns, 0, 0, Split(c, first, last));
    PartFrom(ns, f, Onwards(ns, f, status), c, first, last);
    assert !AgreesWithPosix(ns, Split(c, first, last));
  }

  // ------------------------------------------------------------------ an operand that is not the same

  // With these exit codes every connector goes on.
  lemma OnwardGoes(ns: seq<Node>, i: nat)
    requires WellFormed(ns) && i + 1 < |ns| && i % 2 == 0 && ns[i].Command?
    ensures !EndsAt(ns, i, LastCode(ns, i + 2, Onward(ns)))
  {
    assert LastCode(ns, i + 2, Onward(ns)) == if ns[i + 1] == Or then 1 else 0;
    assert ns[i + 1].IsOp() by { assert NodeOk(ns, i + 1); }
  }

  lemma SameOperand(ns: seq<Node>, i: nat, status: int) returns (status': int)
    requires WellFormed(ns) && ChdirsUsable(ns) && i % 2 == 0 && i + 1 < |ns| && AlikeBefore(ns, i + 1)
    ensures Eval(ns, i, Onward(ns)) == Eval(ns, i + 2, Onward(ns))
    ensures Posix(ns, i, Onwards(ns, i, status), Onward(ns))
      == Posix(ns, i + 2, Onwards(ns, i + 2, status'), Onward(ns))
  {
    assert Alike(ns, i);
    if ns[i].Chdir? {
      SameChdir(ns, i, status, Onward(ns));
      status' := 0;
    } else {
      assert NodeOk(ns, i);
      OnwardGoes(ns, i);
      EvalCommand(ns, i, Onward(ns));
      SameStep(ns, i, status, Onward(ns));
      status' := StatusAfter(ns, i, status, Onward(ns));
    }
  }

  // Up to the first such operand both readings go the same way, if no connector ends the run.
  lemma {:induction false} SameUpTo(ns: seq<Node>, j: nat) returns (status: int)
    requires WellFormed(ns) && ChdirsUsable(ns) && j % 2 == 0 && j < |ns| && AlikeBefore(ns, j)
    ensures Eval(ns, 0, Onward(ns)) == Eval(ns, j, Onward(ns))
    ensures PosixRun(ns, Onward(ns)) == Posix(ns, j, Onwards(ns, j, status), Onward(ns))
  {
    status := 0;
    if j > 0 {
      status := SameUpTo(ns, j - 2);
      status := SameOperand(ns, j - 2, status);
    }
  }

  lemma {:induction false} PosixExtends(ns: seq<Node>, i: nat, r: Reading, oracle: Oracle)
    requires WellFormed(ns) && i <= |ns| && i % 2 == 0
    ensures r.started <= Posix(ns, i, r, oracle).started
    decreases |ns| - i
  {
    if i + 1 < |ns| {
      assert NodeOk(ns, i);
      PosixExtends(ns, i + 2, AfterConnector(ns[i + 1], AfterOperand(ns, i, r, oracle)), oracle);
    }
  }

  lemma ShellStarts(ns: seq<Node>, i: nat, r: Reading, oracle: Oracle)
    requires WellFormed(ns) && i < |ns| && i % 2 == 0 && ns[i].Command? && r.run
    ensures r.started + [ShellLaunch(ns, i, r.cwd)] <= Posix(ns, i, r, oracle).started
  {
    var next := AfterOperand(ns, i, r, oracle);
    assert next.started == r.started + [ShellLaunch(ns, i, r.cwd)];
    if i + 1 < |ns| {
      PosixExtends(ns, i + 2, AfterConnector(ns[i + 1], next), oracle);
    }
  }

  lemma {:induction false} LaunchesExtend(ns: seq<Node>, i: nat, j: nat)
    requires i <= j <= |ns| + 1 && i % 2 == 0 && j % 2 == 0
    ensures AllLaunches(ns, i) <= AllLaunches(ns, j)
  {
    if i < j {
      LaunchesExtend(ns, i, j - 2);
    }
  }

  lemma ExecutorStarts(ns: seq<Node>, i: nat, oracle: Oracle)
    requires WellFormed(ns) && i < |ns| && i % 2 == 0 && ns[i].Command?
    ensures AllLaunches(ns, i) + [LaunchIn(ns, i, DirBefore(ns, i))] <= Eval(ns, i, oracle).started
  {
    EvalCommand(ns, i, oracle);
    assert AllLaunches(ns, i + 2) == AllLaunches(ns, i) + [LaunchIn(ns, i, DirBefore(ns, i))];
    if !EndsAt(ns, i, LastCode(ns, i + 2, oracle)) {
      var stop := StartsPrefix(ns, i + 2, oracle);
      LaunchesExtend(ns, i + 2, stop);
    }
  }

  // A command whose streams are not the same is started with the difference.
  lemma StreamsPart(ns: seq<Node>, j: nat, status: int, oracle: Oracle)
    requires WellFormed(ns) && j < |ns| && j % 2 == 0 && AlikeBefore(ns, j)
    requires ns[j].Command? && !SameStreams(ns, j)
    ensures Eval(ns, j, oracle).started != Posix(ns, j, Onwards(ns, j, status), oracle).started
  {
    var l, m := LaunchIn(ns, j, DirBefore(ns, j)), ShellLaunch(ns, j, DirBefore(ns, j));
    SameLaunchIff(ns, j);
    ExecutorStarts(ns, j, oracle);
    ShellStarts(ns, j, Onwards(ns, j, status), oracle);
    var before := AllLaunches(ns, j);
    assert (before + [l])[|before|] == l && (before + [m])[|before|] == m;
  }

  // The k-th process exists, and whether it reads a pipe.
  predicate KthReadsPipe(started: seq<Launch>, k: nat, piped: bool) {
    k < |started| && (started[k].stdin.PipedFrom? <==> piped)
  }

  lemma KthOfPrefix(front: seq<Launch>, l: Launch, started: seq<Launch>)
    requires front + [l] <= started
    ensures KthReadsPipe(started, |front|, l.stdin.PipedFrom?)
  {
    assert started[|front|] == (front + [l])[|front|];
  }

  // In a shell the first command after an And that goes on reads no pipe ...
  lemma {:induction false} ShellNext(ns: seq<Node>, i: nat, r: Reading, oracle: Oracle)
    requires WellFormed(ns) && ChdirsUsable(ns) && 0 < i < |ns| && i % 2 == 0 && ns[i - 1] == And && r.run
    ensures KthReadsPipe(Posix(ns, i, r, oracle).started, |r.started|, false)
    decreases |ns| - i
  {
    assert NodeOk(ns, i);
    if ns[i].Chdir? {
      ShellNext(ns, i + 2, AfterConnector(ns[i + 1], AfterOperand(ns, i, r, oracle)), oracle);
    } else {
      ShellStarts(ns, i, r, oracle);
      KthOfPrefix(r.started, ShellLaunch(ns, i, r.cwd), Posix(ns, i, r, oracle).started);
    }
  }

  // ... but here the executor gives it the pipe that the directory change left unread.
  lemma {:induction false} ExecutorNext(ns: seq<Node>, i: nat, oracle: Oracle)
    requires WellFormed(ns) && ChdirsUsable(ns) && i < |ns| && i % 2 == 0 && PipeSource(ns, i).Some?
    ensures KthReadsPipe(Eval(ns, i, oracle).started, |AllLaunches(ns, i)|, true)
    decreases |ns| - i
  {
    assert NodeOk(ns, i);
    if ns[i].Chdir? {
      EvalChdir(ns, i, oracle);
      ChdirMoves(ns, i);
      assert NodeOk(ns, i + 1);
      ExecutorNext(ns, i + 2, oracle);
    } else {
      ExecutorStarts(ns, i, oracle);
      KthOfPrefix(AllLaunches(ns, i), LaunchIn(ns, i, DirBefore(ns, i)), Eval(ns, i, oracle).started);
    }
  }

  lemma PipedChdirPart(ns: seq<Node>, j: nat, status: int, oracle: Oracle)
    requires WellFormed(ns) && ChdirsUsable(ns) && j < |ns| && j % 2 == 0 && ChdirInPipe(ns, j)
    ensures Eval(ns, j, oracle).started != Posix(ns, j, Onwards(ns, j, status), oracle).started
  {
    assert NodeOk(ns, j) && NodeOk(ns, j + 1);
    ExecutorNext(ns, j, oracle);
    ShellNext(ns, j + 2, AfterConnector(ns[j + 1], AfterOperand(ns, j, Onwards(ns, j, status), oracle)), oracle);
  }

  function FirstUnlike(ns: seq<Node>, i: nat): (j: nat)
    requires i <= |ns| && AlikeBefore(ns, i)
    ensures i <= j <= |ns| && AlikeBefore(ns, j)
    ensures j < |ns| ==> !Alike(ns, j)
    decreases |ns| - i
  {
    if i == |ns| || !Alike(ns, i) then i else FirstUnlike(ns, i + 1)
  }

  lemma AllAlike(ns: seq<Node>)
    requires AlikeBefore(ns, |ns|)
    ensures NoChdirInPipe(ns) && StreamsAgree(ns)
  {
    forall i | 0 <= i < |ns|
      ensures !ChdirInPipe(ns, i) && SameStreams(ns, i)
    {
      assert Alike(ns, i);
    }
  }

  /** A directory change that reads a pipe, or a command whose streams a shell would connect otherwise, makes
      the two readings start different processes, under exit codes with which every connector goes on. */
  lemma UnlikeParts(ns: seq<Node>)
    requires WellFormed(ns) && ChdirsUsable(ns) && !(NoChdirInPipe(ns) && StreamsAgree(ns))
    ensures Eval(ns, 0, Onward(ns)).started != PosixRun(ns, Onward(ns)).started
  {
    var j := FirstUnlike(ns, 0);
    if j == |ns| {
      AllAlike(ns);
    }
    assert NodeOk(ns, j);
    var status := SameUpTo(ns, j);
    if ChdirInPipe(ns, j) {
      PipedChdirPart(ns, j, status, Onward(ns));
    } else {
      StreamsPart(ns, j, status, Onward(ns));
    }
  }

  /** Whatever the exit codes, running a pipeline starts the same processes, with the same streams, and ends
      with the same status as a shell that reads it, exactly when every directory change names a directory
      and none comes last or reads a pipe; no command that reads a pipe has an input file; no relative
      redirection follows a directory change that took effect, and none writes to NUL: ; and the connectors
      after the leading directory changes are all of one kind. */
  lemma AgreesWithPosixIff(ns: seq<Node>)
    requires WellFormed(ns)
    ensures (forall oracle: Oracle :: AgreesWithPosix(ns, oracle))
      <==> ChdirsUsable(ns) && NoChdirInPipe(ns) && StreamsAgree(ns) && OneKind(ns)
  {
    if !ChdirsUsable(ns) {
      ReturnsStatusIff(ns);
      var oracle: Oracle :| !Eval(ns, 0, oracle).status.Exit?;
      assert !AgreesWithPosix(ns, oracle);
    } else if !(NoChdirInPipe(ns) && StreamsAgree(ns)) {
      UnlikeParts(ns);
      assert !AgreesWithPosix(ns, Onward(ns));
    } else if !OneKind(ns) {
      TwoKindsPart(ns);
    } else {
      assert AlikeBefore(ns, |ns|);
      forall oracle: Oracle
        ensures AgreesWithPosix(ns, oracle)
      {
        AgreeFrom(ns, 0, 0, oracle);
        assert Onwards(ns, 0, 0) == Reading(true, 0, ".", []);
      }
    }
  }

  // ------------------------------------------------------------------ inputs on which they differ

  /** Behind a pipe an input file is ignored, where a shell would read the file. */
  lemma InputFileIgnored(a: Node, b: Node)
    requires a.Command? && OperandOk(a) && a.stdout == ToPipe
    requires b.Command? && OperandOk(b) && b.stdout != ToPipe && b.stdin.Some?
    ensures WellFormed([a, Pipe, b])
    ensures exists oracle: Oracle :: !AgreesWithPosix([a, Pipe, b], oracle)
  {
    var ns := [a, Pipe, b];
    assert forall i | 0 <= i < 3 :: NodeOk(ns, i);
    assert !SameStreams(ns, 2);
    AgreesWithPosixIff(ns);
  }

  /** After a directory change a relative redirection is still opened in the first directory, where a shell
      would open it in the new one. */
  lemma RedirectionStaysBehind(dir: string, b: Node)
    requires dir != "&&" && !IsHere(dir) && b.Command? && OperandOk(b) && b.stdout != ToPipe
    requires (b.stdin.Some? && !IsAbsolute(b.stdin.value)) || (b.stdout.ToFile? && !IsAbsolute(b.stdout.file))
    ensures WellFormed([Chdir(Some(dir)), And, b])
    ensures exists oracle: Oracle :: !AgreesWithPosix([Chdir(Some(dir)), And, b], oracle)
  {
    var ns := [Chdir(Some(dir)), And, b];
    assert forall i | 0 <= i < 3 :: NodeOk(ns, i);
    assert MovesAt(ns, 0);
    assert !SameStreams(ns, 2);
    AgreesWithPosixIff(ns);
  }

  /** The parser keeps no order among redirections: copying the errors to the output before the output is
      redirected, which a shell tells apart, gives the same command as copying them after it. */
  lemma RedirectionOrderLost(m: Machine, file: string, rest: seq<string>)
    requires Consistent(m) && m.mode == InCommand
    requires m.current.value.stdout == Inherit && m.current.value.stderr == Inherit
    ensures Steps(m, ["2>&1", ">", file] + rest) == Steps(m, [">", file, "2>&1"] + rest)
  {
    var cmd := m.current.value;
    var done := m.(current := Some(cmd.(stdout := ToFile(file), stderr := ToStdout)));
    var copied, opening := m.(current := Some(cmd.(stderr := ToStdout))), m.(mode := InStdout);
    ThreeSteps(m, "2>&1", ">", file, rest, copied, copied.(mode := InStdout), done);
    ThreeSteps(m, ">", file, "2>&1", rest, opening, m.(current := Some(cmd.(stdout := ToFile(file)))), done);
  }

  lemma OneStep(m: Machine, token: string, rest: seq<string>)
    requires Consistent(m) && Step(m, token).Some?
    ensures Steps(m, [token] + rest) == Steps(Step(m, token).value, rest)
  {
    assert ([token] + rest)[0] == token && ([token] + rest)[1..] == rest;
  }

  lemma ThreeSteps(m: Machine, a: string, b: string, c: string, rest: seq<string>,
                   m1: Machine, m2: Machine, m3: Machine)
    requires Consistent(m) && Step(m, a) == Some(m1) && Step(m1, b) == Some(m2) && Step(m2, c) == Some(m3)
    ensures Steps(m, [a, b, c] + rest) == Steps(m3, rest)
  {
    assert [a, b, c] + rest == [a] + ([b] + ([c] + rest));
    OneStep(m, a, [b] + ([c] + rest));
    OneStep(m1, b, [c] + rest);
    OneStep(m2, c, rest);
  }
}
