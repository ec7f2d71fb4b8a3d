/** What running a pipeline means: which commands are started, where, fed by what, and with which status
    the run ends; and how this compares with the left-to-right reading of the POSIX shell. */
module ShellEval {
  import opened Wrappers
  import opened ShellSyntax
  import opened ShellPaths

  datatype StdinSource = InheritedInput | FromFile(file: File) | PipedFrom(index: nat)

  // Where the output or the errors of a process go; errors may go where its output goes.
  datatype Sink = InheritedOutput | ToReader | WithOutput | NullDevice | IntoFile(file: File)

  // A process: the position of its command in the pipeline, the directory it was given, and its streams.
  datatype Launch = Launch(index: nat, cwd: Option<string>, stdin: StdinSource, stdout: Sink, stderr: Sink)

  datatype Status = Exit(code: int) | NoStatus | Raised

  datatype Outcome = Outcome(status: Status, started: seq<Launch>)

  // The exit code of the k-th process, given every process started when it is waited for.
  type Oracle = (seq<Launch>, nat) -> int

  predicate IsNullFile(file: string) {
    file == "NUL:" || file == "/dev/null"
  }

  // The executor opens files itself, where it was started; two names stand for its null file.
  function SinkOf(target: Target): Sink {
    match target
    case Inherit => InheritedOutput
    case ToPipe => ToReader
    case ToStdout => WithOutput
    case ToFile(f) => if IsNullFile(f) then NullDevice else IntoFile(AtStart(f))
  }

  // ------------------------------------------------------------------ the state before a node, by position

  // The directory accumulated by every directory change before position i.
  function DirBefore(ns: seq<Node>, i: nat): string
    requires i <= |ns| + 1 && i % 2 == 0
  {
    if i == 0 then "."
    else
      var prior := DirBefore(ns, i - 2);
      match ns[i - 2]
      case Chdir(Some(d)) => JoinPath(prior, d)
      case _ => prior
  }

  // The command whose output the operand at position i reads.
  function PipeSource(ns: seq<Node>, i: nat): Option<nat>
    requires i <= |ns| && i % 2 == 0
  {
    if i == 0 then None
    else if ns[i - 1] == Pipe then Some(i - 2)
    else if ns[i - 2].Chdir? then PipeSource(ns, i - 2)
    else None
  }

  function LaunchIn(ns: seq<Node>, i: nat, cwd: string): Launch
    requires i < |ns| && i % 2 == 0 && ns[i].Command?
  {
    Launch(i,
           if cwd == "." then None else Some(cwd),
           match PipeSource(ns, i)
           case Some(j) => PipedFrom(j)
           case None => if ns[i].stdin.Some? then FromFile(AtStart(ns[i].stdin.value)) else InheritedInput,
           SinkOf(ns[i].stdout),
           SinkOf(ns[i].stderr))
  }

  // Every command before position i is started, in order, in the directory accumulated before it.
  function AllLaunches(ns: seq<Node>, i: nat): seq<Launch>
    requires i <= |ns| + 1 && i % 2 == 0
  {
    if i == 0 then []
    else
      AllLaunches(ns, i - 2)
      + if ns[i - 2].Command? then [LaunchIn(ns, i - 2, DirBefore(ns, i - 2))] else []
  }

  // The exit code of the last command before position i; the status of its piped group.
  function LastCode(ns: seq<Node>, i: nat, oracle: Oracle): int
    requires 2 <= i <= |ns| + 1 && i % 2 == 0 && ns[i - 2].Command?
  {
    var started := AllLaunches(ns, i);
    oracle(started, |started| - 1)
  }

  /** The run from position i on: a connector lets the whole rest of the list run, or ends the run. */
  function Eval(ns: seq<Node>, i: nat, oracle: Oracle): Outcome
    requires Shaped(ns) && i <= |ns| && i % 2 == 0
    decreases |ns| - i
  {
    if i == |ns| then Outcome(NoStatus, AllLaunches(ns, i))
    else
      assert NodeOk(ns, i);
      if ns[i].Chdir? then
        if i + 1 == |ns| || ns[i].dir == None then Outcome(Raised, AllLaunches(ns, i))
        else Eval(ns, i + 2, oracle)
      else
        var here := Outcome(Exit(LastCode(ns, i + 2, oracle)), AllLaunches(ns, i + 2));
        if i + 1 == |ns| then here
        else
          match ns[i + 1]
          case And => if here.status.code != 0 then here else Eval(ns, i + 2, oracle)
          case Or => if here.status.code == 0 then here else Eval(ns, i + 2, oracle)
          case _ => Eval(ns, i + 2, oracle)
  }

  // The run ends with the command at position i, given the status of its group.
  predicate EndsAt(ns: seq<Node>, i: nat, code: int)
    requires i < |ns|
  {
    i + 1 == |ns| || (ns[i + 1] == And && code != 0) || (ns[i + 1] == Or && code == 0)
  }

  lemma EvalCommand(ns: seq<Node>, i: nat, oracle: Oracle)
    requires Shaped(ns) && i < |ns| && i % 2 == 0 && ns[i].Command?
    ensures Eval(ns, i, oracle) ==
      if EndsAt(ns, i, LastCode(ns, i + 2, oracle))
      then Outcome(Exit(LastCode(ns, i + 2, oracle)), AllLaunches(ns, i + 2))
      else Eval(ns, i + 2, oracle)
  {
    assert NodeOk(ns, i);
    if i + 1 < |ns| { assert NodeOk(ns, i + 1); }
  }

  lemma EvalChdir(ns: seq<Node>, i: nat, oracle: Oracle)
    requires Shaped(ns) && i < |ns| && i % 2 == 0 && ns[i].Chdir?
    ensures Eval(ns, i, oracle) ==
      if i + 1 == |ns| || ns[i].dir == None then Outcome(Raised, AllLaunches(ns, i)) else Eval(ns, i + 2, oracle)
  {
    if i + 1 < |ns| { assert NodeOk(ns, i + 1); }
  }

  // ------------------------------------------------------------------ which runs return a status

  predicate ChdirsUsable(ns: seq<Node>) {
    forall i | 0 <= i < |ns| && ns[i].Chdir? :: ns[i].dir.Some? && i + 1 < |ns|
  }

  lemma {:induction false} UsableExits(ns: seq<Node>, i: nat, oracle: Oracle)
    requires WellFormed(ns) && ChdirsUsable(ns) && i < |ns| && i % 2 == 0
    ensures Eval(ns, i, oracle).status.Exit?
    decreases |ns| - i
  {
    assert NodeOk(ns, i);
    if i + 2 < |ns| {
      UsableExits(ns, i + 2, oracle);
    }
  }

  // Exit codes under which no connector ends the run early.
  function Onward(ns: seq<Node>): Oracle {
    (started: seq<Launch>, k: nat) =>
      if k < |started| && started[k].index + 1 < |ns| && ns[started[k].index + 1] == Or then 1 else 0
  }

  lemma OnwardCode(ns: seq<Node>, i: nat)
    requires i < |ns| && i % 2 == 0 && ns[i].Command?
    ensures LastCode(ns, i + 2, Onward(ns)) == if i + 1 < |ns| && ns[i + 1] == Or then 1 else 0
  {
    var started := AllLaunches(ns, i + 2);
    assert started[|started| - 1].index == i;
  }

  lemma {:induction false} OnwardReaches(ns: seq<Node>, i: nat, j: nat)
    requires WellFormed(ns) && i % 2 == 0 && i <= j < |ns|
    requires ns[j].Chdir? && (ns[j].dir == None || j + 1 == |ns|)
    ensures Eval(ns, i, Onward(ns)).status == Raised
    decreases |ns| - i
  {
    assert NodeOk(ns, i) && NodeOk(ns, j);
    if ns[i].Chdir? {
      EvalChdir(ns, i, Onward(ns));
    } else {
      EvalCommand(ns, i, Onward(ns));
      OnwardCode(ns, i);
    }
    if i < j {
      assert NodeOk(ns, i + 1);
      OnwardReaches(ns, i + 2, j);
    }
  }

  /** Whatever the exit codes, a parsed pipeline runs to a status without tripping an assertion or an
      exception, exactly when every directory change names a directory and none comes last. */
  lemma ReturnsStatusIff(ns: seq<Node>)
    requires WellFormed(ns)
    ensures (forall oracle: Oracle :: Eval(ns, 0, oracle).status.Exit?) <==> ChdirsUsable(ns)
  {
    if ChdirsUsable(ns) {
      forall oracle: Oracle
        ensures Eval(ns, 0, oracle).status.Exit?
      {
        UsableExits(ns, 0, oracle);
      }
    } else {
      var j :| 0 <= j < |ns| && ns[j].Chdir? && !(ns[j].dir.Some? && j + 1 < |ns|);
      OnwardReaches(ns, 0, j);
    }
  }

  // ------------------------------------------------------------------ where a run ends

  // What stands at position i lets the run go on after it: a directory change that names a directory and is
  // not last, or a command before a pipe, before && with code 0, or before || with another code.
  predicate GoesOn(ns: seq<Node>, i: nat, oracle: Oracle)
    requires i < |ns| && i % 2 == 0
  {
    i + 1 < |ns| &&
    match ns[i]
    case Chdir(dir) => dir.Some?
    case Command(_, _, _, _, _, _) =>
      (ns[i + 1] == And ==> LastCode(ns, i + 2, oracle) == 0) && (ns[i + 1] == Or ==> LastCode(ns, i + 2, oracle) != 0)
    case _ => false
  }

  // The run from position i on goes on up to position stop, and no further.
  ghost predicate EndsAtFirst(ns: seq<Node>, i: nat, oracle: Oracle, stop: nat)
    requires WellFormed(ns) && i <= |ns| && i % 2 == 0
  {
    && i <= stop < |ns| && stop % 2 == 0 && !GoesOn(ns, stop, oracle)
    && (forall k | i <= k < stop && k % 2 == 0 :: GoesOn(ns, k, oracle))
    && (ns[stop].Chdir? ==> Eval(ns, i, oracle) == Outcome(Raised, AllLaunches(ns, stop)))
    && (ns[stop].Command? ==>
          Eval(ns, i, oracle) == Outcome(Exit(LastCode(ns, stop + 2, oracle)), AllLaunches(ns, stop + 2)))
  }

  lemma {:induction false} EndsFrom(ns: seq<Node>, i: nat, oracle: Oracle) returns (stop: nat)
    requires WellFormed(ns) && i < |ns| && i % 2 == 0
    ensures EndsAtFirst(ns, i, oracle, stop)
    decreases |ns| - i
  {
    assert NodeOk(ns, i);
    if ns[i].Chdir? { EvalChdir(ns, i, oracle); } else { EvalCommand(ns, i, oracle); }
    if GoesOn(ns, i, oracle) {
      assert NodeOk(ns, i + 1);
      stop := EndsFrom(ns, i + 2, oracle);
    } else {
      stop := i;
      if i + 1 < |ns| { assert NodeOk(ns, i + 1); }
    }
  }

  /** A run ends at the first place where it cannot go on: with an exception at a directory change, or with
      the code of the command there, after starting every command up to it. */
  lemma RunEndsAtFirst(ns: seq<Node>, oracle: Oracle)
    requires WellFormed(ns)
    ensures exists stop :: EndsAtFirst(ns, 0, oracle, stop)
    ensures forall i | 0 <= i < |ns| && i % 2 == 0 :: ns[i].Chdir? || ns[i].Command?
  {
    var stop := EndsFrom(ns, 0, oracle);
    forall i | 0 <= i < |ns| && i % 2 == 0
      ensures ns[i].Chdir? || ns[i].Command?
    {
      assert NodeOk(ns, i);
    }
  }

  // ------------------------------------------------------------------ directories and streams

  // The k-th of these directories is where the k-th operand is run.
  predicate FollowsChange(ns: seq<Node>, dirs: seq<string>, k: nat)
    requires 2 * k < |ns| && k + 1 < |dirs|
  {
    match ns[2 * k]
    case Chdir(Some(d)) => dirs[k + 1] == JoinPath(dirs[k], d)
    case _ => dirs[k + 1] == dirs[k]
  }

  /** Every operand is run in the directory that the changes before it lead to, one after the other. */
  lemma {:induction false} DirectoriesFollow(ns: seq<Node>, i: nat) returns (dirs: seq<string>)
    requires i <= |ns| + 1 && i % 2 == 0
    ensures |dirs| == i / 2 + 1 && dirs[0] == "."
    ensures forall k | 0 <= k < i / 2 :: FollowsChange(ns, dirs, k)
    ensures forall k | 0 <= k <= i / 2 :: DirBefore(ns, 2 * k) == dirs[k]
  {
    if i == 0 {
      dirs := ["."];
    } else {
      var before := DirectoriesFollow(ns, i - 2);
      dirs := before + [DirBefore(ns, i)];
      forall k | 0 <= k < i / 2
        ensures FollowsChange(ns, dirs, k)
      {
        if k < i / 2 - 1 { assert FollowsChange(ns, before, k); }
      }
    }
  }

  predicate IsNull(target: Target) {
    target == ToFile("NUL:") || target == ToFile("/dev/null")
  }

  // Where the output or the errors go, one way of going at a time.
  ghost predicate Goes(target: Target, sink: Sink) {
    && (sink == InheritedOutput <==> target == Inherit)
    && (sink == ToReader <==> target == ToPipe)
    && (sink == WithOutput <==> target == ToStdout)
    && (sink == NullDevice <==> IsNull(target))
    && (forall f :: sink == IntoFile(AtStart(f)) <==> target == ToFile(f) && !IsNull(target))
  }

  // The streams of a process are those its command asks for, and its input file counts only outside a pipe.
  ghost predicate Connected(ns: seq<Node>, l: Launch) {
    && l.index < |ns| && ns[l.index].Command?
    && Goes(ns[l.index].stdout, l.stdout) && Goes(ns[l.index].stderr, l.stderr)
    && (!l.stdin.PipedFrom? ==>
          && (l.stdin == InheritedInput <==> ns[l.index].stdin == None)
          && (forall f :: l.stdin == FromFile(AtStart(f)) <==> ns[l.index].stdin == Some(f)))
  }

  lemma {:induction false} LaunchesConnected(ns: seq<Node>, i: nat)
    requires i <= |ns| + 1 && i % 2 == 0
    ensures forall l | l in AllLaunches(ns, i) :: Connected(ns, l)
  {
    if i > 0 {
      LaunchesConnected(ns, i - 2);
      if ns[i - 2].Command? {
        assert Connected(ns, LaunchIn(ns, i - 2, DirBefore(ns, i - 2)));
      }
    }
  }

  // ------------------------------------------------------------------ what a run starts

  // The last process started, if its output is a pipe that nobody reads yet.
  function Feeder(ns: seq<Node>, started: seq<Launch>): Option<nat> {
    if started == [] then None
    else
      var last := started[|started| - 1].index;
      if last < |ns| && ns[last].Command? && ns[last].stdout == ToPipe then Some(last) else None
  }

  // A process reads a pipe exactly when the process started just before it writes to one.
  predicate PipesMatch(ns: seq<Node>, started: seq<Launch>) {
    forall k | 0 <= k < |started| ::
      match Feeder(ns, started[..k])
      case Some(j) => started[k].stdin == PipedFrom(j)
      case None => !started[k].stdin.PipedFrom?
  }

  lemma PipesMatchAppend(ns: seq<Node>, started: seq<Launch>, l: Launch)
    requires PipesMatch(ns, started)
    requires match Feeder(ns, started) case Some(j) => l.stdin == PipedFrom(j) case None => !l.stdin.PipedFrom?
    ensures PipesMatch(ns, started + [l])
  {
    var more := started + [l];
    forall k | 0 <= k < |more|
      ensures match Feeder(ns, more[..k])
        case Some(j) => more[k].stdin == PipedFrom(j)
        case None => !more[k].stdin.PipedFrom?
    {
      assert more[..k] == started[..k];
      assert k == |started| ==> started[..k] == started;
    }
  }

  lemma LaunchPiped(ns: seq<Node>, i: nat)
    requires Shaped(ns) && i < |ns| && i % 2 == 0 && ns[i].Command?
    requires PipesMatch(ns, AllLaunches(ns, i)) && PipeSource(ns, i) == Feeder(ns, AllLaunches(ns, i))
    ensures PipesMatch(ns, AllLaunches(ns, i + 2))
    ensures i + 2 <= |ns| ==> PipeSource(ns, i + 2) == Feeder(ns, AllLaunches(ns, i + 2))
  {
    var l := LaunchIn(ns, i, DirBefore(ns, i));
    assert AllLaunches(ns, i + 2) == AllLaunches(ns, i) + [l];
    PipesMatchAppend(ns, AllLaunches(ns, i), l);
    assert NodeOk(ns, i);
    if i + 1 < |ns| { assert NodeOk(ns, i + 1); }
  }

  lemma {:induction false} LaunchesPiped(ns: seq<Node>, i: nat)
    requires Shaped(ns) && i <= |ns| + 1 && i % 2 == 0
    ensures PipesMatch(ns, AllLaunches(ns, i))
    ensures i <= |ns| ==> PipeSource(ns, i) == Feeder(ns, AllLaunches(ns, i))
  {
    if i > 0 {
      LaunchesPiped(ns, i - 2);
      assert NodeOk(ns, i - 2);
      if ns[i - 2].Command? {
        LaunchPiped(ns, i - 2);
      } else {
        assert AllLaunches(ns, i) == AllLaunches(ns, i - 2);
      }
    }
  }

  lemma {:induction false} StartsPrefix(ns: seq<Node>, i: nat, oracle: Oracle) returns (stop: nat)
    requires Shaped(ns) && i <= |ns| && i % 2 == 0
    ensures i <= stop <= |ns| + 1 && stop % 2 == 0
    ensures Eval(ns, i, oracle).started == AllLaunches(ns, stop)
    ensures Eval(ns, i, oracle).status.Exit? ==>
      stop > 0 && ns[stop - 2].Command? && Eval(ns, i, oracle).status.code == LastCode(ns, stop, oracle)
    decreases |ns| - i
  {
    stop := i;
    if i < |ns| {
      assert NodeOk(ns, i);
      var e := Eval(ns, i, oracle);
      if ns[i].Command? && e == Outcome(Exit(LastCode(ns, i + 2, oracle)), AllLaunches(ns, i + 2)) {
        stop := i + 2;
      } else if !(ns[i].Chdir? && (i + 1 == |ns| || ns[i].dir == None)) {
        stop := StartsPrefix(ns, i + 2, oracle);
      }
    }
  }

  // The directory handed to a process: none while no directory change has been made.
  function Handed(dir: string): Option<string> {
    if dir == "." then None else Some(dir)
  }

  predicate Ascending(started: seq<Launch>) {
    forall k, l | 0 <= k < l < |started| :: started[k].index < started[l].index
  }

  // The process belongs to a command before position i, and is in the directory accumulated before that.
  predicate InPlace(ns: seq<Node>, i: nat, l: Launch)
    requires i <= |ns| + 1
  {
    && l.index < i && l.index % 2 == 0 && l.index < |ns| && ns[l.index].Command?
    && l.cwd == Handed(DirBefore(ns, l.index))
  }

  predicate HasIndex(started: seq<Launch>, k: nat) {
    exists n :: 0 <= n < |started| && started[n].index == k
  }

  // Every command before position i, in order.
  ghost predicate StartedInOrder(ns: seq<Node>, i: nat, started: seq<Launch>)
    requires i <= |ns| + 1
  {
    && Ascending(started)
    && (forall n | 0 <= n < |started| :: InPlace(ns, i, started[n]))
    && (forall k | 0 <= k < i && k < |ns| && k % 2 == 0 && ns[k].Command? :: HasIndex(started, k))
  }

  lemma HasIndexMore(started: seq<Launch>, p: Launch, k: nat)
    ensures HasIndex(started + [p], k) <==> HasIndex(started, k) || p.index == k
  {
    var more := started + [p];
    if n :| 0 <= n < |started| && started[n].index == k {
      assert more[n].index == k;
    }
    assert more[|started|] == p;
  }

  lemma OneMoreStarted(ns: seq<Node>, i: nat, started: seq<Launch>, p: Launch)
    requires i < |ns| && i % 2 == 0 && StartedInOrder(ns, i, started)
    requires InPlace(ns, i + 2, p) && p.index == i
    ensures StartedInOrder(ns, i + 2, started + [p])
  {
    var more := started + [p];
    forall n | 0 <= n < |more|
      ensures InPlace(ns, i + 2, more[n])
    {
      if n < |started| { assert InPlace(ns, i, started[n]); }
    }
    assert forall n | 0 <= n < |started| :: InPlace(ns, i, started[n]) && more[n] == started[n];
    forall k | 0 <= k < i + 2 && k < |ns| && k % 2 == 0 && ns[k].Command?
      ensures HasIndex(more, k)
    {
      HasIndexMore(started, p, k);
      assert k < i ==> HasIndex(started, k);
    }
  }

  lemma NoneStarted(ns: seq<Node>, i: nat, started: seq<Launch>)
    requires i < |ns| && i % 2 == 0 && StartedInOrder(ns, i, started) && !ns[i].Command?
    ensures StartedInOrder(ns, i + 2, started)
  {
    forall n | 0 <= n < |started|
      ensures InPlace(ns, i + 2, started[n])
    {
      assert InPlace(ns, i, started[n]);
    }
  }

  lemma {:induction false} LaunchesInOrder(ns: seq<Node>, i: nat)
    requires Shaped(ns) && i <= |ns| + 1 && i % 2 == 0
    ensures StartedInOrder(ns, i, AllLaunches(ns, i))
  {
    if i > 0 {
      LaunchesInOrder(ns, i - 2);
      if ns[i - 2].Command? {
        OneMoreStarted(ns, i - 2, AllLaunches(ns, i - 2), LaunchIn(ns, i - 2, DirBefore(ns, i - 2)));
      } else {
        NoneStarted(ns, i - 2, AllLaunches(ns, i - 2));
        assert AllLaunches(ns, i) == AllLaunches(ns, i - 2);
      }
    }
  }

  /** A run starts the commands of a prefix of the list, all of them and in order, each in the directory
      accumulated before it, joined by pipes where the list says so; and its status is the exit code of
      the last process started. */
  lemma RunStartsPrefix(ns: seq<Node>, oracle: Oracle)
    requires Shaped(ns)
    ensures exists stop: nat ::
      && stop <= |ns| + 1 && stop % 2 == 0 && Eval(ns, 0, oracle).started == AllLaunches(ns, stop)
      && StartedInOrder(ns, stop, Eval(ns, 0, oracle).started)
    ensures PipesMatch(ns, Eval(ns, 0, oracle).started)
    ensures forall l | l in Eval(ns, 0, oracle).started :: Connected(ns, l)
    ensures Eval(ns, 0, oracle).status.Exit? ==>
      var started := Eval(ns, 0, oracle).started;
      started != [] && Eval(ns, 0, oracle).status.code == oracle(started, |started| - 1)
  {
    var stop := StartsPrefix(ns, 0, oracle);
    LaunchesPiped(ns, stop);
    LaunchesInOrder(ns, stop);
    LaunchesConnected(ns, stop);
  }
}
