/** The Pipeline object: its parsing loop and its executor, against the token machine and the meaning of
    a run. */
module ShellPipeline {
  import opened Wrappers
  import opened ShellSyntax
  import opened ShellEval
  import opened ShellPaths

  // The shared null file, or a file opened by the run.
  datatype Handle = DevNull | Open(serial: nat, file: string)

  function RealFiles(files: seq<Handle>): seq<Handle> {
    if files == [] then []
    else RealFiles(files[..|files| - 1]) + if files[|files| - 1] == DevNull then [] else [files[|files| - 1]]
  }

  function OutFile(target: Target): seq<string> {
    if target.ToFile? && !IsNullFile(target.file) then [target.file] else []
  }

  // The files a command opens: its input unless it reads a pipe, and its outputs unless they are null.
  function FilesOf(cmd: Node, piped: bool): seq<string>
    requires cmd.Command?
  {
    (if !piped && cmd.stdin.Some? then [cmd.stdin.value] else []) + OutFile(cmd.stdout) + OutFile(cmd.stderr)
  }

  // The files opened for the processes started.
  function AllFiles(ns: seq<Node>, started: seq<Launch>): seq<string> {
    if started == [] then []
    else
      var last := started[|started| - 1];
      AllFiles(ns, started[..|started| - 1])
      + if last.index < |ns| && ns[last.index].Command? then FilesOf(ns[last.index], last.stdin.PipedFrom?) else []
  }

  lemma AllFilesAppend(ns: seq<Node>, started: seq<Launch>, l: Launch)
    requires l.index < |ns| && ns[l.index].Command?
    ensures AllFiles(ns, started + [l]) == AllFiles(ns, started) + FilesOf(ns[l.index], l.stdin.PipedFrom?)
  {
    assert (started + [l])[..|started|] == started;
  }

  // The files that the streams of a process are connected to.
  function StreamFiles(l: Launch): seq<string> {
    (match l.stdin case FromFile(AtStart(f)) => [f] case _ => [])
    + (match l.stdout case IntoFile(AtStart(f)) => [f] case _ => [])
    + (match l.stderr case IntoFile(AtStart(f)) => [f] case _ => [])
  }

  function StreamFilesOf(started: seq<Launch>): seq<string> {
    if started == [] then []
    else StreamFilesOf(started[..|started| - 1]) + StreamFiles(started[|started| - 1])
  }

  lemma FilesOfLaunch(ns: seq<Node>, i: nat, cwd: string)
    requires Shaped(ns) && i < |ns| && i % 2 == 0 && ns[i].Command?
    ensures var l := LaunchIn(ns, i, cwd); FilesOf(ns[i], l.stdin.PipedFrom?) == StreamFiles(l)
  {
    assert NodeOk(ns, i);
  }

  predicate FilesMatch(ns: seq<Node>, l: Launch) {
    l.index < |ns| && ns[l.index].Command? && FilesOf(ns[l.index], l.stdin.PipedFrom?) == StreamFiles(l)
  }

  lemma {:induction false} AllFilesMatch(ns: seq<Node>, started: seq<Launch>)
    requires forall l | l in started :: FilesMatch(ns, l)
    ensures AllFiles(ns, started) == StreamFilesOf(started)
  {
    if started != [] {
      assert FilesMatch(ns, started[|started| - 1]);
      AllFilesMatch(ns, started[..|started| - 1]);
    }
  }

  lemma {:induction false} LaunchesMatch(ns: seq<Node>, i: nat)
    requires Shaped(ns) && i <= |ns| + 1 && i % 2 == 0
    ensures forall l | l in AllLaunches(ns, i) :: FilesMatch(ns, l)
  {
    if i > 0 {
      LaunchesMatch(ns, i - 2);
      if ns[i - 2].Command? {
        FilesOfLaunch(ns, i - 2, DirBefore(ns, i - 2));
      }
    }
  }

  /** The files opened for the processes of a run are those their streams are connected to: the input, the
      output and the errors of each, process by process. */
  lemma RunOpensStreams(ns: seq<Node>, oracle: Oracle)
    requires Shaped(ns)
    ensures AllFiles(ns, Eval(ns, 0, oracle).started) == StreamFilesOf(Eval(ns, 0, oracle).started)
  {
    var stop := StartsPrefix(ns, 0, oracle);
    LaunchesMatch(ns, stop);
    AllFilesMatch(ns, Eval(ns, 0, oracle).started);
  }

  // Files carry the serial numbers 0, 1, 2, ... in the order in which they are opened.
  predicate OpenedAs(log: seq<Handle>, names: seq<string>) {
    |log| == |names| && forall k | 0 <= k < |log| :: log[k] == Open(k, names[k])
  }

  lemma RealFilesAppend(files: seq<Handle>, f: Handle)
    ensures RealFiles(files + [f]) == RealFiles(files) + if f == DevNull then [] else [f]
  {
    assert (files + [f])[..|files|] == files;
  }

  // Every file opened so far is closed, or waits in the list of files to close; the shared null file may
  // wait there too.
  predicate Ledger(names: seq<string>, openLog: seq<Handle>, closeLog: seq<Handle>, files: seq<Handle>) {
    OpenedAs(openLog, names) && openLog == closeLog + RealFiles(files)
  }

  lemma LedgerSettled(names: seq<string>, openLog: seq<Handle>, closeLog: seq<Handle>, files: seq<Handle>)
    requires Ledger(names, openLog, closeLog, files)
    ensures DevNull !in closeLog
    ensures Ledger(names, openLog, closeLog + RealFiles(files), []) && closeLog + RealFiles(files) == openLog
  {
    assert forall k | 0 <= k < |closeLog| :: closeLog[k] == openLog[k];
  }

  lemma LedgerOpened(names: seq<string>, openLog: seq<Handle>, closeLog: seq<Handle>, files: seq<Handle>,
                     file: string, shared: bool)
    requires Ledger(names, openLog, closeLog, files)
    ensures shared ==> Ledger(names + [], openLog, closeLog, files + [DevNull])
    ensures var f := Open(|openLog|, file);
      !shared ==> Ledger(names + [file], openLog + [f], closeLog, files + [f])
  {
    var f := if shared then DevNull else Open(|openLog|, file);
    RealFilesAppend(files, f);
    if shared {
      assert names + [] == names && RealFiles(files) + [] == RealFiles(files);
    } else {
      assert closeLog + RealFiles(files) + [f] == closeLog + (RealFiles(files) + [f]);
    }
  }

  // What the executor's variables hold before the node at position i.
  predicate RunState(ns: seq<Node>, i: nat, cwd: string, piped: bool, started: seq<Launch>, group: seq<Launch>) {
    && i <= |ns| && i % 2 == 0
    && cwd == DirBefore(ns, i) && started == AllLaunches(ns, i)
    && (piped <==> PipeSource(ns, i).Some?)
    && (piped <==> group != [])
    && |group| <= |started|
    && (piped ==> group[|group| - 1] == started[|started| - 1])
  }

  lemma AfterChdir(ns: seq<Node>, i: nat, cwd: string, piped: bool, started: seq<Launch>, group: seq<Launch>)
    requires Shaped(ns) && RunState(ns, i, cwd, piped, started, group)
    requires i + 1 < |ns| && ns[i].Chdir? && ns[i].dir.Some?
    ensures RunState(ns, i + 2, JoinPath(cwd, ns[i].dir.value), piped, started, group)
  {
    assert NodeOk(ns, i) && NodeOk(ns, i + 1);
  }

  // The process that the executor's variables give for the command at position i.
  function ProcessOf(node: Node, i: nat, cwd: string, piped: bool, group: seq<Launch>): Launch
    requires node.Command? && (piped ==> group != [])
  {
    Launch(i,
           if cwd == "." then None else Some(cwd),
           if piped then PipedFrom(group[|group| - 1].index)
           else if node.stdin.Some? then FromFile(AtStart(node.stdin.value))
           else InheritedInput,
           SinkOf(node.stdout),
           SinkOf(node.stderr))
  }

  lemma ProcessIsLaunch(ns: seq<Node>, i: nat, cwd: string, piped: bool, started: seq<Launch>, group: seq<Launch>)
    requires Shaped(ns) && RunState(ns, i, cwd, piped, started, group)
    requires i < |ns| && ns[i].Command?
    ensures ProcessOf(ns[i], i, cwd, piped, group) == LaunchIn(ns, i, cwd)
    ensures started + [LaunchIn(ns, i, cwd)] == AllLaunches(ns, i + 2)
    ensures LaunchIn(ns, i, cwd).stdin.PipedFrom? <==> piped
  {
    LaunchesPiped(ns, i);
  }

  lemma NextState(ns: seq<Node>, i: nat, cwd: string, piped: bool, started: seq<Launch>, group: seq<Launch>, p: Launch)
    requires Shaped(ns) && RunState(ns, i, cwd, piped, started, group)
    requires i + 1 < |ns| && ns[i].Command? && started + [p] == AllLaunches(ns, i + 2)
    ensures ns[i + 1].IsOp()
    ensures RunState(ns, i + 2, cwd, ns[i + 1] == Pipe, started + [p], if ns[i + 1] == Pipe then group + [p] else [])
  {
    assert NodeOk(ns, i + 1);
  }

  lemma AtCommand(ns: seq<Node>, i: nat, cwd: string, piped: bool, started: seq<Launch>, group: seq<Launch>)
    requires Shaped(ns) && RunState(ns, i, cwd, piped, started, group)
    requires i < |ns| && ns[i].Command?
    ensures var p := ProcessOf(ns[i], i, cwd, piped, group);
      && started + [p] == AllLaunches(ns, i + 2)
      && AllFiles(ns, started + [p]) == AllFiles(ns, started) + FilesOf(ns[i], piped)
      && (i + 1 < |ns| ==>
            && ns[i + 1].IsOp()
            && RunState(ns, i + 2, cwd, ns[i + 1] == Pipe, started + [p],
                        if ns[i + 1] == Pipe then group + [p] else []))
  {
    var p := LaunchIn(ns, i, cwd);
    ProcessIsLaunch(ns, i, cwd, piped, started, group);
    AllFilesAppend(ns, started, p);
    if i + 1 < |ns| {
      NextState(ns, i, cwd, piped, started, group, p);
    }
  }

  class Pipeline {
    var currentCommand: Option<Node>
    var pipeline: seq<Node>

    ghost predicate Valid()
      reads this
    {
      Shaped(pipeline)
    }

    constructor ()
      ensures Valid() && pipeline == []
    {
      currentCommand, pipeline := None, [];
    }

    // False stands for the failed assertion that there is a current command.
    method CommitCommand() returns (ok: bool)
      modifies this
      ensures ok <==> old(currentCommand).Some?
      ensures ok ==> pipeline == old(pipeline) + [old(currentCommand).value] && currentCommand == None
      ensures !ok ==> pipeline == old(pipeline)
    {
      if currentCommand == None { return false; }
      pipeline := pipeline + [currentCommand.value];
      currentCommand := None;
      return true;
    }

    // Close the current command with a connector.
    method Connect(op: Node)
      requires currentCommand.Some?
      modifies this
      ensures pipeline == old(pipeline) + [old(currentCommand).value, op] && currentCommand == None
    {
      var ok := CommitCommand();
      pipeline := pipeline + [op];
    }

    /** The parsing loop.  A result of false stands for a failed assertion; what was accepted before it
        keeps its shape. */
    method ParseTokens(tokens: seq<string>) returns (ok: bool)
      modifies this
      ensures Valid()
      ensures ok <==> Parse(tokens).Some?
      ensures ok ==> pipeline == Parse(tokens).value && WellFormed(pipeline)
    {
      currentCommand, pipeline := None, [];
      var state, env := Begin, [];
      ghost var m := START;
      for k := 0 to |tokens|
        invariant m == Machine(state, currentCommand, env, pipeline) && MachineOk(m)
        invariant Parse(tokens) == match Steps(m, tokens[k..]) case None => None case Some(m') => Finish(m')
      {
        var token := tokens[k];
        assert tokens[k..][0] == token && tokens[k..][1..] == tokens[k + 1..];
        StepOk(m, token);
        match state {
          case Begin =>
            var pair := Assignment(token);
            if pair.Some? {
              env := SetVar(env, pair.value.0, pair.value.1);
            } else if token == "cd" {
              if env != [] { return false; }
              currentCommand, state := Some(Chdir(None)), InChdir;
            } else {
              currentCommand := Some(Command(token, [], None, Inherit, Inherit, env));
              env, state := [], InCommand;
            }
          case InCommand =>
            var cmd := currentCommand.value;
            if token == ">" {
              state := InStdout;
            } else if token == "2>" {
              state := InStderr;
            } else if token == "2>&1" {
              if cmd.stderr != Inherit { return false; }
              currentCommand := Some(cmd.(stderr := ToStdout));
            } else if token == "<" {
              state := InStdin;
            } else if token == "|" {
              if cmd.stdout != Inherit { return false; }
              currentCommand := Some(cmd.(stdout := ToPipe));
              Connect(Pipe);
              state := Begin;
            } else if token == "&&" {
              Connect(And);
              state := Begin;
            } else if token == "||" {
              Connect(Or);
              state := Begin;
            } else {
              currentCommand := Some(cmd.(args := cmd.args + [token]));
            }
          case InChdir =>
            if token == "&&" {
              Connect(And);
              state := Begin;
            } else {
              if currentCommand.value.dir.Some? { return false; }
              currentCommand := Some(Chdir(Some(token)));
            }
          case InStdout =>
            if currentCommand.value.stdout != Inherit { return false; }
            currentCommand, state := Some(currentCommand.value.(stdout := ToFile(token))), InCommand;
          case InStderr =>
            if currentCommand.value.stderr != Inherit { return false; }
            currentCommand, state := Some(currentCommand.value.(stderr := ToFile(token))), InCommand;
          case InStdin =>
            if currentCommand.value.stdin != None { return false; }
            currentCommand, state := Some(currentCommand.value.(stdin := Some(token))), InCommand;
        }
        m := Step(m, token).value;
      }
      ParsedIsWellFormed(tokens);
      ok := CommitCommand();
    }

    // The exit status of a piped group: the last code, although the loop looks for a non-zero one.
    static method ExecPipedCommands(codes: seq<int>) returns (retval: int)
      ensures codes != [] ==> retval == codes[|codes| - 1]
      ensures codes == [] ==> retval == 0
    {
      retval := 0;
      for k := 0 to |codes|
        invariant retval == 0 && forall j | 0 <= j < k :: codes[j] == 0
      {
        if codes[k] != 0 {
          retval := codes[|codes| - 1];
          break;
        }
      }
    }

    static method CloseFiles(files: seq<Handle>, closeLog: seq<Handle>) returns (closeLog': seq<Handle>)
      ensures closeLog' == closeLog + RealFiles(files)
    {
      closeLog' := closeLog;
      for k := 0 to |files|
        invariant closeLog' == closeLog + RealFiles(files[..k])
      {
        assert files[..k + 1] == files[..k] + [files[k]];
        RealFilesAppend(files[..k], files[k]);
        if files[k] != DevNull {
          closeLog' := closeLog' + [files[k]];
        }
      }
      assert files[..|files|] == files;
    }

    // Open a file, or take the shared null file, and note it among the files to close.
    static method OpenFile(file: string, shared: bool, openLog: seq<Handle>, files: seq<Handle>,
                           ghost closeLog: seq<Handle>, ghost names: seq<string>)
      returns (openLog': seq<Handle>, files': seq<Handle>)
      requires Ledger(names, openLog, closeLog, files)
      ensures Ledger(names + (if shared then [] else [file]), openLog', closeLog, files')
    {
      var f := if shared then DevNull else Open(|openLog|, file);
      LedgerOpened(names, openLog, closeLog, files, file, shared);
      files' := files + [f];
      openLog' := if shared then openLog else openLog + [f];
    }

    // The file an output stream is redirected to, if it is.
    static method OpenTarget(target: Target, openLog: seq<Handle>, files: seq<Handle>,
                             ghost closeLog: seq<Handle>, ghost names: seq<string>)
      returns (openLog': seq<Handle>, files': seq<Handle>)
      requires Ledger(names, openLog, closeLog, files)
      ensures Ledger(names + OutFile(target), openLog', closeLog, files')
    {
      openLog', files' := openLog, files;
      if target.ToFile? {
        openLog', files' := OpenFile(target.file, IsNullFile(target.file), openLog, files, closeLog, names);
      }
    }

    // Open the files a command is redirected to; its standard input only when it does not read a pipe.
    static method OpenFiles(cmd: Node, piped: bool, openLog: seq<Handle>, files: seq<Handle>,
                            ghost closeLog: seq<Handle>, ghost names: seq<string>)
      returns (openLog': seq<Handle>, files': seq<Handle>)
      requires cmd.Command? && Ledger(names, openLog, closeLog, files)
      ensures Ledger(names + FilesOf(cmd, piped), openLog', closeLog, files')
    {
      openLog', files' := openLog, files;
      if !piped && cmd.stdin.Some? {
        openLog', files' := OpenFile(cmd.stdin.value, false, openLog', files', closeLog, names);
      }
      ghost var input := names + if !piped && cmd.stdin.Some? then [cmd.stdin.value] else [];
      openLog', files' := OpenTarget(cmd.stdout, openLog', files', closeLog, input);
      openLog', files' := OpenTarget(cmd.stderr, openLog', files', closeLog, input + OutFile(cmd.stdout));
      assert input + OutFile(cmd.stdout) + OutFile(cmd.stderr) == names + FilesOf(cmd, piped);
    }

    // Wait for a group of processes, the last ones started, and close the files opened for it.
    static method FinishGroup(group: seq<Launch>, started: seq<Launch>, oracle: Oracle,
                              files: seq<Handle>, closeLog: seq<Handle>,
                              ghost openLog: seq<Handle>, ghost names: seq<string>)
      returns (retval: int, closeLog': seq<Handle>)
      requires 0 < |group| <= |started| && Ledger(names, openLog, closeLog, files)
      ensures retval == oracle(started, |started| - 1)
      ensures closeLog' == openLog && Ledger(names, openLog, closeLog', []) && DevNull !in closeLog'
    {
      var first: nat := |started| - |group|;
      var codes := seq(|group|, k requires 0 <= k < |group| => oracle(started, first + k));
      retval := ExecPipedCommands(codes);
      closeLog' := CloseFiles(files, closeLog);
      LedgerSettled(names, openLog, closeLog, files);
      LedgerSettled(names, openLog, closeLog', []);
    }

    // Start the process of the command at position i, after opening its files.
    method StartCommand(i: nat, cwd: string, piped: bool, group: seq<Launch>, openLog: seq<Handle>, files: seq<Handle>,
                        ghost closeLog: seq<Handle>, ghost started: seq<Launch>)
      returns (process: Launch, openLog': seq<Handle>, files': seq<Handle>)
      requires Valid() && RunState(pipeline, i, cwd, piped, started, group)
      requires i < |pipeline| && pipeline[i].Command?
      requires Ledger(AllFiles(pipeline, started), openLog, closeLog, files)
      ensures Ledger(AllFiles(pipeline, started + [process]), openLog', closeLog, files')
      ensures started + [process] == AllLaunches(pipeline, i + 2)
      ensures i + 1 < |pipeline| ==>
        && pipeline[i + 1].IsOp()
        && RunState(pipeline, i + 2, cwd, pipeline[i + 1] == Pipe, started + [process],
                    if pipeline[i + 1] == Pipe then group + [process] else [])
    {
      var node := pipeline[i];
      ghost var names := AllFiles(pipeline, started);
      openLog', files' := OpenFiles(node, piped, openLog, files, closeLog, names);
      process := ProcessOf(node, i, cwd, piped, group);
      AtCommand(pipeline, i, cwd, piped, started, group);
    }

    // The command at position i and the connector after it.  The run is over when the command is the last
    // or the connector ends it; otherwise it goes on after the connector.
    method RunCommand(i: nat, cwd: string, piped: bool, started: seq<Launch>, group: seq<Launch>,
                      openLog: seq<Handle>, closeLog: seq<Handle>, files: seq<Handle>, oracle: Oracle)
      returns (done: bool, code: int, started': seq<Launch>, group': seq<Launch>,
               openLog': seq<Handle>, closeLog': seq<Handle>, files': seq<Handle>)
      requires Valid() && RunState(pipeline, i, cwd, piped, started, group)
      requires i < |pipeline| && pipeline[i].Command?
      requires Ledger(AllFiles(pipeline, started), openLog, closeLog, files)
      ensures Ledger(AllFiles(pipeline, started'), openLog', closeLog', files')
      ensures started' == AllLaunches(pipeline, i + 2)
      ensures done <==> EndsAt(pipeline, i, LastCode(pipeline, i + 2, oracle))
      ensures done ==> code == LastCode(pipeline, i + 2, oracle)
      ensures done || pipeline[i + 1] != Pipe ==> closeLog' == openLog' && files' == []
      ensures !done ==> RunState(pipeline, i + 2, cwd, pipeline[i + 1] == Pipe, started', group')
    {
      var process;
      code, closeLog' := 0, closeLog;
      process, openLog', files' := StartCommand(i, cwd, piped, group, openLog, files, closeLog, started);
      started', group' := started + [process], group + [process];
      if i + 1 < |pipeline| && pipeline[i + 1] == Pipe {
        done := false;
      } else {
        code, closeLog' :=
          FinishGroup(group', started', oracle, files', closeLog, openLog', AllFiles(pipeline, started'));
        files' := [];
        if i + 1 == |pipeline| {
          done := true;
        } else {
          group' := [];
          var op := pipeline[i + 1];
          done := (op == Or && code == 0) || (op == And && code != 0);
        }
      }
    }

    /** The executor.  It computes the meaning of the run; it opens the files of the commands it starts and
        no others; whenever it returns a status, it has closed every file it opened exactly once, in the
        order of opening, and the shared null file never. */
    method Run(oracle: Oracle)
      returns (status: Status, started: seq<Launch>, openLog: seq<Handle>, closeLog: seq<Handle>)
      requires Valid()
      ensures Outcome(status, started) == Eval(pipeline, 0, oracle)
      ensures OpenedAs(openLog, AllFiles(pipeline, started))
      ensures status.Exit? ==> closeLog == openLog
      ensures DevNull !in closeLog
    {
      started, openLog, closeLog := [], [], [];
      var i, cwd, piped := 0, ".", false;
      var group: seq<Launch>, files: seq<Handle> := [], [];
      ghost var result := Eval(pipeline, 0, oracle);
      while i < |pipeline|
        invariant RunState(pipeline, i, cwd, piped, started, group)
        invariant Ledger(AllFiles(pipeline, started), openLog, closeLog, files)
        invariant Eval(pipeline, i, oracle) == result
      {
        assert pipeline[i].Chdir? || pipeline[i].Command? by { assert NodeOk(pipeline, i); }
        var node := pipeline[i];
        LedgerSettled(AllFiles(pipeline, started), openLog, closeLog, files);
        if node.Chdir? {
          EvalChdir(pipeline, i, oracle);
          if i + 1 == |pipeline| || node.dir == None {
            return Raised, started, openLog, closeLog;
          }
          AfterChdir(pipeline, i, cwd, piped, started, group);
          cwd := JoinPath(cwd, node.dir.value);
        } else {
          var done, code;
          EvalCommand(pipeline, i, oracle);
          done, code, started, group, openLog, closeLog, files :=
            RunCommand(i, cwd, piped, started, group, openLog, closeLog, files, oracle);
          if done {
            LedgerSettled(AllFiles(pipeline, started), openLog, closeLog, files);
            return Exit(code), started, openLog, closeLog;
          }
          piped := pipeline[i + 1] == Pipe;
        }
        i := i + 2;
      }
      LedgerSettled(AllFiles(pipeline, started), openLog, closeLog, files);
      return NoStatus, started, openLog, closeLog;
    }
  }
}
