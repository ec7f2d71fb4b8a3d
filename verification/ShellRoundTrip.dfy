/** Writing a pipeline as words, and reading it back. */
module ShellRoundTrip {
  import opened Wrappers
  import opened ShellSyntax

  function EnvTokens(env: seq<(string, string)>): seq<string> {
    if env == [] then [] else [env[0].0 + "=" + env[0].1] + EnvTokens(env[1..])
  }

  function StdinTokens(stdin: Option<string>): seq<string> {
    match stdin case None => [] case Some(f) => ["<", f]
  }

  function TargetTokens(arrow: string, target: Target): seq<string> {
    match target
    case Inherit => []
    case ToPipe => []
    case ToStdout => ["2>&1"]
    case ToFile(f) => [arrow, f]
  }

  // Assignments, name, arguments, redirections; a connector is one word.
  function NodeTokens(n: Node): seq<string> {
    match n
    case Command(name, args, stdin, stdout, stderr, env) =>
      EnvTokens(env)
      + ([name] + (args + (StdinTokens(stdin) + (TargetTokens(">", stdout) + TargetTokens("2>", stderr)))))
    case Chdir(dir) => (match dir case None => ["cd"] case Some(d) => ["cd", d])
    case Pipe => ["|"]
    case And => ["&&"]
    case Or => ["||"]
  }

  function Unparse(ns: seq<Node>): seq<string> {
    if ns == [] then [] else NodeTokens(ns[0]) + Unparse(ns[1..])
  }

  // ------------------------------------------------------------------ words

  lemma AssignmentOfPair(k: string, v: string)
    requires IsKey(k) && IsValue(v)
    ensures Assignment(k + "=" + v) == Some((k, v))
  {
    var w := k + "=" + v;
    forall i | 0 <= i < |k|
      ensures w[i] != '='
    {
      assert w[i] == k[i] && k[i] in k;
    }
    assert w[|k|] == '=';
    assert FirstEquals(w) == |k|;
    assert w[..|k|] == k && w[|k| + 1..] == v;
  }

  lemma {:induction false} SetVarNew(env: seq<(string, string)>, key: string, value: string)
    requires forall i | 0 <= i < |env| :: env[i].0 != key
    ensures SetVar(env, key, value) == env + [(key, value)]
  {
    if env != [] {
      SetVarNew(env[1..], key, value);
    }
  }

  // ------------------------------------------------------------------ one operand

  lemma {:induction false} StepsEnv(m: Machine, env: seq<(string, string)>)
    requires m.mode == Begin && m.current == None && EnvOk(m.env + env)
    ensures Steps(m, EnvTokens(env)) == Some(m.(env := m.env + env))
    decreases |env|
  {
    if env == [] {
      assert m.env + env == m.env;
    } else {
      var k, v := env[0].0, env[0].1;
      assert (m.env + env)[|m.env|] == env[0] && env[0] in m.env + env;
      AssignmentOfPair(k, v);
      forall i | 0 <= i < |m.env|
        ensures m.env[i].0 != k
      {
        assert (m.env + env)[i] == m.env[i];
      }
      SetVarNew(m.env, k, v);
      var m' := m.(env := m.env + [env[0]]);
      assert m'.env + env[1..] == m.env + env;
      StepsEnv(m', env[1..]);
      assert (m.env + env)[|m.env|].0 + "=" + v == EnvTokens(env)[0];
    }
  }

  lemma {:induction false} StepsArgs(m: Machine, args: seq<string>)
    requires Consistent(m) && m.mode == InCommand
    requires forall a | a in args :: a !in RESERVED
    ensures Steps(m, args) == Some(m.(current := Some(m.current.value.(args := m.current.value.args + args))))
    decreases |args|
  {
    var cmd := m.current.value;
    if args == [] {
      assert cmd.args + args == cmd.args;
    } else {
      assert args[0] !in RESERVED;
      var m' := m.(current := Some(cmd.(args := cmd.args + [args[0]])));
      StepsArgs(m', args[1..]);
      assert cmd.args + [args[0]] + args[1..] == cmd.args + args;
    }
  }

  lemma StepsTwo(m: Machine, a: string, b: string)
    requires Consistent(m) && Step(m, a).Some?
    ensures Steps(m, [a, b]) == Step(Step(m, a).value, b)
  {
    assert [a, b][1..] == [b];
    var m' := Step(m, a).value;
    assert Steps(m', [b]) == match Step(m', b) case None => None case Some(m'') => Steps(m'', []);
  }

  lemma StepsOne(m: Machine, a: string)
    requires Consistent(m)
    ensures Steps(m, [a]) == Step(m, a)
  {
    assert [a][1..] == [];
  }

  // The redirections of a command, once its name and arguments have been read.
  lemma StepsRedirects(m: Machine, stdin: Option<string>, stdout: Target, stderr: Target)
    requires Consistent(m) && m.mode == InCommand
    requires m.current.value.stdin == None && m.current.value.stdout == Inherit && m.current.value.stderr == Inherit
    requires stdout != ToStdout && stdout != ToPipe && stderr != ToPipe
    ensures Steps(m, StdinTokens(stdin) + (TargetTokens(">", stdout) + TargetTokens("2>", stderr)))
      == Some(m.(current := Some(m.current.value.(stdin := stdin, stdout := stdout, stderr := stderr))))
  {
    var cmd := m.current.value;
    var m1 := m.(current := Some(cmd.(stdin := stdin)));
    var m2 := m.(current := Some(cmd.(stdin := stdin, stdout := stdout)));
    if stdin.Some? { StepsTwo(m, "<", stdin.value); }
    if stdout.ToFile? { StepsTwo(m1, ">", stdout.file); }
    if stderr.ToFile? { StepsTwo(m2, "2>", stderr.file); }
    if stderr.ToStdout? { StepsOne(m2, "2>&1"); }
    StepsConcat(m, StdinTokens(stdin), TargetTokens(">", stdout) + TargetTokens("2>", stderr));
    StepsConcat(m1, TargetTokens(">", stdout), TargetTokens("2>", stderr));
  }

  // What the machine holds before a connector closes the node.
  function Pending(n: Node): Node {
    if n.Command? && n.stdout == ToPipe then n.(stdout := Inherit) else n
  }

  lemma StepsCommand(p: seq<Node>, n: Node)
    requires OperandOk(n) && n.Command?
    ensures Steps(Machine(Begin, None, [], p), NodeTokens(n)) == Some(Machine(InCommand, Some(Pending(n)), [], p))
  {
    var m0 := Machine(Begin, None, [], p);
    var m1 := Machine(Begin, None, n.env, p);
    var m2 := Machine(InCommand, Some(Command(n.name, [], None, Inherit, Inherit, n.env)), [], p);
    var m3 := Machine(InCommand, Some(Command(n.name, n.args, None, Inherit, Inherit, n.env)), [], p);
    var redirects := StdinTokens(n.stdin) + (TargetTokens(">", n.stdout) + TargetTokens("2>", n.stderr));
    assert [] + n.env == n.env;
    StepsEnv(m0, n.env);
    StepsConcat(m0, EnvTokens(n.env), [n.name] + (n.args + redirects));
    StepsOne(m1, n.name);
    assert Steps(m1, [n.name]) == Some(m2);
    StepsConcat(m1, [n.name], n.args + redirects);
    assert [] + n.args == n.args;
    StepsArgs(m2, n.args);
    StepsConcat(m2, n.args, redirects);
    StepsRedirects(m3, n.stdin, Pending(n).stdout, n.stderr);
    assert TargetTokens(">", n.stdout) == TargetTokens(">", Pending(n).stdout);
  }

  lemma StepsChdir(p: seq<Node>, n: Node)
    requires OperandOk(n) && n.Chdir?
    ensures Steps(Machine(Begin, None, [], p), NodeTokens(n)) == Some(Machine(InChdir, Some(n), [], p))
  {
    var m := Machine(Begin, None, [], p);
    assert FirstEquals("cd") == 2;
    if n.dir.Some? { StepsTwo(m, "cd", n.dir.value); } else { StepsOne(m, "cd"); }
  }

  lemma StepsOperand(p: seq<Node>, n: Node)
    requires OperandOk(n)
    ensures Steps(Machine(Begin, None, [], p), NodeTokens(n))
      == Some(Machine(if n.Chdir? then InChdir else InCommand, Some(Pending(n)), [], p))
  {
    if n.Chdir? { StepsChdir(p, n); } else { StepsCommand(p, n); }
  }

  lemma StepsPair(p: seq<Node>, n: Node, op: Node)
    requires OperandOk(n) && op.IsOp() && Fits(n, op)
    ensures Steps(Machine(Begin, None, [], p), NodeTokens(n) + NodeTokens(op))
      == Some(Machine(Begin, None, [], p + [n, op]))
  {
    var m := Machine(if n.Chdir? then InChdir else InCommand, Some(Pending(n)), [], p);
    StepsOperand(p, n);
    StepsOne(m, NodeTokens(op)[0]);
    StepsConcat(Machine(Begin, None, [], p), NodeTokens(n), NodeTokens(op));
  }

  lemma TailWellFormed(ns: seq<Node>)
    requires WellFormed(ns) && |ns| > 1
    ensures OperandOk(ns[0]) && ns[1].IsOp() && Fits(ns[0], ns[1]) && WellFormed(ns[2..])
  {
    var rest := ns[2..];
    assert NodeOk(ns, 0) && NodeOk(ns, 1);
    forall i | 0 <= i < |rest|
      ensures NodeOk(rest, i)
    {
      assert NodeOk(ns, i + 2) && rest[i] == ns[i + 2];
      if i + 1 < |rest| { assert rest[i + 1] == ns[i + 3]; }
    }
  }

  lemma UnparsePair(ns: seq<Node>)
    requires |ns| > 1
    ensures Unparse(ns) == (NodeTokens(ns[0]) + NodeTokens(ns[1])) + Unparse(ns[2..])
  {
    assert ns[1..][1..] == ns[2..];
    assert Unparse(ns[1..]) == NodeTokens(ns[1]) + Unparse(ns[2..]);
  }

  // After the nodes p, the tokens are read to their end and leave the pipeline ns.
  predicate Reads(p: seq<Node>, tokens: seq<string>, ns: seq<Node>) {
    var m := Steps(Machine(Begin, None, [], p), tokens);
    m.Some? && Finish(m.value) == Some(ns)
  }

  lemma ReadsAfter(p: seq<Node>, a: seq<string>, q: seq<Node>, b: seq<string>, ns: seq<Node>)
    requires Steps(Machine(Begin, None, [], p), a) == Some(Machine(Begin, None, [], q))
    requires Reads(q, b, ns)
    ensures Reads(p, a + b, ns)
  {
    StepsConcat(Machine(Begin, None, [], p), a, b);
  }

  lemma ReadsLast(p: seq<Node>, n: Node)
    requires OperandOk(n) && Pending(n) == n
    ensures Reads(p, Unparse([n]), p + [n])
  {
    StepsOperand(p, n);
    assert Unparse([n]) == NodeTokens(n);
  }

  // An operand and its connector, read before a list that reads back.
  lemma ReadsPair(p: seq<Node>, ns: seq<Node>, out: seq<Node>)
    requires |ns| > 1 && OperandOk(ns[0]) && ns[1].IsOp() && Fits(ns[0], ns[1])
    requires Reads(p + [ns[0], ns[1]], Unparse(ns[2..]), out)
    ensures Reads(p, Unparse(ns), out)
  {
    StepsPair(p, ns[0], ns[1]);
    ReadsAfter(p, NodeTokens(ns[0]) + NodeTokens(ns[1]), p + [ns[0], ns[1]], Unparse(ns[2..]), out);
    UnparsePair(ns);
  }

  lemma {:induction false} ReadBack(p: seq<Node>, ns: seq<Node>, out: seq<Node>)
    requires WellFormed(ns) && out == p + ns
    ensures Reads(p, Unparse(ns), out)
    decreases |ns|
  {
    if |ns| == 1 {
      assert NodeOk(ns, 0) && ns == [ns[0]];
      ReadsLast(p, ns[0]);
    } else {
      TailWellFormed(ns);
      assert out == p + [ns[0], ns[1]] + ns[2..];
      ReadBack(p + [ns[0], ns[1]], ns[2..], out);
      ReadsPair(p, ns, out);
    }
  }

  /** Writing any well-formed pipeline as words and parsing them gives the same pipeline back. */
  lemma ParseUnparse(ns: seq<Node>)
    requires WellFormed(ns)
    ensures Parse(Unparse(ns)) == Some(ns)
  {
    ReadBack([], ns, ns);
  }

  /** The pipelines that survive the round trip are exactly the well-formed ones, and they are exactly
      what the parser produces. */
  lemma RoundTripIff(ns: seq<Node>)
    ensures Parse(Unparse(ns)) == Some(ns) <==> WellFormed(ns)
    ensures WellFormed(ns) <==> exists tokens :: Parse(tokens) == Some(ns)
  {
    ParsedIsWellFormed(Unparse(ns));
    if WellFormed(ns) { ParseUnparse(ns); }
    forall tokens | Parse(tokens) == Some(ns)
      ensures WellFormed(ns)
    {
      ParsedIsWellFormed(tokens);
    }
  }
}
