/** The token machine that turns a list of shell words into a list of commands, directory changes and
    connectors, its shape guarantees, and its inverse. */
module ShellSyntax {
  import opened Wrappers

  // Where an output stream goes: not redirected, into the next command, to wherever stdout goes, to a file.
  datatype Target = Inherit | ToPipe | ToStdout | ToFile(file: string)

  // The words run by a command are its name and then its arguments.
  datatype Node =
    | Command(name: string, args: seq<string>, stdin: Option<string>, stdout: Target, stderr: Target,
              env: seq<(string, string)>)
    | Chdir(dir: Option<string>)
    | Pipe
    | And
    | Or
  {
    predicate IsOp() { Pipe? || And? || Or? }
  }

  // ------------------------------------------------------------------ assignment words

  predicate IsWordChar(c: char) {
    'a' <= c <= 'z' || 'A' <= c <= 'Z' || '0' <= c <= '9' || c == '_'
  }

  // The white space of a Unicode string.
  predicate IsSpace(c: char) {
    || '\t' <= c <= '\r' || '\U{1c}' <= c <= ' ' || c == '\U{85}' || c == '\U{a0}' || c == '\U{1680}'
    || '\U{2000}' <= c <= '\U{200a}' || c == '\U{2028}' || c == '\U{2029}' || c == '\U{202f}'
    || c == '\U{205f}' || c == '\U{3000}'
  }

  predicate IsKey(k: string) { k != "" && forall c | c in k :: IsWordChar(c) }

  predicate IsValue(v: string) { v != "" && forall c | c in v :: !IsSpace(c) }

  // The position of the first '=', or the length of the word.
  function FirstEquals(w: string): (i: nat)
    ensures i <= |w| && (forall k | 0 <= k < i :: w[k] != '=') && (i < |w| ==> w[i] == '=')
  {
    if w == "" || w[0] == '=' then 0 else 1 + FirstEquals(w[1..])
  }

  // The name and value of a word of the form NAME=VALUE; one final newline is not part of the value.
  function Assignment(w: string): Option<(string, string)> {
    var i := FirstEquals(w);
    if i == |w| || !IsKey(w[..i]) then None
    else
      var v := w[i + 1..];
      if IsValue(v) then Some((w[..i], v))
      else if v != "" && v[|v| - 1] == '\n' && IsValue(v[..|v| - 1]) then Some((w[..i], v[..|v| - 1]))
      else None
  }

  // Assignment into a dictionary that keeps the order of insertion.
  function SetVar(env: seq<(string, string)>, key: string, value: string): seq<(string, string)> {
    if env == [] then [(key, value)]
    else if env[0].0 == key then [(key, value)] + env[1..]
    else [env[0]] + SetVar(env[1..], key, value)
  }

  // ------------------------------------------------------------------ the token machine

  datatype Mode = Begin | InCommand | InChdir | InStderr | InStdout | InStdin

  datatype Machine = Machine(mode: Mode, current: Option<Node>, env: seq<(string, string)>, pipeline: seq<Node>)

  const START := Machine(Begin, None, [], [])

  // The machine is between two nodes, or inside a command or a directory change.
  predicate Consistent(m: Machine) {
    match m.mode
    case Begin => m.current == None
    case InChdir => m.current.Some? && m.current.value.Chdir? && m.env == []
    case _ => m.current.Some? && m.current.value.Command? && m.env == []
  }

  function Connect(m: Machine, node: Node, op: Node): Machine {
    Machine(Begin, None, [], m.pipeline + [node, op])
  }

  function CommandStep(m: Machine, cmd: Node, token: string): (r: Option<Machine>)
    requires cmd.Command?
  {
    if token == ">" then Some(m.(mode := InStdout))
    else if token == "2>" then Some(m.(mode := InStderr))
    else if token == "2>&1" then
      if cmd.stderr != Inherit then None else Some(m.(current := Some(cmd.(stderr := ToStdout))))
    else if token == "<" then Some(m.(mode := InStdin))
    else if token == "|" then
      if cmd.stdout != Inherit then None else Some(Connect(m, cmd.(stdout := ToPipe), Pipe))
    else if token == "&&" then Some(Connect(m, cmd, And))
    else if token == "||" then Some(Connect(m, cmd, Or))
    else Some(m.(current := Some(cmd.(args := cmd.args + [token]))))
  }

  // One token; no result stands for a failed assertion of the parser.
  function Step(m: Machine, token: string): (r: Option<Machine>)
    requires Consistent(m)
    ensures r.Some? ==> Consistent(r.value)
  {
    match m.mode
    case Begin =>
      (match Assignment(token)
       case Some(kv) => Some(m.(env := SetVar(m.env, kv.0, kv.1)))
       case None =>
         if token == "cd" then
           if m.env != [] then None else Some(m.(mode := InChdir, current := Some(Chdir(None))))
         else
           Some(m.(mode := InCommand, current := Some(Command(token, [], None, Inherit, Inherit, m.env)), env := [])))
    case InCommand => CommandStep(m, m.current.value, token)
    case InChdir =>
      if token == "&&" then Some(Connect(m, m.current.value, And))
      else if m.current.value.dir.Some? then None
      else Some(m.(current := Some(Chdir(Some(token)))))
    case InStdout =>
      if m.current.value.stdout != Inherit then None
      else Some(m.(mode := InCommand, current := Some(m.current.value.(stdout := ToFile(token)))))
    case InStderr =>
      if m.current.value.stderr != Inherit then None
      else Some(m.(mode := InCommand, current := Some(m.current.value.(stderr := ToFile(token)))))
    case InStdin =>
      if m.current.value.stdin != None then None
      else Some(m.(mode := InCommand, current := Some(m.current.value.(stdin := Some(token)))))
  }

  function Steps(m: Machine, tokens: seq<string>): (r: Option<Machine>)
    requires Consistent(m)
    ensures r.Some? ==> Consistent(r.value)
    decreases |tokens|
  {
    if tokens == [] then Some(m)
    else
      match Step(m, tokens[0])
      case None => None
      case Some(m') => Steps(m', tokens[1..])
  }

  // The end of the input commits the current node; there must be one.
  function Finish(m: Machine): Option<seq<Node>> {
    if m.current == None then None else Some(m.pipeline + [m.current.value])
  }

  function Parse(tokens: seq<string>): Option<seq<Node>> {
    match Steps(START, tokens)
    case None => None
    case Some(m) => Finish(m)
  }

  lemma {:induction false} StepsConcat(m: Machine, a: seq<string>, b: seq<string>)
    requires Consistent(m)
    ensures Steps(m, a + b) == match Steps(m, a) case None => None case Some(m') => Steps(m', b)
    decreases |a|
  {
    if a == [] {
      assert a + b == b;
    } else {
      assert (a + b)[0] == a[0] && (a + b)[1..] == a[1..] + b;
      match Step(m, a[0])
      case None =>
      case Some(m') => StepsConcat(m', a[1..], b);
    }
  }

  // ------------------------------------------------------------------ the shape of a parsed pipeline

  const RESERVED: set<string> := {">", "2>", "2>&1", "<", "|", "&&", "||"}

  predicate DistinctKeys(env: seq<(string, string)>) {
    forall i, j | 0 <= i < j < |env| :: env[i].0 != env[j].0
  }

  predicate EnvOk(env: seq<(string, string)>) {
    DistinctKeys(env) && forall kv | kv in env :: IsKey(kv.0) && IsValue(kv.1)
  }

  predicate OperandOk(n: Node) {
    match n
    case Command(name, args, _, stdout, stderr, env) =>
      && name != "cd" && Assignment(name) == None
      && (forall a | a in args :: a !in RESERVED)
      && stdout != ToStdout && stderr != ToPipe
      && EnvOk(env)
    case Chdir(dir) => dir != Some("&&")
    case _ => false
  }

  // A command's output is a pipe exactly when a Pipe follows, and only And follows a directory change.
  predicate Fits(n: Node, op: Node) {
    match n
    case Command(_, _, _, stdout, _, _) => stdout == ToPipe <==> op == Pipe
    case Chdir(_) => op == And
    case _ => false
  }

  predicate NodeOk(ns: seq<Node>, i: nat)
    requires i < |ns|
  {
    if i % 2 == 1 then ns[i].IsOp()
    else
      && OperandOk(ns[i])
      && if i + 1 < |ns| then Fits(ns[i], ns[i + 1]) else ns[i].Command? ==> ns[i].stdout != ToPipe
  }

  // Operands and operators alternate, each operand fitting what follows.
  predicate Shaped(ns: seq<Node>) {
    forall i | 0 <= i < |ns| :: NodeOk(ns, i)
  }

  predicate WellFormed(ns: seq<Node>) {
    |ns| % 2 == 1 && Shaped(ns)
  }

  // ------------------------------------------------------------------ every accepted input has the shape

  // The operand under construction, which no connector has closed yet.
  predicate PendingOk(n: Node) {
    OperandOk(n) && (n.Command? ==> n.stdout != ToPipe)
  }

  predicate MachineOk(m: Machine) {
    && Consistent(m)
    && |m.pipeline| % 2 == 0 && Shaped(m.pipeline)
    && EnvOk(m.env)
    && (m.current.Some? ==> PendingOk(m.current.value))
  }

  lemma {:induction false} SetVarOk(env: seq<(string, string)>, key: string, value: string)
    requires EnvOk(env) && IsKey(key) && IsValue(value)
    ensures EnvOk(SetVar(env, key, value))
    ensures forall kv | kv in SetVar(env, key, value) :: kv == (key, value) || kv in env
  {
    if env != [] {
      if env[0].0 == key {
        assert forall kv | kv in env[1..] :: kv in env;
      } else {
        var rest := SetVar(env[1..], key, value);
        SetVarOk(env[1..], key, value);
        forall kv | kv in rest
          ensures kv.0 != env[0].0
        {
          if kv != (key, value) {
            var i :| 0 <= i < |env[1..]| && env[1..][i] == kv;
            assert env[i + 1] == kv;
          }
        }
      }
    }
  }

  lemma ConnectShaped(p: seq<Node>, n: Node, op: Node)
    requires |p| % 2 == 0 && Shaped(p) && OperandOk(n) && op.IsOp() && Fits(n, op)
    ensures Shaped(p + [n, op]) && |p + [n, op]| % 2 == 0
  {
    var q := p + [n, op];
    forall i | 0 <= i < |q|
      ensures NodeOk(q, i)
    {
      if i < |p| {
        assert NodeOk(p, i) && q[i] == p[i];
        if i + 1 < |p| { assert q[i + 1] == p[i + 1]; }
      } else {
        assert q[i] == [n, op][i - |p|];
      }
    }
  }

  lemma StepOk(m: Machine, token: string)
    requires MachineOk(m)
    ensures Step(m, token).Some? ==> MachineOk(Step(m, token).value)
  {
    match m.mode
    case Begin =>
      if Assignment(token).Some? {
        SetVarOk(m.env, Assignment(token).value.0, Assignment(token).value.1);
      }
    case InCommand =>
      var cmd := m.current.value;
      if token == "|" && cmd.stdout == Inherit { ConnectShaped(m.pipeline, cmd.(stdout := ToPipe), Pipe); }
      if token == "&&" { ConnectShaped(m.pipeline, cmd, And); }
      if token == "||" { ConnectShaped(m.pipeline, cmd, Or); }
    case InChdir =>
      if token == "&&" { ConnectShaped(m.pipeline, m.current.value, And); }
    case _ =>
  }

  lemma {:induction false} StepsOk(m: Machine, tokens: seq<string>)
    requires MachineOk(m)
    ensures Steps(m, tokens).Some? ==> MachineOk(Steps(m, tokens).value)
    decreases |tokens|
  {
    if tokens != [] {
      StepOk(m, tokens[0]);
      match Step(m, tokens[0])
      case None =>
      case Some(m') => StepsOk(m', tokens[1..]);
    }
  }

  /** Every accepted list of tokens gives operands and operators in turn, ending in an operand, where a
      command writes to a pipe exactly when a Pipe follows and only And follows a directory change. */
  lemma ParsedIsWellFormed(tokens: seq<string>)
    ensures Parse(tokens).Some? ==> WellFormed(Parse(tokens).value)
  {
    StepsOk(START, tokens);
    match Steps(START, tokens)
    case None =>
    case Some(m) =>
      if m.current.Some? {
        var q := m.pipeline + [m.current.value];
        forall i | 0 <= i < |q|
          ensures NodeOk(q, i)
        {
          if i < |m.pipeline| {
            assert NodeOk(m.pipeline, i) && q[i] == m.pipeline[i];
            if i + 1 < |m.pipeline| { assert q[i + 1] == m.pipeline[i + 1]; }
          }
        }
      }
  }
}
