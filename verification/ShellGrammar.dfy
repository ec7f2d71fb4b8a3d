/** The language of the shell parser, told without its states: which lists of words it accepts, and what each
    of them says, wherever among the words of a command a redirection stands. */
module ShellGrammar {
  import opened Wrappers
  import opened ShellSyntax
  import opened ShellRoundTrip

  // ------------------------------------------------------------------ assignment words

  lemma WordChars(c: char)
    ensures IsWordChar(c) <==>
      || c in {'A', 'B', 'C', 'D', 'E', 'F', 'G', 'H', 'I', 'J', 'K', 'L', 'M'}
      || c in {'N', 'O', 'P', 'Q', 'R', 'S', 'T', 'U', 'V', 'W', 'X', 'Y', 'Z'}
      || c in {'a', 'b', 'c', 'd', 'e', 'f', 'g', 'h', 'i', 'j', 'k', 'l', 'm'}
      || c in {'n', 'o', 'p', 'q', 'r', 's', 't', 'u', 'v', 'w', 'x', 'y', 'z'}
      || c in {'0', '1', '2', '3', '4', '5', '6', '7', '8', '9', '_'}
  {
  }

  lemma SpaceChars(c: char)
    ensures IsSpace(c) <==>
      || c in {'\t', '\n', '\U{0b}', '\U{0c}', '\r', '\U{1c}', '\U{1d}', '\U{1e}', '\U{1f}', ' '}
      || c in {'\U{85}', '\U{a0}', '\U{1680}', '\U{2000}', '\U{2001}', '\U{2002}', '\U{2003}', '\U{2004}', '\U{2005}'}
      || c in {'\U{2006}', '\U{2007}', '\U{2008}', '\U{2009}', '\U{200a}', '\U{2028}', '\U{2029}', '\U{202f}'}
      || c in {'\U{205f}', '\U{3000}'}
  {
  }

  // A name and a value with an equals sign between them, and perhaps a line end after them.
  predicate Sets(w: string, key: string, value: string) {
    IsKey(key) && IsValue(value) && (w == key + "=" + value || w == key + "=" + value + "\n")
  }

  lemma FirstEqualsIs(key: string, rest: string)
    requires IsKey(key)
    ensures FirstEquals(key + "=" + rest) == |key|
  {
    var w := key + "=" + rest;
    forall i | 0 <= i < |key|
      ensures w[i] != '='
    {
      assert w[i] == key[i] && key[i] in key;
    }
    assert w[|key|] == '=';
  }

  lemma SetsIsAssignment(w: string, key: string, value: string)
    requires Sets(w, key, value)
    ensures Assignment(w) == Some((key, value))
  {
    if w == key + "=" + value {
      AssignmentOfPair(key, value);
    } else {
      var v := value + "\n";
      assert w == key + "=" + v;
      FirstEqualsIs(key, v);
      assert w[..|key|] == key && w[|key| + 1..] == v;
      assert v[|v| - 1] == '\n' && v[|v| - 1] in v && v[..|v| - 1] == value;
    }
  }

  lemma AssignmentSets(w: string, key: string, value: string)
    requires Assignment(w) == Some((key, value))
    ensures Sets(w, key, value)
  {
    var i := FirstEquals(w);
    var v := w[i + 1..];
    assert w == w[..i] + "=" + v;
    assert v == v[..|v| - 1] + [v[|v| - 1]];
  }

  /** The words the parser takes for assignments. */
  lemma AssignmentIff(w: string, key: string, value: string)
    ensures Assignment(w) == Some((key, value)) <==> Sets(w, key, value)
  {
    if Sets(w, key, value) {
      SetsIsAssignment(w, key, value);
    } else if Assignment(w) == Some((key, value)) {
      AssignmentSets(w, key, value);
    }
  }

  // ------------------------------------------------------------------ the environment of a command

  // The variables set by some words, one after the other.
  function EnvOf(assigns: seq<string>): seq<(string, string)> {
    if assigns == [] then []
    else
      var last := |assigns| - 1;
      match Assignment(assigns[last])
      case None => EnvOf(assigns[..last])
      case Some(kv) => SetVar(EnvOf(assigns[..last]), kv.0, kv.1)
  }

  lemma {:induction false} SetVarIff(env: seq<(string, string)>, key: string, value: string, kv: (string, string))
    requires DistinctKeys(env)
    ensures kv in SetVar(env, key, value) <==> kv == (key, value) || (kv in env && kv.0 != key)
    ensures SetVar(env, key, value) != []
  {
    if env != [] {
      var rest := env[1..];
      assert DistinctKeys(rest);
      assert forall x :: x in env <==> x == env[0] || x in rest;
      if env[0].0 == key {
        assert forall x | x in rest :: x.0 != key;
      } else {
        SetVarIff(rest, key, value, kv);
      }
    }
  }

  // The i-th word sets the variable, and no later one does.
  ghost predicate SetLast(assigns: seq<string>, i: nat, key: string, value: string) {
    && i < |assigns| && Sets(assigns[i], key, value)
    && forall j, v | i < j < |assigns| :: !Sets(assigns[j], key, v)
  }

  lemma {:induction false} EnvIsOk(assigns: seq<string>)
    ensures EnvOk(EnvOf(assigns))
  {
    if assigns != [] {
      var last := |assigns| - 1;
      EnvIsOk(assigns[..last]);
      match Assignment(assigns[last])
      case None =>
      case Some(kv) =>
        AssignmentIff(assigns[last], kv.0, kv.1);
        SetVarOk(EnvOf(assigns[..last]), kv.0, kv.1);
    }
  }

  lemma SetLastOfMore(assigns: seq<string>, key: string, value: string)
    requires assigns != []
    ensures var last := |assigns| - 1;
      (exists i :: SetLast(assigns, i, key, value)) <==>
        || Sets(assigns[last], key, value)
        || ((forall v :: !Sets(assigns[last], key, v)) && exists i :: SetLast(assigns[..last], i, key, value))
  {
    var last := |assigns| - 1;
    if Sets(assigns[last], key, value) {
      assert SetLast(assigns, last, key, value);
    }
    if i: nat :| SetLast(assigns, i, key, value) {
      assert i < last ==> SetLast(assigns[..last], i, key, value);
    }
    if i: nat :| SetLast(assigns[..last], i, key, value) {
      if forall v :: !Sets(assigns[last], key, v) {
        assert SetLast(assigns, i, key, value);
      }
    }
  }

  /** Every variable has the value that it was set to last. */
  lemma {:induction false} EnvIff(assigns: seq<string>, key: string, value: string)
    ensures (key, value) in EnvOf(assigns) <==> exists i :: SetLast(assigns, i, key, value)
  {
    if assigns != [] {
      var last := |assigns| - 1;
      EnvIff(assigns[..last], key, value);
      SetLastOfMore(assigns, key, value);
      EnvIsOk(assigns[..last]);
      forall v
        ensures Assignment(assigns[last]) == Some((key, v)) <==> Sets(assigns[last], key, v)
      {
        AssignmentIff(assigns[last], key, v);
      }
      match Assignment(assigns[last])
      case None =>
      case Some(kv) => SetVarIff(EnvOf(assigns[..last]), kv.0, kv.1, (key, value));
    }
  }

  // ------------------------------------------------------------------ the words of a command

  // What stands after the name of a command: an argument, or a sign and the file after it, or the sign that
  // sends the errors to the output.
  datatype Item = Word(w: string) | Input(file: string) | Output(file: string) | Errors(file: string) | ErrorsToOutput

  function ItemWords(it: Item): seq<string> {
    match it
    case Word(w) => [w]
    case Input(f) => ["<", f]
    case Output(f) => [">", f]
    case Errors(f) => ["2>", f]
    case ErrorsToOutput => ["2>&1"]
  }

  function Words(items: seq<Item>): seq<string> {
    if items == [] then [] else Words(items[..|items| - 1]) + ItemWords(items[|items| - 1])
  }

  predicate SameStream(a: Item, b: Item) {
    || (a.Input? && b.Input?) || (a.Output? && b.Output?)
    || ((a.Errors? || a.ErrorsToOutput?) && (b.Errors? || b.ErrorsToOutput?))
  }

  // Every stream is redirected at most once, and no argument is an operator.
  predicate ItemsOk(items: seq<Item>) {
    && (forall i, j | 0 <= i < j < |items| :: !SameStream(items[i], items[j]))
    && forall it | it in items :: it.Word? ==> it.w !in RESERVED
  }

  function ArgsOf(items: seq<Item>): seq<string> {
    if items == [] then []
    else
      var it := items[|items| - 1];
      ArgsOf(items[..|items| - 1]) + if it.Word? then [it.w] else []
  }

  function InputOf(items: seq<Item>): Option<string> {
    if items == [] then None
    else
      var it := items[|items| - 1];
      if it.Input? then Some(it.file) else InputOf(items[..|items| - 1])
  }

  function OutputOf(items: seq<Item>): Target {
    if items == [] then Inherit
    else
      var it := items[|items| - 1];
      if it.Output? then ToFile(it.file) else OutputOf(items[..|items| - 1])
  }

  function ErrorsOf(items: seq<Item>): Target {
    if items == [] then Inherit
    else
      var it := items[|items| - 1];
      if it.Errors? then ToFile(it.file)
      else if it.ErrorsToOutput? then ToStdout
      else ErrorsOf(items[..|items| - 1])
  }

  /** The input, the output and the errors of a command are what its redirections say, wherever they stand. */
  lemma {:induction false} StreamsOf(items: seq<Item>)
    requires ItemsOk(items)
    ensures forall f :: InputOf(items) == Some(f) <==> Input(f) in items
    ensures forall f :: OutputOf(items) == ToFile(f) <==> Output(f) in items
    ensures forall f :: ErrorsOf(items) == ToFile(f) <==> Errors(f) in items
    ensures ErrorsOf(items) == ToStdout <==> ErrorsToOutput in items
    ensures OutputOf(items) == Inherit || OutputOf(items).ToFile?
    ensures ErrorsOf(items) != ToPipe
  {
    if items != [] {
      var front, it := items[..|items| - 1], items[|items| - 1];
      assert forall x :: x in items <==> x in front || x == it;
      assert ItemsOk(front);
      StreamsOf(front);
      forall x | x in front
        ensures !SameStream(x, it)
      {
        var i :| 0 <= i < |front| && front[i] == x;
        assert items[i] == x;
      }
    }
  }

  lemma OneMoreItem(items: seq<Item>, it: Item)
    ensures Words(items + [it]) == Words(items) + ItemWords(it)
    ensures ArgsOf(items + [it]) == if it.Word? then ArgsOf(items) + [it.w] else ArgsOf(items)
    ensures InputOf(items + [it]) == if it.Input? then Some(it.file) else InputOf(items)
    ensures OutputOf(items + [it]) == if it.Output? then ToFile(it.file) else OutputOf(items)
    ensures ErrorsOf(items + [it])
      == if it.Errors? then ToFile(it.file) else if it.ErrorsToOutput? then ToStdout else ErrorsOf(items)
  {
    assert (items + [it])[..|items|] == items;
    assert ArgsOf(items) + [] == ArgsOf(items);
  }

  /** The arguments of a command are its words that belong to no redirection, in order. */
  lemma {:induction false} ArgsConcat(a: seq<Item>, b: seq<Item>)
    ensures ArgsOf(a + b) == ArgsOf(a) + ArgsOf(b)
  {
    if b == [] {
      assert a + b == a;
    } else {
      var front, it := b[..|b| - 1], b[|b| - 1];
      assert a + b == a + front + [it] && b == front + [it];
      ArgsConcat(a, front);
      ArgsOneMore(a + front, it);
      ArgsOneMore(front, it);
      Reassociate(ArgsOf(a), ArgsOf(front), ArgsOf([it]));
    }
  }

  lemma Reassociate(a: seq<string>, b: seq<string>, c: seq<string>)
    ensures a + b + c == a + (b + c)
  {
  }

  lemma ArgsOneMore(items: seq<Item>, it: Item)
    ensures ArgsOf(items + [it]) == ArgsOf(items) + ArgsOf([it])
    ensures ArgsOf([it]) == match it case Word(w) => [w] case _ => []
  {
    assert (items + [it])[..|items|] == items;
    assert ArgsOf([]) == [];
  }

  // The item redirects no stream that is redirected already.
  predicate Fresh(items: seq<Item>, it: Item) {
    match it
    case Word(w) => w !in RESERVED
    case Input(_) => InputOf(items) == None
    case Output(_) => OutputOf(items) == Inherit
    case _ => ErrorsOf(items) == Inherit
  }

  lemma OkOneMore(items: seq<Item>, it: Item)
    requires ItemsOk(items)
    ensures ItemsOk(items + [it]) <==> Fresh(items, it)
  {
    var more := items + [it];
    StreamsOf(items);
    if Fresh(items, it) {
      forall i, j | 0 <= i < j < |more|
        ensures !SameStream(more[i], more[j])
      {
        assert i < |items| && items[i] in items;
        if j < |items| { assert !SameStream(items[i], items[j]); }
      }
    } else if ItemsOk(more) {
      NotFresh(items, it);
    }
  }

  lemma NotFresh(items: seq<Item>, it: Item)
    requires ItemsOk(items) && !Fresh(items, it)
    ensures !ItemsOk(items + [it])
  {
    var more := items + [it];
    StreamsOf(items);
    if it.Word? {
      assert it in more;
    } else {
      var x := Redirecting(items, it);
      var i :| 0 <= i < |items| && items[i] == x;
      assert SameStream(more[i], more[|items|]);
    }
  }

  // The item that redirects the stream already.
  lemma Redirecting(items: seq<Item>, it: Item) returns (x: Item)
    requires ItemsOk(items) && !Fresh(items, it) && !it.Word?
    ensures x in items && SameStream(x, it)
  {
    StreamsOf(items);
    if it.Input? {
      x := Input(InputOf(items).value);
    } else if it.Output? {
      x := Output(OutputOf(items).file);
    } else if ErrorsOf(items) == ToStdout {
      x := ErrorsToOutput;
    } else {
      x := Errors(ErrorsOf(items).file);
    }
  }

  // ------------------------------------------------------------------ the words of a pipeline

  // Assignments, a name and items; or a directory change.
  datatype Operand = Simple(assigns: seq<string>, name: string, items: seq<Item>) | Cd(dir: Option<string>)

  function OperandWords(o: Operand): seq<string> {
    match o
    case Simple(assigns, name, items) => assigns + [name] + Words(items)
    case Cd(None) => ["cd"]
    case Cd(Some(d)) => ["cd", d]
  }

  predicate AllAssign(words: seq<string>) {
    forall w | w in words :: Assignment(w).Some?
  }

  predicate Spelled(o: Operand) {
    match o
    case Simple(assigns, name, items) =>
      AllAssign(assigns) && Assignment(name) == None && name != "cd" && ItemsOk(items)
    case Cd(dir) => dir != Some("&&")
  }

  // What the operand says; its output goes into a pipe if it stands before one.
  function Meaning(o: Operand, piped: bool): Node {
    match o
    case Simple(assigns, name, items) =>
      var stdout := if piped then ToPipe else OutputOf(items);
      Command(name, ArgsOf(items), InputOf(items), stdout, ErrorsOf(items), EnvOf(assigns))
    case Cd(dir) => Chdir(dir)
  }

  // An operand and the operator after it.
  predicate Linked(o: Operand, op: Node) {
    && Spelled(o) && op.IsOp()
    && (o.Cd? ==> op == And)
    && (op == Pipe ==> OutputOf(o.items) == Inherit)
  }

  type Links = seq<(Operand, Node)>

  predicate AllLinked(links: Links) {
    forall k | 0 <= k < |links| :: Linked(links[k].0, links[k].1)
  }

  function OpWord(op: Node): string
    requires op.IsOp()
  {
    match op case Pipe => "|" case And => "&&" case Or => "||"
  }

  function LinkWords(links: Links): seq<string>
    requires AllLinked(links)
  {
    if links == [] then []
    else
      var last := links[|links| - 1];
      LinkWords(links[..|links| - 1]) + OperandWords(last.0) + [OpWord(last.1)]
  }

  function LinkNodes(links: Links): seq<Node> {
    if links == [] then []
    else
      var last := links[|links| - 1];
      LinkNodes(links[..|links| - 1]) + [Meaning(last.0, last.1 == Pipe), last.1]
  }

  // What follows the last operator: some assignments only; or an operand, perhaps with the sign of a
  // redirection at its end whose file is missing.
  datatype Ending = Nothing(assigns: seq<string>) | Complete(o: Operand) | Open(o: Operand, sign: string)

  predicate EndingOk(e: Ending) {
    match e
    case Nothing(assigns) => AllAssign(assigns)
    case Complete(o) => Spelled(o)
    case Open(o, sign) => Spelled(o) && o.Simple? && sign in {"<", ">", "2>"}
  }

  function EndingWords(e: Ending): seq<string> {
    match e
    case Nothing(assigns) => assigns
    case Complete(o) => OperandWords(o)
    case Open(o, sign) => OperandWords(o) + [sign]
  }

  predicate TextOk(links: Links, e: Ending) {
    AllLinked(links) && EndingOk(e)
  }

  function TextWords(links: Links, e: Ending): seq<string>
    requires TextOk(links, e)
  {
    LinkWords(links) + EndingWords(e)
  }

  // ------------------------------------------------------------------ the states of the parser

  function ModeOf(e: Ending): Mode {
    match e
    case Nothing(_) => Begin
    case Complete(o) => if o.Cd? then InChdir else InCommand
    case Open(_, sign) => if sign == "<" then InStdin else if sign == ">" then InStdout else InStderr
  }

  // The state of the parser after the words of a text.
  function StateOf(links: Links, e: Ending): (m: Machine)
    requires TextOk(links, e)
    ensures Consistent(m)
  {
    match e
    case Nothing(assigns) => Machine(ModeOf(e), None, EnvOf(assigns), LinkNodes(links))
    case _ => Machine(ModeOf(e), Some(Meaning(e.o, false)), [], LinkNodes(links))
  }

  // One word leads from one text, and its state, to another.
  predicate Leads(links: Links, e: Ending, t: string, links': Links, e': Ending)
    requires TextOk(links, e)
  {
    && TextOk(links', e')
    && TextWords(links', e') == TextWords(links, e) + [t]
    && Step(StateOf(links, e), t) == Some(StateOf(links', e'))
  }

  lemma WordsThen(links: Links, e: Ending, e': Ending, t: string)
    requires TextOk(links, e) && EndingOk(e') && EndingWords(e') == EndingWords(e) + [t]
    ensures TextWords(links, e') == TextWords(links, e) + [t]
  {
    assert LinkWords(links) + (EndingWords(e) + [t]) == LinkWords(links) + EndingWords(e) + [t];
  }

  lemma LinkMore(links: Links, o: Operand, op: Node)
    requires AllLinked(links) && Linked(o, op)
    ensures TextOk(links + [(o, op)], Nothing([]))
    ensures TextWords(links + [(o, op)], Nothing([])) == TextWords(links, Complete(o)) + [OpWord(op)]
    ensures LinkNodes(links + [(o, op)]) == LinkNodes(links) + [Meaning(o, op == Pipe), op]
  {
    var more := links + [(o, op)];
    assert more[..|links|] == links;
    assert LinkWords(more) + [] == LinkWords(more);
  }

  lemma LeadsLink(links: Links, o: Operand, op: Node)
    requires AllLinked(links) && Linked(o, op)
    ensures Leads(links, Complete(o), OpWord(op), links + [(o, op)], Nothing([]))
  {
    LinkMore(links, o, op);
    StepLink(links, o, op);
  }

  lemma StepLink(links: Links, o: Operand, op: Node)
    requires AllLinked(links) && Linked(o, op)
    ensures Step(StateOf(links, Complete(o)), OpWord(op))
      == Some(Machine(Begin, None, [], LinkNodes(links) + [Meaning(o, op == Pipe), op]))
  {
    var mode := if o.Cd? then InChdir else InCommand;
    assert StateOf(links, Complete(o)) == Machine(mode, Some(Meaning(o, false)), [], LinkNodes(links));
    match op
    case Pipe =>
    case And =>
    case Or =>
  }

  lemma LeadsAssign(links: Links, assigns: seq<string>, w: string)
    requires TextOk(links, Nothing(assigns)) && Assignment(w).Some?
    ensures Leads(links, Nothing(assigns), w, links, Nothing(assigns + [w]))
  {
    assert (assigns + [w])[..|assigns|] == assigns;
    WordsThen(links, Nothing(assigns), Nothing(assigns + [w]), w);
  }

  lemma LeadsName(links: Links, assigns: seq<string>, name: string)
    requires TextOk(links, Nothing(assigns)) && Assignment(name) == None && name != "cd"
    ensures Leads(links, Nothing(assigns), name, links, Complete(Simple(assigns, name, [])))
  {
    assert assigns + [name] + [] == assigns + [name];
    WordsThen(links, Nothing(assigns), Complete(Simple(assigns, name, [])), name);
  }

  lemma LeadsCd(links: Links)
    requires AllLinked(links)
    ensures Leads(links, Nothing([]), "cd", links, Complete(Cd(None)))
  {
    assert FirstEquals("cd") == 2;
    assert [] + ["cd"] == ["cd"];
    WordsThen(links, Nothing([]), Complete(Cd(None)), "cd");
  }

  lemma LeadsDir(links: Links, d: string)
    requires AllLinked(links) && d != "&&"
    ensures Leads(links, Complete(Cd(None)), d, links, Complete(Cd(Some(d))))
  {
    WordsThen(links, Complete(Cd(None)), Complete(Cd(Some(d))), d);
  }

  lemma LeadsSign(links: Links, o: Operand, sign: string)
    requires AllLinked(links) && Spelled(o) && o.Simple? && sign in {"<", ">", "2>"}
    ensures Leads(links, Complete(o), sign, links, Open(o, sign))
  {
    WordsThen(links, Complete(o), Open(o, sign), sign);
  }

  function WithItem(o: Operand, it: Item): Operand
    requires o.Simple?
  {
    o.(items := o.items + [it])
  }

  lemma ItemsThen(o: Operand, it: Item)
    requires o.Simple?
    ensures OperandWords(WithItem(o, it)) == OperandWords(o) + ItemWords(it)
  {
    OneMoreItem(o.items, it);
    var begun := o.assigns + [o.name];
    assert begun + (Words(o.items) + ItemWords(it)) == begun + Words(o.items) + ItemWords(it);
  }

  // What an item changes in the meaning of a command.
  lemma MeaningThen(o: Operand, it: Item)
    requires o.Simple? && Spelled(o) && Fresh(o.items, it)
    ensures Spelled(WithItem(o, it))
    ensures var cmd := Meaning(o, false);
      Meaning(WithItem(o, it), false) == match it
        case Word(w) => cmd.(args := cmd.args + [w])
        case Input(f) => cmd.(stdin := Some(f))
        case Output(f) => cmd.(stdout := ToFile(f))
        case Errors(f) => cmd.(stderr := ToFile(f))
        case ErrorsToOutput => cmd.(stderr := ToStdout)
  {
    OkOneMore(o.items, it);
    OneMoreItem(o.items, it);
  }

  // The item of one word: an argument, or the sign that sends the errors to the output.
  lemma LeadsItem(links: Links, o: Operand, it: Item)
    requires AllLinked(links) && Spelled(o) && o.Simple? && Fresh(o.items, it) && (it.Word? || it.ErrorsToOutput?)
    ensures Leads(links, Complete(o), ItemWords(it)[0], links, Complete(WithItem(o, it)))
  {
    ItemsThen(o, it);
    StepItem(links, o, it);
    WordsThen(links, Complete(o), Complete(WithItem(o, it)), ItemWords(it)[0]);
  }

  lemma StepItem(links: Links, o: Operand, it: Item)
    requires AllLinked(links) && Spelled(o) && o.Simple? && Fresh(o.items, it) && (it.Word? || it.ErrorsToOutput?)
    ensures Spelled(WithItem(o, it))
    ensures Step(StateOf(links, Complete(o)), ItemWords(it)[0]) == Some(StateOf(links, Complete(WithItem(o, it))))
  {
    MeaningThen(o, it);
    assert StateOf(links, Complete(o)) == Machine(InCommand, Some(Meaning(o, false)), [], LinkNodes(links));
  }

  function SignOf(it: Item): string {
    match it
    case Input(_) => "<"
    case Output(_) => ">"
    case _ => "2>"
  }

  lemma StepFile(links: Links, o: Operand, it: Item)
    requires AllLinked(links) && Spelled(o) && o.Simple? && Fresh(o.items, it)
    requires it.Input? || it.Output? || it.Errors?
    ensures Spelled(WithItem(o, it))
    ensures Step(StateOf(links, Open(o, SignOf(it))), it.file) == Some(StateOf(links, Complete(WithItem(o, it))))
  {
    MeaningThen(o, it);
    var m, cmd := StateOf(links, Open(o, SignOf(it))), Meaning(o, false);
    assert m == Machine(ModeOf(Open(o, SignOf(it))), Some(cmd), [], LinkNodes(links));
  }

  lemma FileWords(links: Links, o: Operand, it: Item)
    requires AllLinked(links) && Spelled(o) && o.Simple? && Spelled(WithItem(o, it))
    requires it.Input? || it.Output? || it.Errors?
    ensures TextWords(links, Complete(WithItem(o, it))) == TextWords(links, Open(o, SignOf(it))) + [it.file]
  {
    ItemsThen(o, it);
    assert OperandWords(o) + [SignOf(it), it.file] == OperandWords(o) + [SignOf(it)] + [it.file];
    WordsThen(links, Open(o, SignOf(it)), Complete(WithItem(o, it)), it.file);
  }

  lemma LeadsFile(links: Links, o: Operand, it: Item)
    requires AllLinked(links) && Spelled(o) && o.Simple? && Fresh(o.items, it)
    requires it.Input? || it.Output? || it.Errors?
    ensures Leads(links, Open(o, SignOf(it)), it.file, links, Complete(WithItem(o, it)))
  {
    StepFile(links, o, it);
    FileWords(links, o, it);
  }

  // ------------------------------------------------------------------ the words of a text are accepted

  ghost predicate ReadTo(links: Links, e: Ending)
    requires TextOk(links, e)
  {
    Steps(START, TextWords(links, e)) == Some(StateOf(links, e))
  }

  lemma ReadOneMore(links: Links, e: Ending, t: string, links': Links, e': Ending)
    requires TextOk(links, e) && ReadTo(links, e) && Leads(links, e, t, links', e')
    ensures ReadTo(links', e')
  {
    StepsConcat(START, TextWords(links, e), [t]);
    StepsOne(StateOf(links, e), t);
  }

  lemma LastItem(items: seq<Item>)
    requires items != [] && ItemsOk(items)
    ensures var front, it := items[..|items| - 1], items[|items| - 1];
      ItemsOk(front) && Fresh(front, it) && items == front + [it]
  {
    var front, it := items[..|items| - 1], items[|items| - 1];
    assert items == front + [it];
    OkOneMore(front, it);
  }

  lemma ItemAccepted(links: Links, o: Operand)
    requires AllLinked(links) && Spelled(o) && o.Simple? && o.items != []
    requires forall l, e | TextOk(l, e) && |TextWords(l, e)| < |TextWords(links, Complete(o))| :: ReadTo(l, e)
    ensures ReadTo(links, Complete(o))
  {
    LastItem(o.items);
    var it := o.items[|o.items| - 1];
    var front := o.(items := o.items[..|o.items| - 1]);
    assert WithItem(front, it) == o;
    if it.Word? || it.ErrorsToOutput? {
      LeadsItem(links, front, it);
      ReadOneMore(links, Complete(front), ItemWords(it)[0], links, Complete(o));
    } else {
      LeadsFile(links, front, it);
      ReadOneMore(links, Open(front, SignOf(it)), it.file, links, Complete(o));
    }
  }

  lemma AssignsAccepted(links: Links, assigns: seq<string>)
    requires TextOk(links, Nothing(assigns)) && assigns != []
    requires forall l, e | TextOk(l, e) && |TextWords(l, e)| < |TextWords(links, Nothing(assigns))| :: ReadTo(l, e)
    ensures ReadTo(links, Nothing(assigns))
  {
    var last := |assigns| - 1;
    assert assigns == assigns[..last] + [assigns[last]];
    LeadsAssign(links, assigns[..last], assigns[last]);
    ReadOneMore(links, Nothing(assigns[..last]), assigns[last], links, Nothing(assigns));
  }

  lemma LinksAccepted(links: Links)
    requires AllLinked(links) && links != []
    requires forall l, e | TextOk(l, e) && |TextWords(l, e)| < |TextWords(links, Nothing([]))| :: ReadTo(l, e)
    ensures ReadTo(links, Nothing([]))
  {
    var front, last := links[..|links| - 1], links[|links| - 1];
    assert links == front + [last] && last == (last.0, last.1);
    assert Linked(last.0, last.1);
    LeadsLink(front, last.0, last.1);
    var e := Complete(last.0);
    assert TextOk(front, e) && |TextWords(front, e)| < |TextWords(links, Nothing([]))|;
    ReadOneMore(front, e, OpWord(last.1), links, Nothing([]));
  }

  lemma NothingAccepted(links: Links, assigns: seq<string>)
    requires TextOk(links, Nothing(assigns))
    requires forall l, e | TextOk(l, e) && |TextWords(l, e)| < |TextWords(links, Nothing(assigns))| :: ReadTo(l, e)
    ensures ReadTo(links, Nothing(assigns))
  {
    if assigns != [] {
      AssignsAccepted(links, assigns);
    } else if links != [] {
      LinksAccepted(links);
    } else {
      assert TextWords([], Nothing([])) == [] && StateOf([], Nothing([])) == START;
    }
  }

  lemma CompleteAccepted(links: Links, o: Operand)
    requires TextOk(links, Complete(o))
    requires forall l, e | TextOk(l, e) && |TextWords(l, e)| < |TextWords(links, Complete(o))| :: ReadTo(l, e)
    ensures ReadTo(links, Complete(o))
  {
    match o
    case Simple(assigns, name, items) =>
      if items == [] {
        LeadsName(links, assigns, name);
        ReadOneMore(links, Nothing(assigns), name, links, Complete(o));
      } else {
        ItemAccepted(links, o);
      }
    case Cd(None) =>
      LeadsCd(links);
      ReadOneMore(links, Nothing([]), "cd", links, Complete(o));
    case Cd(Some(d)) =>
      LeadsDir(links, d);
      ReadOneMore(links, Complete(Cd(None)), d, links, Complete(o));
  }

  lemma {:induction false} Accepted(links: Links, e: Ending)
    requires TextOk(links, e)
    ensures ReadTo(links, e)
    decreases |TextWords(links, e)|
  {
    forall l, f | TextOk(l, f) && |TextWords(l, f)| < |TextWords(links, e)|
      ensures ReadTo(l, f)
    {
      Accepted(l, f);
    }
    match e
    case Nothing(assigns) => NothingAccepted(links, assigns);
    case Complete(o) => CompleteAccepted(links, o);
    case Open(o, sign) =>
      LeadsSign(links, o, sign);
      ReadOneMore(links, Complete(o), sign, links, e);
  }

  // ------------------------------------------------------------------ what is accepted is a text

  lemma {:induction false} NoEnv(assigns: seq<string>)
    requires AllAssign(assigns) && EnvOf(assigns) == []
    ensures assigns == []
  {
    if assigns != [] {
      var last := |assigns| - 1;
      EnvIsOk(assigns[..last]);
      var kv := Assignment(assigns[last]).value;
      SetVarIff(EnvOf(assigns[..last]), kv.0, kv.1, kv);
    }
  }

  lemma FromNothing(links: Links, assigns: seq<string>, t: string) returns (e': Ending)
    requires TextOk(links, Nothing(assigns)) && Step(StateOf(links, Nothing(assigns)), t).Some?
    ensures Leads(links, Nothing(assigns), t, links, e')
  {
    if Assignment(t).Some? {
      e' := Nothing(assigns + [t]);
      LeadsAssign(links, assigns, t);
    } else if t == "cd" {
      e' := Complete(Cd(None));
      NoEnv(assigns);
      LeadsCd(links);
    } else {
      e' := Complete(Simple(assigns, t, []));
      LeadsName(links, assigns, t);
    }
  }

  lemma FromSimple(links: Links, o: Operand, t: string) returns (links': Links, e': Ending)
    requires TextOk(links, Complete(o)) && o.Simple? && Step(StateOf(links, Complete(o)), t).Some?
    ensures Leads(links, Complete(o), t, links', e')
  {
    links' := links;
    if t in {"<", ">", "2>"} {
      e' := Open(o, t);
      LeadsSign(links, o, t);
    } else if t == "2>&1" {
      e' := Complete(WithItem(o, ErrorsToOutput));
      LeadsItem(links, o, ErrorsToOutput);
    } else if t in {"|", "&&", "||"} {
      var op := if t == "|" then Pipe else if t == "&&" then And else Or;
      links', e' := links + [(o, op)], Nothing([]);
      LeadsLink(links, o, op);
    } else {
      e' := Complete(WithItem(o, Word(t)));
      LeadsItem(links, o, Word(t));
    }
  }

  lemma FromCd(links: Links, o: Operand, t: string) returns (links': Links, e': Ending)
    requires TextOk(links, Complete(o)) && o.Cd? && Step(StateOf(links, Complete(o)), t).Some?
    ensures Leads(links, Complete(o), t, links', e')
  {
    if t == "&&" {
      links', e' := links + [(o, And)], Nothing([]);
      LeadsLink(links, o, And);
    } else {
      links', e' := links, Complete(Cd(Some(t)));
      LeadsDir(links, t);
    }
  }

  lemma FromOpen(links: Links, o: Operand, sign: string, t: string) returns (e': Ending)
    requires TextOk(links, Open(o, sign)) && Step(StateOf(links, Open(o, sign)), t).Some?
    ensures Leads(links, Open(o, sign), t, links, e')
  {
    var it := if sign == "<" then Input(t) else if sign == ">" then Output(t) else Errors(t);
    e' := Complete(WithItem(o, it));
    LeadsFile(links, o, it);
  }

  lemma Extended(links: Links, e: Ending, t: string) returns (links': Links, e': Ending)
    requires TextOk(links, e) && Step(StateOf(links, e), t).Some?
    ensures Leads(links, e, t, links', e')
  {
    links' := links;
    match e
    case Nothing(assigns) => e' := FromNothing(links, assigns, t);
    case Open(o, sign) => e' := FromOpen(links, o, sign, t);
    case Complete(o) =>
      if o.Simple? {
        links', e' := FromSimple(links, o, t);
      } else {
        links', e' := FromCd(links, o, t);
      }
  }

  lemma {:induction false} Explained(tokens: seq<string>) returns (links: Links, e: Ending)
    requires Steps(START, tokens).Some?
    ensures TextOk(links, e) && tokens == TextWords(links, e) && Steps(START, tokens) == Some(StateOf(links, e))
    decreases |tokens|
  {
    if tokens == [] {
      links, e := [], Nothing([]);
    } else {
      var front, t := tokens[..|tokens| - 1], tokens[|tokens| - 1];
      assert tokens == front + [t];
      StepsConcat(START, front, [t]);
      links, e := Explained(front);
      StepsOne(StateOf(links, e), t);
      links, e := Extended(links, e, t);
    }
  }

  // The words are those of a text that ends in an operand, and the pipeline is what the text says.
  ghost predicate Spells(tokens: seq<string>, links: Links, e: Ending, ns: seq<Node>) {
    && TextOk(links, e) && !e.Nothing?
    && tokens == TextWords(links, e)
    && ns == LinkNodes(links) + [Meaning(e.o, false)]
  }

  /** The parser accepts exactly the words of operands and operators in turn that end in an operand, and gives
      what they say: assignments, a name, arguments and redirections in any order, each stream redirected
      once; or a directory change.  The sign of a redirection whose file is missing at the end is ignored. */
  lemma ParsesIff(tokens: seq<string>, ns: seq<Node>)
    ensures Parse(tokens) == Some(ns) <==> exists links, e :: Spells(tokens, links, e, ns)
  {
    if Parse(tokens) == Some(ns) {
      var links, e := Explained(tokens);
      assert Spells(tokens, links, e, ns);
    }
    forall links, e | Spells(tokens, links, e, ns)
      ensures Parse(tokens) == Some(ns)
    {
      Accepted(links, e);
    }
  }
}
