/** Patches as values: the printed form, the classification of its lines, and the parser. */
module PatchText {
  import opened Wrappers
  import opened Decimal

  datatype Kind = Src | Dst | Both

  datatype Line = Line(kind: Kind, text: string) {
    predicate IsSrc() { kind != Dst }
    predicate IsDst() { kind != Src }
  }

  datatype Chunk = Chunk(srcPos: nat, dstPos: nat, lines: seq<Line>)

  datatype Patch = Patch(src: string, dst: string, chunks: seq<Chunk>)

  // What a line of a patch file says.
  datatype Token =
    | SrcFile(name: string)
    | DstFile(name: string)
    | ChunkStart(srcPos: nat, srcLen: nat, dstPos: nat, dstLen: nat)
    | Content(line: Line)

  // ------------------------------------------------------------------ reading a line

  // The group (.*) of a pattern that is a literal prefix, the group and the end of the line.
  function After(prefix: string, line: string): Option<string> {
    if !(prefix <= line) then None
    else
      var rest := line[|prefix|..];
      var body := if rest != "" && rest[|rest| - 1] == '\n' then rest[..|rest| - 1] else rest;
      if '\n' in body then None else Some(body)
  }

  function DigitRun(s: string): (k: nat)
    ensures k <= |s| && IsDigits(s[..k]) && (k < |s| ==> !IsDigit(s[k]))
  {
    if s == "" || !IsDigit(s[0]) then 0
    else
      var k := 1 + DigitRun(s[1..]);
      assert s[..k] == [s[0]] + s[1..][..k - 1];
      k
  }

  // A literal, a number, and what follows.
  function Number(prefix: string, s: string): Option<(nat, string)> {
    if !(prefix <= s) then None
    else
      var rest := s[|prefix|..];
      var k := DigitRun(rest);
      if k == 0 then None else Some((FromDecimal(rest[..k]), rest[k..]))
  }

  // The header of a chunk; what comes after the second pair of at signs is ignored.
  function Header(line: string): Option<Token> {
    match Number("@@ -", line)
    case None => None
    case Some(a) =>
      match Number(",", a.1)
      case None => None
      case Some(b) =>
        match Number(" +", b.1)
        case None => None
        case Some(c) =>
          match Number(",", c.1)
          case None => None
          case Some(d) => if " @@" <= d.1 then Some(ChunkStart(a.0, b.0, c.0, d.0)) else None
  }

  // The patterns are tried in this order.
  function Classify(line: string): Option<Token> {
    if After("--- ", line).Some? then Some(SrcFile(After("--- ", line).value))
    else if After("+++ ", line).Some? then Some(DstFile(After("+++ ", line).value))
    else if Header(line).Some? then Header(line)
    else if After("-", line).Some? then Some(Content(Line(Src, After("-", line).value)))
    else if After("+", line).Some? then Some(Content(Line(Dst, After("+", line).value)))
    else if After(" ", line).Some? then Some(Content(Line(Both, After(" ", line).value)))
    else None
  }

  // ------------------------------------------------------------------ the parser

  // The patches so far, and the index of the patch that holds the current chunk, which is its last one.
  datatype Parser = Parser(patches: seq<Patch>, current: Option<nat>)

  predicate Consistent(p: Parser) {
    p.current.Some? ==> p.current.value < |p.patches| && p.patches[p.current.value].chunks != []
  }

  function AddLine(p: Patch, line: Line): Patch
    requires p.chunks != []
  {
    var last := |p.chunks| - 1;
    p.(chunks := p.chunks[last := p.chunks[last].(lines := p.chunks[last].lines + [line])])
  }

  // The last patch with a destination name, with a new chunk; some patch with a new line in its last chunk.
  function WithDst(ps: seq<Patch>, name: string): seq<Patch>
    requires ps != []
  {
    ps[|ps| - 1 := ps[|ps| - 1].(dst := name)]
  }

  function WithChunk(ps: seq<Patch>, srcPos: nat, dstPos: nat): seq<Patch>
    requires ps != []
  {
    ps[|ps| - 1 := ps[|ps| - 1].(chunks := ps[|ps| - 1].chunks + [Chunk(srcPos, dstPos, [])])]
  }

  function WithLine(ps: seq<Patch>, i: nat, line: Line): seq<Patch>
    requires i < |ps| && ps[i].chunks != []
  {
    ps[i := AddLine(ps[i], line)]
  }

  // No result stands for the exception raised when there is no patch or no chunk to add to.
  function Feed(p: Parser, t: Token): (r: Option<Parser>)
    requires Consistent(p)
    ensures r.Some? ==> Consistent(r.value)
  {
    match t
    case SrcFile(name) => Some(p.(patches := p.patches + [Patch(name, "", [])]))
    case DstFile(name) => if p.patches == [] then None else Some(p.(patches := WithDst(p.patches, name)))
    case ChunkStart(srcPos, _, dstPos, _) =>
      if p.patches == [] then None
      else Some(Parser(WithChunk(p.patches, srcPos, dstPos), Some(|p.patches| - 1)))
    case Content(line) =>
      if p.current == None then None else Some(p.(patches := WithLine(p.patches, p.current.value, line)))
  }

  function FeedAll(p: Parser, tokens: seq<Token>): (r: Option<Parser>)
    requires Consistent(p)
    ensures r.Some? ==> Consistent(r.value)
    decreases |tokens|
  {
    if tokens == [] then Some(p)
    else
      match Feed(p, tokens[0])
      case None => None
      case Some(p') => FeedAll(p', tokens[1..])
  }

  const EMPTY := Parser([], None)

  function ClassifyAll(lines: seq<string>): Option<seq<Token>> {
    if lines == [] then Some([])
    else
      match Classify(lines[0])
      case None => None
      case Some(t) =>
        match ClassifyAll(lines[1..])
        case None => None
        case Some(ts) => Some([t] + ts)
  }

  function Parse(lines: seq<string>): Option<seq<Patch>> {
    match ClassifyAll(lines)
    case None => None
    case Some(tokens) =>
      match FeedAll(EMPTY, tokens)
      case None => None
      case Some(p) => Some(p.patches)
  }

  // ------------------------------------------------------------------ the printed form

  // The positions, in a chunk, of the lines on one side.
  function SrcAt(lines: seq<Line>): (r: seq<nat>)
    ensures forall i | 0 <= i < |r| :: r[i] < |lines| && lines[r[i]].IsSrc()
    ensures forall i, j | 0 <= i < j < |r| :: r[i] < r[j]
  {
    if lines == [] then []
    else
      var last := |lines| - 1;
      SrcAt(lines[..last]) + if lines[last].IsSrc() then [last] else []
  }

  function DstAt(lines: seq<Line>): (r: seq<nat>)
    ensures forall i | 0 <= i < |r| :: r[i] < |lines| && lines[r[i]].IsDst()
    ensures forall i, j | 0 <= i < j < |r| :: r[i] < r[j]
  {
    if lines == [] then []
    else
      var last := |lines| - 1;
      DstAt(lines[..last]) + if lines[last].IsDst() then [last] else []
  }

  function LineTokens(lines: seq<Line>): seq<Token> {
    if lines == [] then [] else [Content(lines[0])] + LineTokens(lines[1..])
  }

  function ChunkTokens(c: Chunk): seq<Token> {
    [ChunkStart(c.srcPos, |SrcAt(c.lines)|, c.dstPos, |DstAt(c.lines)|)] + LineTokens(c.lines)
  }

  function ChunksTokens(cs: seq<Chunk>): seq<Token> {
    if cs == [] then [] else ChunkTokens(cs[0]) + ChunksTokens(cs[1..])
  }

  function PatchTokens(p: Patch): seq<Token> {
    [SrcFile(p.src), DstFile(p.dst)] + ChunksTokens(p.chunks)
  }

  function PatchesTokens(ps: seq<Patch>): seq<Token> {
    if ps == [] then [] else PatchTokens(ps[0]) + PatchesTokens(ps[1..])
  }

  function Mark(k: Kind): string {
    match k case Src => "-" case Dst => "+" case Both => " "
  }

  function PrintToken(t: Token): string {
    match t
    case SrcFile(name) => "--- " + name + "\n"
    case DstFile(name) => "+++ " + name + "\n"
    case ChunkStart(a, b, c, d) =>
      "@@ -" + ToDecimal(a) + ("," + ToDecimal(b) + (" +" + ToDecimal(c) + ("," + ToDecimal(d) + " @@\n")))
    case Content(line) => Mark(line.kind) + line.text + "\n"
  }

  function PrintTokens(ts: seq<Token>): seq<string> {
    if ts == [] then [] else [PrintToken(ts[0])] + PrintTokens(ts[1..])
  }

  // The lines written for a list of patches.
  function Print(ps: seq<Patch>): seq<string> {
    PrintTokens(PatchesTokens(ps))
  }
}
