/** What the lines of a patch file mean, told without the classifier and the parser: the form of every kind
    of line, and the patches of a list of lines read backwards. */
module PatchGrammar {
  import opened Wrappers
  import opened Decimal
  import opened PatchText
  import opened PatchRoundTrip

  // ------------------------------------------------------------------ the form of a line

  // A prefix and a text, and perhaps the end of the line.
  predicate IsLineOf(line: string, prefix: string, text: string) {
    OneLine(text) && (line == prefix + text || line == prefix + text + "\n")
  }

  lemma AfterIff(prefix: string, line: string, text: string)
    ensures After(prefix, line) == Some(text) <==> IsLineOf(line, prefix, text)
  {
    if IsLineOf(line, prefix, text) {
      var rest := line[|prefix|..];
      assert rest == text || rest == text + "\n";
      if rest == text && text != "" {
        assert text[|text| - 1] in text;
      }
      assert (text + "\n")[..|text|] == text;
    } else if prefix <= line {
      var rest := line[|prefix|..];
      assert line == prefix + rest;
      assert rest != "" ==> rest == rest[..|rest| - 1] + [rest[|rest| - 1]];
    }
  }

  // Digits that are followed by no further digit.
  predicate IsNumber(digits: string, rest: string) {
    digits != "" && IsDigits(digits) && (rest != "" ==> !IsDigit(rest[0]))
  }

  lemma NumberIs(prefix: string, digits: string, rest: string)
    requires IsNumber(digits, rest)
    ensures Number(prefix, prefix + digits + rest) == Some((FromDecimal(digits), rest))
  {
    var s := prefix + digits + rest;
    assert s[|prefix|..] == digits + rest;
    DigitRunIs(digits, rest);
    assert (digits + rest)[..|digits|] == digits && (digits + rest)[|digits|..] == rest;
  }

  lemma NumberOf(prefix: string, s: string) returns (digits: string)
    requires Number(prefix, s).Some?
    ensures IsNumber(digits, Number(prefix, s).value.1)
    ensures s == prefix + digits + Number(prefix, s).value.1 && Number(prefix, s).value.0 == FromDecimal(digits)
  {
    var rest := s[|prefix|..];
    var k := DigitRun(rest);
    digits := rest[..k];
    assert s == prefix + rest && rest == digits + rest[k..];
    assert k < |rest| ==> rest[k..][0] == rest[k];
  }

  // The header of a chunk: four numbers between fixed signs, and any text after them.
  predicate IsHeader(line: string, a: string, b: string, c: string, d: string, tail: string) {
    && a != "" && IsDigits(a) && b != "" && IsDigits(b) && c != "" && IsDigits(c) && d != "" && IsDigits(d)
    && line == "@@ -" + a + ("," + b + (" +" + c + ("," + d + (" @@" + tail))))
  }

  lemma HeaderIs(line: string, a: string, b: string, c: string, d: string, tail: string)
    requires IsHeader(line, a, b, c, d, tail)
    ensures Header(line) == Some(ChunkStart(FromDecimal(a), FromDecimal(b), FromDecimal(c), FromDecimal(d)))
  {
    var r4 := " @@" + tail;
    var r3 := "," + d + r4;
    var r2 := " +" + c + r3;
    var r1 := "," + b + r2;
    assert r1[0] == ',' && r2[0] == ' ' && r3[0] == ',' && r4[0] == ' ';
    assert line == "@@ -" + a + r1;
    NumberIs("@@ -", a, r1);
    NumberIs(",", b, r2);
    NumberIs(" +", c, r3);
    NumberIs(",", d, r4);
  }

  lemma HeaderParts(line: string)
    returns (x: (nat, string), y: (nat, string), z: (nat, string), w: (nat, string))
    requires Header(line).Some?
    ensures Number("@@ -", line) == Some(x) && Number(",", x.1) == Some(y)
    ensures Number(" +", y.1) == Some(z) && Number(",", z.1) == Some(w) && " @@" <= w.1
    ensures Header(line) == Some(ChunkStart(x.0, y.0, z.0, w.0))
  {
    x := Number("@@ -", line).value;
    y := Number(",", x.1).value;
    z := Number(" +", y.1).value;
    w := Number(",", z.1).value;
  }

  lemma HeaderForm(line: string, a: string, x: string, b: string, y: string, c: string, z: string, d: string, w: string)
    requires line == "@@ -" + a + x && x == "," + b + y && y == " +" + c + z && z == "," + d + w && " @@" <= w
    requires IsNumber(a, x) && IsNumber(b, y) && IsNumber(c, z) && IsNumber(d, w)
    ensures IsHeader(line, a, b, c, d, w[3..])
  {
    assert w == " @@" + w[3..];
  }

  lemma HeaderOf(line: string) returns (a: string, b: string, c: string, d: string, tail: string)
    requires Header(line).Some?
    ensures IsHeader(line, a, b, c, d, tail)
    ensures Header(line) == Some(ChunkStart(FromDecimal(a), FromDecimal(b), FromDecimal(c), FromDecimal(d)))
  {
    var x, y, z, w := HeaderParts(line);
    a := NumberOf("@@ -", line);
    b := NumberOf(",", x.1);
    c := NumberOf(" +", y.1);
    d := NumberOf(",", z.1);
    tail := w.1[3..];
    HeaderForm(line, a, x.1, b, y.1, c, z.1, d, w.1);
  }

  /** A line is the header of a chunk exactly when it has the form of one, and then it says what its four
      numbers denote; what comes after the second pair of at signs does not matter. */
  lemma HeaderIff(line: string, t: Token)
    ensures Header(line) == Some(t) <==> exists a, b, c, d, tail ::
      IsHeader(line, a, b, c, d, tail)
      && t == ChunkStart(FromDecimal(a), FromDecimal(b), FromDecimal(c), FromDecimal(d))
  {
    if Header(line) == Some(t) {
      var a, b, c, d, tail := HeaderOf(line);
    }
    forall a, b, c, d, tail | IsHeader(line, a, b, c, d, tail)
      ensures Header(line) == Some(ChunkStart(FromDecimal(a), FromDecimal(b), FromDecimal(c), FromDecimal(d)))
    {
      HeaderIs(line, a, b, c, d, tail);
    }
  }

  lemma OneText(line: string, prefix: string, s: string, t: string)
    requires IsLineOf(line, prefix, s) && IsLineOf(line, prefix, t)
    ensures s == t
  {
    AfterIff(prefix, line, s);
    AfterIff(prefix, line, t);
  }

  /** The meaning of every kind of line but the header of a chunk.  A removed line that starts with two dashes
      and a blank is the name of a file, and so is an added line that starts with two plus signs and one. */
  lemma LineMeans(line: string, t: string)
    ensures IsLineOf(line, "--- ", t) ==> Classify(line) == Some(SrcFile(t))
    ensures IsLineOf(line, "+++ ", t) ==> Classify(line) == Some(DstFile(t))
    ensures IsLineOf(line, "-", t) && !("-- " <= t) ==> Classify(line) == Some(Content(Line(Src, t)))
    ensures IsLineOf(line, "+", t) && !("++ " <= t) ==> Classify(line) == Some(Content(Line(Dst, t)))
    ensures IsLineOf(line, " ", t) ==> Classify(line) == Some(Content(Line(Both, t)))
  {
    AfterIff("--- ", line, t);
    AfterIff("+++ ", line, t);
    AfterIff("-", line, t);
    AfterIff("+", line, t);
    AfterIff(" ", line, t);
    if line != "" {
      FirstChars("--- ", line);
      FirstChars("+++ ", line);
      FirstChars("@@ -", line);
      if IsLineOf(line, "-", t) && !("-- " <= t) { NoFileName(line, "-", "--- ", "-- ", t); }
      if IsLineOf(line, "+", t) && !("++ " <= t) { NoFileName(line, "+", "+++ ", "++ ", t); }
    }
  }

  lemma NoFileName(line: string, sign: string, prefix: string, look: string, t: string)
    requires |sign| == 1 && prefix == sign + look && look != "" && look[|look| - 1] != '\n'
    requires IsLineOf(line, sign, t) && !(look <= t)
    ensures !(prefix <= line)
  {
    BeforeLineEnd(look, t);
    FirstChars(prefix, prefix + "");
    assert prefix[1..] == look;
    if line != "" {
      FirstChars(prefix, line);
      assert line[1..] == t || line[1..] == t + "\n";
    }
  }

  lemma FormIff(line: string, prefix: string)
    ensures After(prefix, line) == None <==> forall t :: !IsLineOf(line, prefix, t)
  {
    forall t
      ensures After(prefix, line) == Some(t) <==> IsLineOf(line, prefix, t)
    {
      AfterIff(prefix, line, t);
    }
  }

  lemma FileNameBegins(line: string, sign: string, prefix: string, look: string)
    requires prefix == sign + look && OneLine(look)
    ensures After(prefix, line).Some? ==> After(sign, line).Some?
  {
    if After(prefix, line).Some? {
      var t := After(prefix, line).value;
      AfterIff(prefix, line, t);
      assert prefix + t == sign + (look + t) && prefix + t + "\n" == sign + (look + t) + "\n";
      AfterIff(sign, line, look + t);
    }
  }

  /** A line is refused exactly when it is no header and has the form of no removed, added or context line. */
  lemma RefusedIff(line: string)
    ensures Classify(line) == None <==>
      && Header(line) == None
      && (forall t :: !IsLineOf(line, "-", t)) && (forall t :: !IsLineOf(line, "+", t))
      && (forall t :: !IsLineOf(line, " ", t))
  {
    FormIff(line, "-");
    FormIff(line, "+");
    FormIff(line, " ");
    FileNameBegins(line, "-", "--- ", "-- ");
    FileNameBegins(line, "+", "+++ ", "++ ");
  }

  // ------------------------------------------------------------------ the patches of a list of lines

  // What a list of lines read from its end has gathered: lines that belong to a chunk further up, a
  // destination name and chunks that belong to a patch further up, and complete patches.
  datatype Gathered = Gathered(lines: seq<Line>, dst: Option<string>, chunks: seq<Chunk>, patches: seq<Patch>)

  function NameOr(name: Option<string>, other: string): string {
    match name case None => other case Some(n) => n
  }

  /** A chunk takes the lines between its header and the next one, names of files or not; a patch takes the
      chunks, and the last destination name, between its source name and the next one. */
  function FromTheEnd(ts: seq<Token>): Gathered {
    if ts == [] then Gathered([], None, [], [])
    else
      var g := FromTheEnd(ts[1..]);
      match ts[0]
      case Content(l) => g.(lines := [l] + g.lines)
      case ChunkStart(a, _, b, _) => g.(lines := [], chunks := [Chunk(a, b, g.lines)] + g.chunks)
      case DstFile(name) => g.(dst := if g.dst.Some? then g.dst else Some(name))
      case SrcFile(name) => Gathered(g.lines, None, [], [Patch(name, NameOr(g.dst, ""), g.chunks)] + g.patches)
  }

  predicate NothingLeft(g: Gathered) {
    g.lines == [] && g.dst == None && g.chunks == []
  }

  // ------------------------------------------------------------------ the parser does the same forwards

  function AddLines(p: Patch, lines: seq<Line>): Patch
    requires p.chunks != []
  {
    var last := |p.chunks| - 1;
    p.(chunks := p.chunks[last := p.chunks[last].(lines := p.chunks[last].lines + lines)])
  }

  function WithLines(p: Parser, lines: seq<Line>): (r: seq<Patch>)
    requires Consistent(p)
    ensures |r| == |p.patches|
  {
    match p.current
    case None => p.patches
    case Some(i) => p.patches[i := AddLines(p.patches[i], lines)]
  }

  function WithRest(ps: seq<Patch>, dst: Option<string>, chunks: seq<Chunk>): seq<Patch> {
    if ps == [] then []
    else
      var last := |ps| - 1;
      ps[last := ps[last].(dst := NameOr(dst, ps[last].dst), chunks := ps[last].chunks + chunks)]
  }

  predicate Takes(p: Parser, g: Gathered) {
    && (g.lines != [] ==> p.current.Some?)
    && (g.dst.Some? || g.chunks != [] ==> p.patches != [])
  }

  function Joined(p: Parser, g: Gathered): seq<Patch>
    requires Consistent(p)
  {
    WithRest(WithLines(p, g.lines), g.dst, g.chunks) + g.patches
  }

  // The parser takes what the lines from here on gather.
  predicate Meets(p: Parser, ts: seq<Token>, g: Gathered)
    requires Consistent(p)
  {
    match FeedAll(p, ts)
    case None => !Takes(p, g)
    case Some(q) => Takes(p, g) && q.patches == Joined(p, g)
  }

  lemma NothingAdded(p: Patch)
    requires p.chunks != []
    ensures AddLines(p, []) == p
  {
    var c := p.chunks[|p.chunks| - 1];
    assert c.lines + [] == c.lines;
    assert c.(lines := c.lines) == c;
    assert p.chunks[|p.chunks| - 1 := c] == p.chunks;
  }

  lemma NoLines(p: Parser)
    requires Consistent(p)
    ensures WithLines(p, []) == p.patches
  {
    if p.current.Some? {
      NothingAdded(p.patches[p.current.value]);
    }
  }

  lemma MeetsNothing(p: Parser)
    requires Consistent(p)
    ensures Meets(p, [], FromTheEnd([]))
  {
    NoLines(p);
    if p.patches != [] {
      var last := p.patches[|p.patches| - 1];
      assert last.chunks + [] == last.chunks;
    }
  }

  lemma LineThenLines(p: Patch, l: Line, lines: seq<Line>)
    requires p.chunks != []
    ensures AddLines(AddLine(p, l), lines) == AddLines(p, [l] + lines)
  {
    var last := |p.chunks| - 1;
    assert p.chunks[last].lines + [l] + lines == p.chunks[last].lines + ([l] + lines);
  }

  lemma MeetsContent(p: Parser, l: Line, rest: seq<Token>, g: Gathered)
    requires Consistent(p) && (p.current.Some? ==> Meets(Feed(p, Content(l)).value, rest, g))
    ensures Meets(p, [Content(l)] + rest, g.(lines := [l] + g.lines))
  {
    assert ([Content(l)] + rest)[1..] == rest;
    if p.current.Some? {
      var i := p.current.value;
      var q := Feed(p, Content(l)).value;
      LineThenLines(p.patches[i], l, g.lines);
      assert WithLines(q, g.lines) == WithLines(p, [l] + g.lines);
    }
  }

  lemma MeetsChunk(p: Parser, t: Token, rest: seq<Token>, g: Gathered)
    requires Consistent(p) && t.ChunkStart? && (p.patches != [] ==> Meets(Feed(p, t).value, rest, g))
    ensures Meets(p, [t] + rest, g.(lines := [], chunks := [Chunk(t.srcPos, t.dstPos, g.lines)] + g.chunks))
  {
    assert ([t] + rest)[1..] == rest;
    if p.patches != [] {
      var ps, last := p.patches, |p.patches| - 1;
      var q := Feed(p, t).value;
      var c := Chunk(t.srcPos, t.dstPos, g.lines);
      NoLines(p);
      assert [] + g.lines == g.lines;
      assert AddLines(q.patches[last], g.lines).chunks == ps[last].chunks + [c];
      assert ps[last].chunks + [c] + g.chunks == ps[last].chunks + ([c] + g.chunks);
      assert WithRest(WithLines(q, g.lines), g.dst, g.chunks) == WithRest(ps, g.dst, [c] + g.chunks);
    }
  }

  lemma MeetsDst(p: Parser, name: string, rest: seq<Token>, g: Gathered)
    requires Consistent(p) && (p.patches != [] ==> Meets(Feed(p, DstFile(name)).value, rest, g))
    ensures Meets(p, [DstFile(name)] + rest, g.(dst := if g.dst.Some? then g.dst else Some(name)))
  {
    assert ([DstFile(name)] + rest)[1..] == rest;
    if p.patches != [] {
      var q := Feed(p, DstFile(name)).value;
      var dst := if g.dst.Some? then g.dst else Some(name);
      assert WithRest(WithLines(q, g.lines), g.dst, g.chunks) == WithRest(WithLines(p, g.lines), dst, g.chunks);
    }
  }

  lemma MeetsSrc(p: Parser, name: string, rest: seq<Token>, g: Gathered)
    requires Consistent(p) && Meets(Feed(p, SrcFile(name)).value, rest, g)
    ensures Meets(p, [SrcFile(name)] + rest,
                  Gathered(g.lines, None, [], [Patch(name, NameOr(g.dst, ""), g.chunks)] + g.patches))
  {
    assert ([SrcFile(name)] + rest)[1..] == rest;
    var q := Feed(p, SrcFile(name)).value;
    var sofar, next := WithLines(p, g.lines), Patch(name, NameOr(g.dst, ""), g.chunks);
    assert WithLines(q, g.lines) == sofar + [Patch(name, "", [])];
    assert [] + g.chunks == g.chunks;
    assert WithRest(sofar + [Patch(name, "", [])], g.dst, g.chunks) == sofar + [next];
    assert WithRest(sofar, None, []) == sofar by {
      if sofar != [] { assert sofar[|sofar| - 1].chunks + [] == sofar[|sofar| - 1].chunks; }
    }
    assert sofar + [next] + g.patches == sofar + ([next] + g.patches);
  }

  lemma {:induction false} ParserMeets(p: Parser, ts: seq<Token>)
    requires Consistent(p)
    ensures Meets(p, ts, FromTheEnd(ts))
    decreases |ts|
  {
    if ts == [] {
      MeetsNothing(p);
    } else {
      var t, rest, g := ts[0], ts[1..], FromTheEnd(ts[1..]);
      assert ts == [t] + rest;
      if Feed(p, t).Some? { ParserMeets(Feed(p, t).value, rest); }
      match t
      case SrcFile(name) => MeetsSrc(p, name, rest, g);
      case DstFile(name) => MeetsDst(p, name, rest, g);
      case ChunkStart(_, _, _, _) => MeetsChunk(p, t, rest, g);
      case Content(l) => MeetsContent(p, l, rest, g);
    }
  }

  /** The parser accepts a list of lines exactly when, read from its end, nothing is left over at the top, and
      then it gives the patches gathered. */
  lemma ParsedFromTheEnd(lines: seq<string>)
    ensures Parse(lines) ==
      match ClassifyAll(lines)
      case None => None
      case Some(ts) => if NothingLeft(FromTheEnd(ts)) then Some(FromTheEnd(ts).patches) else None
  {
    if ClassifyAll(lines).Some? {
      var ts := ClassifyAll(lines).value;
      ParserMeets(EMPTY, ts);
      assert [] + FromTheEnd(ts).patches == FromTheEnd(ts).patches;
    }
  }
}
