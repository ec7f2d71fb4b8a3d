/** Parsing what was printed: when it gives the same patches back, and when it cannot. */
module PatchRoundTrip {
  import opened Wrappers
  import opened Decimal
  import opened PatchText

  // ------------------------------------------------------------------ text that fits on one line

  predicate OneLine(s: string) { '\n' !in s }

  predicate PrintableChunk(c: Chunk) { forall l | l in c.lines :: OneLine(l.text) }

  predicate PrintablePatch(p: Patch) {
    OneLine(p.src) && OneLine(p.dst) && forall c | c in p.chunks :: PrintableChunk(c)
  }

  predicate Printable(ps: seq<Patch>) { forall p | p in ps :: PrintablePatch(p) }

  predicate PrintableToken(t: Token) {
    match t
    case SrcFile(name) => OneLine(name)
    case DstFile(name) => OneLine(name)
    case ChunkStart(_, _, _, _) => true
    case Content(line) => OneLine(line.text)
  }

  // A removed or an added line whose printed form is that of a file name.
  predicate LooksLikeHeader(l: Line) {
    (l.kind == Src && "-- " <= l.text) || (l.kind == Dst && "++ " <= l.text)
  }

  predicate Misread(t: Token) { t.Content? && LooksLikeHeader(t.line) }

  ghost predicate NoLookalikes(ps: seq<Patch>) {
    forall p, c, l | p in ps && c in p.chunks && l in c.lines :: !LooksLikeHeader(l)
  }

  // ------------------------------------------------------------------ one line

  lemma AfterPrinted(prefix: string, body: string)
    requires OneLine(body)
    ensures After(prefix, prefix + body + "\n") == Some(body)
  {
    var line := prefix + body + "\n";
    assert line[|prefix|..] == body + "\n";
    assert (body + "\n")[..|body|] == body;
  }

  lemma {:induction false} DigitRunIs(digits: string, rest: string)
    requires IsDigits(digits) && (rest != "" ==> !IsDigit(rest[0]))
    ensures DigitRun(digits + rest) == |digits|
  {
    if digits == "" {
      assert digits + rest == rest;
    } else {
      DigitRunIs(digits[1..], rest);
      assert (digits + rest)[1..] == digits[1..] + rest;
    }
  }

  lemma NumberPrinted(prefix: string, n: nat, rest: string)
    requires rest != "" && !IsDigit(rest[0])
    ensures Number(prefix, prefix + ToDecimal(n) + rest) == Some((n, rest))
  {
    var s := prefix + ToDecimal(n) + rest;
    DecimalRoundTrip(n);
    ToDecimalDigits(n);
    DigitRunIs(ToDecimal(n), rest);
    assert s[|prefix|..] == ToDecimal(n) + rest;
    assert (ToDecimal(n) + rest)[..|ToDecimal(n)|] == ToDecimal(n);
    assert (ToDecimal(n) + rest)[|ToDecimal(n)|..] == rest;
  }

  lemma HeaderPrinted(a: nat, b: nat, c: nat, d: nat)
    ensures Header(PrintToken(ChunkStart(a, b, c, d))) == Some(ChunkStart(a, b, c, d))
  {
    var r4 := " @@\n";
    var r3 := "," + ToDecimal(d) + r4;
    var r2 := " +" + ToDecimal(c) + r3;
    var r1 := "," + ToDecimal(b) + r2;
    assert r1[0] == ',' && r2[0] == ' ' && r3[0] == ',';
    NumberPrinted("@@ -", a, r1);
    NumberPrinted(",", b, r2);
    NumberPrinted(" +", c, r3);
    NumberPrinted(",", d, r4);
  }

  lemma FirstChars(a: string, b: string)
    requires a != "" && b != ""
    ensures a <= b <==> a[0] == b[0] && a[1..] <= b[1..]
  {
    if a[0] == b[0] && a[1..] <= b[1..] {
      assert a == [a[0]] + a[1..] && b == [b[0]] + b[1..];
    }
  }

  // No pattern before the one for its mark accepts the printed form of an ordinary line.
  lemma NotFileName(l: Line)
    requires !LooksLikeHeader(l)
    ensures !("--- " <= PrintToken(Content(l))) && !("+++ " <= PrintToken(Content(l)))
  {
    var line := PrintToken(Content(l));
    assert line[0] == Mark(l.kind)[0] && line[1..] == l.text + "\n";
    FirstChars("--- ", line);
    FirstChars("+++ ", line);
    assert "--- "[1..] == "-- " && "+++ "[1..] == "++ ";
    BeforeLineEnd("-- ", l.text);
    BeforeLineEnd("++ ", l.text);
  }

  lemma BeforeLineEnd(p: string, text: string)
    requires p != "" && p[|p| - 1] != '\n'
    ensures p <= text + "\n" ==> p <= text
  {
    if p <= text + "\n" {
      assert p[|p| - 1] == (text + "\n")[|p| - 1];
      assert |p| <= |text| && p == (text + "\n")[..|p|] == text[..|p|];
    }
  }

  lemma NotHeader(l: Line)
    ensures Header(PrintToken(Content(l))) == None
  {
    FirstChars("@@ -", PrintToken(Content(l)));
    assert PrintToken(Content(l))[0] == Mark(l.kind)[0];
  }

  lemma ContentPrinted(l: Line)
    requires OneLine(l.text) && !LooksLikeHeader(l)
    ensures Classify(PrintToken(Content(l))) == Some(Content(l))
  {
    NotFileName(l);
    NotHeader(l);
    AfterPrinted(Mark(l.kind), l.text);
    assert PrintToken(Content(l))[0] == Mark(l.kind)[0];
  }

  lemma LookalikePrinted(l: Line)
    requires OneLine(l.text) && LooksLikeHeader(l)
    ensures Classify(PrintToken(Content(l)))
      == Some(if l.kind == Src then SrcFile(l.text[3..]) else DstFile(l.text[3..]))
  {
    var prefix := if l.kind == Src then "--- " else "+++ ";
    var line := PrintToken(Content(l));
    assert l.text == l.text[..3] + l.text[3..];
    assert Mark(l.kind) + l.text[..3] == prefix;
    assert line == prefix + l.text[3..] + "\n";
    AfterPrinted(prefix, l.text[3..]);
    FirstChars("--- ", line);
  }

  lemma FileNamePrinted(t: Token)
    requires PrintableToken(t) && (t.SrcFile? || t.DstFile?)
    ensures Classify(PrintToken(t)) == Some(t)
  {
    AfterPrinted("--- ", t.name);
    AfterPrinted("+++ ", t.name);
    FirstChars("--- ", PrintToken(DstFile(t.name)));
  }

  lemma ChunkStartPrinted(t: Token)
    requires t.ChunkStart?
    ensures Classify(PrintToken(t)) == Some(t)
  {
    HeaderPrinted(t.srcPos, t.srcLen, t.dstPos, t.dstLen);
    FirstChars("--- ", PrintToken(t));
    FirstChars("+++ ", PrintToken(t));
  }

  // A printed token is read back as itself, unless it is mistaken for a file name.
  lemma ClassifyPrinted(t: Token)
    requires PrintableToken(t)
    ensures !Misread(t) ==> Classify(PrintToken(t)) == Some(t)
    ensures Misread(t) ==> Classify(PrintToken(t)).Some? && !Classify(PrintToken(t)).value.Content?
  {
    match t
    case SrcFile(_) => FileNamePrinted(t);
    case DstFile(_) => FileNamePrinted(t);
    case ChunkStart(_, _, _, _) => ChunkStartPrinted(t);
    case Content(l) => if LooksLikeHeader(l) { LookalikePrinted(l); } else { ContentPrinted(l); }
  }

  // ------------------------------------------------------------------ the parser on the tokens written

  lemma {:induction false} FeedAllConcat(p: Parser, a: seq<Token>, b: seq<Token>)
    requires Consistent(p)
    ensures FeedAll(p, a + b) == match FeedAll(p, a) case None => None case Some(p') => FeedAll(p', b)
    decreases |a|
  {
    if a == [] {
      assert a + b == b;
    } else {
      assert (a + b)[0] == a[0] && (a + b)[1..] == a[1..] + b;
      match Feed(p, a[0])
      case None =>
      case Some(p') => FeedAllConcat(p', a[1..], b);
    }
  }

  function At(ps: seq<Patch>, src: string, dst: string, cs: seq<Chunk>): Parser {
    Parser(ps + [Patch(src, dst, cs)], Some(|ps|))
  }

  lemma {:induction false} LinesFed(ps: seq<Patch>, src: string, dst: string, cs: seq<Chunk>, c: Chunk, more: seq<Line>)
    ensures FeedAll(At(ps, src, dst, cs + [c]), LineTokens(more))
      == Some(At(ps, src, dst, cs + [c.(lines := c.lines + more)]))
    decreases |more|
  {
    if more == [] {
      assert c.(lines := c.lines + more) == c;
    } else {
      var p := At(ps, src, dst, cs + [c]);
      var c' := c.(lines := c.lines + [more[0]]);
      assert (cs + [c])[|cs| := c'] == cs + [c'];
      assert p.patches[|ps| := Patch(src, dst, cs + [c'])] == ps + [Patch(src, dst, cs + [c'])];
      assert Feed(p, Content(more[0])) == Some(At(ps, src, dst, cs + [c']));
      LinesFed(ps, src, dst, cs, c', more[1..]);
      assert c'.lines + more[1..] == c.lines + more;
    }
  }

  lemma ChunkFed(ps: seq<Patch>, src: string, dst: string, cs: seq<Chunk>, current: Option<nat>, c: Chunk)
    requires Consistent(Parser(ps + [Patch(src, dst, cs)], current))
    ensures FeedAll(Parser(ps + [Patch(src, dst, cs)], current), ChunkTokens(c)) == Some(At(ps, src, dst, cs + [c]))
  {
    var p := Parser(ps + [Patch(src, dst, cs)], current);
    var empty := Chunk(c.srcPos, c.dstPos, []);
    assert p.patches[|ps| := Patch(src, dst, cs + [empty])] == ps + [Patch(src, dst, cs + [empty])];
    assert ChunkTokens(c)[1..] == LineTokens(c.lines);
    LinesFed(ps, src, dst, cs, empty, c.lines);
    assert empty.(lines := empty.lines + c.lines) == c;
  }

  lemma {:induction false} ChunksFed(ps: seq<Patch>, src: string, dst: string, cs: seq<Chunk>, current: Option<nat>,
                                     more: seq<Chunk>)
    requires Consistent(Parser(ps + [Patch(src, dst, cs)], current))
    ensures FeedAll(Parser(ps + [Patch(src, dst, cs)], current), ChunksTokens(more))
      == Some(if more == [] then Parser(ps + [Patch(src, dst, cs)], current) else At(ps, src, dst, cs + more))
    decreases |more|
  {
    if more != [] {
      ChunkFed(ps, src, dst, cs, current, more[0]);
      FeedAllConcat(Parser(ps + [Patch(src, dst, cs)], current), ChunkTokens(more[0]), ChunksTokens(more[1..]));
      ChunksFed(ps, src, dst, cs + [more[0]], Some(|ps|), more[1..]);
      assert cs + [more[0]] + more[1..] == cs + more;
      assert more[1..] == [] ==> cs + [more[0]] == cs + more;
    }
  }

  lemma PatchFed(ps: seq<Patch>, current: Option<nat>, p: Patch)
    requires Consistent(Parser(ps, current))
    ensures FeedAll(Parser(ps, current), PatchTokens(p))
      == Some(Parser(ps + [p], if p.chunks == [] then current else Some(|ps|)))
  {
    var q := Parser(ps, current);
    var begun := Parser(ps + [Patch(p.src, "", [])], current);
    var named := Parser(ps + [Patch(p.src, p.dst, [])], current);
    assert begun.patches[|ps| := Patch(p.src, p.dst, [])] == named.patches;
    assert [SrcFile(p.src), DstFile(p.dst)][1..] == [DstFile(p.dst)];
    assert FeedAll(begun, [DstFile(p.dst)]) == Some(named);
    assert FeedAll(q, [SrcFile(p.src), DstFile(p.dst)]) == Some(named);
    FeedAllConcat(q, [SrcFile(p.src), DstFile(p.dst)], ChunksTokens(p.chunks));
    ChunksFed(ps, p.src, p.dst, [], current, p.chunks);
    assert [] + p.chunks == p.chunks;
  }

  lemma {:induction false} PatchesFed(ps: seq<Patch>, current: Option<nat>, more: seq<Patch>)
    requires Consistent(Parser(ps, current))
    ensures var r := FeedAll(Parser(ps, current), PatchesTokens(more)); r.Some? && r.value.patches == ps + more
    decreases |more|
  {
    if more != [] {
      var p := more[0];
      PatchFed(ps, current, p);
      FeedAllConcat(Parser(ps, current), PatchTokens(p), PatchesTokens(more[1..]));
      PatchesFed(ps + [p], if p.chunks == [] then current else Some(|ps|), more[1..]);
      assert ps + [p] + more[1..] == ps + more;
    }
  }

  // ------------------------------------------------------------------ counting content lines

  function ContentCount(ts: seq<Token>): nat {
    if ts == [] then 0 else (if ts[0].Content? then 1 else 0) + ContentCount(ts[1..])
  }

  function ChunkTotal(cs: seq<Chunk>): nat {
    if cs == [] then 0 else |cs[0].lines| + ChunkTotal(cs[1..])
  }

  function LineTotal(ps: seq<Patch>): nat {
    if ps == [] then 0 else ChunkTotal(ps[0].chunks) + LineTotal(ps[1..])
  }

  lemma {:induction false} ChunkTotalUpdate(cs: seq<Chunk>, i: nat, c: Chunk)
    requires i < |cs|
    ensures ChunkTotal(cs[i := c]) == ChunkTotal(cs) - |cs[i].lines| + |c.lines|
  {
    if i == 0 { assert cs[0 := c][1..] == cs[1..]; }
    else {
      assert cs[i := c][1..] == cs[1..][i - 1 := c];
      ChunkTotalUpdate(cs[1..], i - 1, c);
    }
  }

  lemma {:induction false} ChunkTotalAppend(cs: seq<Chunk>, c: Chunk)
    ensures ChunkTotal(cs + [c]) == ChunkTotal(cs) + |c.lines|
  {
    if cs == [] { assert cs + [c] == [c]; }
    else {
      assert (cs + [c])[1..] == cs[1..] + [c];
      ChunkTotalAppend(cs[1..], c);
    }
  }

  lemma {:induction false} LineTotalUpdate(ps: seq<Patch>, i: nat, p: Patch)
    requires i < |ps|
    ensures LineTotal(ps[i := p]) == LineTotal(ps) - ChunkTotal(ps[i].chunks) + ChunkTotal(p.chunks)
  {
    if i == 0 { assert ps[0 := p][1..] == ps[1..]; }
    else {
      assert ps[i := p][1..] == ps[1..][i - 1 := p];
      LineTotalUpdate(ps[1..], i - 1, p);
    }
  }

  lemma {:induction false} LineTotalAppend(ps: seq<Patch>, p: Patch)
    ensures LineTotal(ps + [p]) == LineTotal(ps) + ChunkTotal(p.chunks)
  {
    if ps == [] { assert ps + [p] == [p]; }
    else {
      assert (ps + [p])[1..] == ps[1..] + [p];
      LineTotalAppend(ps[1..], p);
    }
  }

  lemma FeedCounts(p: Parser, t: Token)
    requires Consistent(p) && Feed(p, t).Some?
    ensures LineTotal(Feed(p, t).value.patches) == LineTotal(p.patches) + if t.Content? then 1 else 0
  {
    var last := |p.patches| - 1;
    var q := Feed(p, t).value.patches;
    match t
    case SrcFile(name) => LineTotalAppend(p.patches, Patch(name, "", []));
    case DstFile(_) => LineTotalUpdate(p.patches, last, q[last]);
    case ChunkStart(a, _, b, _) =>
      LineTotalUpdate(p.patches, last, q[last]);
      ChunkTotalAppend(p.patches[last].chunks, Chunk(a, b, []));
    case Content(line) =>
      var c := p.current.value;
      var cs := p.patches[c].chunks;
      LineTotalUpdate(p.patches, c, q[c]);
      ChunkTotalUpdate(cs, |cs| - 1, q[c].chunks[|cs| - 1]);
  }

  lemma {:induction false} FeedAllCounts(p: Parser, ts: seq<Token>)
    requires Consistent(p) && FeedAll(p, ts).Some?
    ensures LineTotal(FeedAll(p, ts).value.patches) == LineTotal(p.patches) + ContentCount(ts)
    decreases |ts|
  {
    if ts != [] {
      FeedCounts(p, ts[0]);
      FeedAllCounts(Feed(p, ts[0]).value, ts[1..]);
    }
  }

  // ------------------------------------------------------------------ reading the printed tokens back

  lemma {:induction false} ReadBack(ts: seq<Token>) returns (ts': seq<Token>)
    requires forall t | t in ts :: PrintableToken(t)
    ensures ClassifyAll(PrintTokens(ts)) == Some(ts')
    ensures (forall t | t in ts :: !Misread(t)) ==> ts' == ts
    ensures ContentCount(ts') <= ContentCount(ts)
    ensures (exists t :: t in ts && Misread(t)) ==> ContentCount(ts') < ContentCount(ts)
  {
    if ts == [] {
      ts' := [];
    } else {
      ClassifyPrinted(ts[0]);
      var rest := ReadBack(ts[1..]);
      assert PrintTokens(ts)[1..] == PrintTokens(ts[1..]);
      ts' := [Classify(PrintToken(ts[0])).value] + rest;
      assert ts'[1..] == rest;
      assert ts == [ts[0]] + ts[1..];
    }
  }

  lemma {:induction false} LineTokensAre(lines: seq<Line>, t: Token)
    ensures t in LineTokens(lines) <==> t.Content? && t.line in lines
  {
    if lines != [] {
      LineTokensAre(lines[1..], t);
      assert lines == [lines[0]] + lines[1..];
    }
  }

  lemma {:induction false} ChunksTokensAre(cs: seq<Chunk>, t: Token)
    requires t.Content?
    ensures t in ChunksTokens(cs) <==> exists c :: c in cs && t.line in c.lines
  {
    if cs != [] {
      LineTokensAre(cs[0].lines, t);
      ChunksTokensAre(cs[1..], t);
      assert cs == [cs[0]] + cs[1..];
    }
  }

  lemma {:induction false} ContentTokensAre(ps: seq<Patch>, t: Token)
    requires t.Content?
    ensures t in PatchesTokens(ps) <==> exists p, c :: p in ps && c in p.chunks && t.line in c.lines
  {
    if ps != [] {
      ChunksTokensAre(ps[0].chunks, t);
      ContentTokensAre(ps[1..], t);
      assert ps == [ps[0]] + ps[1..];
    }
  }

  lemma {:induction false} NamesPrintable(ps: seq<Patch>, t: Token)
    requires Printable(ps) && t in PatchesTokens(ps) && !t.Content?
    ensures PrintableToken(t)
  {
    assert PrintablePatch(ps[0]);
    if t !in PatchTokens(ps[0]) {
      NamesPrintable(ps[1..], t);
    } else if t in ChunksTokens(ps[0].chunks) {
      ChunkNames(ps[0].chunks, t);
    } else {
      assert t in [SrcFile(ps[0].src), DstFile(ps[0].dst)];
    }
  }

  lemma {:induction false} ChunkNames(cs: seq<Chunk>, t: Token)
    requires t in ChunksTokens(cs) && !t.Content?
    ensures t.ChunkStart?
  {
    LineTokensAre(cs[0].lines, t);
    if t !in ChunkTokens(cs[0]) { ChunkNames(cs[1..], t); }
  }

  lemma TokensPrintable(ps: seq<Patch>, t: Token)
    requires Printable(ps) && t in PatchesTokens(ps)
    ensures PrintableToken(t)
  {
    if t.Content? {
      ContentTokensAre(ps, t);
      var p, c :| p in ps && c in p.chunks && t.line in c.lines;
      assert PrintablePatch(p) && PrintableChunk(c);
    } else {
      NamesPrintable(ps, t);
    }
  }

  /** Parsing the printed form of a list of patches gives the same patches back (names, positions, kinds
      and texts) exactly when no removed line starts with two dashes and a blank and no added line with
      two plus signs and a blank. */
  lemma RoundTripIff(ps: seq<Patch>)
    requires Printable(ps)
    ensures Parse(Print(ps)) == Some(ps) <==> NoLookalikes(ps)
  {
    var ts := PatchesTokens(ps);
    forall t | t in ts
      ensures PrintableToken(t)
    {
      TokensPrintable(ps, t);
    }
    var ts' := ReadBack(ts);
    PatchesFed([], None, ps);
    assert [] + ps == ps;
    FeedAllCounts(EMPTY, ts);
    if FeedAll(EMPTY, ts').Some? { FeedAllCounts(EMPTY, ts'); }
    if NoLookalikes(ps) {
      forall t | t in ts
        ensures !Misread(t)
      {
        if t.Content? { ContentTokensAre(ps, t); }
      }
    } else {
      var p, c, l :| p in ps && c in p.chunks && l in c.lines && LooksLikeHeader(l);
      ContentTokensAre(ps, Content(l));
      assert Misread(Content(l));
    }
  }

  // The lines of a chunk on one side, as a set of positions.
  function SrcSet(lines: seq<Line>): set<nat> {
    set k: nat | k < |lines| && lines[k].IsSrc()
  }

  function DstSet(lines: seq<Line>): set<nat> {
    set k: nat | k < |lines| && lines[k].IsDst()
  }

  lemma {:induction false} SrcCount(lines: seq<Line>)
    ensures |SrcAt(lines)| == |SrcSet(lines)|
  {
    if lines == [] {
      assert SrcSet(lines) == {};
    } else {
      var last := |lines| - 1;
      var front := lines[..last];
      SrcCount(front);
      assert last !in SrcSet(front);
      assert SrcSet(lines) == if lines[last].IsSrc() then SrcSet(front) + {last} else SrcSet(front);
    }
  }

  lemma {:induction false} DstCount(lines: seq<Line>)
    ensures |DstAt(lines)| == |DstSet(lines)|
  {
    if lines == [] {
      assert DstSet(lines) == {};
    } else {
      var last := |lines| - 1;
      var front := lines[..last];
      DstCount(front);
      assert last !in DstSet(front);
      assert DstSet(lines) == if lines[last].IsDst() then DstSet(front) + {last} else DstSet(front);
    }
  }

  /** The header written for a chunk, read back, holds its positions and the numbers of its lines on the
      source and on the destination side. */
  lemma PrintedCounts(c: Chunk)
    ensures Classify(PrintToken(ChunkTokens(c)[0]))
      == Some(ChunkStart(c.srcPos, |SrcSet(c.lines)|, c.dstPos, |DstSet(c.lines)|))
  {
    SrcCount(c.lines);
    DstCount(c.lines);
    ChunkStartPrinted(ChunkTokens(c)[0]);
  }
}
