/** The parser that builds patch objects line by line, and the program that parses and rewrites. */
module PatchParser {
  import opened Wrappers
  import opened PatchText
  import opened Whitespace
  import opened PatchObjects
  import opened PatchPrograms

  // The objects built so far, and the chunk that content lines go to.
  ghost predicate Built(ps: seq<PatchFile>, chunk: PatchChunk?, m: Parser)
    reads ps, AllObjects(ps)
  {
    && Holds(ps, m.patches)
    && (chunk == null <==> m.current == None)
    && (m.current.Some? ==>
          m.current.value < |ps| && ps[m.current.value].chunks != []
          && chunk == ps[m.current.value].chunks[|ps[m.current.value].chunks| - 1])
  }

  method OnContent(ps: seq<PatchFile>, chunk: PatchChunk, kind: Kind, text: string, ghost m: Parser)
    returns (l: PatchChunkLine)
    requires Built(ps, chunk, m) && Consistent(m)
    modifies ps[m.current.value].Repr
    ensures fresh(l) && forall p | p in ps :: p.Repr <= old(p.Repr) + {l}
    ensures Built(ps, chunk, Feed(m, Content(Line(kind, text))).value)
  {
    ghost var cur := m.current.value;
    assert ps[cur].Represents(m.patches[cur]);
    l := new PatchChunkLine();
    l.Set(kind, text);
    ghost var grown := WithLine(m.patches, cur, Line(kind, text));
    GrowLines(ps, cur, chunk, l, Line(kind, text), m.patches);
    assert Built(ps, chunk, m.(patches := grown));
  }

  method OnSrcFile(ps: seq<PatchFile>, chunk: PatchChunk?, name: string, ghost m: Parser) returns (patch: PatchFile)
    requires Built(ps, chunk, m) && Consistent(m)
    ensures fresh(patch.Repr)
    ensures Built(ps + [patch], chunk, Feed(m, SrcFile(name)).value)
  {
    patch := new PatchFile();
    patch.SetSrc(name, Patch("", "", []));
    ghost var all, vs := ps + [patch], m.patches + [Patch(name, "", [])];
    forall j | 0 <= j < |all|
      ensures all[j].Represents(vs[j])
    {
      if j < |ps| { assert old(ps[j].Represents(m.patches[j])); }
    }
  }

  method OnDstFile(ps: seq<PatchFile>, patch: PatchFile, chunk: PatchChunk?, name: string, ghost m: Parser)
    requires Built(ps, chunk, m) && Consistent(m) && ps != [] && patch == ps[|ps| - 1]
    modifies patch`dst
    ensures Built(ps, chunk, Feed(m, DstFile(name)).value)
  {
    NameLast(ps, patch, name, m.patches);
  }

  method OnChunkStart(ps: seq<PatchFile>, patch: PatchFile, chunk: PatchChunk?, srcPos: nat, dstPos: nat,
                      ghost srcLen: nat, ghost dstLen: nat, ghost m: Parser)
    returns (c: PatchChunk)
    requires Built(ps, chunk, m) && Consistent(m) && ps != [] && patch == ps[|ps| - 1]
    modifies patch`chunks, patch`Repr
    ensures fresh(c) && forall p | p in ps :: p.Repr <= old(p.Repr) + {c}
    ensures Built(ps, c, Feed(m, ChunkStart(srcPos, srcLen, dstPos, dstLen)).value)
  {
    c := new PatchChunk(srcPos, dstPos);
    ghost var m' := Feed(m, ChunkStart(srcPos, srcLen, dstPos, dstLen)).value;
    assert m' == Parser(WithChunk(m.patches, c.srcPos, c.dstPos), Some(|ps| - 1));
    GrowChunks(ps, patch, c, m.patches);
    assert c == ps[|ps| - 1].chunks[|ps[|ps| - 1].chunks| - 1];
    assert Built(ps, c, m');
  }

  // The current patch is the last one; there is none at first.
  ghost predicate Parsing(ps: seq<PatchFile>, patch: PatchFile?, chunk: PatchChunk?, m: Parser)
    reads ps, AllObjects(ps)
  {
    && Built(ps, chunk, m) && Consistent(m)
    && if ps == [] then patch == null else patch == ps[|ps| - 1]
  }

  // One line of the file; false stands for an access to a patch or a chunk that does not exist yet.
  method OnToken(t: Token, ps: seq<PatchFile>, patch: PatchFile?, chunk: PatchChunk?, ghost m: Parser)
    returns (ok: bool, ps': seq<PatchFile>, patch': PatchFile?, chunk': PatchChunk?)
    requires Parsing(ps, patch, chunk, m)
    modifies AllObjects(ps)
    ensures ok <==> Feed(m, t).Some?
    ensures ok ==> Parsing(ps', patch', chunk', Feed(m, t).value)
    ensures forall p | p in ps' :: fresh(p.Repr - old(AllObjects(ps)))
  {
    ok, ps', patch', chunk' := true, ps, patch, chunk;
    match t {
      case SrcFile(name) =>
        patch' := OnSrcFile(ps, chunk, name, m);
        ps' := ps + [patch'];
      case DstFile(name) =>
        if patch == null { return false, ps, patch, chunk; }
        assert patch.Represents(m.patches[|ps| - 1]);
        OnDstFile(ps, patch, chunk, name, m);
      case ChunkStart(srcPos, srcLen, dstPos, dstLen) =>
        if patch == null { return false, ps, patch, chunk; }
        assert patch.Represents(m.patches[|ps| - 1]);
        chunk' := OnChunkStart(ps, patch, chunk, srcPos, dstPos, srcLen, dstLen, m);
      case Content(l) =>
        if chunk == null { return false, ps, patch, chunk; }
        var added := OnContent(ps, chunk, l.kind, l.text, m);
    }
  }

  // One line after another, as the loop reads them.
  ghost function ReadLine(m: Parser, line: string): (r: Option<Parser>)
    requires Consistent(m)
    ensures r.Some? ==> Consistent(r.value)
  {
    match Classify(line) case None => None case Some(t) => Feed(m, t)
  }

  ghost function ReadLines(m: Parser, lines: seq<string>): Option<Parser>
    requires Consistent(m)
    decreases |lines|
  {
    if lines == [] then Some(m)
    else match ReadLine(m, lines[0]) case None => None case Some(m') => ReadLines(m', lines[1..])
  }

  lemma {:induction false} ReadLinesParses(m: Parser, lines: seq<string>)
    requires Consistent(m)
    ensures ReadLines(m, lines) == match ClassifyAll(lines) case None => None case Some(ts) => FeedAll(m, ts)
    decreases |lines|
  {
    if lines != [] && Classify(lines[0]).Some? {
      var t := Classify(lines[0]).value;
      if Feed(m, t).Some? { ReadLinesParses(Feed(m, t).value, lines[1..]); }
      if ClassifyAll(lines[1..]).Some? {
        assert ([t] + ClassifyAll(lines[1..]).value)[1..] == ClassifyAll(lines[1..]).value;
      }
    }
  }

  method OnLine(line: string, ps: seq<PatchFile>, patch: PatchFile?, chunk: PatchChunk?, ghost m: Parser)
    returns (ok: bool, ps': seq<PatchFile>, patch': PatchFile?, chunk': PatchChunk?)
    requires Parsing(ps, patch, chunk, m)
    modifies AllObjects(ps)
    ensures ok <==> ReadLine(m, line).Some?
    ensures ok ==> Parsing(ps', patch', chunk', ReadLine(m, line).value)
    ensures forall p | p in ps' :: fresh(p.Repr - old(AllObjects(ps)))
  {
    var t := Classify(line);
    if t == None { return false, ps, patch, chunk; }
    ok, ps', patch', chunk' := OnToken(t.value, ps, patch, chunk, m);
  }

  lemma OneMoreLine(m: Parser, lines: seq<string>, k: nat)
    requires Consistent(m) && k < |lines|
    ensures ReadLines(m, lines[k..])
      == match ReadLine(m, lines[k]) case None => None case Some(m') => ReadLines(m', lines[k + 1..])
  {
    assert lines[k..][0] == lines[k] && lines[k..][1..] == lines[k + 1..];
  }

  // The objects built for a list of lines.  False stands for an exception of the parser.
  method ParsePatchset(lines: seq<string>) returns (ok: bool, ps: seq<PatchFile>)
    ensures ok <==> Parse(lines).Some?
    ensures ok ==> Holds(ps, Parse(lines).value) && fresh(AllObjects(ps))
  {
    ReadLinesParses(EMPTY, lines);
    ok, ps := true, [];
    var patch: PatchFile? := null;
    var chunk: PatchChunk? := null;
    ghost var m, result := EMPTY, ReadLines(EMPTY, lines);
    assert lines[0..] == lines;
    for k := 0 to |lines|
      invariant Parsing(ps, patch, chunk, m) && forall p | p in ps :: fresh(p.Repr)
      invariant ReadLines(m, lines[k..]) == result
    {
      OneMoreLine(m, lines, k);
      ok, ps, patch, chunk := OnLine(lines[k], ps, patch, chunk, m);
      if !ok { return false, []; }
      m := ReadLine(m, lines[k]).value;
    }
  }

  /** Parse a patch file and take back the changes of trailing white space. */
  method RemoveTrailingWhitespaceChanges(lines: seq<string>) returns (ok: bool, ps: seq<PatchFile>)
    ensures ok <==> Parse(lines).Some?
    ensures ok ==> Holds(ps, RewrittenPatches(Parse(lines).value))
  {
    ok, ps := ParsePatchset(lines);
    if ok {
      TakeBackPatches(ps, Parse(lines).value);
    }
  }
}
