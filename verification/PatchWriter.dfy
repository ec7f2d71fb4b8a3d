/** Writing patch objects: the lines written are the printed form of the values they stand for. */
module PatchWriter {
  import opened Wrappers
  import opened PatchText
  import opened PatchObjects
  import opened PatchPrograms

  lemma {:induction false} PrintConcat(a: seq<Token>, b: seq<Token>)
    ensures PrintTokens(a + b) == PrintTokens(a) + PrintTokens(b)
  {
    if a == [] {
      assert a + b == b;
    } else {
      assert (a + b)[0] == a[0] && (a + b)[1..] == a[1..] + b;
      PrintConcat(a[1..], b);
    }
  }

  lemma {:induction false} LineTokensAppend(lines: seq<Line>, l: Line)
    ensures LineTokens(lines + [l]) == LineTokens(lines) + [Content(l)]
  {
    if lines == [] {
      assert lines + [l] == [l];
    } else {
      assert (lines + [l])[1..] == lines[1..] + [l];
      LineTokensAppend(lines[1..], l);
    }
  }

  lemma {:induction false} ChunksTokensAppend(cs: seq<Chunk>, c: Chunk)
    ensures ChunksTokens(cs + [c]) == ChunksTokens(cs) + ChunkTokens(c)
  {
    if cs == [] {
      assert cs + [c] == [c];
    } else {
      assert (cs + [c])[1..] == cs[1..] + [c];
      ChunksTokensAppend(cs[1..], c);
    }
  }

  method WriteLine(l: PatchChunkLine, file: seq<string>, ghost v: Line) returns (file': seq<string>)
    requires l.Is(v)
    ensures file' == file + [PrintToken(Content(v))]
  {
    var mark := if l.kind == Some(Src) then "-" else if l.kind == Some(Dst) then "+" else " ";
    file' := file + [mark + l.text + "\n"];
  }

  method WriteLines(lines: seq<PatchChunkLine>, file: seq<string>, ghost vs: seq<Line>) returns (file': seq<string>)
    requires LinesAre(lines, vs)
    ensures file' == file + PrintTokens(LineTokens(vs))
  {
    file' := file;
    for k := 0 to |lines|
      invariant file' == file + PrintTokens(LineTokens(vs[..k]))
    {
      assert lines[k].Is(vs[k]);
      LineTokensAppend(vs[..k], vs[k]);
      PrintConcat(LineTokens(vs[..k]), [Content(vs[k])]);
      assert vs[..k + 1] == vs[..k] + [vs[k]];
      file' := WriteLine(lines[k], file', vs[k]);
    }
    assert vs[..|lines|] == vs;
  }

  method WriteChunk(c: PatchChunk, file: seq<string>, ghost v: Chunk) returns (file': seq<string>)
    requires c.Is(v)
    ensures file' == file + PrintTokens(ChunkTokens(v))
  {
    var src := c.SrcLines(v);
    var dst := c.DstLines(v);
    var header := PrintToken(ChunkStart(c.srcPos, |src|, c.dstPos, |dst|));
    file' := WriteLines(c.lines, file + [header], v.lines);
  }

  // What is written for the first chunks.
  ghost function PrintedUpTo(vs: seq<Chunk>, j: nat): seq<string>
    requires j <= |vs|
  {
    PrintTokens(ChunksTokens(vs[..j]))
  }

  lemma PrintOneMoreChunk(file: seq<string>, vs: seq<Chunk>, j: nat)
    requires j < |vs|
    ensures file + PrintedUpTo(vs, j + 1) == file + PrintedUpTo(vs, j) + PrintTokens(ChunkTokens(vs[j]))
  {
    assert vs[..j + 1] == vs[..j] + [vs[j]];
    ChunksTokensAppend(vs[..j], vs[j]);
    PrintConcat(ChunksTokens(vs[..j]), ChunkTokens(vs[j]));
    var a, b := PrintedUpTo(vs, j), PrintTokens(ChunkTokens(vs[j]));
    assert file + (a + b) == file + a + b;
  }

  method WriteChunks(chunks: seq<PatchChunk>, file: seq<string>, ghost vs: seq<Chunk>) returns (file': seq<string>)
    requires ChunksAre(chunks, vs)
    ensures file' == file + PrintTokens(ChunksTokens(vs))
  {
    file' := file;
    for j := 0 to |chunks|
      invariant file' == file + PrintedUpTo(vs, j)
    {
      assert chunks[j].Is(vs[j]);
      PrintOneMoreChunk(file, vs, j);
      file' := WriteChunk(chunks[j], file', vs[j]);
    }
    assert vs[..|chunks|] == vs;
  }

  /** Writing a patch gives its printed form, whose counts are those of the two views. */
  method WritePatch(p: PatchFile, file: seq<string>, ghost v: Patch) returns (file': seq<string>)
    requires p.Represents(v)
    ensures file' == file + PrintTokens(PatchTokens(v))
  {
    file' := WriteChunks(p.chunks, file + ["--- " + p.src + "\n", "+++ " + p.dst + "\n"], v.chunks);
    PrintConcat([SrcFile(v.src), DstFile(v.dst)], ChunksTokens(v.chunks));
    assert PrintTokens([SrcFile(v.src), DstFile(v.dst)]) == ["--- " + v.src + "\n", "+++ " + v.dst + "\n"] by {
      assert [SrcFile(v.src), DstFile(v.dst)][1..] == [DstFile(v.dst)];
    }
  }
}
