/** Parsing, rewriting and writing together: what the program hands to patch, and when that reads back as
    the rewritten patches. */
module PatchFilter {
  import opened Wrappers
  import opened PatchText
  import opened PatchRoundTrip
  import opened Whitespace
  import opened PatchParser
  import opened PatchWriter

  // ------------------------------------------------------------------ what the parser produces can be printed

  lemma ClassifiedIsPrintable(line: string)
    ensures Classify(line).Some? ==> PrintableToken(Classify(line).value)
  {
  }

  lemma AddedLineIsPrintable(p: Patch, line: Line)
    requires PrintablePatch(p) && p.chunks != [] && OneLine(line.text)
    ensures PrintablePatch(AddLine(p, line))
  {
    var last := |p.chunks| - 1;
    var c := p.chunks[last].(lines := p.chunks[last].lines + [line]);
    assert PrintableChunk(p.chunks[last]);
    assert PrintableChunk(c);
    forall d | d in AddLine(p, line).chunks
      ensures PrintableChunk(d)
    {
      assert d == c || d in p.chunks;
    }
  }

  lemma FeedKeepsPrintable(p: Parser, t: Token)
    requires Consistent(p) && Printable(p.patches) && PrintableToken(t) && Feed(p, t).Some?
    ensures Printable(Feed(p, t).value.patches)
  {
    var ps, qs := p.patches, Feed(p, t).value.patches;
    match t {
      case SrcFile(name) => assert PrintablePatch(Patch(name, "", []));
      case DstFile(name) =>
        assert PrintablePatch(ps[|ps| - 1]);
        assert PrintablePatch(ps[|ps| - 1].(dst := name));
      case ChunkStart(a, _, b, _) =>
        assert PrintablePatch(ps[|ps| - 1]);
        assert PrintableChunk(Chunk(a, b, []));
        assert PrintablePatch(ps[|ps| - 1].(chunks := ps[|ps| - 1].chunks + [Chunk(a, b, [])]));
      case Content(line) => AddedLineIsPrintable(ps[p.current.value], line);
    }
    forall q | q in qs
      ensures PrintablePatch(q)
    {
      var i :| 0 <= i < |qs| && qs[i] == q;
      assert i < |ps| && qs[i] == ps[i] ==> q in ps;
    }
  }

  lemma {:induction false} LinesKeepPrintable(p: Parser, lines: seq<string>)
    requires Consistent(p) && Printable(p.patches)
    ensures ReadLines(p, lines).Some? ==> Printable(ReadLines(p, lines).value.patches)
    decreases |lines|
  {
    if lines != [] && ReadLine(p, lines[0]).Some? {
      ClassifiedIsPrintable(lines[0]);
      FeedKeepsPrintable(p, Classify(lines[0]).value);
      LinesKeepPrintable(ReadLine(p, lines[0]).value, lines[1..]);
    }
  }

  /** No name and no text that the parser produces has a line end in it, whatever the lines it reads. */
  lemma ParsedIsPrintable(lines: seq<string>)
    ensures Parse(lines).Some? ==> Printable(Parse(lines).value)
  {
    ReadLinesParses(EMPTY, lines);
    LinesKeepPrintable(EMPTY, lines);
  }

  // ------------------------------------------------------------------ the lines of a rewritten chunk

  // The text of the n-th source line when the loop gets to it.
  function SourceText(lines: seq<Line>, n: nat): string
    requires n < Reach(lines)
  {
    Visit(lines, SrcAt(lines), DstAt(lines), n)[SrcAt(lines)[n]].text
  }

  lemma BeforePair(lines: seq<Line>, src: seq<nat>, dst: seq<nat>, n: nat)
    requires Views(lines, src, dst) && n < |src| && n < |dst|
    ensures Visit(lines, src, dst, n)[dst[n]] == lines[dst[n]]
  {
    forall j | 0 <= j < n
      ensures dst[j] != dst[n]
    {
      assert dst[j] < dst[n];
    }
    Untouched(lines, src, dst, dst[n], 0, n);
  }

  lemma AfterPair(lines: seq<Line>, src: seq<nat>, dst: seq<nat>, n: nat, all: nat)
    requires Views(lines, src, dst) && n < all <= |src| && all <= |dst|
    ensures Visit(lines, src, dst, all)[dst[n]] == Visit(lines, src, dst, n + 1)[dst[n]]
  {
    Untouched(lines, src, dst, dst[n], n + 1, all);
  }

  lemma VisitedLine(lines: seq<Line>, n: nat)
    requires n < Reach(lines)
    ensures var k := DstAt(lines)[n];
      Rewritten(lines)[k] == lines[k].(text := Restored(SourceText(lines, n), lines[k].text))
  {
    var src, dst := SrcAt(lines), DstAt(lines);
    BeforePair(lines, src, dst, n);
    AfterPair(lines, src, dst, n, Reach(lines));
    var prev := Visit(lines, src, dst, n);
    assert Visit(lines, src, dst, n + 1) == Step(prev, src[n], dst[n]);
  }

  lemma UnvisitedLine(lines: seq<Line>, k: nat)
    requires k < |lines| && forall n | 0 <= n < Reach(lines) :: DstAt(lines)[n] != k
    ensures Rewritten(lines)[k] == lines[k]
  {
    Untouched(lines, SrcAt(lines), DstAt(lines), k, 0, Reach(lines));
  }

  lemma RestoredIsOneLine(s: string, d: string)
    requires OneLine(d)
    ensures OneLine(Restored(s, d))
  {
  }

  lemma {:induction false} VisitKeepsPrintable(lines: seq<Line>, src: seq<nat>, dst: seq<nat>, n: nat)
    requires Views(lines, src, dst) && n <= |src| && n <= |dst| && PrintableLines(lines)
    ensures PrintableLines(Visit(lines, src, dst, n))
  {
    if n > 0 {
      VisitKeepsPrintable(lines, src, dst, n - 1);
      var prev := Visit(lines, src, dst, n - 1);
      RestoredIsOneLine(prev[src[n - 1]].text, prev[dst[n - 1]].text);
    }
  }

  predicate PrintableLines(lines: seq<Line>) {
    forall k | 0 <= k < |lines| :: OneLine(lines[k].text)
  }

  // The source line of a pair is a context line that an earlier pair had as its destination, or it is as it
  // was parsed.
  lemma ChangedBefore(lines: seq<Line>, n: nat, q: nat)
    requires q < n < Reach(lines) && DstAt(lines)[q] == SrcAt(lines)[n]
    ensures SourceText(lines, n) == Rewritten(lines)[SrcAt(lines)[n]].text
  {
    var src, dst := SrcAt(lines), DstAt(lines);
    AfterPair(lines, src, dst, q, n);
    AfterPair(lines, src, dst, q, Reach(lines));
  }

  lemma NotChangedBefore(lines: seq<Line>, n: nat)
    requires n < Reach(lines) && forall q | 0 <= q < n :: DstAt(lines)[q] != SrcAt(lines)[n]
    ensures SourceText(lines, n) == lines[SrcAt(lines)[n]].text
  {
    Untouched(lines, SrcAt(lines), DstAt(lines), SrcAt(lines)[n], 0, n);
  }

  lemma PairGivenBack(lines: seq<Line>, n: nat)
    requires PrintableLines(lines) && n < Reach(lines)
    ensures var d := DstAt(lines)[n];
      GivenBack(SourceText(lines, n), lines[d].text, Rewritten(lines)[d].text)
  {
    VisitedLine(lines, n);
    VisitKeepsPrintable(lines, SrcAt(lines), DstAt(lines), n);
    RestoredIsGivenBack(SourceText(lines, n), lines[DstAt(lines)[n]].text);
  }

  // The text of the source line of a pair when the loop gets to it, told by the rewritten lines.
  function TextThen(lines: seq<Line>, after: seq<Line>, n: nat): string
    requires |after| == |lines| && n < |SrcAt(lines)| && n <= |DstAt(lines)|
  {
    var s := SrcAt(lines)[n];
    if exists q :: 0 <= q < n && DstAt(lines)[q] == s then after[s].text else lines[s].text
  }

  // The two sides are compared line by line, up to the end of the shorter one.
  predicate LinesGivenBack(lines: seq<Line>, after: seq<Line>) {
    && |after| == |lines|
    && (forall k | 0 <= k < |lines| :: after[k].kind == lines[k].kind)
    && (forall n | 0 <= n < |SrcAt(lines)| && n < |DstAt(lines)| ::
          GivenBack(TextThen(lines, after, n), lines[DstAt(lines)[n]].text, after[DstAt(lines)[n]].text))
    && (forall k | 0 <= k < |lines| ::
          (forall n | 0 <= n < |SrcAt(lines)| && n < |DstAt(lines)| :: DstAt(lines)[n] != k) ==> after[k] == lines[k])
  }

  lemma ChunkGivenBack(lines: seq<Line>)
    requires PrintableLines(lines)
    ensures LinesGivenBack(lines, Rewritten(lines))
  {
    forall n | 0 <= n < |SrcAt(lines)| && n < |DstAt(lines)|
      ensures GivenBack(TextThen(lines, Rewritten(lines), n), lines[DstAt(lines)[n]].text,
                        Rewritten(lines)[DstAt(lines)[n]].text)
    {
      if q :| 0 <= q < n && DstAt(lines)[q] == SrcAt(lines)[n] {
        ChangedBefore(lines, n, q);
      } else {
        NotChangedBefore(lines, n);
      }
      PairGivenBack(lines, n);
    }
    forall k | 0 <= k < |lines| && forall n | 0 <= n < |SrcAt(lines)| && n < |DstAt(lines)| :: DstAt(lines)[n] != k
      ensures Rewritten(lines)[k] == lines[k]
    {
      UnvisitedLine(lines, k);
    }
  }

  // ------------------------------------------------------------------ lines that become look-alikes

  // An added line of two plus signs is compared with a source line that has a blank after them.
  predicate Forges(lines: seq<Line>, n: nat)
    requires n < Reach(lines)
  {
    lines[DstAt(lines)[n]] == Line(Dst, "++") && SourceText(lines, n) == "++ "
  }

  predicate ForgesNone(lines: seq<Line>) {
    forall n | 0 <= n < Reach(lines) :: !Forges(lines, n)
  }

  predicate CleanLines(lines: seq<Line>) {
    forall k | 0 <= k < |lines| :: !LooksLikeHeader(lines[k])
  }

  lemma BlankAfterPluses(s: string)
    requires OneLine(s)
    ensures TrailingBlank(s) == Some(("++", ' ')) <==> s == "++ "
  {
    assert "++ "[..2] == "++";
    if TrailingBlank(s).Some? {
      assert s == s[..|s| - 1] + [s[|s| - 1]];
    }
  }

  lemma RestoredLookalike(l: Line, s: string)
    requires l.IsDst() && OneLine(s)
    ensures LooksLikeHeader(l.(text := Restored(s, l.text)))
      <==> LooksLikeHeader(l) || (l == Line(Dst, "++") && s == "++ ")
  {
    BlankAfterPluses(s);
    if l.kind == Dst && Fires(s, l.text) {
      var c := TrailingBlank(s).value.1;
      var grown := l.text + [c];
      assert "++ " <= l.text ==> "++ " <= grown;
      if "++ " <= grown && |l.text| >= 3 {
        assert grown[..3] == l.text[..3];
      } else if "++ " <= grown {
        assert grown == "++ ";
        assert l.text == grown[..2] && c == grown[2];
      }
    }
  }

  lemma RewrittenLine(lines: seq<Line>, n: nat)
    requires PrintableLines(lines) && n < Reach(lines)
    ensures LooksLikeHeader(Rewritten(lines)[DstAt(lines)[n]])
      <==> LooksLikeHeader(lines[DstAt(lines)[n]]) || Forges(lines, n)
  {
    VisitKeepsPrintable(lines, SrcAt(lines), DstAt(lines), n);
    VisitedLine(lines, n);
    RestoredLookalike(lines[DstAt(lines)[n]], SourceText(lines, n));
  }

  lemma CleanRewriteIff(lines: seq<Line>)
    requires PrintableLines(lines)
    ensures CleanLines(Rewritten(lines)) <==> CleanLines(lines) && ForgesNone(lines)
  {
    forall k | 0 <= k < |lines|
      ensures LooksLikeHeader(lines[k]) ==> LooksLikeHeader(Rewritten(lines)[k])
      ensures LooksLikeHeader(Rewritten(lines)[k]) && ForgesNone(lines) ==> LooksLikeHeader(lines[k])
    {
      if n :| 0 <= n < Reach(lines) && DstAt(lines)[n] == k {
        RewrittenLine(lines, n);
      } else {
        UnvisitedLine(lines, k);
      }
    }
    if n :| 0 <= n < Reach(lines) && Forges(lines, n) {
      RewrittenLine(lines, n);
    }
  }

  // Where no visited pair disturbs a context line, the source lines still have their texts.
  lemma QuietForges(c: Chunk, n: nat)
    requires QuietChunk(c) && n < Reach(c.lines)
    ensures Forges(c.lines, n)
      <==> c.lines[DstAt(c.lines)[n]] == Line(Dst, "++") && c.lines[SrcAt(c.lines)[n]].text == "++ "
  {
    QuietVisit(c.lines, SrcAt(c.lines), DstAt(c.lines), n);
  }

  // ------------------------------------------------------------------ whole lists of patches

  ghost predicate CleanPatch(p: Patch) {
    forall j | 0 <= j < |p.chunks| :: CleanLines(p.chunks[j].lines)
  }

  lemma NoLookalikesIff(ps: seq<Patch>)
    ensures NoLookalikes(ps) <==> forall i | 0 <= i < |ps| :: CleanPatch(ps[i])
  {
    if !NoLookalikes(ps) {
      var p, c, l :| p in ps && c in p.chunks && l in c.lines && LooksLikeHeader(l);
      assert !CleanLines(c.lines);
      assert !CleanPatch(p);
    }
    if i :| 0 <= i < |ps| && !CleanPatch(ps[i]) {
      var j :| 0 <= j < |ps[i].chunks| && !CleanLines(ps[i].chunks[j].lines);
      var k :| 0 <= k < |ps[i].chunks[j].lines| && LooksLikeHeader(ps[i].chunks[j].lines[k]);
      assert ps[i] in ps && ps[i].chunks[j] in ps[i].chunks && ps[i].chunks[j].lines[k] in ps[i].chunks[j].lines;
    }
  }

  lemma ChunkPrintable(ps: seq<Patch>, i: nat, j: nat)
    requires Printable(ps) && i < |ps| && j < |ps[i].chunks|
    ensures PrintableLines(ps[i].chunks[j].lines)
  {
    assert PrintablePatch(ps[i]) && PrintableChunk(ps[i].chunks[j]);
  }

  lemma RewrittenChunkPrintable(ps: seq<Patch>, i: nat, j: nat)
    requires Printable(ps) && i < |ps| && j < |ps[i].chunks|
    ensures |RewrittenPatches(ps)[i].chunks| == |ps[i].chunks| && PrintableChunk(RewrittenPatches(ps)[i].chunks[j])
  {
    ChunkPrintable(ps, i, j);
    RewrittenAt(ps, i, j);
    var lines := ps[i].chunks[j].lines;
    VisitKeepsPrintable(lines, SrcAt(lines), DstAt(lines), Reach(lines));
  }

  lemma RewriteKeepsPrintable(ps: seq<Patch>)
    requires Printable(ps)
    ensures Printable(RewrittenPatches(ps))
  {
    forall i | 0 <= i < |ps|
      ensures PrintablePatch(RewrittenPatches(ps)[i])
    {
      var p := RewrittenPatches(ps)[i];
      assert PrintablePatch(ps[i]);
      forall j | 0 <= j < |ps[i].chunks|
        ensures |p.chunks| == |ps[i].chunks| && PrintableChunk(p.chunks[j])
      {
        RewrittenChunkPrintable(ps, i, j);
      }
    }
  }

  // The destination side of a chunk has fewer lines than its source side.
  predicate FallsShort(c: Chunk) {
    |DstSet(c.lines)| < |SrcSet(c.lines)|
  }

  // No chunk before chunk j of patch i falls short.
  ghost predicate GetsTo(ps: seq<Patch>, i: nat, j: nat)
    requires i < |ps| && j < |ps[i].chunks|
  {
    && (forall b | 0 <= b < j :: !FallsShort(ps[i].chunks[b]))
    && (forall a, b | 0 <= a < i && 0 <= b < |ps[a].chunks| :: !FallsShort(ps[a].chunks[b]))
  }

  lemma VisitedIff(ps: seq<Patch>, i: nat, j: nat)
    requires i < |ps| && j < |ps[i].chunks|
    ensures Visited(ps, i, j) <==> GetsTo(ps, i, j)
  {
    forall c: Chunk
      ensures FallsShort(c) <==> Aborts(c.lines)
    {
      SrcCount(c.lines);
      DstCount(c.lines);
    }
    var n, m := FirstAbort(ps[i].chunks), FirstAbortPatch(ps);
    if j > n {
      assert Aborts(ps[i].chunks[n].lines);
    }
    if i > m {
      assert AbortsPatch(ps[m]) && Aborts(ps[m].chunks[FirstAbort(ps[m].chunks)].lines);
    }
    if i <= m {
      forall a, b | 0 <= a < i && 0 <= b < |ps[a].chunks|
        ensures !FallsShort(ps[a].chunks[b])
      {
        assert !AbortsPatch(ps[a]);
      }
    }
  }

  /** The rewrite of a list of patches: chunk by chunk, up to and with the first whose destination side is the
      shorter one, each destination line that is compared regains the blank or the tab that is all it lacks
      of its source line, and everything else stays. */
  lemma RewriteGivesBack(ps: seq<Patch>, i: nat, j: nat)
    requires Printable(ps) && i < |ps| && j < |ps[i].chunks|
    ensures SamePatch(RewrittenPatches(ps)[i], ps[i])
    ensures var c, after := ps[i].chunks[j], RewrittenPatches(ps)[i].chunks[j];
      if GetsTo(ps, i, j) then LinesGivenBack(c.lines, after.lines) else after == c
  {
    RewriteKeepsShape(ps, i, j);
    VisitedIff(ps, i, j);
    RewrittenAt(ps, i, j);
    ChunkPrintable(ps, i, j);
    ChunkGivenBack(ps[i].chunks[j].lines);
  }

  // No chunk that the rewrite gets to forges a file name.
  ghost predicate NothingForged(ps: seq<Patch>) {
    forall i: nat, j: nat | Visited(ps, i, j) :: ForgesNone(ps[i].chunks[j].lines)
  }

  lemma CleanChunkIff(ps: seq<Patch>, i: nat, j: nat)
    requires Printable(ps) && i < |ps| && j < |ps[i].chunks|
    ensures |RewrittenPatches(ps)[i].chunks| == |ps[i].chunks|
    ensures CleanLines(RewrittenPatches(ps)[i].chunks[j].lines)
      <==> CleanLines(ps[i].chunks[j].lines) && (Visited(ps, i, j) ==> ForgesNone(ps[i].chunks[j].lines))
  {
    RewrittenAt(ps, i, j);
    ChunkPrintable(ps, i, j);
    CleanRewriteIff(ps[i].chunks[j].lines);
  }

  lemma CleanPatchIff(ps: seq<Patch>, i: nat)
    requires Printable(ps) && i < |ps|
    ensures CleanPatch(RewrittenPatches(ps)[i])
      <==> CleanPatch(ps[i]) && forall j: nat | Visited(ps, i, j) :: ForgesNone(ps[i].chunks[j].lines)
  {
    forall j | 0 <= j < |ps[i].chunks|
      ensures |RewrittenPatches(ps)[i].chunks| == |ps[i].chunks|
      ensures CleanLines(RewrittenPatches(ps)[i].chunks[j].lines)
        <==> CleanLines(ps[i].chunks[j].lines) && (Visited(ps, i, j) ==> ForgesNone(ps[i].chunks[j].lines))
    {
      CleanChunkIff(ps, i, j);
    }
  }

  lemma NoLookalikesAfterIff(ps: seq<Patch>)
    requires Printable(ps)
    ensures NoLookalikes(RewrittenPatches(ps)) <==> NoLookalikes(ps) && NothingForged(ps)
  {
    NoLookalikesIff(ps);
    NoLookalikesIff(RewrittenPatches(ps));
    forall i | 0 <= i < |ps|
      ensures CleanPatch(RewrittenPatches(ps)[i])
        <==> CleanPatch(ps[i]) && forall j: nat | Visited(ps, i, j) :: ForgesNone(ps[i].chunks[j].lines)
    {
      CleanPatchIff(ps, i);
    }
  }

  /** Parsing the printed form of the rewritten patches gives the rewritten patches, exactly when the
      patches could be read back before the rewrite, and the rewrite compares no added line of two plus
      signs with a source line that has, by then, a blank after them. */
  lemma RewriteRoundTripIff(ps: seq<Patch>)
    requires Printable(ps)
    ensures Parse(Print(RewrittenPatches(ps))) == Some(RewrittenPatches(ps))
      <==> Parse(Print(ps)) == Some(ps) && NothingForged(ps)
  {
    RewriteKeepsPrintable(ps);
    RoundTripIff(ps);
    RoundTripIff(RewrittenPatches(ps));
    NoLookalikesAfterIff(ps);
  }

  lemma RemovedThenAdded(lines: seq<Line>)
    requires lines == [Line(Src, "++ "), Line(Dst, "++")]
    ensures !ForgesNone(lines)
  {
    var a, b := lines[0], lines[1];
    assert lines[..1] == [a] && [a][..0] == [];
    assert SrcAt([a]) == [0] && DstAt([a]) == [];
    assert SrcAt(lines) == [0] && DstAt(lines) == [1];
    assert Forges(lines, 0);
  }

  /** The rewrite can break the round trip: in any list of patches that can be read back, a chunk it gets to
      in which a line of two plus signs and a blank is removed and the same line without the blank added. */
  lemma RewriteCanForge(ps: seq<Patch>, i: nat, j: nat)
    requires Printable(ps) && Parse(Print(ps)) == Some(ps)
    requires Visited(ps, i, j) && ps[i].chunks[j].lines == [Line(Src, "++ "), Line(Dst, "++")]
    ensures Parse(Print(RewrittenPatches(ps))) != Some(RewrittenPatches(ps))
  {
    RemovedThenAdded(ps[i].chunks[j].lines);
    RewriteRoundTripIff(ps);
  }

  // ------------------------------------------------------------------ the program

  /** Parse the lines of a difference, take back its changes of white space, and write the first patch. */
  method FilterDifference(lines: seq<string>) returns (ok: bool, file: seq<string>)
    ensures ok <==> Parse(lines).Some?
    ensures ok ==>
      var ps := RewrittenPatches(Parse(lines).value);
      file == if ps == [] then [] else Print([ps[0]])
  {
    var patches;
    ok, patches := RemoveTrailingWhitespaceChanges(lines);
    file := [];
    if ok && |patches| != 0 {
      ghost var ps := RewrittenPatches(Parse(lines).value);
      file := WritePatch(patches[0], [], ps[0]);
      assert PatchesTokens([ps[0]]) == PatchTokens(ps[0]);
    }
  }
}
