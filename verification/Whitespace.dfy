/** The rewrite that takes back changes of trailing white space: what it does to the lines of a chunk, what
    it never touches, and exactly when it leaves the source side of a patch alone. */
module Whitespace {
  import opened Wrappers
  import opened PatchText

  // The pattern (.*)([ \t]+)$ : everything but the last blank or tab, and that character.
  function TrailingBlank(s: string): Option<(string, char)> {
    var body := if s != "" && s[|s| - 1] == '\n' then s[..|s| - 1] else s;
    if '\n' in body || body == "" then None
    else
      var c := body[|body| - 1];
      if c == ' ' || c == '\t' then Some((body[..|body| - 1], c)) else None
  }

  predicate Fires(s: string, d: string) {
    TrailingBlank(s).Some? && TrailingBlank(s).value.0 == d
  }

  // Compare the source line at position s with the destination line at position d.
  function Step(lines: seq<Line>, s: nat, d: nat): (r: seq<Line>)
    requires s < |lines| && d < |lines|
    ensures |r| == |lines| && r[d].kind == lines[d].kind
    ensures forall k | 0 <= k < |lines| && k != d :: r[k] == lines[k]
  {
    if Fires(lines[s].text, lines[d].text) then
      lines[d := lines[d].(text := lines[d].text + [TrailingBlank(lines[s].text).value.1])]
    else lines
  }

  // Two lists of positions: source lines and destination lines, each in ascending order.
  predicate Views(lines: seq<Line>, src: seq<nat>, dst: seq<nat>) {
    && (forall i | 0 <= i < |src| :: src[i] < |lines| && lines[src[i]].IsSrc())
    && (forall i | 0 <= i < |dst| :: dst[i] < |lines| && lines[dst[i]].IsDst())
    && (forall i, j | 0 <= i < j < |dst| :: dst[i] < dst[j])
  }

  // The lines after n pairs.
  function Visit(lines: seq<Line>, src: seq<nat>, dst: seq<nat>, n: nat): (r: seq<Line>)
    requires Views(lines, src, dst) && n <= |src| && n <= |dst|
    ensures |r| == |lines| && forall k | 0 <= k < |lines| :: r[k].kind == lines[k].kind
  {
    if n == 0 then lines else Step(Visit(lines, src, dst, n - 1), src[n - 1], dst[n - 1])
  }

  // The loop visits this many pairs of lines; it fails when the destination side is the shorter one.
  function Reach(lines: seq<Line>): (n: nat)
    ensures n <= |SrcAt(lines)| && n <= |DstAt(lines)|
  {
    if |SrcAt(lines)| <= |DstAt(lines)| then |SrcAt(lines)| else |DstAt(lines)|
  }

  predicate Aborts(lines: seq<Line>) { |DstAt(lines)| < |SrcAt(lines)| }

  function Rewritten(lines: seq<Line>): (r: seq<Line>)
    ensures |r| == |lines| && forall k | 0 <= k < |lines| :: r[k].kind == lines[k].kind
  {
    Visit(lines, SrcAt(lines), DstAt(lines), Reach(lines))
  }

  function RewrittenChunk(c: Chunk): Chunk {
    c.(lines := Rewritten(c.lines))
  }

  // The first chunk whose loop fails, or the number of chunks.
  function FirstAbort(cs: seq<Chunk>): (n: nat)
    ensures n <= |cs| && (n < |cs| ==> Aborts(cs[n].lines)) && forall i | 0 <= i < n :: !Aborts(cs[i].lines)
  {
    if cs == [] || Aborts(cs[0].lines) then 0 else 1 + FirstAbort(cs[1..])
  }

  predicate AbortsPatch(p: Patch) { FirstAbort(p.chunks) < |p.chunks| }

  function FirstAbortPatch(ps: seq<Patch>): (n: nat)
    ensures n <= |ps| && (n < |ps| ==> AbortsPatch(ps[n])) && forall i | 0 <= i < n :: !AbortsPatch(ps[i])
  {
    if ps == [] || AbortsPatch(ps[0]) then 0 else 1 + FirstAbortPatch(ps[1..])
  }

  // The first failure, in a chunk it leaves partly rewritten, ends the whole rewrite.
  function RewrittenChunks(cs: seq<Chunk>): (r: seq<Chunk>)
    ensures |r| == |cs|
    ensures forall i | 0 <= i < |cs| :: r[i] == if i <= FirstAbort(cs) then RewrittenChunk(cs[i]) else cs[i]
  {
    seq(|cs|, i requires 0 <= i < |cs| => if i <= FirstAbort(cs) then RewrittenChunk(cs[i]) else cs[i])
  }

  function RewrittenPatch(p: Patch): Patch {
    p.(chunks := RewrittenChunks(p.chunks))
  }

  function RewrittenPatches(ps: seq<Patch>): (r: seq<Patch>)
    ensures |r| == |ps|
    ensures forall i | 0 <= i < |ps| :: r[i] == if i <= FirstAbortPatch(ps) then RewrittenPatch(ps[i]) else ps[i]
  {
    seq(|ps|, i requires 0 <= i < |ps| => if i <= FirstAbortPatch(ps) then RewrittenPatch(ps[i]) else ps[i])
  }

  // ------------------------------------------------------------------ what never changes

  // Two patches that differ at most in the texts of their lines.
  predicate SameKinds(a: seq<Line>, b: seq<Line>) {
    |a| == |b| && forall k | 0 <= k < |a| :: a[k].kind == b[k].kind
  }

  predicate SameChunk(a: Chunk, b: Chunk) {
    a.srcPos == b.srcPos && a.dstPos == b.dstPos && SameKinds(a.lines, b.lines)
  }

  predicate SamePatch(a: Patch, b: Patch) {
    && a.src == b.src && a.dst == b.dst && |a.chunks| == |b.chunks|
    && forall j | 0 <= j < |a.chunks| :: SameChunk(a.chunks[j], b.chunks[j])
  }

  lemma {:induction false} SameKindsSameSides(a: seq<Line>, b: seq<Line>)
    requires SameKinds(a, b)
    ensures SrcAt(a) == SrcAt(b) && DstAt(a) == DstAt(b)
  {
    if a != [] {
      var last := |a| - 1;
      assert SameKinds(a[..last], b[..last]);
      SameKindsSameSides(a[..last], b[..last]);
    }
  }

  /** The rewrite keeps the file names, the number of patches and chunks, the positions, and the number and
      the kinds of the lines; hence the header printed for every chunk is the same. */
  lemma RewriteKeepsShape(ps: seq<Patch>, i: nat, j: nat)
    requires i < |ps| && j < |ps[i].chunks|
    ensures |RewrittenPatches(ps)| == |ps| && SamePatch(RewrittenPatches(ps)[i], ps[i])
    ensures ChunkTokens(RewrittenPatches(ps)[i].chunks[j])[0] == ChunkTokens(ps[i].chunks[j])[0]
  {
    var q := RewrittenPatches(ps)[i];
    assert SameChunk(q.chunks[j], ps[i].chunks[j]);
    SameKindsSameSides(q.chunks[j].lines, ps[i].chunks[j].lines);
  }

  // ------------------------------------------------------------------ the source side

  predicate SourceKept(lines: seq<Line>, after: seq<Line>)
    requires |after| == |lines|
  {
    forall k | 0 <= k < |lines| && lines[k].IsSrc() :: after[k] == lines[k]
  }

  // The text of a destination line after it has been compared with a source line.
  function Restored(s: string, d: string): string {
    if Fires(s, d) then d + [TrailingBlank(s).value.1] else d
  }

  // Comparing the two lines would change a context line, which is on both sides.
  predicate Disturbs(s: Line, d: Line) {
    d.kind == Both && Fires(s.text, d.text)
  }

  predicate Quiet(lines: seq<Line>, src: seq<nat>, dst: seq<nat>, n: nat)
    requires Views(lines, src, dst) && n <= |src| && n <= |dst|
  {
    forall i | 0 <= i < n :: !Disturbs(lines[src[i]], lines[dst[i]])
  }

  lemma FiresGrows(s: string, d: string)
    requires Fires(s, d)
    ensures |d| < |s| && |Restored(s, d)| == |d| + 1
    ensures '\n' !in s ==> Restored(s, d) == s && (s == d + " " || s == d + "\t")
  {
  }

  // After n quiet pairs the n destination lines are restored, and no other line has changed.
  lemma {:induction false} QuietVisit(lines: seq<Line>, src: seq<nat>, dst: seq<nat>, n: nat)
    requires Views(lines, src, dst) && n <= |src| && n <= |dst| && Quiet(lines, src, dst, n)
    ensures SourceKept(lines, Visit(lines, src, dst, n))
    ensures forall i | 0 <= i < n ::
      Visit(lines, src, dst, n)[dst[i]].text == Restored(lines[src[i]].text, lines[dst[i]].text)
    ensures forall i | n <= i < |dst| :: Visit(lines, src, dst, n)[dst[i]] == lines[dst[i]]
  {
    if n > 0 {
      QuietVisit(lines, src, dst, n - 1);
      var prev, s, d := Visit(lines, src, dst, n - 1), src[n - 1], dst[n - 1];
      assert prev[s] == lines[s] && prev[d] == lines[d];
      assert !Disturbs(lines[s], lines[d]);
      var next := Step(prev, s, d);
      assert next[d].text == Restored(lines[s].text, lines[d].text);
      assert lines[d].kind == Both ==> next[d] == lines[d];
      forall i | 0 <= i < |dst| && i != n - 1
        ensures next[dst[i]] == prev[dst[i]]
      {
        assert dst[i] != d;
      }
    }
  }

  // A line is touched only by the pairs whose destination it is.
  lemma {:induction false} Untouched(lines: seq<Line>, src: seq<nat>, dst: seq<nat>, k: nat, m: nat, n: nat)
    requires Views(lines, src, dst) && m <= n <= |src| && n <= |dst| && k < |lines|
    requires forall j | m <= j < n :: dst[j] != k
    ensures Visit(lines, src, dst, n)[k] == Visit(lines, src, dst, m)[k]
    decreases n
  {
    if m < n {
      Untouched(lines, src, dst, k, m, n - 1);
      assert dst[n - 1] != k;
    }
  }

  lemma DisturbanceShows(lines: seq<Line>, src: seq<nat>, dst: seq<nat>, i: nat, n: nat)
    requires Views(lines, src, dst) && i < n <= |src| && n <= |dst|
    requires Quiet(lines, src, dst, i) && Disturbs(lines[src[i]], lines[dst[i]])
    ensures !SourceKept(lines, Visit(lines, src, dst, n))
  {
    var s, k := src[i], dst[i];
    var prev := Visit(lines, src, dst, i);
    assert prev[s] == lines[s] && prev[k] == lines[k] by { QuietVisit(lines, src, dst, i); }
    FiresGrows(lines[s].text, lines[k].text);
    var next := Step(prev, s, k);
    assert |next[k].text| == |lines[k].text| + 1;
    assert Visit(lines, src, dst, n)[k] == next[k] by {
      assert forall j | i + 1 <= j < n :: dst[i] < dst[j];
      Untouched(lines, src, dst, k, i + 1, n);
    }
    assert lines[k].IsSrc();
  }

  lemma {:induction false} KeptIffQuiet(lines: seq<Line>, src: seq<nat>, dst: seq<nat>, n: nat, all: nat)
    requires Views(lines, src, dst) && n <= all <= |src| && all <= |dst|
    requires SourceKept(lines, Visit(lines, src, dst, all))
    ensures Quiet(lines, src, dst, n)
  {
    if n > 0 {
      KeptIffQuiet(lines, src, dst, n - 1, all);
      if Disturbs(lines[src[n - 1]], lines[dst[n - 1]]) {
        DisturbanceShows(lines, src, dst, n - 1, all);
      }
    }
  }

  // No pair of lines the loop visits matches a source line with a context line that lacks its last blank.
  predicate QuietChunk(c: Chunk) {
    Quiet(c.lines, SrcAt(c.lines), DstAt(c.lines), Reach(c.lines))
  }

  lemma ChunkKeptIff(c: Chunk)
    ensures SourceKept(c.lines, RewrittenChunk(c).lines) <==> QuietChunk(c)
  {
    var src, dst, n := SrcAt(c.lines), DstAt(c.lines), Reach(c.lines);
    if Quiet(c.lines, src, dst, n) {
      QuietVisit(c.lines, src, dst, n);
    } else if SourceKept(c.lines, Rewritten(c.lines)) {
      KeptIffQuiet(c.lines, src, dst, n, n);
    }
  }

  // The rewrite of a list of patches gets to chunk j of patch i.
  predicate Visited(ps: seq<Patch>, i: nat, j: nat) {
    && i < |ps| && i <= FirstAbortPatch(ps)
    && j < |ps[i].chunks| && j <= FirstAbort(ps[i].chunks)
  }

  lemma RewrittenAt(ps: seq<Patch>, i: nat, j: nat)
    requires i < |ps| && j < |ps[i].chunks|
    ensures |RewrittenPatches(ps)[i].chunks| == |ps[i].chunks|
    ensures RewrittenPatches(ps)[i].chunks[j]
      == if Visited(ps, i, j) then RewrittenChunk(ps[i].chunks[j]) else ps[i].chunks[j]
  {
  }

  predicate ChunkKept(c: Chunk, after: Chunk) {
    |after.lines| == |c.lines| && SourceKept(c.lines, after.lines)
  }

  ghost predicate PatchKept(p: Patch, after: Patch) {
    && |after.chunks| == |p.chunks|
    && forall j | 0 <= j < |p.chunks| :: ChunkKept(p.chunks[j], after.chunks[j])
  }

  // Every source line of every chunk of every patch is as it was.
  ghost predicate SourcesKept(ps: seq<Patch>, after: seq<Patch>) {
    |after| == |ps| && forall i | 0 <= i < |ps| :: PatchKept(ps[i], after[i])
  }

  ghost predicate VisitedQuiet(ps: seq<Patch>) {
    forall i: nat, j: nat | Visited(ps, i, j) :: QuietChunk(ps[i].chunks[j])
  }

  lemma ChunkOfRewriteKeptIff(ps: seq<Patch>, i: nat, j: nat)
    requires i < |ps| && j < |ps[i].chunks|
    ensures |RewrittenPatches(ps)[i].chunks| == |ps[i].chunks|
    ensures ChunkKept(ps[i].chunks[j], RewrittenPatches(ps)[i].chunks[j])
      <==> (Visited(ps, i, j) ==> QuietChunk(ps[i].chunks[j]))
  {
    RewrittenAt(ps, i, j);
    ChunkKeptIff(ps[i].chunks[j]);
  }

  /** The rewrite of a list of patches, which ends at its first failure, leaves every line of every source
      side as it was, exactly when in no chunk it visits a visited pair matches a source line with a
      context line that differs from it by one trailing blank. */
  lemma SourceKeptIff(ps: seq<Patch>)
    ensures SourcesKept(ps, RewrittenPatches(ps)) <==> VisitedQuiet(ps)
  {
    var after := RewrittenPatches(ps);
    if VisitedQuiet(ps) {
      forall i, j | 0 <= i < |ps| && 0 <= j < |ps[i].chunks|
        ensures |after[i].chunks| == |ps[i].chunks| && ChunkKept(ps[i].chunks[j], after[i].chunks[j])
      {
        ChunkOfRewriteKeptIff(ps, i, j);
      }
    } else {
      var i: nat, j: nat :| Visited(ps, i, j) && !QuietChunk(ps[i].chunks[j]);
      ChunkOfRewriteKeptIff(ps, i, j);
      assert !PatchKept(ps[i], after[i]);
    }
  }

  // Every context line reached has the same index in the list of source and of destination lines.
  predicate Aligned(lines: seq<Line>) {
    var src, dst := SrcAt(lines), DstAt(lines);
    forall i | 0 <= i < Reach(lines) && lines[dst[i]].kind == Both :: src[i] == dst[i]
  }

  lemma AlignedIsQuiet(c: Chunk)
    requires Aligned(c.lines)
    ensures QuietChunk(c)
  {
    var src, dst := SrcAt(c.lines), DstAt(c.lines);
    forall k | 0 <= k < Reach(c.lines)
      ensures !Disturbs(c.lines[src[k]], c.lines[dst[k]])
    {
      if Fires(c.lines[src[k]].text, c.lines[dst[k]].text) {
        FiresGrows(c.lines[src[k]].text, c.lines[dst[k]].text);
      }
    }
  }

  // What becomes of the destination line of a pair: it regains the blank or the tab that is all it lacks.
  predicate GivenBack(source: string, before: string, after: string) {
    after == if source == before + " " || source == before + "\t" then source else before
  }

  lemma RestoredIsGivenBack(s: string, d: string)
    requires '\n' !in s
    ensures GivenBack(s, d, Restored(s, d))
  {
    if s != "" {
      assert s == s[..|s| - 1] + [s[|s| - 1]] && s[|s| - 1] in s;
    }
    assert (d + " ")[..|d|] == d && (d + "\t")[..|d|] == d;
  }

  lemma QuietChunkRestores(c: Chunk, k: nat)
    requires QuietChunk(c) && k < Reach(c.lines) && '\n' !in c.lines[SrcAt(c.lines)[k]].text
    ensures GivenBack(c.lines[SrcAt(c.lines)[k]].text, c.lines[DstAt(c.lines)[k]].text,
                      Rewritten(c.lines)[DstAt(c.lines)[k]].text)
  {
    var src, dst := SrcAt(c.lines), DstAt(c.lines);
    QuietVisit(c.lines, src, dst, Reach(c.lines));
    RestoredIsGivenBack(c.lines[src[k]].text, c.lines[dst[k]].text);
  }

  ghost predicate VisitedAligned(ps: seq<Patch>) {
    forall i: nat, j: nat | Visited(ps, i, j) :: Aligned(ps[i].chunks[j].lines)
  }

  /** When the context lines sit at equal indices in both views of every chunk visited, every source side
      is unchanged, every destination line visited regains the blank or the tab that is all it lacks of its
      source line and else stays as it is, and so does what the rewrite does not get to. */
  lemma AlignedRewrite(ps: seq<Patch>, i: nat, j: nat, k: nat)
    requires VisitedAligned(ps)
    requires i < |ps| && j < |ps[i].chunks| && k < Reach(ps[i].chunks[j].lines)
    ensures SourcesKept(ps, RewrittenPatches(ps))
    ensures RewrittenPatches(ps)[i].chunks[j]
      == if Visited(ps, i, j) then RewrittenChunk(ps[i].chunks[j]) else ps[i].chunks[j]
    ensures var c := ps[i].chunks[j];
      var source := c.lines[SrcAt(c.lines)[k]].text;
      Visited(ps, i, j) && '\n' !in source ==>
        GivenBack(source, c.lines[DstAt(c.lines)[k]].text, RewrittenChunk(c).lines[DstAt(c.lines)[k]].text)
  {
    forall i: nat, j: nat | Visited(ps, i, j)
      ensures QuietChunk(ps[i].chunks[j])
    {
      AlignedIsQuiet(ps[i].chunks[j]);
    }
    SourceKeptIff(ps);
    RewrittenAt(ps, i, j);
    var c := ps[i].chunks[j];
    if Visited(ps, i, j) && '\n' !in c.lines[SrcAt(c.lines)[k]].text {
      QuietChunkRestores(c, k);
    }
  }

  lemma TwoLineViews(a: Line, b: Line)
    requires a.kind == Src && b.kind == Both
    ensures SrcAt([a, b]) == [0, 1] && DstAt([a, b]) == [1]
  {
    var lines := [a, b];
    assert lines[..1] == [a] && [a][..0] == [];
    assert SrcAt([a]) == [0] && DstAt([a]) == [];
  }

  /** Without the condition the source side can change: a line that loses its trailing blank and moves into
      the context, whatever it says, gets the blank back on both sides, and the rewrite stops there. */
  lemma SourceCanChange(p: Patch, c: Chunk, text: string)
    requires '\n' !in text && c.lines == [Line(Src, text + " "), Line(Both, text)] && p.chunks == [c]
    ensures !SourcesKept([p], RewrittenPatches([p])) && FirstAbortPatch([p]) == 0
  {
    var a, b := c.lines[0], c.lines[1];
    TwoLineViews(a, b);
    assert (text + " ")[..|text|] == text;
    assert Disturbs(a, b);
    assert !QuietChunk(c) by {
      assert Disturbs(c.lines[SrcAt(c.lines)[0]], c.lines[DstAt(c.lines)[0]]);
    }
    assert Visited([p], 0, 0) && !QuietChunk([p][0].chunks[0]);
    SourceKeptIff([p]);
  }
}
