/** The objects of a patch, which share their lines between the source and the destination view, and the
    programs that build, rewrite and write them. */
module PatchObjects {
  import opened Wrappers
  import opened PatchText
  import opened Whitespace

  class PatchChunkLine {
    // None until one of the setters has been called.
    var kind: Option<Kind>
    var text: string

    ghost predicate Is(v: Line)
      reads this
    {
      kind == Some(v.kind) && text == v.text
    }

    constructor ()
      ensures kind == None && text == ""
    {
      kind, text := None, "";
    }

    method Set(kind: Kind, text: string)
      modifies this
      ensures Is(Line(kind, text))
    {
      this.kind, this.text := Some(kind), text;
    }

    method AppendToLine(s: string)
      modifies this
      ensures kind == old(kind) && text == old(text) + s
    {
      text := text + s;
    }

    predicate IsSrc()
      reads this
    {
      kind == Some(Src) || kind == Some(Both)
    }

    predicate IsDst()
      reads this
    {
      kind == Some(Dst) || kind == Some(Both)
    }
  }

  ghost predicate LinesAre(lines: seq<PatchChunkLine>, vs: seq<Line>)
    reads lines
  {
    |lines| == |vs| && forall k | 0 <= k < |lines| :: lines[k].Is(vs[k])
  }

  ghost predicate DistinctLines(lines: seq<PatchChunkLine>) {
    forall j, k | 0 <= j < k < |lines| :: lines[j] != lines[k]
  }

  class PatchChunk {
    const srcPos: nat
    const dstPos: nat
    var lines: seq<PatchChunkLine>

    ghost predicate Is(v: Chunk)
      reads this, lines
    {
      srcPos == v.srcPos && dstPos == v.dstPos && LinesAre(lines, v.lines)
    }

    constructor (srcPos: nat, dstPos: nat)
      ensures Is(Chunk(srcPos, dstPos, [])) && lines == []
    {
      this.srcPos, this.dstPos, lines := srcPos, dstPos, [];
    }

    method AddLine(line: PatchChunkLine)
      modifies this
      ensures lines == old(lines) + [line]
    {
      lines := lines + [line];
    }

    // The lines of the source side: the same objects, in order.
    method SrcLines(ghost v: Chunk) returns (src: seq<PatchChunkLine>)
      requires Is(v)
      ensures |src| == |SrcAt(v.lines)| && forall i | 0 <= i < |src| :: src[i] == lines[SrcAt(v.lines)[i]]
    {
      src := [];
      for k := 0 to |lines|
        invariant |src| == |SrcAt(v.lines[..k])| && forall i | 0 <= i < |src| :: src[i] == lines[SrcAt(v.lines[..k])[i]]
      {
        assert v.lines[..k + 1][..k] == v.lines[..k];
        assert lines[k].Is(v.lines[k]);
        if lines[k].IsSrc() {
          src := src + [lines[k]];
        }
      }
      assert v.lines[..|lines|] == v.lines;
    }

    method DstLines(ghost v: Chunk) returns (dst: seq<PatchChunkLine>)
      requires Is(v)
      ensures |dst| == |DstAt(v.lines)| && forall i | 0 <= i < |dst| :: dst[i] == lines[DstAt(v.lines)[i]]
    {
      dst := [];
      for k := 0 to |lines|
        invariant |dst| == |DstAt(v.lines[..k])| && forall i | 0 <= i < |dst| :: dst[i] == lines[DstAt(v.lines[..k])[i]]
      {
        assert v.lines[..k + 1][..k] == v.lines[..k];
        assert lines[k].Is(v.lines[k]);
        if lines[k].IsDst() {
          dst := dst + [lines[k]];
        }
      }
      assert v.lines[..|lines|] == v.lines;
    }

    // Compare one pair of lines and give the destination line its trailing blank back.
    method VisitPair(s: PatchChunkLine, d: PatchChunkLine, ghost v: seq<Line>, ghost si: nat, ghost di: nat)
      requires LinesAre(lines, v) && DistinctLines(lines)
      requires si < |lines| && di < |lines| && s == lines[si] && d == lines[di]
      modifies d
      ensures LinesAre(lines, Step(v, si, di))
    {
      assert s.Is(v[si]) && d.Is(v[di]);
      ghost var before := lines;
      var m := TrailingBlank(s.text);
      if m.Some? && m.value.0 == d.text {
        d.AppendToLine([m.value.1]);
      }
      ghost var w := Step(v, si, di);
      forall k | 0 <= k < |lines|
        ensures lines[k].Is(w[k])
      {
        assert k != di ==> lines[k] != d && old(lines[k].Is(v[k]));
      }
    }

    // The loop over the pairs of lines; true stands for the failed access to a missing destination line.
    method VisitPairs(src: seq<PatchChunkLine>, dst: seq<PatchChunkLine>,
                      ghost v: seq<Line>, ghost sa: seq<nat>, ghost da: seq<nat>) returns (aborted: bool)
      requires LinesAre(lines, v) && DistinctLines(lines) && Views(v, sa, da)
      requires |src| == |sa| && forall i | 0 <= i < |src| :: src[i] == lines[sa[i]]
      requires |dst| == |da| && forall i | 0 <= i < |dst| :: dst[i] == lines[da[i]]
      modifies lines
      ensures LinesAre(lines, Visit(v, sa, da, if |sa| <= |da| then |sa| else |da|)) && aborted == (|da| < |sa|)
    {
      var i := 0;
      ghost var now := v;
      while i < |src|
        invariant i <= |sa| && i <= |da| && now == Visit(v, sa, da, i)
        invariant LinesAre(lines, now)
      {
        if i >= |dst| {
          return true;
        }
        VisitPair(src[i], dst[i], now, sa[i], da[i]);
        now := Step(now, sa[i], da[i]);
        i := i + 1;
      }
      return false;
    }

    /** Rewriting one chunk.  Line objects change in place, so a context line changes on both sides at once. */
    method TakeBack(ghost v: Chunk) returns (aborted: bool)
      requires Is(v) && DistinctLines(lines)
      modifies lines
      ensures Is(RewrittenChunk(v)) && aborted == Aborts(v.lines)
    {
      var src := SrcLines(v);
      var dst := DstLines(v);
      aborted := VisitPairs(src, dst, v.lines, SrcAt(v.lines), DstAt(v.lines));
    }
  }
}
