/** Whole patch files as objects: the parser that builds them line by line and the rewrite over all of
    them. */
module PatchPrograms {
  import opened PatchText
  import opened Whitespace
  import opened PatchObjects

  ghost function LineSet(chunks: seq<PatchChunk>): set<PatchChunkLine>
    reads chunks
  {
    set c, l | c in chunks && l in c.lines :: l
  }

  ghost predicate ChunksAre(chunks: seq<PatchChunk>, vs: seq<Chunk>)
    reads chunks, LineSet(chunks)
  {
    |chunks| == |vs| && forall j | 0 <= j < |chunks| ::
      assert forall l | l in chunks[j].lines :: l in LineSet(chunks);
      chunks[j].Is(vs[j])
  }

  // No chunk or line object occurs twice.
  ghost predicate SeparateChunks(chunks: seq<PatchChunk>)
    reads chunks
  {
    && (forall j | 0 <= j < |chunks| :: DistinctLines(chunks[j].lines))
    && (forall i, j | 0 <= i < j < |chunks| :: chunks[i] != chunks[j])
    && (forall i, j, l | 0 <= i < j < |chunks| && l in chunks[i].lines :: l !in chunks[j].lines)
  }

  // Rewriting one chunk leaves the other chunks alone, since no line object is shared between them.
  method TakeBackOne(chunks: seq<PatchChunk>, j: nat, ghost now: seq<Chunk>) returns (aborted: bool)
    requires ChunksAre(chunks, now) && SeparateChunks(chunks) && j < |chunks|
    modifies chunks[j].lines
    ensures forall i | 0 <= i < |chunks| :: chunks[i].lines == old(chunks[i].lines)
    ensures ChunksAre(chunks, now[j := RewrittenChunk(now[j])]) && aborted == Aborts(now[j].lines)
  {
    assert chunks[j].Is(now[j]);
    aborted := chunks[j].TakeBack(now[j]);
    ghost var next := now[j := RewrittenChunk(now[j])];
    forall i | 0 <= i < |chunks|
      ensures chunks[i].Is(next[i])
    {
      if i != j {
        assert old(chunks[i].Is(now[i]));
        forall k | 0 <= k < |chunks[i].lines|
          ensures chunks[i].lines[k].Is(now[i].lines[k])
        {
          assert chunks[i].lines[k] in chunks[i].lines;
          assert chunks[i].lines[k] !in chunks[j].lines;
          assert old(chunks[i].lines[k].Is(now[i].lines[k]));
        }
      }
    }
  }

  // The first j chunks are rewritten, and none of them failed.
  ghost predicate ChunksUpTo(vs: seq<Chunk>, now: seq<Chunk>, j: nat) {
    && |now| == |vs| && j <= |vs|
    && (forall i | 0 <= i < j :: now[i] == RewrittenChunk(vs[i]) && !Aborts(vs[i].lines))
    && (forall i | j <= i < |vs| :: now[i] == vs[i])
  }

  lemma ChunkOneMore(vs: seq<Chunk>, now: seq<Chunk>, j: nat)
    requires ChunksUpTo(vs, now, j) && j < |vs|
    ensures var next := now[j := RewrittenChunk(now[j])];
      now[j] == vs[j]
      && if Aborts(vs[j].lines) then next == RewrittenChunks(vs) && FirstAbort(vs) == j else ChunksUpTo(vs, next, j + 1)
  {
    if Aborts(vs[j].lines) {
      var next, all := now[j := RewrittenChunk(now[j])], RewrittenChunks(vs);
      assert FirstAbort(vs) == j;
      forall i | 0 <= i < |vs|
        ensures next[i] == all[i]
      {
        if i < j {
          assert now[i] == RewrittenChunk(vs[i]);
        }
      }
    }
  }

  // The chunks of one patch in turn, up to the first failure.
  method TakeBackChunks(chunks: seq<PatchChunk>, ghost vs: seq<Chunk>) returns (aborted: bool)
    requires ChunksAre(chunks, vs) && SeparateChunks(chunks)
    modifies LineSet(chunks)
    ensures forall i | 0 <= i < |chunks| :: chunks[i].lines == old(chunks[i].lines)
    ensures ChunksAre(chunks, RewrittenChunks(vs)) && aborted == (FirstAbort(vs) < |vs|)
  {
    ghost var now := vs;
    for j := 0 to |chunks|
      invariant forall i | 0 <= i < |chunks| :: chunks[i].lines == old(chunks[i].lines)
      invariant ChunksAre(chunks, now) && ChunksUpTo(vs, now, j)
    {
      assert forall l | l in chunks[j].lines :: l in old(LineSet(chunks));
      ChunkOneMore(vs, now, j);
      aborted := TakeBackOne(chunks, j, now);
      now := now[j := RewrittenChunk(now[j])];
      if aborted {
        return;
      }
    }
    assert now == RewrittenChunks(vs);
    return false;
  }

  class PatchFile {
    var src: string
    var dst: string
    var chunks: seq<PatchChunk>
    ghost var Repr: set<object>

    ghost predicate Represents(v: Patch)
      reads this, Repr
    {
      && this in Repr
      && (forall c | c in chunks :: c in Repr)
      && (forall c, l | c in chunks && l in c.lines :: l in Repr)
      && src == v.src && dst == v.dst && ChunksAre(chunks, v.chunks)
      && SeparateChunks(chunks)
    }

    constructor ()
      ensures Represents(Patch("", "", [])) && Repr == {this} && chunks == []
    {
      src, dst, chunks, Repr := "", "", [], {this};
    }

    method SetSrc(name: string, ghost v: Patch)
      requires Represents(v)
      modifies this`src
      ensures Represents(v.(src := name))
    {
      src := name;
    }

    method SetDst(name: string, ghost v: Patch)
      requires Represents(v)
      modifies this`dst
      ensures Represents(v.(dst := name))
    {
      dst := name;
    }

    // A new, empty chunk at the end.
    method AddChunk(c: PatchChunk, ghost v: Patch)
      requires Represents(v) && c !in Repr && c.lines == []
      modifies this`chunks, this`Repr
      ensures chunks == old(chunks) + [c] && Repr == old(Repr) + {c}
      ensures Represents(v.(chunks := v.chunks + [Chunk(c.srcPos, c.dstPos, [])]))
    {
      chunks := chunks + [c];
      Repr := Repr + {c};
      ghost var vs := v.chunks + [Chunk(c.srcPos, c.dstPos, [])];
      forall j | 0 <= j < |chunks|
        ensures chunks[j].Is(vs[j])
      {
        if j < |v.chunks| { assert old(chunks[j].Is(v.chunks[j])); }
      }
    }

    // A new line at the end of the last chunk of a patch.
    static method AddContent(ghost patch: PatchFile, chunk: PatchChunk, l: PatchChunkLine,
                             ghost line: Line, ghost v: Patch)
      requires patch.Represents(v) && patch.chunks != [] && chunk == patch.chunks[|patch.chunks| - 1]
      requires l.Is(line) && l !in patch.Repr
      modifies patch.Repr
      ensures patch.chunks == old(patch.chunks) && patch.Repr == old(patch.Repr) + {l}
      ensures patch.Represents(AddLine(v, line))
    {
      ghost var cs := patch.chunks;
      chunk.AddLine(l);
      patch.Repr := patch.Repr + {l};
      ghost var vs := AddLine(v, line).chunks;
      forall j | 0 <= j < |cs|
        ensures cs[j].Is(vs[j]) && DistinctLines(cs[j].lines)
      {
        assert old(cs[j].Is(v.chunks[j]));
      }
    }

    // The rewrite of this patch.
    method TakeBack(ghost v: Patch) returns (aborted: bool)
      requires Represents(v)
      modifies Repr
      ensures Repr == old(Repr)
      ensures Represents(RewrittenPatch(v)) && aborted == AbortsPatch(v)
    {
      aborted := TakeBackChunks(chunks, v.chunks);
    }
  }

  // ------------------------------------------------------------------ lists of patches

  // The objects stand for the values, and no object belongs to two patches.
  ghost predicate Holds(ps: seq<PatchFile>, vs: seq<Patch>)
    reads ps, set p, o | p in ps && o in p.Repr :: o
  {
    && |ps| == |vs|
    && (forall i | 0 <= i < |ps| :: ps[i].Represents(vs[i]))
    && (forall i, j | 0 <= i < j < |ps| :: ps[i].Repr !! ps[j].Repr)
  }

  // The first i patches are rewritten, and none of them failed.
  ghost predicate RewrittenUpTo(vs: seq<Patch>, now: seq<Patch>, i: nat) {
    && |now| == |vs| && i <= |vs|
    && (forall k | 0 <= k < i :: now[k] == RewrittenPatch(vs[k]) && !AbortsPatch(vs[k]))
    && (forall k | i <= k < |vs| :: now[k] == vs[k])
  }

  lemma RewriteOneMore(vs: seq<Patch>, now: seq<Patch>, i: nat)
    requires RewrittenUpTo(vs, now, i) && i < |vs|
    ensures var next := now[i := RewrittenPatch(now[i])];
      now[i] == vs[i] && if AbortsPatch(vs[i]) then next == RewrittenPatches(vs) else RewrittenUpTo(vs, next, i + 1)
  {
  }

  ghost function AllObjects(ps: seq<PatchFile>): set<object>
    reads ps
  {
    set p, o | p in ps && o in p.Repr :: o
  }

  // Rewriting one patch leaves the other patches alone.
  method TakeBackPatch(ps: seq<PatchFile>, i: nat, ghost now: seq<Patch>) returns (aborted: bool)
    requires Holds(ps, now) && i < |ps|
    modifies ps[i].Repr
    ensures forall j | 0 <= j < |ps| :: ps[j].Repr == old(ps[j].Repr)
    ensures Holds(ps, now[i := RewrittenPatch(now[i])]) && aborted == AbortsPatch(now[i])
  {
    ghost var next := now[i := RewrittenPatch(now[i])];
    aborted := ps[i].TakeBack(now[i]);
    assert ps[i].Represents(next[i]);
    forall j | 0 <= j < |ps| && j != i
      ensures ps[j].Repr == old(ps[j].Repr) && ps[j].Represents(now[j])
    {
      assert old(ps[j].Represents(now[j])) && old(ps[j].Repr) !! old(ps[i].Repr);
    }
  }

  /** The rewrite over a whole list of patches: line objects change in place, and the texts become those of
      the specification. */
  method TakeBackPatches(ps: seq<PatchFile>, ghost vs: seq<Patch>)
    requires Holds(ps, vs)
    modifies AllObjects(ps)
    ensures Holds(ps, RewrittenPatches(vs))
  {
    ghost var now := vs;
    for i := 0 to |ps|
      invariant forall j | 0 <= j < |ps| :: ps[j].Repr == old(ps[j].Repr)
      invariant Holds(ps, now) && RewrittenUpTo(vs, now, i)
    {
      assert ps[i].Repr <= old(AllObjects(ps));
      RewriteOneMore(vs, now, i);
      var aborted := TakeBackPatch(ps, i, now);
      now := now[i := RewrittenPatch(now[i])];
      if aborted {
        return;
      }
    }
    assert now == RewrittenPatches(vs);
  }

  // ------------------------------------------------------------------ growing a list of patches

  // A new line for the last chunk of one patch.
  method GrowLines(ps: seq<PatchFile>, ghost i: nat, chunk: PatchChunk, l: PatchChunkLine,
                   ghost line: Line, ghost vs: seq<Patch>)
    requires Holds(ps, vs) && i < |ps| && ps[i].chunks != [] && chunk == ps[i].chunks[|ps[i].chunks| - 1]
    requires l.Is(line) && forall p | p in ps :: l !in p.Repr
    requires vs[i].chunks != []
    modifies ps[i].Repr
    ensures Holds(ps, WithLine(vs, i, line)) && ps[i].chunks == old(ps[i].chunks)
    ensures forall p | p in ps :: p.Repr <= old(p.Repr) + {l}
  {
    PatchFile.AddContent(ps[i], chunk, l, line, vs[i]);
    forall j | 0 <= j < |ps| && j != i
      ensures ps[j].Repr == old(ps[j].Repr) && ps[j].Represents(vs[j])
    {
      assert old(ps[j].Represents(vs[j])) && old(ps[j].Repr) !! old(ps[i].Repr);
    }
  }

  // A new destination name for the last patch.
  method NameLast(ps: seq<PatchFile>, patch: PatchFile, name: string, ghost vs: seq<Patch>)
    requires Holds(ps, vs) && ps != [] && patch == ps[|ps| - 1]
    modifies patch`dst
    ensures Holds(ps, WithDst(vs, name))
  {
    ghost var last := |ps| - 1;
    patch.SetDst(name, vs[last]);
    forall j | 0 <= j < last
      ensures ps[j].Represents(vs[j])
    {
      assert old(ps[j].Represents(vs[j])) && old(ps[j].Repr) !! patch.Repr;
    }
  }

  // A new chunk for the last patch.
  method GrowChunks(ps: seq<PatchFile>, patch: PatchFile, c: PatchChunk, ghost vs: seq<Patch>)
    requires Holds(ps, vs) && ps != [] && patch == ps[|ps| - 1]
    requires c.lines == [] && forall p | p in ps :: c !in p.Repr
    modifies patch`chunks, patch`Repr
    ensures Holds(ps, WithChunk(vs, c.srcPos, c.dstPos))
    ensures patch.chunks == old(patch.chunks) + [c]
    ensures forall p | p in ps :: p.Repr <= old(p.Repr) + {c}
  {
    ghost var last, grown := |ps| - 1, WithChunk(vs, c.srcPos, c.dstPos);
    patch.AddChunk(c, vs[last]);
    assert patch.Represents(grown[last]);
    forall j | 0 <= j < last
      ensures ps[j].Repr == old(ps[j].Repr) && ps[j].Represents(vs[j])
    {
      assert old(ps[j].Represents(vs[j])) && old(ps[j].Repr) !! old(patch.Repr);
    }
  }
}
