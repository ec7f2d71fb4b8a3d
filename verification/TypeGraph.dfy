/** The graph of types that can be reached from an object through its attributes, its registered child
    types and its aggregates, and the list of configuration paths that a depth-first search over it records. */
module TypeGraph {

  // A type is identified by its name.
  type TypeId = string

  datatype Edge = Edge(name: string, target: TypeId)

  type Graph = map<TypeId, seq<Edge>>

  datatype Record = Record(tid: TypeId, path: string)

  function Out(g: Graph, t: TypeId): seq<Edge> {
    if t in g then g[t] else []
  }

  // The textual form of a path: every item preceded by a slash.
  function Render(path: seq<string>): string {
    if path == [] then "" else Render(path[..|path| - 1]) + "/" + path[|path| - 1]
  }

  lemma {:induction false} RenderConcat(a: seq<string>, b: seq<string>)
    ensures Render(a + b) == Render(a) + Render(b)
    decreases |b|
  {
    if b == [] {
      assert a + b == a;
    } else {
      var front, item := b[..|b| - 1], b[|b| - 1];
      RenderConcat(a, front);
      assert (a + b)[..|a + b| - 1] == a + front && (a + b)[|a + b| - 1] == item;
      assert Render(a) + Render(front) + "/" + item == Render(a) + (Render(front) + "/" + item);
    }
  }

  /** The rendering of a path is that of its first items, a slash, and its last item. */
  lemma RenderLast(a: seq<string>, item: string)
    ensures Render([]) == "" && Render([item]) == "/" + item
    ensures Render(a + [item]) == Render(a) + ("/" + item)
  {
    assert [item][..0] == [];
    RenderConcat(a, [item]);
  }

  // ------------------------------------------------------------------ what the search records

  ghost function Unvisited(g: Graph, stack: seq<TypeId>): set<TypeId> {
    g.Keys - (set t | t in stack)
  }

  lemma PushVisits(g: Graph, stack: seq<TypeId>, t: TypeId)
    requires t in g && t !in stack
    ensures |Unvisited(g, stack + [t])| < |Unvisited(g, stack)|
  {
    assert Unvisited(g, stack + [t]) == Unvisited(g, stack) - {t};
  }

  // The records of a search that enters t with the given stack of types and path, in order.
  ghost function Gathered(g: Graph, t: TypeId, stack: seq<TypeId>, path: seq<string>): seq<Record>
    decreases |Unvisited(g, stack)|, 1, 0
  {
    if t in stack then [] else [Record(t, Render(path))] + GatheredVia(g, t, stack, path, Out(g, t))
  }

  // The records of the searches made from t through a list of its edges.
  ghost function GatheredVia(g: Graph, t: TypeId, stack: seq<TypeId>, path: seq<string>, edges: seq<Edge>): seq<Record>
    requires t !in stack && (edges != [] ==> t in g)
    decreases |Unvisited(g, stack)|, 0, |edges|
  {
    if edges == [] then []
    else
      PushVisits(g, stack, t);
      var last := |edges| - 1;
      GatheredVia(g, t, stack, path, edges[..last])
      + Gathered(g, edges[last].target, stack + [t], path + [edges[last].name])
  }

  lemma GatheredViaOneMore(g: Graph, t: TypeId, stack: seq<TypeId>, path: seq<string>, edges: seq<Edge>, e: Edge)
    requires t !in stack && t in g
    ensures GatheredVia(g, t, stack, path, edges + [e])
      == GatheredVia(g, t, stack, path, edges) + Gathered(g, e.target, stack + [t], path + [e.name])
  {
    assert (edges + [e])[..|edges|] == edges;
  }

  // ------------------------------------------------------------------ walks

  // A walk is given by the position of the edge taken at each type.
  type Walk = seq<nat>

  ghost predicate IsWalk(g: Graph, t: TypeId, w: Walk)
    decreases |w|
  {
    w == [] || (w[0] < |Out(g, t)| && IsWalk(g, Out(g, t)[w[0]].target, w[1..]))
  }

  // The types a walk passes, its first and its last included.
  ghost function Visited(g: Graph, t: TypeId, w: Walk): (r: seq<TypeId>)
    requires IsWalk(g, t, w)
    ensures |r| == |w| + 1
    decreases |w|
  {
    if w == [] then [t] else [t] + Visited(g, Out(g, t)[w[0]].target, w[1..])
  }

  ghost function Names(g: Graph, t: TypeId, w: Walk): seq<string>
    requires IsWalk(g, t, w)
    decreases |w|
  {
    if w == [] then [] else [Out(g, t)[w[0]].name] + Names(g, Out(g, t)[w[0]].target, w[1..])
  }

  ghost function End(g: Graph, t: TypeId, w: Walk): TypeId
    requires IsWalk(g, t, w)
    decreases |w|
  {
    if w == [] then t else End(g, Out(g, t)[w[0]].target, w[1..])
  }

  ghost predicate Distinct(s: seq<TypeId>) {
    forall i, j | 0 <= i < j < |s| :: s[i] != s[j]
  }

  // A walk that passes no type twice and no type on the stack.
  ghost predicate IsSimple(g: Graph, t: TypeId, stack: seq<TypeId>, w: Walk) {
    && IsWalk(g, t, w)
    && Distinct(Visited(g, t, w))
    && forall x | x in Visited(g, t, w) :: x !in stack
  }

  ghost function RecordOf(g: Graph, t: TypeId, path: seq<string>, w: Walk): Record
    requires IsWalk(g, t, w)
  {
    Record(End(g, t, w), Render(path + Names(g, t, w)))
  }

  // Depth-first preorder: a walk comes before its extensions, and these come in the order of the edges.
  ghost predicate Before(v: Walk, w: Walk)
    decreases |w|
  {
    w != [] && (v == [] || v[0] < w[0] || (v[0] == w[0] && Before(v[1..], w[1..])))
  }

  ghost predicate InPreorder(ws: seq<Walk>) {
    forall i, j | 0 <= i < j < |ws| :: Before(ws[i], ws[j])
  }

  lemma {:induction false} NotBeforeItself(w: Walk)
    ensures !Before(w, w)
    decreases |w|
  {
    if w != [] { NotBeforeItself(w[1..]); }
  }

  lemma {:induction false} SimpleStep(g: Graph, t: TypeId, stack: seq<TypeId>, w: Walk)
    requires w != []
    ensures IsSimple(g, t, stack, w) <==>
      t !in stack && w[0] < |Out(g, t)| && IsSimple(g, Out(g, t)[w[0]].target, stack + [t], w[1..])
  {
    if w[0] < |Out(g, t)| && IsWalk(g, Out(g, t)[w[0]].target, w[1..]) {
      var all, rest := Visited(g, t, w), Visited(g, Out(g, t)[w[0]].target, w[1..]);
      assert all[0] == t && all[1..] == rest;
      assert forall i | 0 <= i < |rest| :: rest[i] == all[i + 1];
      assert forall x :: x in all <==> x == t || x in rest;
      assert Distinct(all) <==> t !in rest && Distinct(rest);
    }
  }

  // ------------------------------------------------------------------ the walks in the order of the search

  ghost function Walks(g: Graph, t: TypeId, stack: seq<TypeId>): seq<Walk>
    decreases |Unvisited(g, stack)|, 1, 0
  {
    if t in stack then [] else [[]] + WalksVia(g, t, stack, |Out(g, t)|)
  }

  ghost function WalksVia(g: Graph, t: TypeId, stack: seq<TypeId>, k: nat): seq<Walk>
    requires t !in stack && k <= |Out(g, t)|
    decreases |Unvisited(g, stack)|, 0, k
  {
    if k == 0 then []
    else
      PushVisits(g, stack, t);
      WalksVia(g, t, stack, k - 1) + Prefixed(k - 1, Walks(g, Out(g, t)[k - 1].target, stack + [t]))
  }

  ghost function Prefixed(e: nat, ws: seq<Walk>): (r: seq<Walk>)
    ensures |r| == |ws| && forall i | 0 <= i < |ws| :: r[i] == [e] + ws[i]
  {
    seq(|ws|, i requires 0 <= i < |ws| => [e] + ws[i])
  }

  lemma PrefixedHas(e: nat, ws: seq<Walk>, w: Walk)
    ensures w in Prefixed(e, ws) <==> w != [] && w[0] == e && w[1..] in ws
  {
    var r := Prefixed(e, ws);
    if w in r {
      var i :| 0 <= i < |r| && r[i] == w;
      assert w[1..] == ws[i];
    }
    if w != [] && w[0] == e && w[1..] in ws {
      var i :| 0 <= i < |ws| && ws[i] == w[1..];
      assert r[i] == w;
    }
  }

  lemma {:induction false} WalksAreSimple(g: Graph, t: TypeId, stack: seq<TypeId>, w: Walk)
    ensures w in Walks(g, t, stack) <==> IsSimple(g, t, stack, w)
    decreases |Unvisited(g, stack)|, 1, 0
  {
    if t in stack {
      if IsWalk(g, t, w) {
        assert Visited(g, t, w)[0] == t;
      }
    } else {
      WalksViaAreSimple(g, t, stack, |Out(g, t)|, w);
      if w == [] {
        assert Walks(g, t, stack)[0] == [];
        assert Visited(g, t, w) == [t];
      }
    }
  }

  lemma {:induction false} WalksViaAreSimple(g: Graph, t: TypeId, stack: seq<TypeId>, k: nat, w: Walk)
    requires t !in stack && k <= |Out(g, t)|
    ensures w in WalksVia(g, t, stack, k) <==> w != [] && w[0] < k && IsSimple(g, t, stack, w)
    decreases |Unvisited(g, stack)|, 0, k
  {
    if k > 0 {
      WalksViaAreSimple(g, t, stack, k - 1, w);
      PushVisits(g, stack, t);
      PrefixedHas(k - 1, Walks(g, Out(g, t)[k - 1].target, stack + [t]), w);
      if w != [] && w[0] == k - 1 {
        SimpleStep(g, t, stack, w);
        WalksAreSimple(g, Out(g, t)[k - 1].target, stack + [t], w[1..]);
      }
    }
  }

  lemma {:induction false} WalksInPreorder(g: Graph, t: TypeId, stack: seq<TypeId>)
    ensures InPreorder(Walks(g, t, stack))
    decreases |Unvisited(g, stack)|, 1, 0
  {
    if t !in stack {
      WalksViaInPreorder(g, t, stack, |Out(g, t)|);
    }
  }

  lemma {:induction false} WalksViaInPreorder(g: Graph, t: TypeId, stack: seq<TypeId>, k: nat)
    requires t !in stack && k <= |Out(g, t)|
    ensures InPreorder(WalksVia(g, t, stack, k))
    ensures forall i | 0 <= i < |WalksVia(g, t, stack, k)| ::
      WalksVia(g, t, stack, k)[i] != [] && WalksVia(g, t, stack, k)[i][0] < k
    decreases |Unvisited(g, stack)|, 0, k
  {
    if k > 0 {
      WalksViaInPreorder(g, t, stack, k - 1);
      PushVisits(g, stack, t);
      var below := Walks(g, Out(g, t)[k - 1].target, stack + [t]);
      WalksInPreorder(g, Out(g, t)[k - 1].target, stack + [t]);
      var earlier, mine := WalksVia(g, t, stack, k - 1), Prefixed(k - 1, below);
      forall i, j | 0 <= i < j < |earlier + mine|
        ensures Before((earlier + mine)[i], (earlier + mine)[j])
      {
        if i >= |earlier| {
          assert mine[i - |earlier|][1..] == below[i - |earlier|];
          assert mine[j - |earlier|][1..] == below[j - |earlier|];
        }
      }
    }
  }

  // One record per walk, position by position.
  ghost predicate RecordsOf(g: Graph, t: TypeId, path: seq<string>, ws: seq<Walk>, records: seq<Record>) {
    && |records| == |ws|
    && forall i | 0 <= i < |ws| :: IsWalk(g, t, ws[i]) && records[i] == RecordOf(g, t, path, ws[i])
  }

  lemma RecordOfLonger(g: Graph, t: TypeId, path: seq<string>, k: nat, v: Walk)
    requires k < |Out(g, t)| && IsWalk(g, Out(g, t)[k].target, v)
    ensures IsWalk(g, t, [k] + v)
    ensures RecordOf(g, t, path, [k] + v) == RecordOf(g, Out(g, t)[k].target, path + [Out(g, t)[k].name], v)
  {
    var w, edge := [k] + v, Out(g, t)[k];
    assert w[1..] == v;
    assert path + Names(g, t, w) == path + [edge.name] + Names(g, edge.target, v);
  }

  lemma {:induction false} GatheredFollowsWalks(g: Graph, t: TypeId, stack: seq<TypeId>, path: seq<string>)
    ensures RecordsOf(g, t, path, Walks(g, t, stack), Gathered(g, t, stack, path))
    decreases |Unvisited(g, stack)|, 1, 0
  {
    if t !in stack {
      GatheredViaFollowsWalks(g, t, stack, path, |Out(g, t)|);
      assert Out(g, t)[..|Out(g, t)|] == Out(g, t);
      assert path + Names(g, t, []) == path;
    }
  }

  lemma {:induction false} GatheredViaFollowsWalks(g: Graph, t: TypeId, stack: seq<TypeId>, path: seq<string>, k: nat)
    requires t !in stack && k <= |Out(g, t)|
    ensures RecordsOf(g, t, path, WalksVia(g, t, stack, k), GatheredVia(g, t, stack, path, Out(g, t)[..k]))
    decreases |Unvisited(g, stack)|, 0, k
  {
    if k > 0 {
      var edge := Out(g, t)[k - 1];
      GatheredViaFollowsWalks(g, t, stack, path, k - 1);
      PushVisits(g, stack, t);
      GatheredFollowsWalks(g, edge.target, stack + [t], path + [edge.name]);
      assert Out(g, t)[..k][..k - 1] == Out(g, t)[..k - 1];
      var below := Walks(g, edge.target, stack + [t]);
      forall i | 0 <= i < |below|
        ensures IsWalk(g, t, [k - 1] + below[i])
        ensures RecordOf(g, t, path, [k - 1] + below[i]) == RecordOf(g, edge.target, path + [edge.name], below[i])
      {
        RecordOfLonger(g, t, path, k - 1, below[i]);
      }
    }
  }

  /** The search records the simple walks that avoid the stack: each exactly once, none else, in
      depth-first preorder, with the type reached and the path taken. */
  lemma GatherEnumeratesSimpleWalks(g: Graph, t: TypeId, stack: seq<TypeId>, path: seq<string>)
    ensures RecordsOf(g, t, path, Walks(g, t, stack), Gathered(g, t, stack, path))
    ensures forall w :: w in Walks(g, t, stack) <==> IsSimple(g, t, stack, w)
    ensures InPreorder(Walks(g, t, stack))
    ensures forall i, j | 0 <= i < j < |Walks(g, t, stack)| :: Walks(g, t, stack)[i] != Walks(g, t, stack)[j]
  {
    GatheredFollowsWalks(g, t, stack, path);
    forall w
      ensures w in Walks(g, t, stack) <==> IsSimple(g, t, stack, w)
    {
      WalksAreSimple(g, t, stack, w);
    }
    WalksInPreorder(g, t, stack);
    forall i, j | 0 <= i < j < |Walks(g, t, stack)|
      ensures Walks(g, t, stack)[i] != Walks(g, t, stack)[j]
    {
      NotBeforeItself(Walks(g, t, stack)[i]);
    }
  }

  // ------------------------------------------------------------------ reachability

  ghost predicate ReachableFrom(g: Graph, root: TypeId, t: TypeId) {
    exists w :: IsWalk(g, root, w) && End(g, root, w) == t
  }

  lemma {:induction false} SplitWalk(g: Graph, t: TypeId, w: Walk, i: nat)
    requires IsWalk(g, t, w) && i <= |w|
    ensures IsWalk(g, t, w[..i]) && End(g, t, w[..i]) == Visited(g, t, w)[i]
    ensures IsWalk(g, Visited(g, t, w)[i], w[i..])
    ensures End(g, Visited(g, t, w)[i], w[i..]) == End(g, t, w)
    decreases |w|
  {
    if i > 0 {
      SplitWalk(g, Out(g, t)[w[0]].target, w[1..], i - 1);
      assert w[..i][1..] == w[1..][..i - 1];
      assert w[i..] == w[1..][i - 1..];
    } else {
      assert w[0..] == w;
    }
  }

  lemma {:induction false} JoinWalks(g: Graph, t: TypeId, u: Walk, v: Walk)
    requires IsWalk(g, t, u) && IsWalk(g, End(g, t, u), v)
    ensures IsWalk(g, t, u + v) && End(g, t, u + v) == End(g, End(g, t, u), v)
    decreases |u|
  {
    if u == [] {
      assert u + v == v;
    } else {
      JoinWalks(g, Out(g, t)[u[0]].target, u[1..], v);
      assert (u + v)[1..] == u[1..] + v;
    }
  }

  // Cutting out a cycle leaves a walk to the same type; cutting out every cycle leaves a simple one.
  lemma {:induction false} WalkToSimpleWalk(g: Graph, t: TypeId, w: Walk) returns (v: Walk)
    requires IsWalk(g, t, w)
    ensures IsSimple(g, t, [], v) && End(g, t, v) == End(g, t, w)
    decreases |w|
  {
    var types := Visited(g, t, w);
    if Distinct(types) {
      v := w;
    } else {
      var i, j :| 0 <= i < j < |types| && types[i] == types[j];
      SplitWalk(g, t, w, i);
      SplitWalk(g, t, w, j);
      JoinWalks(g, t, w[..i], w[j..]);
      v := WalkToSimpleWalk(g, t, w[..i] + w[j..]);
    }
  }

  // The output after searching from each root in turn, with an empty stack and an empty path.
  ghost function GatheredAll(g: Graph, roots: seq<TypeId>): seq<Record> {
    if roots == [] then []
    else GatheredAll(g, roots[..|roots| - 1]) + Gathered(g, roots[|roots| - 1], [], [])
  }

  lemma OneRoot(g: Graph, root: TypeId)
    ensures GatheredAll(g, [root]) == Gathered(g, root, [], [])
  {
    assert [root][..0] == [];
    assert GatheredAll(g, [root][..0]) == [];
  }

  lemma OneMoreRoot(g: Graph, roots: seq<TypeId>, root: TypeId)
    ensures GatheredAll(g, roots + [root]) == GatheredAll(g, roots) + Gathered(g, root, [], [])
  {
    assert (roots + [root])[..|roots|] == roots;
  }

  lemma Reassociate(a: seq<Record>, b: seq<Record>, c: seq<Record>)
    ensures a + b + c == a + (b + c)
  {
  }

  /** The roots are searched one after the other, each from the beginning. */
  lemma {:induction false} RootsInTurn(g: Graph, a: seq<TypeId>, b: seq<TypeId>)
    ensures GatheredAll(g, a + b) == GatheredAll(g, a) + GatheredAll(g, b)
    decreases |b|
  {
    if b == [] {
      assert a + b == a;
    } else {
      var front, root := b[..|b| - 1], b[|b| - 1];
      assert b == front + [root] && a + b == a + front + [root];
      RootsInTurn(g, a, front);
      OneMoreRoot(g, a + front, root);
      OneMoreRoot(g, front, root);
      Reassociate(GatheredAll(g, a), GatheredAll(g, front), Gathered(g, root, [], []));
    }
  }

  ghost predicate Recorded(records: seq<Record>, t: TypeId) {
    exists i :: 0 <= i < |records| && records[i].tid == t
  }

  lemma RecordedIffReachable(g: Graph, root: TypeId, t: TypeId)
    ensures Recorded(Gathered(g, root, [], []), t) <==> ReachableFrom(g, root, t)
  {
    var records, ws := Gathered(g, root, [], []), Walks(g, root, []);
    GatheredFollowsWalks(g, root, [], []);
    if Recorded(records, t) {
      var i :| 0 <= i < |records| && records[i].tid == t;
      assert IsWalk(g, root, ws[i]) && End(g, root, ws[i]) == t;
    }
    if ReachableFrom(g, root, t) {
      var w :| IsWalk(g, root, w) && End(g, root, w) == t;
      var v := WalkToSimpleWalk(g, root, w);
      WalksAreSimple(g, root, [], v);
      var i :| 0 <= i < |ws| && ws[i] == v;
      assert records[i].tid == t;
    }
  }

  /** After a search from every root, a type has a recorded path exactly when some walk, however it
      winds, leads to it from some root. */
  lemma {:induction false} RecordedIffReachableFromRoots(g: Graph, roots: seq<TypeId>, t: TypeId)
    ensures Recorded(GatheredAll(g, roots), t) <==> exists root :: root in roots && ReachableFrom(g, root, t)
  {
    if roots != [] {
      var front, root := roots[..|roots| - 1], roots[|roots| - 1];
      RecordedIffReachableFromRoots(g, front, t);
      RecordedIffReachable(g, root, t);
      var a, b := GatheredAll(g, front), Gathered(g, root, [], []);
      assert roots == front + [root];
      assert forall i | 0 <= i < |a| :: (a + b)[i] == a[i];
      assert forall i | 0 <= i < |b| :: (a + b)[|a| + i] == b[i];
      assert Recorded(a + b, t) <==> Recorded(a, t) || Recorded(b, t);
    }
  }
}
