/** The gatherer of configuration paths: a recursive search that keeps its path and its types on two
    explicit stacks and appends to one output. */
module StaticInformation {
  import opened TypeGraph

  datatype Attribute =
    | Pointer(name: string, pointee: TypeId)
    | PtrContainer(name: string, item: TypeId)
    | Plain(name: string)

  // What the type system knows; isChildOf holds the pairs (child, ancestor).
  datatype Registry = Registry(
    attributes: map<TypeId, seq<Attribute>>,
    registered: seq<TypeId>,
    isChildOf: set<(TypeId, TypeId)>,
    objectType: TypeId)

  type Aggregates = seq<(TypeId, TypeId)>

  function Attributes(r: Registry, t: TypeId): seq<Attribute> {
    if t in r.attributes then r.attributes[t] else []
  }

  // ------------------------------------------------------------------ the edges of a type, in search order

  // A pointer to a bare Object is not followed.
  function AttributeEdge(r: Registry, a: Attribute): seq<Edge> {
    match a
    case Pointer(name, pointee) => if pointee == r.objectType then [] else [Edge(name, pointee)]
    case PtrContainer(name, item) => [Edge(name + "/[i]", item)]
    case Plain(_) => []
  }

  function AttributeEdges(r: Registry, attributes: seq<Attribute>): seq<Edge> {
    if attributes == [] then []
    else
      var last := |attributes| - 1;
      AttributeEdges(r, attributes[..last]) + AttributeEdge(r, attributes[last])
  }

  function ChildEdges(r: Registry, t: TypeId, types: seq<TypeId>): seq<Edge> {
    if types == [] then []
    else
      var last := |types| - 1;
      ChildEdges(r, t, types[..last])
      + if (types[last], t) in r.isChildOf then [Edge("$" + types[last], types[last])] else []
  }

  function AggregateEdge(t: TypeId, pair: (TypeId, TypeId)): seq<Edge> {
    if pair.1 == t then [Edge("$" + pair.0, pair.0)]
    else if pair.0 == t then [Edge("$" + pair.1, pair.1)]
    else []
  }

  function AggregateEdges(t: TypeId, aggregates: Aggregates): seq<Edge> {
    if aggregates == [] then []
    else
      var last := |aggregates| - 1;
      AggregateEdges(t, aggregates[..last]) + AggregateEdge(t, aggregates[last])
  }

  lemma OneMorePair(t: TypeId, aggregates: Aggregates, k: nat)
    requires k < |aggregates|
    ensures AggregateEdges(t, aggregates[..k + 1])
      == AggregateEdges(t, aggregates[..k]) + AggregateEdge(t, aggregates[k])
  {
    assert aggregates[..k + 1][..k] == aggregates[..k];
  }

  function Edges(r: Registry, aggregates: Aggregates, t: TypeId): seq<Edge> {
    AttributeEdges(r, Attributes(r, t)) + ChildEdges(r, t, r.registered) + AggregateEdges(t, aggregates)
  }

  // Every type that can have an edge.
  ghost function Sources(r: Registry, aggregates: Aggregates): set<TypeId> {
    r.attributes.Keys + (set p | p in r.isChildOf :: p.1)
    + (set p | p in aggregates :: p.0) + (set p | p in aggregates :: p.1)
  }

  ghost function GraphOf(r: Registry, aggregates: Aggregates): Graph {
    map t | t in Sources(r, aggregates) :: Edges(r, aggregates, t)
  }

  lemma TakesPart(r: Registry, aggregates: Aggregates, g: Graph, t: TypeId)
    requires Faithful(r, aggregates, g)
    ensures Attributes(r, t) != [] ==> t in g
    ensures forall c | (c, t) in r.isChildOf :: t in g
    ensures forall p | p in aggregates && (p.0 == t || p.1 == t) :: t in g
    ensures Out(g, t) == Edges(r, aggregates, t)
  {
    assert Agrees(r, aggregates, g, t);
    assert forall c | (c, t) in r.isChildOf :: (c, t).1 in Sources(r, aggregates);
  }

  lemma {:induction false} NoChildEdges(r: Registry, t: TypeId, types: seq<TypeId>)
    requires forall c :: (c, t) !in r.isChildOf
    ensures ChildEdges(r, t, types) == []
  {
    if types != [] { NoChildEdges(r, t, types[..|types| - 1]); }
  }

  lemma {:induction false} NoAggregateEdges(t: TypeId, aggregates: Aggregates)
    requires forall p | p in aggregates :: p.0 != t && p.1 != t
    ensures AggregateEdges(t, aggregates) == []
  {
    if aggregates != [] { NoAggregateEdges(t, aggregates[..|aggregates| - 1]); }
  }

  // The graph has the edges that the three loops find at t, and knows every type that can have one.
  ghost predicate Agrees(r: Registry, aggregates: Aggregates, g: Graph, t: TypeId) {
    Out(g, t) == Edges(r, aggregates, t) && (t in Sources(r, aggregates) ==> t in g)
  }

  ghost predicate Faithful(r: Registry, aggregates: Aggregates, g: Graph) {
    forall t :: Agrees(r, aggregates, g, t)
  }

  lemma GraphIsFaithful(r: Registry, aggregates: Aggregates)
    ensures Faithful(r, aggregates, GraphOf(r, aggregates))
  {
    forall t
      ensures Agrees(r, aggregates, GraphOf(r, aggregates), t)
    {
      if t !in Sources(r, aggregates) {
        forall c
          ensures (c, t) !in r.isChildOf
        {
          assert (c, t) in r.isChildOf ==> (c, t).1 in Sources(r, aggregates);
        }
        NoChildEdges(r, t, r.registered);
        NoAggregateEdges(t, aggregates);
      }
    }
  }

  // ------------------------------------------------------------------ where the edges come from

  // An attribute, a registered type or an aggregation pair, by its position in its list.
  datatype Origin = FromAttribute(i: nat) | FromType(j: nat) | FromPair(k: nat)

  // Attributes come before registered types and these before pairs, each in the order of its list.
  predicate Earlier(a: Origin, b: Origin) {
    match a
    case FromAttribute(i) => b.FromAttribute? ==> i < b.i
    case FromType(j) => b.FromPair? || (b.FromType? && j < b.j)
    case FromPair(k) => b.FromPair? && k < b.k
  }

  // A pointer to anything but a bare Object, or a container of objects, leads to the type it names.
  predicate AttributeGives(r: Registry, a: Attribute, e: Edge) {
    || (a.Pointer? && a.pointee != r.objectType && e == Edge(a.name, a.pointee))
    || (a.PtrContainer? && e == Edge(a.name + "/[i]", a.item))
  }

  predicate TypeGives(r: Registry, t: TypeId, child: TypeId, e: Edge) {
    (child, t) in r.isChildOf && e == Edge("$" + child, child)
  }

  predicate PairGives(t: TypeId, pair: (TypeId, TypeId), e: Edge) {
    (pair.0 == t && e == Edge("$" + pair.1, pair.1)) || (pair.1 == t && e == Edge("$" + pair.0, pair.0))
  }

  predicate Gives(r: Registry, aggregates: Aggregates, t: TypeId, o: Origin, e: Edge) {
    match o
    case FromAttribute(i) => i < |Attributes(r, t)| && AttributeGives(r, Attributes(r, t)[i], e)
    case FromType(j) => j < |r.registered| && TypeGives(r, t, r.registered[j], e)
    case FromPair(k) => k < |aggregates| && PairGives(t, aggregates[k], e)
  }

  // The edges, with the origin of each in order, and none left out.
  ghost predicate Explained(r: Registry, aggregates: Aggregates, t: TypeId, edges: seq<Edge>, origins: seq<Origin>) {
    && |origins| == |edges|
    && (forall p | 0 <= p < |edges| :: Gives(r, aggregates, t, origins[p], edges[p]))
    && (forall p, q | 0 <= p < q < |origins| :: Earlier(origins[p], origins[q]))
  }

  lemma OneMoreExplained(r: Registry, aggregates: Aggregates, t: TypeId, edges: seq<Edge>, origins: seq<Origin>,
                         e: Edge, o: Origin)
    requires Explained(r, aggregates, t, edges, origins) && Gives(r, aggregates, t, o, e)
    requires forall p | 0 <= p < |origins| :: Earlier(origins[p], o)
    ensures Explained(r, aggregates, t, edges + [e], origins + [o])
  {
  }

  lemma {:induction false} AttributeOrigins(r: Registry, aggregates: Aggregates, t: TypeId, n: nat)
    returns (origins: seq<Origin>)
    requires n <= |Attributes(r, t)|
    ensures Explained(r, aggregates, t, AttributeEdges(r, Attributes(r, t)[..n]), origins)
    ensures forall o | o in origins :: o.FromAttribute? && o.i < n
    ensures forall i: nat, e | i < n && Gives(r, aggregates, t, FromAttribute(i), e) :: FromAttribute(i) in origins
  {
    origins := [];
    if n > 0 {
      var all := Attributes(r, t);
      assert all[..n][..n - 1] == all[..n - 1];
      origins := AttributeOrigins(r, aggregates, t, n - 1);
      var edges := AttributeEdge(r, all[n - 1]);
      if edges != [] {
        OneMoreExplained(r, aggregates, t, AttributeEdges(r, all[..n - 1]), origins, edges[0], FromAttribute(n - 1));
        origins := origins + [FromAttribute(n - 1)];
      }
    }
  }

  lemma {:induction false} TypeOrigins(r: Registry, aggregates: Aggregates, t: TypeId, n: nat,
                                       edges: seq<Edge>, before: seq<Origin>) returns (origins: seq<Origin>)
    requires n <= |r.registered| && Explained(r, aggregates, t, edges, before)
    requires forall o | o in before :: o.FromAttribute?
    ensures Explained(r, aggregates, t, edges + ChildEdges(r, t, r.registered[..n]), origins)
    ensures before <= origins && forall o | o in origins :: o in before || (o.FromType? && o.j < n)
    ensures forall j: nat, e | j < n && Gives(r, aggregates, t, FromType(j), e) :: FromType(j) in origins
  {
    origins := before;
    if n == 0 {
      assert edges + [] == edges;
    } else {
      var all := r.registered;
      assert all[..n][..n - 1] == all[..n - 1];
      origins := TypeOrigins(r, aggregates, t, n - 1, edges, before);
      if (all[n - 1], t) in r.isChildOf {
        var e := Edge("$" + all[n - 1], all[n - 1]);
        OneMoreExplained(r, aggregates, t, edges + ChildEdges(r, t, all[..n - 1]), origins, e, FromType(n - 1));
        assert edges + ChildEdges(r, t, all[..n - 1]) + [e] == edges + ChildEdges(r, t, all[..n]);
        origins := origins + [FromType(n - 1)];
      } else {
        assert ChildEdges(r, t, all[..n]) == ChildEdges(r, t, all[..n - 1]);
      }
    }
  }

  lemma {:induction false} PairOrigins(r: Registry, aggregates: Aggregates, t: TypeId, n: nat,
                                       edges: seq<Edge>, before: seq<Origin>) returns (origins: seq<Origin>)
    requires n <= |aggregates| && Explained(r, aggregates, t, edges, before)
    requires forall o | o in before :: !o.FromPair?
    ensures Explained(r, aggregates, t, edges + AggregateEdges(t, aggregates[..n]), origins)
    ensures before <= origins && forall o | o in origins :: o in before || (o.FromPair? && o.k < n)
    ensures forall k: nat, e | k < n && Gives(r, aggregates, t, FromPair(k), e) :: FromPair(k) in origins
  {
    origins := before;
    if n == 0 {
      assert edges + [] == edges;
    } else {
      origins := PairOrigins(r, aggregates, t, n - 1, edges, before);
      OneMorePair(t, aggregates, n - 1);
      var sofar, more := AggregateEdges(t, aggregates[..n - 1]), AggregateEdge(t, aggregates[n - 1]);
      assert edges + (sofar + more) == edges + sofar + more;
      if more != [] {
        OneMoreExplained(r, aggregates, t, edges + sofar, origins, more[0], FromPair(n - 1));
        origins := origins + [FromPair(n - 1)];
      }
    }
  }

  /** The edges of a type are those that its attributes, the registered types and the aggregation pairs give,
      each origin once, in that order and in the order of each list. */
  lemma EdgesInOrder(r: Registry, aggregates: Aggregates, g: Graph, t: TypeId) returns (origins: seq<Origin>)
    requires Faithful(r, aggregates, g)
    ensures Explained(r, aggregates, t, Out(g, t), origins)
    ensures forall o, e | Gives(r, aggregates, t, o, e) :: o in origins
  {
    assert Agrees(r, aggregates, g, t);
    var attributes := Attributes(r, t);
    assert attributes[..|attributes|] == attributes;
    assert r.registered[..|r.registered|] == r.registered;
    assert aggregates[..|aggregates|] == aggregates;
    origins := AttributeOrigins(r, aggregates, t, |attributes|);
    origins := TypeOrigins(r, aggregates, t, |r.registered|, AttributeEdges(r, attributes), origins);
    origins := PairOrigins(r, aggregates, t, |aggregates|,
                           AttributeEdges(r, attributes) + ChildEdges(r, t, r.registered), origins);
  }

  lemma OneEdgeEach(r: Registry, aggregates: Aggregates, t: TypeId, o: Origin, e: Edge, f: Edge)
    requires Gives(r, aggregates, t, o, e) && Gives(r, aggregates, t, o, f)
    ensures e == f
  {
  }

  /** A type has an edge exactly when an attribute, a registered type or an aggregation pair gives it. */
  lemma EdgeIff(r: Registry, aggregates: Aggregates, g: Graph, t: TypeId, e: Edge)
    requires Faithful(r, aggregates, g)
    ensures e in Out(g, t) <==> exists o :: Gives(r, aggregates, t, o, e)
  {
    var origins := EdgesInOrder(r, aggregates, g, t);
    if o :| Gives(r, aggregates, t, o, e) {
      var p :| 0 <= p < |origins| && origins[p] == o;
      OneEdgeEach(r, aggregates, t, o, e, Out(g, t)[p]);
    }
  }

  class Gatherer {
    const registry: Registry
    const aggregates: Aggregates
    ghost const g: Graph
    var output: seq<Record>
    var currentPath: seq<string>
    var alreadyProcessed: seq<TypeId>

    ghost predicate Valid()
      reads this
    {
      Faithful(registry, aggregates, g) && |currentPath| == |alreadyProcessed| && Distinct(alreadyProcessed)
    }

    constructor (registry: Registry, aggregates: Aggregates)
      ensures Valid() && this.registry == registry && this.aggregates == aggregates
      ensures output == [] && currentPath == [] && alreadyProcessed == []
    {
      this.registry, this.aggregates := registry, aggregates;
      g := GraphOf(registry, aggregates);
      GraphIsFaithful(registry, aggregates);
      output, currentPath, alreadyProcessed := [], [], [];
    }

    method GetCurrentPath() returns (path: string)
      ensures path == Render(currentPath)
    {
      path := "";
      for k := 0 to |currentPath|
        invariant path == Render(currentPath[..k])
      {
        assert currentPath[..k + 1][..k] == currentPath[..k];
        path := path + "/" + currentPath[k];
      }
      assert currentPath[..|currentPath|] == currentPath;
    }

    method RecordOutput(tid: TypeId)
      modifies this`output
      ensures output == old(output) + [Record(tid, Render(currentPath))]
    {
      var path := GetCurrentPath();
      output := output + [Record(tid, path)];
    }

    method HasAlreadyBeenProcessed(tid: TypeId) returns (found: bool)
      ensures found <==> tid in alreadyProcessed
    {
      for k := 0 to |alreadyProcessed|
        invariant tid !in alreadyProcessed[..k]
      {
        if alreadyProcessed[k] == tid { return true; }
      }
      return false;
    }

    /** The recorded paths of a type, in the order they were recorded; there is one exactly when the type
        was reached. */
    method Get(tid: TypeId) returns (paths: seq<string>)
      ensures paths == PathsTo(output, tid)
      ensures paths != [] <==> Recorded(output, tid)
    {
      paths := [];
      for k := 0 to |output|
        invariant paths == PathsTo(output[..k], tid)
        invariant paths != [] <==> Recorded(output[..k], tid)
      {
        assert output[..k + 1][..k] == output[..k];
        if output[k].tid == tid {
          assert output[..k + 1][k].tid == tid;
          paths := paths + [output[k].path];
        } else if Recorded(output[..k], tid) {
          var i :| 0 <= i < k && output[..k][i].tid == tid;
          assert output[..k + 1][i].tid == tid;
        }
      }
      assert output[..|output|] == output;
    }

    // Descend through one edge of tid: push, search, pop.
    method Descend(tid: TypeId, edge: Edge)
      requires Valid() && tid in g && tid !in alreadyProcessed
      modifies this
      ensures Valid() && currentPath == old(currentPath) && alreadyProcessed == old(alreadyProcessed)
      ensures output == old(output) + Gathered(g, edge.target, alreadyProcessed + [tid], currentPath + [edge.name])
      decreases |Unvisited(g, alreadyProcessed)|, 0, 0
    {
      PushVisits(g, alreadyProcessed, tid);
      currentPath := currentPath + [edge.name];
      alreadyProcessed := alreadyProcessed + [tid];
      DoGather(edge.target);
      alreadyProcessed := alreadyProcessed[..|alreadyProcessed| - 1];
      currentPath := currentPath[..|currentPath| - 1];
    }

    // The same, after the records of the edges done so far.
    method DescendNext(tid: TypeId, edge: Edge, ghost base: seq<Record>, ghost done: seq<Edge>)
      returns (ghost done': seq<Edge>)
      requires Valid() && tid in g && tid !in alreadyProcessed
      requires output == base + GatheredVia(g, tid, alreadyProcessed, currentPath, done)
      modifies this
      ensures Valid() && currentPath == old(currentPath) && alreadyProcessed == old(alreadyProcessed)
      ensures done' == done + [edge]
      ensures output == base + GatheredVia(g, tid, alreadyProcessed, currentPath, done')
      decreases |Unvisited(g, alreadyProcessed)|, 0, 1
    {
      ghost var sofar := GatheredVia(g, tid, alreadyProcessed, currentPath, done);
      ghost var more := Gathered(g, edge.target, alreadyProcessed + [tid], currentPath + [edge.name]);
      GatheredViaOneMore(g, tid, alreadyProcessed, currentPath, done, edge);
      done' := done + [edge];
      assert GatheredVia(g, tid, alreadyProcessed, currentPath, done') == sofar + more;
      Descend(tid, edge);
      assert (base + sofar) + more == base + (sofar + more);
    }

    // The loop over the attributes of tid.
    method GatherAttributes(tid: TypeId, ghost base: seq<Record>) returns (ghost done: seq<Edge>)
      requires Valid() && tid !in alreadyProcessed && output == base
      modifies this
      ensures Valid() && currentPath == old(currentPath) && alreadyProcessed == old(alreadyProcessed)
      ensures done == AttributeEdges(registry, Attributes(registry, tid)) && (done != [] ==> tid in g)
      ensures output == base + GatheredVia(g, tid, alreadyProcessed, currentPath, done)
      decreases |Unvisited(g, alreadyProcessed)|, 0, 2
    {
      done := [];
      var attributes := Attributes(registry, tid);
      assert attributes != [] ==> tid in g by { TakesPart(registry, aggregates, g, tid); }
      for i := 0 to |attributes|
        invariant Valid() && currentPath == old(currentPath) && alreadyProcessed == old(alreadyProcessed)
        invariant done == AttributeEdges(registry, attributes[..i]) && (done != [] ==> tid in g)
        invariant output == base + GatheredVia(g, tid, alreadyProcessed, currentPath, done)
      {
        assert attributes[..i + 1][..i] == attributes[..i];
        match attributes[i] {
          case Pointer(name, pointee) =>
            if pointee != registry.objectType {
              done := DescendNext(tid, Edge(name, pointee), base, done);
            }
          case PtrContainer(name, item) =>
            done := DescendNext(tid, Edge(name + "/[i]", item), base, done);
          case Plain(_) =>
        }
      }
      assert attributes[..|attributes|] == attributes;
    }

    // The loop over the registered types, for the children of tid.
    method GatherChildren(tid: TypeId, ghost base: seq<Record>, ghost before: seq<Edge>) returns (ghost done: seq<Edge>)
      requires Valid() && tid !in alreadyProcessed && (before != [] ==> tid in g)
      requires output == base + GatheredVia(g, tid, alreadyProcessed, currentPath, before)
      modifies this
      ensures Valid() && currentPath == old(currentPath) && alreadyProcessed == old(alreadyProcessed)
      ensures done == before + ChildEdges(registry, tid, registry.registered) && (done != [] ==> tid in g)
      ensures output == base + GatheredVia(g, tid, alreadyProcessed, currentPath, done)
      decreases |Unvisited(g, alreadyProcessed)|, 0, 2
    {
      done := before;
      var types := registry.registered;
      assert forall c | (c, tid) in registry.isChildOf :: tid in g by { TakesPart(registry, aggregates, g, tid); }
      for j := 0 to |types|
        invariant Valid() && currentPath == old(currentPath) && alreadyProcessed == old(alreadyProcessed)
        invariant done == before + ChildEdges(registry, tid, types[..j]) && (done != [] ==> tid in g)
        invariant output == base + GatheredVia(g, tid, alreadyProcessed, currentPath, done)
      {
        assert types[..j + 1][..j] == types[..j];
        var child := types[j];
        if (child, tid) in registry.isChildOf {
          done := DescendNext(tid, Edge("$" + child, child), base, done);
        }
      }
      assert types[..|types|] == types;
    }

    // The loop over the aggregation pairs that tid takes part in.
    method GatherAggregates(tid: TypeId, ghost base: seq<Record>, ghost before: seq<Edge>)
      returns (ghost done: seq<Edge>)
      requires Valid() && tid !in alreadyProcessed && (before != [] ==> tid in g)
      requires output == base + GatheredVia(g, tid, alreadyProcessed, currentPath, before)
      modifies this
      ensures Valid() && currentPath == old(currentPath) && alreadyProcessed == old(alreadyProcessed)
      ensures done == before + AggregateEdges(tid, aggregates) && (done != [] ==> tid in g)
      ensures output == base + GatheredVia(g, tid, alreadyProcessed, currentPath, done)
      decreases |Unvisited(g, alreadyProcessed)|, 0, 2
    {
      done := before;
      for k := 0 to |aggregates|
        invariant Valid() && currentPath == old(currentPath) && alreadyProcessed == old(alreadyProcessed)
        invariant done == before + AggregateEdges(tid, aggregates[..k]) && (done != [] ==> tid in g)
        invariant output == base + GatheredVia(g, tid, alreadyProcessed, currentPath, done)
      {
        OneMorePair(tid, aggregates, k);
        var item := aggregates[k];
        if item.0 == tid || item.1 == tid {
          assert tid in g by { TakesPart(registry, aggregates, g, tid); }
          var other := item.1;
          if item.1 == tid {
            other := item.0;
          }
          done := DescendNext(tid, Edge("$" + other, other), base, done);
        }
      }
      assert aggregates[..|aggregates|] == aggregates;
    }

    // A type that is not on the stack: record it, then follow the edges of the three loops.
    method GatherHere(tid: TypeId)
      requires Valid() && tid !in alreadyProcessed
      modifies this
      ensures Valid() && currentPath == old(currentPath) && alreadyProcessed == old(alreadyProcessed)
      ensures output == (old(output) + [Record(tid, Render(currentPath))])
        + GatheredVia(g, tid, alreadyProcessed, currentPath, Out(g, tid))
      decreases |Unvisited(g, alreadyProcessed)|, 0, 3
    {
      RecordOutput(tid);
      ghost var base := output;
      ghost var done := GatherAttributes(tid, base);
      done := GatherChildren(tid, base, done);
      done := GatherAggregates(tid, base, done);
      assert done == Out(g, tid) by { TakesPart(registry, aggregates, g, tid); }
    }

    /** Appends what the specification of the search says, restores both stacks, and terminates on every
        graph: each nested call leaves fewer types that are not on the stack. */
    method DoGather(tid: TypeId)
      requires Valid()
      modifies this
      ensures Valid() && currentPath == old(currentPath) && alreadyProcessed == old(alreadyProcessed)
      ensures output == old(output) + Gathered(g, tid, alreadyProcessed, currentPath)
      decreases |Unvisited(g, alreadyProcessed)|, 1
    {
      var processed := HasAlreadyBeenProcessed(tid);
      if processed {
        return;
      }
      GatherHere(tid);
    }

    // The caller's loop over the objects of the root namespace.
    method GatherAll(roots: seq<TypeId>)
      requires Valid() && output == [] && currentPath == [] && alreadyProcessed == []
      modifies this
      ensures Valid() && currentPath == [] && alreadyProcessed == []
      ensures output == GatheredAll(g, roots)
      ensures forall t :: Recorded(output, t) <==> exists root :: root in roots && ReachableFrom(g, root, t)
    {
      for k := 0 to |roots|
        invariant Valid() && currentPath == [] && alreadyProcessed == []
        invariant output == GatheredAll(g, roots[..k])
      {
        assert roots[..k + 1][..k] == roots[..k];
        DoGather(roots[k]);
      }
      assert roots[..|roots|] == roots;
      forall t
        ensures Recorded(output, t) <==> exists root :: root in roots && ReachableFrom(g, root, t)
      {
        RecordedIffReachableFromRoots(g, roots, t);
      }
    }
  }

  function PathsTo(records: seq<Record>, tid: TypeId): seq<string> {
    if records == [] then []
    else
      var last := |records| - 1;
      PathsTo(records[..last], tid) + if records[last].tid == tid then [records[last].path] else []
  }

  /** The paths to a type are those of its records, all of them and in the order of the records. */
  lemma {:induction false} PathsInOrder(records: seq<Record>, tid: TypeId) returns (at: seq<nat>)
    ensures |PathsTo(records, tid)| == |at|
    ensures forall p | 0 <= p < |at| :: at[p] < |records| && PathsTo(records, tid)[p] == records[at[p]].path
    ensures forall p, q | 0 <= p < q < |at| :: at[p] < at[q]
    ensures forall k: nat | k < |records| :: k in at <==> records[k].tid == tid
  {
    at := [];
    if records != [] {
      var last := |records| - 1;
      at := PathsInOrder(records[..last], tid);
      if records[last].tid == tid {
        at := at + [last];
      }
    }
  }
}
