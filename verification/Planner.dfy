/** internal/dependency/planner.go: the dependency graph, the start order and the dependents query. */
module Planning {
  import opened Basics
  import opened Proto
  import opened Graphs
  import opened Traversal

  type Specs = map<string, TunnelSpec>

  ghost predicate Keyed(specs: Specs) {
    forall n :: n in specs ==> specs[n].name == n
  }

  /** Every named dependency is itself a registered tunnel. */
  ghost predicate Closed(specs: Specs) {
    forall n, d :: n in specs && d in specs[n].dependsOn ==> d in specs
  }

  /** One edge from each dependency to each of its dependents. */
  ghost function DepEdges(specs: Specs): set<(string, string)> {
    set n, d | n in specs && d in specs[n].dependsOn :: (d, n)
  }

  ghost predicate Plannable(specs: Specs) {
    Closed(specs) && Acyclic(DepEdges(specs))
  }

  /** A walk over the map: its specs, each exactly once. */
  ghost predicate Lists(specs: Specs, order: seq<TunnelSpec>) {
    && (forall i :: 0 <= i < |order| ==> order[i].name in specs && specs[order[i].name] == order[i])
    && (forall i, j :: 0 <= i < j < |order| ==> order[i].name != order[j].name)
    && (forall n :: n in specs ==> specs[n] in order)
  }

  /** A walk in which every dependency comes strictly before its dependents. */
  ghost predicate StartOrder(specs: Specs, order: seq<TunnelSpec>) {
    Lists(specs, order) && forall i, d :: 0 <= i < |order| && d in order[i].dependsOn ==> d in Names(order[..i])
  }

  ghost function Names(order: seq<TunnelSpec>): set<string> {
    set s | s in order :: s.name
  }

  lemma NamesHas(order: seq<TunnelSpec>, i: nat)
    requires i < |order|
    ensures order[i].name in Names(order)
  {
    assert order[i] in order;
  }

  datatype PlanError = MissingDependency(name: string, dependency: string) | DependencyCycle

  /** gographs' AdjacencyList, restricted to what the planner uses. */
  datatype AdjacencyList = AdjacencyList(vertices: seq<TunnelSpec>, edges: seq<seq<nat>>) {
    function AddVertex(s: TunnelSpec): AdjacencyList {
      AdjacencyList(vertices + [s], edges + [[]])
    }

    function Connect(source: nat, target: nat): AdjacencyList
      requires source < |edges|
    {
      AdjacencyList(vertices, edges[source := edges[source] + [target]])
    }

    ghost predicate Valid() {
      |vertices| == |edges| && WellFormed(edges)
    }

    ghost function VertexNames(): map<nat, string> {
      map i: nat | i < |vertices| :: vertices[i].name
    }

    /** The graph's edges between tunnel names. */
    ghost function NameEdges(): set<(string, string)>
      requires Valid()
    {
      Image(EdgesOf(edges), VertexNames())
    }
  }

  ghost predicate Indexed(graph: AdjacencyList, indices: map<string, nat>) {
    && graph.Valid()
    && (forall n :: n in indices ==> indices[n] < |graph.vertices| && graph.vertices[indices[n]].name == n)
    && forall i :: 0 <= i < |graph.vertices| ==>
         graph.vertices[i].name in indices && indices[graph.vertices[i].name] == i
  }

  lemma AddVertexIndexes(graph: AdjacencyList, indices: map<string, nat>, s: TunnelSpec)
    requires Indexed(graph, indices) && s.name !in indices
    ensures Indexed(graph.AddVertex(s), indices[s.name := |graph.vertices|])
    ensures EdgesOf(graph.edges) == {} ==> EdgesOf(graph.AddVertex(s).edges) == {}
  {
    var g, ix := graph.AddVertex(s), indices[s.name := |graph.vertices|];
    forall i | 0 <= i < |g.vertices| ensures g.vertices[i].name in ix && ix[g.vertices[i].name] == i {
      if i < |graph.vertices| { assert g.vertices[i] == graph.vertices[i]; }
    }
  }

  lemma ConnectAddsEdge(graph: AdjacencyList, indices: map<string, nat>, source: nat, target: nat)
    requires Indexed(graph, indices) && source < |graph.vertices| && target < |graph.vertices|
    ensures Indexed(graph.Connect(source, target), indices)
    ensures graph.Connect(source, target).NameEdges()
         == graph.NameEdges() + {(graph.vertices[source].name, graph.vertices[target].name)}
  {
    var g := graph.Connect(source, target);
    assert EdgesOf(g.edges) == EdgesOf(graph.edges) + {(source, target)} by {
      assert (source, target) in EdgesOf(g.edges) by { assert g.edges[source][|graph.edges[source]|] == target; }
    }
    var f := graph.VertexNames();
    assert g.VertexNames() == f;
    assert (f[(source, target).0], f[(source, target).1]) in g.NameEdges();
  }

  lemma NamesInjective(graph: AdjacencyList, indices: map<string, nat>)
    requires Indexed(graph, indices)
    ensures Injective(graph.VertexNames())
  {
    var f := graph.VertexNames();
    forall x, y | x in f && y in f && f[x] == f[y] ensures x == y {
      assert indices[graph.vertices[x].name] == x && indices[graph.vertices[y].name] == y;
    }
  }

  /** Edges that one spec contributes through its first k dependencies. */
  ghost function EdgesInto(n: string, deps: seq<string>): set<(string, string)> {
    set d | d in deps :: (d, n)
  }

  lemma EdgesIntoNext(n: string, deps: seq<string>, j: nat)
    requires j < |deps|
    ensures EdgesInto(n, deps[..j + 1]) == EdgesInto(n, deps[..j]) + {(deps[j], n)}
  {
    assert deps[..j + 1] == deps[..j] + [deps[j]];
    assert deps[j] in deps[..j + 1];
  }

  /** Edges contributed by the specs of the given names. */
  ghost function EdgesOfNames(specs: Specs, names: set<string>): set<(string, string)> {
    set n, d | n in names && n in specs && d in specs[n].dependsOn :: (d, n)
  }

  ghost predicate AllPresent(specs: Specs, names: set<string>) {
    forall n, d :: n in names && n in specs && d in specs[n].dependsOn ==> d in specs
  }

  lemma EdgesOfNamesNext(specs: Specs, names: set<string>, n: string)
    requires n in specs && forall i :: 0 <= i < |specs[n].dependsOn| ==> specs[n].dependsOn[i] in specs
    ensures EdgesOfNames(specs, names + {n}) == EdgesOfNames(specs, names) + EdgesInto(n, specs[n].dependsOn)
    ensures AllPresent(specs, names) ==> AllPresent(specs, names + {n})
  {
  }

  lemma AllNames(specs: Specs)
    ensures EdgesOfNames(specs, specs.Keys) == DepEdges(specs)
    ensures AllPresent(specs, specs.Keys) <==> Closed(specs)
  {
  }

  /**
   * What a Plan that stopped at a missing dependency has put into the graph: all edges of the specs
   * its map iteration had already visited, and the failing spec's edges before the missing name.
   */
  ghost predicate PartialBuild(specs: Specs, e: set<(string, string)>, n: string, missing: string) {
    exists scanned: set<string>, k: nat :: StoppedAt(specs, e, n, missing, scanned, k)
  }

  ghost predicate StoppedAt(specs: Specs, e: set<(string, string)>, n: string, missing: string,
                            scanned: set<string>, k: nat) {
    && n in specs && k < |specs[n].dependsOn| && specs[n].dependsOn[k] == missing && missing !in specs
    && scanned <= specs.Keys - {n} && AllPresent(specs, scanned)
    && (forall i :: 0 <= i < k ==> specs[n].dependsOn[i] in specs)
    && e == EdgesOfNames(specs, scanned) + EdgesInto(n, specs[n].dependsOn[..k])
  }

  lemma BuildNext(specs: Specs, before: set<(string, string)>, after: set<(string, string)>, scanned: set<string>, n: string, k: nat)
    requires n in specs && k == |specs[n].dependsOn| && AllPresent(specs, scanned)
    requires before == EdgesOfNames(specs, scanned) && after == before + EdgesInto(n, specs[n].dependsOn[..k])
    requires forall i :: 0 <= i < k ==> specs[n].dependsOn[i] in specs
    ensures after == EdgesOfNames(specs, scanned + {n}) && AllPresent(specs, scanned + {n})
  {
    assert specs[n].dependsOn[..k] == specs[n].dependsOn;
    EdgesOfNamesNext(specs, scanned, n);
  }

  lemma BuildStops(specs: Specs, before: set<(string, string)>, after: set<(string, string)>, scanned: set<string>, n: string, k: nat)
    requires n in specs && k < |specs[n].dependsOn| && specs[n].dependsOn[k] !in specs
    requires scanned <= specs.Keys - {n} && AllPresent(specs, scanned)
    requires before == EdgesOfNames(specs, scanned) && after == before + EdgesInto(n, specs[n].dependsOn[..k])
    requires forall i :: 0 <= i < k ==> specs[n].dependsOn[i] in specs
    ensures PartialBuild(specs, after, n, specs[n].dependsOn[k]) && !Closed(specs)
  {
    assert StoppedAt(specs, after, n, specs[n].dependsOn[k], scanned, k);
    assert specs[n].dependsOn[k] in specs[n].dependsOn;
  }

  // ---- The second loop of Plan along a given order of the map ----

  /** How many of the dependencies come before the first one that is not registered. */
  ghost function PresentPrefix(specs: Specs, deps: seq<string>): (k: nat)
    ensures k <= |deps| && forall i :: 0 <= i < k ==> deps[i] in specs
    ensures k < |deps| ==> deps[k] !in specs
  {
    if deps == [] || deps[0] !in specs then 0 else 1 + PresentPrefix(specs, deps[1..])
  }

  /** The edges connected so far, and the error that ended the loop, if any. */
  datatype Build = Build(edges: set<(string, string)>, error: Option<PlanError>)

  ghost function Visit(specs: Specs, b: Build, n: string): Build
    requires n in specs
  {
    var deps := specs[n].dependsOn;
    var k := PresentPrefix(specs, deps);
    if b.error.Some? then b
    else Build(b.edges + EdgesInto(n, deps[..k]), if k < |deps| then Some(MissingDependency(n, deps[k])) else None)
  }

  ghost function BuildAlong(specs: Specs, order: seq<string>): Build
    requires forall n :: n in order ==> n in specs
  {
    if order == [] then Build({}, None)
    else Visit(specs, BuildAlong(specs, order[..|order| - 1]), order[|order| - 1])
  }

  /** One of the orders in which Go may range over the map. */
  ghost predicate MapOrder(specs: Specs, order: seq<string>) {
    Distinct(order) && forall n :: n in order <==> n in specs
  }

  lemma {:induction false} BuildKeepsError(specs: Specs, order: seq<string>, i: nat)
    requires (forall n :: n in order ==> n in specs) && i <= |order|
    requires BuildAlong(specs, order[..i]).error.Some?
    ensures BuildAlong(specs, order) == BuildAlong(specs, order[..i])
    decreases |order|
  {
    if i == |order| {
      assert order[..i] == order;
    } else {
      var init := order[..|order| - 1];
      assert init[..i] == order[..i];
      BuildKeepsError(specs, init, i);
    }
  }

  lemma VisitNext(specs: Specs, order: seq<string>, i: nat)
    requires (forall n :: n in order ==> n in specs) && i < |order|
    ensures order[i] in specs
    ensures BuildAlong(specs, order[..i + 1]) == Visit(specs, BuildAlong(specs, order[..i]), order[i])
  {
    assert order[..i + 1][..i] == order[..i];
  }

  /** What the loop over these specs does, in terms of the set of specs it visits. */
  lemma {:induction false} BuildOf(specs: Specs, order: seq<string>)
    requires Distinct(order) && forall n :: n in order ==> n in specs
    ensures var b := BuildAlong(specs, order);
      && (b.error.None? ==> b.edges == EdgesOfNames(specs, Members(order)) && AllPresent(specs, Members(order)))
      && (b.error.Some? ==>
            && b.error.value.MissingDependency? && !Closed(specs)
            && PartialBuild(specs, b.edges, b.error.value.name, b.error.value.dependency))
    decreases |order|
  {
    if order != [] {
      var init, n := order[..|order| - 1], order[|order| - 1];
      BuildOf(specs, init);
      assert n !in init && Members(order) == Members(init) + {n};
      var b, deps := BuildAlong(specs, init), specs[n].dependsOn;
      if b.error.None? {
        var k := PresentPrefix(specs, deps);
        var after := b.edges + EdgesInto(n, deps[..k]);
        if k < |deps| {
          BuildStops(specs, b.edges, after, Members(init), n, k);
        } else {
          BuildNext(specs, b.edges, after, Members(init), n, k);
        }
      }
    }
  }

  /** Over the whole map: every edge exactly when the specs are closed, a partial build otherwise. */
  lemma BuildOutcome(specs: Specs, order: seq<string>)
    requires MapOrder(specs, order)
    ensures var b := BuildAlong(specs, order);
      && (b.error.None? <==> Closed(specs))
      && (b.error.None? ==> b.edges == DepEdges(specs))
      && (b.error.Some? ==>
            && b.error.value.MissingDependency?
            && PartialBuild(specs, b.edges, b.error.value.name, b.error.value.dependency))
  {
    BuildOf(specs, order);
    AllNames(specs);
    assert Members(order) == specs.Keys;
  }

  /** First loop of Plan: one vertex per spec, in whatever order the map is iterated. */
  method AddVertices(specs: Specs) returns (graph: AdjacencyList, indices: map<string, nat>)
    requires Keyed(specs)
    ensures Indexed(graph, indices) && indices.Keys == specs.Keys
    ensures forall n :: n in specs ==> graph.vertices[indices[n]] == specs[n]
    ensures graph.NameEdges() == {}
  {
    graph, indices := AdjacencyList([], []), map[];
    var todo := specs.Keys;
    while todo != {}
      invariant todo <= specs.Keys && indices.Keys == specs.Keys - todo
      invariant Indexed(graph, indices)
      invariant forall n :: n in indices ==> graph.vertices[indices[n]] == specs[n]
      invariant EdgesOf(graph.edges) == {}
      decreases todo
    {
      var n :| n in todo;
      AddVertexIndexes(graph, indices, specs[n]);
      indices, graph := indices[n := |graph.vertices|], graph.AddVertex(specs[n]);
      todo := todo - {n};
    }
  }

  lemma PrefixEnds(specs: Specs, deps: seq<string>, j: nat)
    requires j <= |deps| && (forall i :: 0 <= i < j ==> deps[i] in specs)
    requires j < |deps| ==> deps[j] !in specs
    ensures PresentPrefix(specs, deps) == j
  {
  }

  /** One turn of the inner loop: the next dependency's edge. */
  lemma ConnectNext(g: AdjacencyList, indices: map<string, nat>, before: set<(string, string)>, n: string, deps: seq<string>, j: nat)
    requires Indexed(g, indices) && n in indices && j < |deps| && deps[j] in indices
    requires g.NameEdges() == before + EdgesInto(n, deps[..j])
    ensures Indexed(g.Connect(indices[deps[j]], indices[n]), indices)
    ensures g.Connect(indices[deps[j]], indices[n]).NameEdges() == before + EdgesInto(n, deps[..j + 1])
  {
    ConnectAddsEdge(g, indices, indices[deps[j]], indices[n]);
    EdgesIntoNext(n, deps, j);
  }

  /** Inner loop of Plan over one spec's dependencies. */
  method ConnectOne(specs: Specs, g: AdjacencyList, indices: map<string, nat>, n: string)
    returns (graph: AdjacencyList, missing: Option<string>)
    requires Indexed(g, indices) && indices.Keys == specs.Keys && n in specs
    ensures Indexed(graph, indices) && graph.vertices == g.vertices
    ensures var deps, k := specs[n].dependsOn, PresentPrefix(specs, specs[n].dependsOn);
      && graph.NameEdges() == g.NameEdges() + EdgesInto(n, deps[..k])
      && missing == if k < |deps| then Some(deps[k]) else None
  {
    graph := g;
    var deps := specs[n].dependsOn;
    ghost var before := g.NameEdges();
    var j := 0;
    while j < |deps|
      invariant 0 <= j <= |deps|
      invariant Indexed(graph, indices) && graph.vertices == g.vertices
      invariant graph.NameEdges() == before + EdgesInto(n, deps[..j])
      invariant forall i :: 0 <= i < j ==> deps[i] in specs
    {
      if deps[j] !in indices {
        PrefixEnds(specs, deps, j);
        return graph, Some(deps[j]);
      }
      ConnectNext(graph, indices, before, n, deps, j);
      graph := graph.Connect(indices[deps[j]], indices[n]);
      j := j + 1;
    }
    PrefixEnds(specs, deps, j);
    missing := None;
  }

  /** Go's range over a map: its keys, each once, in any order. */
  method RangeOver(specs: Specs) returns (order: seq<string>)
    ensures MapOrder(specs, order)
  {
    order := [];
    var todo := specs.Keys;
    while todo != {}
      invariant todo <= specs.Keys
      invariant Distinct(order) && forall n :: n in order <==> n in specs && n !in todo
      decreases todo
    {
      var n :| n in todo;
      order, todo := order + [n], todo - {n};
    }
  }

  /** The second loop of Plan, along a given order of the map. */
  method ConnectAlong(specs: Specs, g: AdjacencyList, indices: map<string, nat>, order: seq<string>)
    returns (graph: AdjacencyList, r: Option<PlanError>)
    requires MapOrder(specs, order)
    requires Indexed(g, indices) && indices.Keys == specs.Keys && g.NameEdges() == {}
    ensures Indexed(graph, indices) && graph.vertices == g.vertices
    ensures Build(graph.NameEdges(), r) == BuildAlong(specs, order)
  {
    graph := g;
    for i := 0 to |order|
      invariant Indexed(graph, indices) && graph.vertices == g.vertices
      invariant Build(graph.NameEdges(), None) == BuildAlong(specs, order[..i])
    {
      VisitNext(specs, order, i);
      var missing;
      graph, missing := ConnectOne(specs, graph, indices, order[i]);
      if missing.Some? {
        BuildKeepsError(specs, order, i + 1);
        return graph, Some(MissingDependency(order[i], missing.value));
      }
    }
    assert order[..|order|] == order;
    r := None;
  }

  /** All edges, or the first missing dependency met along the order. */
  method AddEdges(specs: Specs, g: AdjacencyList, indices: map<string, nat>, order: seq<string>)
    returns (graph: AdjacencyList, r: Option<PlanError>)
    requires MapOrder(specs, order)
    requires Indexed(g, indices) && indices.Keys == specs.Keys && g.NameEdges() == {}
    ensures Indexed(graph, indices) && graph.vertices == g.vertices
    ensures Build(graph.NameEdges(), r) == BuildAlong(specs, order)
    ensures r.None? <==> Closed(specs)
    ensures r.None? ==> graph.NameEdges() == DepEdges(specs)
    ensures r.Some? ==>
              r.value.MissingDependency? && PartialBuild(specs, graph.NameEdges(), r.value.name, r.value.dependency)
  {
    graph, r := ConnectAlong(specs, g, indices, order);
    BuildOutcome(specs, order);
  }

  /** Reads the vertices back in sorted order. */
  method VerticesInOrder(graph: AdjacencyList, order: seq<nat>) returns (result: seq<TunnelSpec>)
    requires forall v :: v in order ==> v < |graph.vertices|
    ensures |result| == |order| && forall i :: 0 <= i < |order| ==> order[i] < |graph.vertices| && result[i] == graph.vertices[order[i]]
  {
    result := [];
    for i := 0 to |order|
      invariant |result| == i
      invariant forall j :: 0 <= j < i ==> order[j] < |graph.vertices| && result[j] == graph.vertices[order[j]]
    {
      assert order[i] in order;
      result := result + [graph.vertices[order[i]]];
    }
  }

  /** A topological order of the vertex indices, read back, is a start order of the specs. */
  lemma SortedIsStartOrder(specs: Specs, graph: AdjacencyList, indices: map<string, nat>,
                           order: seq<nat>, result: seq<TunnelSpec>)
    requires Closed(specs)
    requires Indexed(graph, indices) && indices.Keys == specs.Keys
    requires forall n :: n in specs ==> graph.vertices[indices[n]] == specs[n]
    requires graph.NameEdges() == DepEdges(specs)
    requires TopologicalOrder(graph.edges, order) && |result| == |order|
    requires forall i :: 0 <= i < |order| ==> order[i] < |graph.vertices| && result[i] == graph.vertices[order[i]]
    ensures StartOrder(specs, result)
  {
    forall i | 0 <= i < |result| ensures result[i].name in specs && specs[result[i].name] == result[i] {
      var n := graph.vertices[order[i]].name;
      assert indices[n] == order[i];
    }
    forall i, j | 0 <= i < j < |result| ensures result[i].name != result[j].name {
      assert indices[graph.vertices[order[i]].name] == order[i];
      assert indices[graph.vertices[order[j]].name] == order[j];
    }
    forall n | n in specs ensures specs[n] in result {
      var i := IndexOf(order, indices[n]);
      assert result[i] == specs[n];
    }
    forall i, d | 0 <= i < |result| && d in result[i].dependsOn ensures d in Names(result[..i]) {
      var n := result[i].name;
      assert (d, n) in DepEdges(specs);
      var u, v := indices[d], order[i];
      var f := graph.VertexNames();
      NamesInjective(graph, indices);
      assert indices[n] == v && f[u] == d && f[v] == n;
      ImageHas(EdgesOf(graph.edges), f, u, v);
      assert order[i] in graph.edges[u];
      var j :| 0 <= j < i && order[..i][j] == u;
      assert result[..i][j] == graph.vertices[u];
      NamesHas(result[..i], j);
    }
  }

  class Planner {
    var specs: Specs
    var graph: AdjacencyList
    var indices: map<string, nat>
    /** The specs of the latest Plan, when it built the whole graph: it succeeded, or found a cycle. */
    ghost var planned: Option<Specs>

    ghost predicate Valid()
      reads this
    {
      && Keyed(specs)
      && Indexed(graph, indices)
      && (planned.Some? ==> indices.Keys == planned.value.Keys && graph.NameEdges() == DepEdges(planned.value))
    }

    constructor (specs: Specs)
      requires Keyed(specs)
      ensures Valid() && this.specs == specs && planned == None && indices == map[]
    {
      this.specs := specs;
      graph := AdjacencyList([], []);
      indices := map[];
      planned := None;
    }

    method AddSpec(spec: TunnelSpec)
      requires Valid()
      modifies this`specs
      ensures Valid() && specs == old(specs)[spec.name := spec]
    {
      specs := specs[spec.name := spec];
    }

    method RemoveSpec(name: string)
      requires Valid()
      modifies this`specs
      ensures Valid() && specs == old(specs) - {name}
    {
      specs := specs - {name};
    }

    /**
     * Succeeds exactly when every named dependency exists and there is no dependency cycle, for every
     * order in which the two map iterations may run.
     */
    method Plan() returns (r: Result<seq<TunnelSpec>, PlanError>)
      requires Valid()
      modifies this`graph, this`indices, this`planned
      ensures Valid()
      ensures r.Success? <==> Plannable(specs)
      ensures r.Success? ==> StartOrder(specs, r.value) && planned == Some(specs)
      ensures indices.Keys == specs.Keys
      ensures r.Failure? && r.error.MissingDependency? ==>
                planned == None && !Closed(specs)
                && PartialBuild(specs, graph.NameEdges(), r.error.name, r.error.dependency)
      ensures r.Failure? && r.error.DependencyCycle? ==>
                Closed(specs) && !Acyclic(DepEdges(specs)) && planned == Some(specs)
    {
      planned := None;
      graph, indices := AddVertices(specs);
      var mapOrder := RangeOver(specs);
      var missing;
      graph, missing := AddEdges(specs, graph, indices, mapOrder);
      if missing.Some? {
        return Failure(missing.value);
      }
      planned := Some(specs);
      NamesInjective(graph, indices);
      RenamingKeepsAcyclic<nat, string>(EdgesOf(graph.edges), graph.VertexNames());
      var order, ok := TopologicalSort(graph.edges);
      if !ok {
        return Failure(DependencyCycle);
      }
      var result := VerticesInOrder(graph, order);
      SortedIsStartOrder(specs, graph, indices, order, result);
      r := Success(result);
    }

    /** Every tunnel that the planned graph reaches from name, name itself excluded, each once. */
    method DependentsOf(name: string) returns (r: Option<seq<string>>)
      requires Valid()
      ensures r.None? <==> name !in indices
      ensures r.Some? ==> Distinct(r.value) && forall x :: x in r.value <==> IsDependent(graph, indices, name, x)
    {
      if name !in indices {
        return None;
      }
      var start := indices[name];
      var flood := Flood(graph.edges, start);
      NamesInjective(graph, indices);
      ghost var e: set<(nat, nat)>, f := EdgesOf(graph.edges), graph.VertexNames();
      forall v: nat | v < |graph.vertices|
        ensures v in flood <==> Reaches(graph.NameEdges(), name, graph.vertices[v].name)
      {
        RenamingKeepsReaches<nat, string>(e, f, start, v);
      }
      forall i | 0 <= i < |flood| ensures flood[i] < |graph.vertices| {
        assert flood[i] in flood;
        InGraph(graph.edges, start, flood[i]);
      }
      var names: seq<string> := [];
      for i := 0 to |flood|
        invariant Distinct(names)
        invariant forall x :: x in names <==> x in indices && x != name && indices[x] in flood[..i]
      {
        if flood[i] != start {
          var x := graph.vertices[flood[i]].name;
          assert indices[x] == flood[i] && x != name;
          assert flood[i] !in flood[..i];
          names := names + [x];
        }
        assert flood[..i + 1] == flood[..i] + [flood[i]];
      }
      assert flood[..|flood|] == flood;
      forall x ensures x in names <==> IsDependent(graph, indices, name, x) {
        if x in indices { assert graph.vertices[indices[x]].name == x; }
      }
      r := Some(names);
    }
  }

  ghost predicate IsDependent(graph: AdjacencyList, indices: map<string, nat>, name: string, x: string)
    requires Indexed(graph, indices)
  {
    x in indices && x != name && Reaches(graph.NameEdges(), name, x)
  }

  lemma InGraph(adj: seq<seq<nat>>, start: nat, v: nat)
    requires WellFormed(adj) && start < |adj| && Reaches<nat>(EdgesOf(adj), start, v)
    ensures v < |adj|
  {
    var p: seq<nat> :| PathFrom<nat>(EdgesOf(adj), start, p, v);
    forall x: nat, y: nat | x in Below(|adj|) && (x, y) in EdgesOf(adj) ensures y in Below(|adj|) {}
    ClosedUnderReach<nat>(EdgesOf(adj), Below(|adj|), start, p, v);
  }
}
