/**
 * What a rejected add does to later failure cascades. Planning rebuilds the graph from the new specs and
 * only the spec is rolled back, so the graph that answers "who depends on this tunnel" is whatever the
 * rejected Plan left behind.
 */
module RejectedAdds {
  import opened Basics
  import opened Proto
  import opened Graphs
  import opened Traversal
  import opened Planning

  /** Some iteration order of the map makes Plan leave exactly these edges. */
  ghost predicate MayLeave(specs: Specs, e: set<(string, string)>) {
    exists order :: MapOrder(specs, order) && BuildAlong(specs, order).edges == e
  }

  // ---- Every partial build is the outcome of some iteration order ----

  lemma DistinctJoin(a: seq<string>, b: seq<string>)
    requires Distinct(a) && Distinct(b) && Members(a) !! Members(b)
    ensures Distinct(a + b) && Members(a + b) == Members(a) + Members(b)
    ensures forall x :: x in a + b <==> x in Members(a) || x in Members(b)
  {
    forall i, j | 0 <= i < j < |a + b| ensures (a + b)[i] != (a + b)[j] {
      if i < |a| <= j { assert a[i] in Members(a) && b[j - |a|] in Members(b); }
    }
  }

  lemma {:induction false} BuildAlongPresent(specs: Specs, order: seq<string>)
    requires (forall n :: n in order ==> n in specs) && AllPresent(specs, Members(order))
    ensures BuildAlong(specs, order) == Build(EdgesOfNames(specs, Members(order)), None)
    decreases |order|
  {
    if order != [] {
      var init, n := order[..|order| - 1], order[|order| - 1];
      assert Members(order) == Members(init) + {n};
      BuildAlongPresent(specs, init);
      var deps := specs[n].dependsOn;
      assert PresentPrefix(specs, deps) == |deps|;
      assert deps[..|deps|] == deps;
      EdgesOfNamesNext(specs, Members(init), n);
    }
  }

  lemma OrderOfBuild(specs: Specs, e: set<(string, string)>, n: string, missing: string, scanned: set<string>, k: nat)
    returns (order: seq<string>)
    requires StoppedAt(specs, e, n, missing, scanned, k)
    ensures MapOrder(specs, order) && BuildAlong(specs, order) == Build(e, Some(MissingDependency(n, missing)))
  {
    var before := Enumerate(scanned);
    var after := Enumerate(specs.Keys - scanned - {n});
    var stop := before + [n];
    order := stop + after;
    DistinctJoin(before, [n]);
    DistinctJoin(stop, after);
    forall x | x in before ensures x in specs { assert x in Members(before); }
    BuildAlongPresent(specs, before);
    assert stop[..|before|] == before;
    assert PresentPrefix(specs, specs[n].dependsOn) == k;
    assert order[..|stop|] == stop;
    BuildKeepsError(specs, order, |stop|);
  }

  /** The partial builds are exactly what the iteration orders of the map produce. */
  lemma PartialBuildExactly(specs: Specs, e: set<(string, string)>, n: string, missing: string)
    ensures PartialBuild(specs, e, n, missing) <==>
      exists order :: MapOrder(specs, order) && BuildAlong(specs, order) == Build(e, Some(MissingDependency(n, missing)))
  {
    if PartialBuild(specs, e, n, missing) {
      var scanned, k :| StoppedAt(specs, e, n, missing, scanned, k);
      var order := OrderOfBuild(specs, e, n, missing, scanned, k);
    }
    if order :| MapOrder(specs, order) && BuildAlong(specs, order) == Build(e, Some(MissingDependency(n, missing))) {
      BuildOutcome(specs, order);
    }
  }

  // ---- When the dependents survive ----

  /** Registered tunnel x depends on registered tunnel d, directly. */
  ghost predicate Linked(registered: Specs, d: string, x: string) {
    d in registered && x in registered && d != x && d in registered[x].dependsOn
  }

  /** Every current transitive dependent is reached in the graph e, so that a cascade finds it. */
  ghost predicate FindsDependents(registered: Specs, e: set<(string, string)>) {
    forall name, x :: name in registered && x in registered && Reaches(DepEdges(registered), name, x) ==> Reaches(e, name, x)
  }

  ghost predicate KeepsLinks(registered: Specs, e: set<(string, string)>) {
    forall d, x :: Linked(registered, d, x) ==> (d, x) in e
  }

  lemma {:induction false} LinkedPathKept(registered: Specs, e: set<(string, string)>, name: string, p: seq<string>, x: string)
    requires Keyed(registered) && name in registered && KeepsLinks(registered, e)
    requires PathFrom(DepEdges(registered), name, p, x)
    ensures x in registered && Reaches(e, name, x)
    decreases |p|
  {
    if |p| == 1 {
      ReachesSelf(e, name);
    } else {
      var init := p[..|p| - 1];
      var d := init[|init| - 1];
      assert PathFrom(DepEdges(registered), name, init, d);
      LinkedPathKept(registered, e, name, init, d);
      assert (p[|p| - 2], p[|p| - 1]) in DepEdges(registered);
      if d != x {
        assert Linked(registered, d, x);
        ReachesStep(e, name, d, x);
      }
    }
  }

  lemma KeptLinksFind(registered: Specs, e: set<(string, string)>)
    requires Keyed(registered) && KeepsLinks(registered, e)
    ensures FindsDependents(registered, e)
  {
    forall name, x | name in registered && x in registered && Reaches(DepEdges(registered), name, x) ensures Reaches(e, name, x) {
      var p :| PathFrom(DepEdges(registered), name, p, x);
      LinkedPathKept(registered, e, name, p, x);
    }
  }

  /** The spec names a missing dependency, so a Plan that reaches it stops there. */
  ghost predicate Stops(specs: Specs, n: string) {
    n in specs && PresentPrefix(specs, specs[n].dependsOn) < |specs[n].dependsOn|
  }

  /** Its dependencies before the missing one. */
  ghost function Before(specs: Specs, n: string): seq<string>
    requires n in specs
  {
    specs[n].dependsOn[..PresentPrefix(specs, specs[n].dependsOn)]
  }

  lemma StopsExactly(specs: Specs)
    ensures Closed(specs) <==> forall n :: !Stops(specs, n)
  {
    forall n | n in specs ensures Stops(specs, n) <==> exists d :: d in specs[n].dependsOn && d !in specs {
      var deps := specs[n].dependsOn;
      var k := PresentPrefix(specs, deps);
      if k < |deps| { assert deps[k] in deps && deps[k] !in specs; }
      if d :| d in deps && d !in specs { var i :| 0 <= i < |deps| && deps[i] == d; }
    }
  }

  /** Along an order that starts with a stopping spec, only that spec's first dependencies are connected. */
  lemma StoppingFirst(specs: Specs, n: string)
    requires Stops(specs, n)
    ensures MayLeave(specs, EdgesInto(n, Before(specs, n)))
  {
    var k := PresentPrefix(specs, specs[n].dependsOn);
    var e, missing := EdgesInto(n, Before(specs, n)), specs[n].dependsOn[k];
    assert EdgesOfNames(specs, {}) == {};
    assert StoppedAt(specs, e, n, missing, {}, k);
    var order := OrderOfBuild(specs, e, n, missing, {}, k);
  }

  lemma StarReach(n: string, deps: seq<string>, d: string, x: string)
    requires d != x && Reaches(EdgesInto(n, deps), d, x)
    ensures x == n && d in deps
  {
    var p :| PathFrom(EdgesInto(n, deps), d, p, x);
    assert (p[0], p[1]) in EdgesInto(n, deps);
    assert (p[|p| - 2], p[|p| - 1]) in EdgesInto(n, deps);
  }

  /** In every order each link is connected before any spec can stop the build. */
  ghost predicate LinksComeFirst(registered: Specs, specs: Specs) {
    forall d, x, n :: Linked(registered, d, x) && Stops(specs, n) ==> x == n && d in Before(specs, n)
  }

  lemma PartialBuildStops(specs: Specs, e: set<(string, string)>, n: string, missing: string)
    requires PartialBuild(specs, e, n, missing)
    ensures Stops(specs, n) && EdgesInto(n, Before(specs, n)) <= e
  {
    var scanned, k :| StoppedAt(specs, e, n, missing, scanned, k);
    assert PresentPrefix(specs, specs[n].dependsOn) == k;
  }

  lemma LinksFirstKept(registered: Specs, added: TunnelSpec, order: seq<string>)
    requires Keyed(registered) && added.name !in registered
    requires var specs := registered[added.name := added]; LinksComeFirst(registered, specs) && MapOrder(specs, order)
    ensures KeepsLinks(registered, BuildAlong(registered[added.name := added], order).edges)
  {
    var specs := registered[added.name := added];
    BuildOutcome(specs, order);
    var b := BuildAlong(specs, order);
    if b.error.Some? {
      PartialBuildStops(specs, b.edges, b.error.value.name, b.error.value.dependency);
    }
    forall d, x | Linked(registered, d, x) ensures (d, x) in b.edges {
      assert specs[x] == registered[x];
    }
  }

  /**
   * An add of a new name leaves the cascades of all registered tunnels complete, in every iteration
   * order, exactly when no spec with a missing dependency can stop the build before a registered
   * dependency is connected.
   */
  lemma DependentsSurviveExactly(registered: Specs, added: TunnelSpec)
    requires Keyed(registered) && added.name !in registered
    ensures var specs := registered[added.name := added];
      (forall e :: MayLeave(specs, e) ==> FindsDependents(registered, e)) <==> LinksComeFirst(registered, specs)
  {
    var specs := registered[added.name := added];
    if LinksComeFirst(registered, specs) {
      forall e | MayLeave(specs, e) ensures FindsDependents(registered, e) {
        var order :| MapOrder(specs, order) && BuildAlong(specs, order).edges == e;
        LinksFirstKept(registered, added, order);
        KeptLinksFind(registered, e);
      }
    }
    if forall e :: MayLeave(specs, e) ==> FindsDependents(registered, e) {
      forall d, x, n | Linked(registered, d, x) && Stops(specs, n) ensures x == n && d in Before(specs, n) {
        StoppingFirst(specs, n);
        var e := EdgesInto(n, Before(specs, n));
        assert FindsDependents(registered, e);
        ReachesSelf(DepEdges(registered), d);
        assert (d, x) in DepEdges(registered);
        ReachesStep(DepEdges(registered), d, d, x);
        StarReach(n, Before(specs, n), d, x);
      }
    }
  }

  /**
   * For a registry whose dependencies are all registered: after the add, accepted or not, cascades are
   * complete in every iteration order exactly when the new spec's dependencies exist, or no registered
   * tunnel depends on another. A rejection for a cycle is therefore harmless; one for a missing
   * dependency may lose the dependents of every tunnel.
   */
  lemma RejectedAddMayForgetDependents(registered: Specs, added: TunnelSpec)
    requires Keyed(registered) && Closed(registered) && added.name !in registered
    ensures var specs := registered[added.name := added];
      (forall e :: MayLeave(specs, e) ==> FindsDependents(registered, e))
      <==> Closed(specs) || forall d, x :: !Linked(registered, d, x)
  {
    var specs := registered[added.name := added];
    DependentsSurviveExactly(registered, added);
    StopsExactly(specs);
    forall n | Stops(specs, n) ensures n == added.name {
      var deps := specs[n].dependsOn;
      var d := deps[PresentPrefix(specs, deps)];
      assert d in deps && d !in specs;
    }
  }
}
