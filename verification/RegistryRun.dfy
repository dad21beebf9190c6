/**
 * The step system and the registry are two views of one daemon: every sequence of registry operations is
 * a run, and every run, read through the labels that change the registry, is a sequence of operations.
 */
module RegistryRuns {
  import opened Basics
  import opened Proto
  import opened Graphs
  import opened Traversal
  import opened Planning
  import opened Registries
  import opened Lifecycle

  /** The registry is the state's, and the planner's graph is what the registry's latest whole Plan built. */
  ghost predicate Mirrors(s: State, r: Registry) {
    && s.pending == map[] && r.processes == RegSpecs(s) == r.specs
    && (s.current <==> r.planned.Some?)
    && (s.current ==> s.graph == DepEdges(r.planned.value) && s.indexed == r.planned.value.Keys)
  }

  /** Nothing registered, and nothing that a Plan could have missed. */
  const BOOTED := Registry(map[], map[], Some(map[]))

  lemma BootMirrors()
    ensures WellNamed(BOOT) && Mirrors(BOOT, BOOTED) && Safe(BOOTED)
  {
    assert RegSpecs(BOOT) == map[];
    assert DepEdges(map[]) == {};
    RankedIsAcyclic(DepEdges(map[]), map[]);
  }

  lemma MirroredPlanner(s: State, r: Registry)
    requires Mirrors(s, r)
    ensures PlannerSpecs(s) == r.specs
  {
  }

  // ---- From steps to operations ----

  /** The operation that a label performs on the registry. */
  ghost function OpOf(l: Label): Option<Op> {
    match l
    case Register(spec) => Some(AddOp(spec, true))
    case RejectAdd(spec, _) => Some(AddOp(spec, true))
    case Unregister(name) => Some(RemoveOp(name))
    case _ => None
  }

  /** Adds of the run get past the comparison of ports, which the step system leaves out. */
  ghost predicate PastPorts(r: Registry, l: Label) {
    l.Register? || l.RejectAdd? ==> ConflictFree(r.processes, l.spec)
  }

  lemma RegisterIsAdd(s: State, r: Registry, spec: TunnelSpec, s': State)
    requires WellNamed(s) && Mirrors(s, r) && Next(s, Register(spec)) == Some(s') && ConflictFree(r.processes, spec)
    ensures AddVerdict(r, spec, true) == Accepted && Mirrors(s', Add(r, spec, true))
  {
    MirroredPlanner(s, r);
    AddProcessSpecs(s, spec, s');
  }

  lemma RejectIsAdd(s: State, r: Registry, spec: TunnelSpec, graph: set<(string, string)>, s': State)
    requires WellNamed(s) && Mirrors(s, r) && Next(s, RejectAdd(spec, graph)) == Some(s') && ConflictFree(r.processes, spec)
    ensures AddVerdict(r, spec, true) == BadDependencies && Mirrors(s', Add(r, spec, true))
  {
    MirroredPlanner(s, r);
    assert RegSpecs(s') == RegSpecs(s);
    assert r.specs[spec.name := spec] - {spec.name} == r.specs;
  }

  lemma UnregisterIsRemove(s: State, r: Registry, name: string, s': State)
    requires WellNamed(s) && Mirrors(s, r) && Next(s, Unregister(name)) == Some(s')
    ensures name in r.processes && Mirrors(s', Remove(r, name))
  {
    assert RegSpecs(s') == RegSpecs(s) - {name};
  }

  lemma OtherSteps(s: State, r: Registry, l: Label, s': State)
    requires WellNamed(s) && Mirrors(s, r) && Next(s, l) == Some(s')
    requires OpOf(l).None? && !l.Configure? && !l.RegisterNext?
    ensures Mirrors(s', r)
  {
    NextKeepsSpecs(s, l, s');
    assert RegSpecs(s') == RegSpecs(s);
  }

  /** One step: the operation of its label, and nothing when it has none. */
  lemma StepIsOp(s: State, r: Registry, l: Label, s': State)
    requires WellNamed(s) && Mirrors(s, r) && Next(s, l) == Some(s') && PastPorts(r, l)
    requires !l.Configure? && !l.RegisterNext?
    ensures Mirrors(s', if OpOf(l).None? then r else Apply(r, OpOf(l).value))
  {
    if l.Register? { RegisterIsAdd(s, r, l.spec, s'); }
    else if l.RejectAdd? { RejectIsAdd(s, r, l.spec, l.graph, s'); }
    else if l.Unregister? { UnregisterIsRemove(s, r, l.name, s'); }
    else { OtherSteps(s, r, l, s'); }
  }

  ghost function OpsOf(ls: seq<Label>): seq<Op> {
    if ls == [] then []
    else OpsOf(ls[..|ls| - 1]) + match OpOf(ls[|ls| - 1]) case None => [] case Some(op) => [op]
  }

  /** A run after the start-up: no configuration, and every add past the comparison of ports. */
  ghost predicate Serving(ls: seq<Label>) {
    forall i :: 0 <= i < |ls| ==>
      !ls[i].Configure? && !ls[i].RegisterNext? && PastPorts(ApplyAll(BOOTED, OpsOf(ls[..i])), ls[i])
  }

  lemma ServingPrefix(ls: seq<Label>)
    requires Serving(ls) && ls != []
    ensures Serving(ls[..|ls| - 1])
  {
    var init := ls[..|ls| - 1];
    forall i | 0 <= i < |init| ensures init[..i] == ls[..i] && init[i] == ls[i] {}
  }

  /** Every run is the sequence of its operations. */
  lemma {:induction false} RunIsOps(ls: seq<Label>, end: State)
    requires Exec(BOOT, ls) == Some(end) && Serving(ls)
    ensures Mirrors(end, ApplyAll(BOOTED, OpsOf(ls)))
    decreases |ls|
  {
    if ls == [] {
      BootMirrors();
    } else {
      var init, l := ls[..|ls| - 1], ls[|ls| - 1];
      var q := Exec(BOOT, init).value;
      ServingPrefix(ls);
      RunIsOps(init, q);
      BootedWell(init, q);
      StepIsOp(q, ApplyAll(BOOTED, OpsOf(init)), l, end);
      if OpOf(l).Some? { assert OpsOf(ls)[..|OpsOf(ls)| - 1] == OpsOf(init); }
      else { assert OpsOf(ls) == OpsOf(init); }
    }
  }

  // ---- From operations to steps ----

  /** A failed Plan has left something behind. */
  lemma SomeGraphIsLeft(specs: Specs) returns (graph: set<(string, string)>)
    ensures LeftByPlan(specs, graph)
  {
    var order := Enumerate(specs.Keys);
    assert forall n :: n in order <==> n in Members(order);
    assert MapOrder(specs, order);
    BuildOutcome(specs, order);
    graph := BuildAlong(specs, order).edges;
  }

  lemma AddIsStep(s: State, r: Registry, spec: TunnelSpec, diskOk: bool) returns (ls: seq<Label>)
    requires WellNamed(s) && Mirrors(s, r)
    ensures Exec(s, ls).Some? && Mirrors(Exec(s, ls).value, Add(r, spec, diskOk))
  {
    MirroredPlanner(s, r);
    var v := AddVerdict(r, spec, diskOk);
    if v.Accepted? {
      ls := [Register(spec)];
      ExecFirst(s, Register(spec));
      RegisterIsAdd(s, r, spec, Next(s, Register(spec)).value);
    } else if v.BadDependencies? {
      var graph := SomeGraphIsLeft(r.specs[spec.name := spec]);
      ls := [RejectAdd(spec, graph)];
      ExecFirst(s, RejectAdd(spec, graph));
      RejectIsAdd(s, r, spec, graph, Next(s, RejectAdd(spec, graph)).value);
    } else {
      ls := [];
    }
  }

  lemma RemoveIsStep(s: State, r: Registry, name: string) returns (ls: seq<Label>)
    requires WellNamed(s) && Mirrors(s, r)
    ensures Exec(s, ls).Some? && Mirrors(Exec(s, ls).value, Remove(r, name))
  {
    if name in r.processes {
      ls := [Unregister(name)];
      ExecFirst(s, Unregister(name));
      UnregisterIsRemove(s, r, name, Next(s, Unregister(name)).value);
    } else {
      ls := [];
    }
  }

  lemma OpIsRun(s: State, r: Registry, op: Op) returns (ls: seq<Label>)
    requires WellNamed(s) && Mirrors(s, r)
    ensures Exec(s, ls).Some? && Mirrors(Exec(s, ls).value, Apply(r, op))
  {
    match op
    case AddOp(spec, diskOk) => ls := AddIsStep(s, r, spec, diskOk);
    case RemoveOp(name) => ls := RemoveIsStep(s, r, name);
    case UpdateOp(spec, diskOk) =>
      if Update(r, spec, diskOk) == r {
        ls := [];
      } else {
        var a := RemoveIsStep(s, r, spec.name);
        ExecKeepsWellNamed(s, a);
        var b := AddIsStep(Exec(s, a).value, Remove(r, spec.name), spec, diskOk);
        ls := a + b;
        ExecConcat(s, a, b);
      }
  }

  /** Every sequence of adds, removes and updates is a run. */
  lemma {:induction false} OpsAreRun(ops: seq<Op>) returns (ls: seq<Label>)
    ensures Exec(BOOT, ls).Some? && Mirrors(Exec(BOOT, ls).value, ApplyAll(BOOTED, ops))
    decreases |ops|
  {
    BootMirrors();
    if ops == [] {
      ls := [];
    } else {
      var init := ops[..|ops| - 1];
      var a := OpsAreRun(init);
      ExecKeepsWellNamed(BOOT, a);
      var b := OpIsRun(Exec(BOOT, a).value, ApplyAll(BOOTED, init), ops[|ops| - 1]);
      ls := a + b;
      ExecConcat(BOOT, a, b);
    }
  }
}
