/**
 * The tunnel registry as a value: the supervisor's process map beside the planner's spec map, the
 * three operations that change both, and what every sequence of them keeps.
 */
module Registries {
  import opened Basics
  import opened Proto
  import opened Graphs
  import opened Planning
  import opened Claiming
  import opened Ports
  import opened Traversal

  /** `planned`: the specs of the planner's latest Plan, when it built the whole graph (it succeeded, or found a cycle). */
  datatype Registry = Registry(processes: Specs, specs: Specs, planned: Option<Specs>)

  datatype Verdict = Accepted | Duplicate | PortConflict | DiskFailed | BadDependencies

  ghost predicate ConflictFree(processes: Specs, spec: TunnelSpec) {
    forall n :: n in processes ==> !KeysClash(processes[n], spec)
  }

  /** The checks of AddTunnel, in the order it makes them. */
  ghost function AddVerdict(r: Registry, spec: TunnelSpec, diskOk: bool): Verdict {
    if spec.name in r.processes then Duplicate
    else if !ConflictFree(r.processes, spec) then PortConflict
    else if !diskOk then DiskFailed
    else if !Plannable(r.specs[spec.name := spec]) then BadDependencies
    else Accepted
  }

  /** Each outcome of AddTunnel's checks by its cause: the first check that fails names the reason. */
  lemma VerdictExactly(r: Registry, spec: TunnelSpec, diskOk: bool)
    ensures var v, free := AddVerdict(r, spec, diskOk), spec.name !in r.processes;
      var clear := forall n :: n in r.processes ==> !Shares(KeysOf(r.processes[n]), KeysOf(spec));
      var plans := Plannable(r.specs[spec.name := spec]);
      && (v == Duplicate <==> !free)
      && (v == PortConflict <==> free && !clear)
      && (v == DiskFailed <==> free && clear && !diskOk)
      && (v == BadDependencies <==> free && clear && diskOk && !plans)
      && (v == Accepted <==> free && clear && diskOk && plans)
  {
  }

  /** AddTunnel: registers in the planner first and takes that back when planning fails. */
  ghost function Add(r: Registry, spec: TunnelSpec, diskOk: bool): Registry {
    match AddVerdict(r, spec, diskOk)
    case Accepted =>
      var specs := r.specs[spec.name := spec];
      Registry(r.processes[spec.name := spec], specs, Some(specs))
    case BadDependencies =>
      var specs := r.specs[spec.name := spec];
      Registry(r.processes, specs - {spec.name}, if Closed(specs) then Some(specs) else None)
    case _ => r
  }

  ghost function Remove(r: Registry, name: string): Registry {
    if name in r.processes then Registry(r.processes - {name}, r.specs - {name}, r.planned) else r
  }

  /** The gRPC Update: nothing to register when the spec is unchanged, otherwise remove, then add. */
  ghost function Update(r: Registry, spec: TunnelSpec, diskOk: bool): Registry {
    if spec.name in r.processes && r.processes[spec.name] == spec then r
    else Add(Remove(r, spec.name), spec, diskOk)
  }

  datatype Op = AddOp(spec: TunnelSpec, diskOk: bool) | RemoveOp(name: string) | UpdateOp(spec: TunnelSpec, diskOk: bool)

  ghost function Apply(r: Registry, op: Op): Registry {
    match op
    case AddOp(spec, diskOk) => Add(r, spec, diskOk)
    case RemoveOp(name) => Remove(r, name)
    case UpdateOp(spec, diskOk) => Update(r, spec, diskOk)
  }

  ghost function ApplyAll(r: Registry, ops: seq<Op>): Registry {
    if ops == [] then r else Apply(ApplyAll(r, ops[..|ops| - 1]), ops[|ops| - 1])
  }

  const EMPTY := Registry(map[], map[], None)

  // ---- The invariant of all runs ----

  ghost predicate SubSpecs(a: Specs, b: Specs) {
    forall n :: n in a ==> n in b && b[n] == a[n]
  }

  /**
   * Both maps agree, no two tunnels claim one key, there is no dependency cycle, and only removals
   * separate the registry from the latest Plan that built the whole graph.
   */
  ghost predicate Safe(r: Registry) {
    && r.processes == r.specs && Keyed(r.specs)
    && DisjointClaims(r.processes)
    && Acyclic(DepEdges(r.specs))
    && (r.planned.Some? ==> SubSpecs(r.specs, r.planned.value))
  }

  lemma RemoveKeepsSafe(r: Registry, name: string)
    requires Safe(r)
    ensures Safe(Remove(r, name))
  {
    var r' := Remove(r, name);
    assert DepEdges(r'.specs) <= DepEdges(r.specs);
    AcyclicSubset(DepEdges(r'.specs), DepEdges(r.specs));
  }

  lemma AddKeepsSafe(r: Registry, spec: TunnelSpec, diskOk: bool)
    requires Safe(r)
    ensures Safe(Add(r, spec, diskOk))
  {
    if AddVerdict(r, spec, diskOk).BadDependencies? {
      assert r.specs[spec.name := spec] - {spec.name} == r.specs;
    }
  }

  lemma ApplyKeepsSafe(r: Registry, op: Op)
    requires Safe(r)
    ensures Safe(Apply(r, op))
  {
    match op
    case AddOp(spec, diskOk) => AddKeepsSafe(r, spec, diskOk);
    case RemoveOp(name) => RemoveKeepsSafe(r, name);
    case UpdateOp(spec, diskOk) =>
      RemoveKeepsSafe(r, spec.name);
      AddKeepsSafe(Remove(r, spec.name), spec, diskOk);
  }

  /** Registry safety: every sequence of adds, removes and updates keeps the invariant. */
  lemma {:induction false} RunsStaySafe(r: Registry, ops: seq<Op>)
    requires Safe(r)
    ensures Safe(ApplyAll(r, ops))
    decreases |ops|
  {
    if ops != [] {
      RunsStaySafe(r, ops[..|ops| - 1]);
      ApplyKeepsSafe(ApplyAll(r, ops[..|ops| - 1]), ops[|ops| - 1]);
    }
  }

  /** After any run, an accepted add leaves a closed set, and a rejected one both maps exactly as they were. */
  lemma AddIsAllOrNothing(start: Registry, ops: seq<Op>, spec: TunnelSpec, diskOk: bool)
    requires Safe(start)
    ensures var r := ApplyAll(start, ops);
      var r' := Add(r, spec, diskOk);
      if AddVerdict(r, spec, diskOk).Accepted?
      then Plannable(r'.specs) && r'.planned == Some(r'.specs) && r'.processes == r.processes[spec.name := spec]
      else r'.processes == r.processes && r'.specs == r.specs
  {
    RunsStaySafe(start, ops);
    var r := ApplyAll(start, ops);
    if AddVerdict(r, spec, diskOk).BadDependencies? {
      assert r.specs[spec.name := spec] - {spec.name} == r.specs;
    }
  }

  /**
   * The three port checks agree except on one tunnel's own forwards: AddTunnel compares a spec only with
   * the tunnels already there, so what it accepts passes the check of Run and Validate exactly when the
   * spec repeats no key of its own.
   */
  lemma AddAgreesWithRunCheck(r: Registry, spec: TunnelSpec, diskOk: bool)
    requires Safe(r) && AddVerdict(r, spec, diskOk).Accepted?
    ensures NoDoubleClaim(Add(r, spec, diskOk).specs) <==> NoDoubleClaim(r.specs) && Distinct(KeysOf(spec))
  {
    var specs := Add(r, spec, diskOk).specs;
    AddKeepsSafe(r, spec, diskOk);
    forall n | n in r.specs ensures n in specs && specs[n] == r.specs[n] {}
    assert specs[spec.name] == spec;
  }

  ghost function Forwarding(name: string, deps: seq<string>, forwards: seq<SSHForward>): TunnelSpec {
    TunnelSpec(name, deps, Ssh(SSHSpec("", "", 0, "", forwards, map[], "")), None, None, None, None)
  }

  ghost function Alone(spec: TunnelSpec): Specs {
    map[spec.name := spec]
  }

  lemma AloneIsPlannable(spec: TunnelSpec)
    requires spec.dependsOn == []
    ensures Plannable(Alone(spec))
  {
    assert DepEdges(Alone(spec)) == {};
    RankedIsAcyclic(DepEdges(Alone(spec)), map[]);
  }

  /** The difference is real: any forward with a fixed port, given twice, is accepted by AddTunnel alone. */
  lemma RepeatedKeyIsAccepted(name: string, f: SSHForward)
    requires f.listenPort != 0
    ensures var spec := Forwarding(name, [], [f, f]);
      AddVerdict(EMPTY, spec, true).Accepted? && !NoDoubleClaim(Add(EMPTY, spec, true).specs)
  {
    var spec := Forwarding(name, [], [f, f]);
    AloneIsPlannable(spec);
    assert EMPTY.specs[spec.name := spec] == Alone(spec);
    var key := ClaimKey(f.listenAddress, f.listenPort);
    var fs := ForwardsOf(spec.kind);
    assert fs == [fs[0], fs[0]];
    RepeatedKeys(fs[0], key);
    assert [key, key][0] == [key, key][1];
    assert Add(EMPTY, spec, true).specs[name] == spec;
  }

  lemma RepeatedKeys(f: Forward, key: string)
    requires f.port != 0 && key == ClaimKey(f.address, f.port)
    ensures KeysOfForwards([f, f]) == [key, key]
  {
    assert [f, f][..1] == [f] && [f][..0] == [];
    assert KeysOfForwards([f]) == KeysOfForwards([]) + [key];
  }

  lemma RemovedMaps(r: Registry, name: string)
    requires Safe(r)
    ensures Remove(r, name).processes == r.processes - {name} && Remove(r, name).specs == r.specs - {name}
  {
    if name !in r.processes { assert r.processes - {name} == r.processes && r.specs - {name} == r.specs; }
  }

  lemma VerdictAfterRemove(r: Registry, spec: TunnelSpec, diskOk: bool)
    requires Safe(r)
    ensures AddVerdict(Remove(r, spec.name), spec, diskOk).Accepted?
       <==> diskOk && ConflictFree(r.processes - {spec.name}, spec) && Plannable(r.specs[spec.name := spec])
  {
    RemovedMaps(r, spec.name);
    assert (r.specs - {spec.name})[spec.name := spec] == r.specs[spec.name := spec];
  }

  lemma AddTouchesOneName(r: Registry, spec: TunnelSpec, diskOk: bool)
    requires spec.name !in r.processes
    ensures spec.name in Add(r, spec, diskOk).processes <==> AddVerdict(r, spec, diskOk).Accepted?
    ensures Add(r, spec, diskOk).processes - {spec.name} == r.processes
  {
    assert r.processes - {spec.name} == r.processes;
  }

  /**
   * Update is not all or nothing: it removes the old tunnel before it knows whether the new spec
   * passes. The name stays registered exactly when the spec is unchanged, or it can be saved, shares no
   * port with the other tunnels and plans together with them; every other tunnel is left alone.
   */
  lemma UpdateSurvives(r: Registry, spec: TunnelSpec, diskOk: bool)
    requires Safe(r)
    ensures spec.name in Update(r, spec, diskOk).processes
       <==> (spec.name in r.processes && r.processes[spec.name] == spec)
            || (diskOk && ConflictFree(r.processes - {spec.name}, spec) && Plannable(r.specs[spec.name := spec]))
    ensures Update(r, spec, diskOk).processes - {spec.name} == r.processes - {spec.name}
  {
    RemovedMaps(r, spec.name);
    VerdictAfterRemove(r, spec, diskOk);
    AddTouchesOneName(Remove(r, spec.name), spec, diskOk);
  }

  /** A registry reached by one accepted add, in which an update naming a missing dependency loses the tunnel. */
  lemma UpdateLosesTunnel(name: string, missing: string)
    requires name != missing
    ensures var before, spec := ApplyAll(EMPTY, [AddOp(Forwarding(name, [], []), true)]), Forwarding(name, [missing], []);
      && before.processes == Alone(Forwarding(name, [], []))
      && Update(before, spec, true).processes == map[]
  {
    var old', spec := Forwarding(name, [], []), Forwarding(name, [missing], []);
    AloneIsPlannable(old');
    var ops := [AddOp(old', true)];
    assert ops[..0] == [] && ApplyAll(EMPTY, []) == EMPTY;
    assert EMPTY.specs[name := old'] == Alone(old') == EMPTY.processes[name := old'];
    var before := ApplyAll(EMPTY, ops);
    assert before == Add(EMPTY, old', true);
    assert Remove(before, name).processes == map[];
    assert missing in spec.dependsOn && missing !in Remove(before, name).specs[name := spec];
  }

  // ---- What a removal does to later adds ----

  /** Some registered tunnel depends on the name, which is not registered. */
  ghost predicate Dangling(specs: Specs, d: string) {
    d !in specs && exists n :: n in specs && d in specs[n].dependsOn
  }

  /** Some spec of that name would be accepted. */
  ghost predicate Addable(r: Registry, name: string) {
    exists spec: TunnelSpec :: spec.name == name && AddVerdict(r, spec, true).Accepted?
  }

  lemma DanglingBlocks(r: Registry, spec: TunnelSpec, d: string)
    requires Dangling(r.specs, d) && d != spec.name && spec.name !in r.specs
    ensures !Plannable(r.specs[spec.name := spec])
  {
    var n :| n in r.specs && d in r.specs[n].dependsOn;
    var specs := r.specs[spec.name := spec];
    assert n in specs && d in specs[n].dependsOn && d !in specs;
  }

  /** A tunnel without dependencies and forwards can be added when it is all that is missing. */
  lemma PlainIsAccepted(r: Registry, name: string)
    requires Safe(r) && name !in r.processes && forall d :: Dangling(r.specs, d) ==> d == name
    ensures AddVerdict(r, Forwarding(name, [], []), true).Accepted?
  {
    var spec := Forwarding(name, [], []);
    var specs := r.specs[name := spec];
    assert KeysOf(spec) == [] by { assert ForwardsOf(spec.kind) == []; }
    assert DepEdges(specs) == DepEdges(r.specs);
    forall n, d | n in specs && d in specs[n].dependsOn ensures d in specs {
      assert n in r.specs && specs[n] == r.specs[n];
      assert d !in r.specs ==> Dangling(r.specs, d);
    }
  }

  /** A name can be added exactly when it is free and no registered tunnel depends on another missing name. */
  lemma DanglingDependencyBlocksAdds(r: Registry, name: string)
    requires Safe(r)
    ensures Addable(r, name) <==> name !in r.processes && forall d :: Dangling(r.specs, d) ==> d == name
  {
    if spec: TunnelSpec :| spec.name == name && AddVerdict(r, spec, true).Accepted? {
      forall d | Dangling(r.specs, d) ensures d == name {
        if d != name { DanglingBlocks(r, spec, d); }
      }
    }
    if name !in r.processes && forall d :: Dangling(r.specs, d) ==> d == name { PlainIsAccepted(r, name); }
  }

  /**
   * Removing a tunnel from a closed registry leaves it closed exactly when no other tunnel depends on it;
   * otherwise no other name can be added any more, and if it does stay closed every free name can.
   */
  lemma RemovalBlocksAdds(r: Registry, name: string)
    requires Safe(r) && Closed(r.specs) && name in r.processes
    ensures var r' := Remove(r, name);
      && (Closed(r'.specs) <==> forall n :: n in r.specs && n != name ==> name !in r.specs[n].dependsOn)
      && forall x :: x != name && x !in r.processes ==> (Addable(r', x) <==> Closed(r'.specs))
  {
    var r' := Remove(r, name);
    RemoveKeepsSafe(r, name);
    forall n | n in r'.specs ensures n in r.specs && r'.specs[n] == r.specs[n] {}
    forall d | Dangling(r'.specs, d) ensures d == name {
      var n :| n in r'.specs && d in r'.specs[n].dependsOn;
      assert n in r.specs;
    }
    if forall n :: n in r.specs && n != name ==> name !in r.specs[n].dependsOn {
      assert Closed(r'.specs);
    } else {
      var n :| n in r.specs && n != name && name in r.specs[n].dependsOn;
      assert n in r'.specs && Dangling(r'.specs, name);
    }
    forall x | x != name && x !in r.processes ensures Addable(r', x) <==> Closed(r'.specs) {
      DanglingDependencyBlocksAdds(r', x);
    }
  }

  // ---- Replaying a planned order ----

  ghost function SpecMap(order: seq<TunnelSpec>): Specs {
    if order == [] then map[] else SpecMap(order[..|order| - 1])[order[|order| - 1].name := order[|order| - 1]]
  }

  ghost predicate DistinctNames(order: seq<TunnelSpec>) {
    forall i, j :: 0 <= i < j < |order| ==> order[i].name != order[j].name
  }

  lemma {:induction false} SpecMapKeys(order: seq<TunnelSpec>)
    ensures SpecMap(order).Keys == Names(order)
    decreases |order|
  {
    if order != [] {
      SpecMapKeys(order[..|order| - 1]);
      assert order == order[..|order| - 1] + [order[|order| - 1]];
    }
  }

  lemma {:induction false} SpecMapAt(order: seq<TunnelSpec>, i: nat)
    requires DistinctNames(order) && i < |order|
    ensures order[i].name in SpecMap(order) && SpecMap(order)[order[i].name] == order[i]
    decreases |order|
  {
    if i < |order| - 1 { SpecMapAt(order[..|order| - 1], i); }
  }

  lemma SpecMapHas(order: seq<TunnelSpec>)
    requires DistinctNames(order)
    ensures SpecMap(order).Keys == Names(order)
    ensures forall i :: 0 <= i < |order| ==> order[i].name in SpecMap(order) && SpecMap(order)[order[i].name] == order[i]
  {
    SpecMapKeys(order);
    forall i | 0 <= i < |order| ensures order[i].name in SpecMap(order) && SpecMap(order)[order[i].name] == order[i] {
      SpecMapAt(order, i);
    }
  }

  lemma SpecMapOfStartOrder(specs: Specs, order: seq<TunnelSpec>)
    requires Keyed(specs) && StartOrder(specs, order)
    ensures SpecMap(order) == specs
  {
    SpecMapHas(order);
    forall n | n in specs ensures n in SpecMap(order) && SpecMap(order)[n] == specs[n] {
      var i :| 0 <= i < |order| && order[i] == specs[n];
    }
    forall n | n in SpecMap(order) ensures n in specs {
      var s :| s in order && s.name == n;
    }
  }

  lemma IndexOfName(order: seq<TunnelSpec>, n: string) returns (i: nat)
    requires n in Names(order)
    ensures i < |order| && order[i].name == n
  {
    var s :| s in order && s.name == n;
    i :| 0 <= i < |order| && order[i] == s;
  }

  lemma PrefixClosed(specs: Specs, order: seq<TunnelSpec>, k: nat)
    requires StartOrder(specs, order) && k <= |order|
    ensures Closed(SpecMap(order[..k])) && SubSpecs(SpecMap(order[..k]), specs)
  {
    var prefix := order[..k];
    SpecMapHas(prefix);
    var ps := SpecMap(prefix);
    forall n | n in ps ensures n in specs && specs[n] == ps[n] {
      var i := IndexOfName(prefix, n);
      assert ps[prefix[i].name] == order[i];
    }
    forall n, d | n in ps && d in ps[n].dependsOn ensures d in ps {
      var i := IndexOfName(prefix, n);
      assert ps[prefix[i].name] == order[i];
      var j := IndexOfName(order[..i], d);
      NamesHas(prefix, j);
    }
  }

  /** Every prefix of a start order is itself closed and acyclic, and agrees with the whole. */
  lemma PrefixPlannable(specs: Specs, order: seq<TunnelSpec>, k: nat)
    requires Plannable(specs) && StartOrder(specs, order) && k <= |order|
    ensures Plannable(SpecMap(order[..k])) && SubSpecs(SpecMap(order[..k]), specs)
  {
    PrefixClosed(specs, order, k);
    AcyclicSubset(DepEdges(SpecMap(order[..k])), DepEdges(specs));
  }

  ghost function AddsOf(order: seq<TunnelSpec>): (ops: seq<Op>)
    ensures |ops| == |order| && forall i :: 0 <= i < |order| ==> ops[i] == AddOp(order[i], true)
  {
    seq(|order|, i requires 0 <= i < |order| => AddOp(order[i], true))
  }

  lemma NextConflictFree(specs: Specs, order: seq<TunnelSpec>, k: nat, processes: Specs)
    requires StartOrder(specs, order) && DisjointClaims(specs) && k < |order|
    requires processes == SpecMap(order[..k]) && SubSpecs(processes, specs)
    ensures order[k].name !in processes && ConflictFree(processes, order[k])
  {
    var s := order[k];
    SpecMapHas(order[..k]);
    forall t | t in order[..k] ensures t.name != s.name {
      var i :| 0 <= i < k && order[i] == t;
    }
    forall n | n in processes ensures !KeysClash(processes[n], s) {
      assert n in specs && s.name in specs && n != s.name;
    }
  }

  /** The next spec of a start order passes every check of AddTunnel on the specs before it. */
  lemma NextIsAccepted(specs: Specs, order: seq<TunnelSpec>, k: nat, r: Registry)
    requires Plannable(specs) && StartOrder(specs, order) && DisjointClaims(specs) && k < |order|
    requires r.processes == r.specs == SpecMap(order[..k])
    ensures AddVerdict(r, order[k], true) == Accepted
    ensures r.specs[order[k].name := order[k]] == SpecMap(order[..k + 1])
  {
    assert order[..k + 1][..k] == order[..k];
    PrefixClosed(specs, order, k);
    PrefixPlannable(specs, order, k + 1);
    NextConflictFree(specs, order, k, r.processes);
  }

  ghost predicate Replayed(r: Registry, order: seq<TunnelSpec>, k: nat)
    requires k <= |order|
  {
    r.processes == r.specs == SpecMap(order[..k])
  }

  lemma ReplayStep(specs: Specs, order: seq<TunnelSpec>, k: nat, r: Registry)
    requires Plannable(specs) && StartOrder(specs, order) && DisjointClaims(specs) && k < |order|
    requires Replayed(r, order, k)
    ensures Replayed(Apply(r, AddOp(order[k], true)), order, k + 1)
  {
    NextIsAccepted(specs, order, k, r);
  }

  lemma ApplyNext(r: Registry, ops: seq<Op>, k: nat)
    requires k < |ops|
    ensures ApplyAll(r, ops[..k + 1]) == Apply(ApplyAll(r, ops[..k]), ops[k])
  {
    assert ops[..k + 1][..k] == ops[..k];
  }

  lemma {:induction false} ReplayPrefix(specs: Specs, order: seq<TunnelSpec>, k: nat) returns (r: Registry)
    requires Plannable(specs) && StartOrder(specs, order) && DisjointClaims(specs) && k <= |order|
    ensures r == ApplyAll(EMPTY, AddsOf(order)[..k]) && Replayed(r, order, k)
    decreases k
  {
    if k == 0 {
      r := EMPTY;
    } else {
      var q := ReplayPrefix(specs, order, k - 1);
      r := Apply(q, AddOp(order[k - 1], true));
      ReplayStep(specs, order, k - 1, q);
      ApplyNext(EMPTY, AddsOf(order), k - 1);
    }
  }

  lemma ReplayAccepted(specs: Specs, order: seq<TunnelSpec>, k: nat)
    requires Plannable(specs) && StartOrder(specs, order) && DisjointClaims(specs) && k < |order|
    ensures AddVerdict(ApplyAll(EMPTY, AddsOf(order)[..k]), order[k], true) == Accepted
  {
    var r := ReplayPrefix(specs, order, k);
    NextIsAccepted(specs, order, k, r);
  }

  lemma ReplayEnds(specs: Specs, order: seq<TunnelSpec>)
    requires Keyed(specs) && Plannable(specs) && StartOrder(specs, order) && DisjointClaims(specs)
    ensures ApplyAll(EMPTY, AddsOf(order)).processes == specs == ApplyAll(EMPTY, AddsOf(order)).specs
  {
    var r := ReplayPrefix(specs, order, |order|);
    assert AddsOf(order)[..|order|] == AddsOf(order) && order[..|order|] == order;
    SpecMapOfStartOrder(specs, order);
  }

  /** Every add of the replay is accepted, and it ends with exactly the planned set. */
  lemma Replay(specs: Specs, order: seq<TunnelSpec>)
    requires Keyed(specs) && Plannable(specs) && StartOrder(specs, order) && DisjointClaims(specs)
    ensures ApplyAll(EMPTY, AddsOf(order)).processes == specs == ApplyAll(EMPTY, AddsOf(order)).specs
    ensures forall k :: 0 <= k < |order| ==>
      AddVerdict(ApplyAll(EMPTY, AddsOf(order)[..k]), order[k], true) == Accepted
  {
    forall k | 0 <= k < |order|
      ensures AddVerdict(ApplyAll(EMPTY, AddsOf(order)[..k]), order[k], true) == Accepted
    {
      ReplayAccepted(specs, order, k);
    }
    ReplayEnds(specs, order);
  }
}
