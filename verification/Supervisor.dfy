/** internal/daemon/supervisor.go: the registry operations, the start-up loop and one uninterrupted failure handler. */
module Supervision {
  import opened Basics
  import opened Proto
  import opened Graphs
  import opened Traversal
  import opened Planning
  import opened Ports
  import opened Claiming
  import opened Processes
  import opened Registries
  import opened Backoff

  datatype RunError = PlanFailed(plan: PlanError) | ConfigConflict(conflict: Conflict)

  datatype AddOutcome = Added | StartFailed | Rejected(verdict: Verdict)

  /** What handleFailure decides before it sleeps. `delay` is None when the float product is out of range. */
  datatype Decision = Unregistered | StayDown | NoRestart | GiveUp | Restart(delay: Option<int>)

  ghost predicate IsDecision(p: Proc, d: Decision) {
    if p.WantsDown() then d == StayDown
    else if NeverRestarts(p.spec) then d == NoRestart
    else if BudgetSpent(p.spec, p.attempts) then d == GiveUp
    else d == Restart(if InRange(p.spec.restart.value, p.attempts)
                      then Some(RestartDelay(p.spec.restart.value, p.attempts)) else None)
  }

  /** A positive max_attempts that the counter, as an int32, has reached. */
  ghost predicate LimitReached(policy: RestartPolicySpec, attempts: nat) {
    policy.maxAttempts > 0 && WrapInt32(attempts) >= policy.maxAttempts
  }

  /** The failed tunnel itself after the decision. */
  function AfterDecision(p: Proc, d: Decision): Proc {
    if d.GiveUp? then p.WithStatus(Failed)
    else if d.Restart? then p.(attempts := p.attempts + 1)
    else p
  }

  /** A dependent after the cascade: told to stop unless it already is. */
  function Cascaded(p: Proc): Proc {
    if p.status.Stopped? then p else p.WantStopped()
  }

  /** A start's effect: nothing for a process that is up, otherwise it is wanted, and Starting if it was launched. */
  ghost predicate Started(before: Proc, after: Proc, r: AddOutcome) {
    if before.status.Stopped? || before.status.Failed? then
      && after.spec == before.spec && after.attempts == before.attempts && after.expected.DesiredRunning?
      && after.status == if r.Added? then Starting else before.status
    else after == before && (r.Added? ==> before.status.Running? || before.status.Starting?)
  }

  /** Registered and started, successfully or not. */
  ghost predicate Launched(spec: TunnelSpec, p: Proc) {
    && p.spec == spec && p.expected.DesiredRunning? && p.attempts == 0
    && (p.status.Starting? || p.status.Stopped?)
  }

  /** What the cascade and the decision write, field by field. */
  lemma WritesExactly(p: Proc, d: Decision)
    ensures Cascaded(p) == if p.status.Stopped? then p else p.(expected := DesiredStopped)
    ensures AfterDecision(p, d) ==
      match d
      case GiveUp => p.(status := Failed)
      case Restart(_) => p.(attempts := p.attempts + 1)
      case _ => p
  {
  }

  lemma DependentIsPlanned(graph: AdjacencyList, indices: map<string, nat>, name: string, x: string)
    requires Indexed(graph, indices) && IsDependent(graph, indices, name, x)
    ensures name in indices
  {
    var p :| PathFrom(graph.NameEdges(), name, p, x);
    assert (p[0], p[1]) in graph.NameEdges();
  }

  /** When the latest Plan built the whole graph, it knows every current dependent. */
  lemma CurrentDependentsArePlanned(r: Registry, graph: AdjacencyList, indices: map<string, nat>, name: string, x: string)
    requires Safe(r) && r.planned.Some? && Indexed(graph, indices)
    requires indices.Keys == r.planned.value.Keys && graph.NameEdges() == DepEdges(r.planned.value)
    requires x in r.specs && x != name && Reaches(DepEdges(r.specs), name, x)
    ensures IsDependent(graph, indices, name, x)
  {
    assert DepEdges(r.specs) <= DepEdges(r.planned.value);
    ReachesMonotone(DepEdges(r.specs), DepEdges(r.planned.value), name, x);
  }

  class Supervisor {
    const planner: Planner
    var processes: map<string, Process>

    ghost predicate Valid()
      reads this, planner
    {
      && planner.Valid()
      && (forall n :: n in processes ==> processes[n].spec.name == n)
    }

    ghost function View(): Registry
      reads this, planner
    {
      Registry(map n | n in processes :: processes[n].spec, planner.specs, planner.planned)
    }

    lemma DistinctObjects(m: string, n: string)
      requires Valid() && m in processes && n in processes && m != n
      ensures processes[m] != processes[n]
    {
      assert processes[m].spec.name != processes[n].spec.name;
    }

    constructor (planner: Planner)
      requires planner.Valid()
      ensures Valid() && this.planner == planner && processes == map[]
    {
      this.planner := planner;
      processes := map[];
    }

    /**
     * Run up to its wait: plan, check the port claims of the planned tunnels, then register and start
     * them one by one. `started` lists the names in the order in which they were started.
     */
    method Run() returns (r: Option<RunError>, started: seq<string>)
      requires Valid() && processes == map[]
      modifies this`processes, planner
      ensures Valid() && planner.specs == old(planner.specs)
      ensures r.None? <==> Plannable(planner.specs) && NoDoubleClaim(planner.specs)
      ensures r.None? ==>
        View() == Registry(planner.specs, planner.specs, Some(planner.specs)) && Safe(View())
      ensures r.None? ==> forall n :: n in processes ==> Launched(planner.specs[n], processes[n].View())
      ensures r.None? ==> exists order: seq<TunnelSpec> ::
        StartOrder(planner.specs, order) && |started| == |order|
        && forall i :: 0 <= i < |order| ==> started[i] == order[i].name
      ensures r.Some? ==> processes == map[] && started == [] && (r.value.PlanFailed? <==> !Plannable(planner.specs))
    {
      started := [];
      var plan := planner.Plan();
      if plan.Failure? {
        return Some(PlanFailed(plan.error)), [];
      }
      var order := plan.value;
      var conflict := FindDoubleClaim(order);
      NoDoubleAnyOrder(planner.specs, order);
      if conflict.Some? {
        return Some(ConfigConflict(conflict.value)), [];
      }
      started := RegisterAll(order);
      SpecMapOfStartOrder(planner.specs, order);
      r := None;
    }

    /** One turn of Run's second loop: a new process under the spec's name, started. */
    method RegisterNext(spec: TunnelSpec) returns (r: AddOutcome)
      requires Valid()
      modifies this`processes
      ensures Valid() && spec.name in processes && fresh(processes[spec.name]) && !r.Rejected?
      ensures processes == old(processes)[spec.name := processes[spec.name]]
      ensures Started(NewProc(spec), processes[spec.name].View(), r) && Launched(spec, processes[spec.name].View())
    {
      var p := new Process(spec);
      processes := processes[spec.name := p];
      r := StartProcess(p);
    }

    /** The second loop of Run: after each turn exactly the specs so far are registered, and all are started. */
    method RegisterAll(order: seq<TunnelSpec>) returns (started: seq<string>)
      requires Valid() && processes == map[] && DistinctNames(order)
      modifies this`processes
      ensures Valid() && View().processes == SpecMap(order)
      ensures forall n :: n in processes ==> Launched(processes[n].spec, processes[n].View())
      ensures |started| == |order| && forall i :: 0 <= i < |order| ==> started[i] == order[i].name
    {
      started := [];
      for i := 0 to |order|
        invariant Valid() && View().processes == SpecMap(order[..i])
        invariant forall n :: n in processes ==> Launched(processes[n].spec, processes[n].View())
        invariant |started| == i && forall j :: 0 <= j < i ==> started[j] == order[j].name
      {
        ghost var before := View().processes;
        var r := RegisterNext(order[i]);
        assert View().processes == before[order[i].name := order[i]];
        assert order[..i + 1][..i] == order[..i];
        started := started + [order[i].name];
      }
      assert order[..|order|] == order;
    }

    /** checkPortConflicts: the registered tunnels, in whatever order the map is iterated. */
    method CheckPortConflicts(spec: TunnelSpec) returns (clash: Option<Conflict>)
      requires Valid()
      ensures clash.None? <==> ConflictFree(View().processes, spec)
      ensures clash.Some? ==>
        clash.value.owner in processes && clash.value.key in KeysOf(spec)
        && clash.value.key in KeysOf(processes[clash.value.owner].spec)
    {
      var newKeys := LocalPortKeys(spec);
      var todo := processes.Keys;
      while todo != {}
        invariant todo <= processes.Keys
        invariant forall n :: n in processes && n !in todo ==> !KeysClash(processes[n].spec, spec)
        decreases todo
      {
        var n :| n in todo;
        var keys := LocalPortKeys(processes[n].spec);
        var shared := FirstShared(keys, newKeys);
        if shared.Some? {
          assert KeysClash(View().processes[n], spec);
          return Some(Conflict(spec.name, n, shared.value));
        }
        todo := todo - {n};
      }
      clash := None;
    }

    /** AddTunnel's checks, with the planner's rollback when planning fails. */
    method Admit(spec: TunnelSpec, diskOk: bool) returns (v: Verdict)
      requires Valid()
      modifies planner
      ensures Valid() && v == AddVerdict(old(View()), spec, diskOk)
      ensures v.Accepted? ==>
        planner.specs == old(planner.specs)[spec.name := spec] && planner.planned == Some(planner.specs)
      ensures v.BadDependencies? ==>
        planner.specs == old(planner.specs)[spec.name := spec] - {spec.name}
        && planner.planned == if Closed(old(planner.specs)[spec.name := spec]) then Some(old(planner.specs)[spec.name := spec]) else None
      ensures !v.Accepted? && !v.BadDependencies? ==> unchanged(planner)
    {
      if spec.name in processes {
        return Duplicate;
      }
      var clash := CheckPortConflicts(spec);
      if clash.Some? {
        return PortConflict;
      }
      if !diskOk {
        return DiskFailed;
      }
      planner.AddSpec(spec);
      var plan := planner.Plan();
      if plan.Failure? {
        planner.RemoveSpec(spec.name);
        return BadDependencies;
      }
      v := Accepted;
    }

    /**
     * AddTunnel. `diskOk` is the outcome of saving a persistent spec, `hasContext` whether Run has
     * already provided the context in which tunnels are started.
     */
    method AddTunnel(spec: TunnelSpec, diskOk: bool, hasContext: bool) returns (r: AddOutcome)
      requires Valid()
      modifies this`processes, planner
      ensures Valid() && View() == Add(old(View()), spec, diskOk)
      ensures r.Rejected? <==> !AddVerdict(old(View()), spec, diskOk).Accepted?
      ensures r.Rejected? ==> r.verdict == AddVerdict(old(View()), spec, diskOk) && processes == old(processes)
      ensures !r.Rejected? ==> spec.name in processes && fresh(processes[spec.name])
      ensures !r.Rejected? ==> processes == old(processes)[spec.name := processes[spec.name]]
      ensures !r.Rejected? ==>
        if hasContext then Started(NewProc(spec), processes[spec.name].View(), r) && Launched(spec, processes[spec.name].View())
        else r.Added? && processes[spec.name].View() == Proc(spec, Stopped, DesiredStopped, 0, [])
    {
      var v := Admit(spec, diskOk);
      if !v.Accepted? {
        assert View().processes == old(View().processes);
        return Rejected(v);
      }
      var p := new Process(spec);
      processes := processes[spec.name := p];
      assert View().processes == old(View().processes)[spec.name := spec];
      r := Added;
      if hasContext {
        r := StartProcess(p);
      }
    }

    /** The gRPC Create handler, grpc_server.go:229-239: a tunnel that is already there is a success. */
    method Create(spec: TunnelSpec, diskOk: bool, hasContext: bool) returns (ok: bool)
      requires Valid()
      modifies this`processes, planner
      ensures Valid() && View() == Add(old(View()), spec, diskOk)
      ensures old(spec.name in processes) ==> ok && processes == old(processes)
      ensures ok ==> spec.name in processes
      ensures ok && old(spec.name !in processes) && hasContext ==>
        processes[spec.name].status.Starting? && processes[spec.name].expected.DesiredRunning?
      ensures !ok && spec.name in processes ==> hasContext && processes[spec.name].status.Stopped?
    {
      var r := AddTunnel(spec, diskOk, hasContext);
      ok := r.Added? || (r.Rejected? && r.verdict.Duplicate?);
    }

    method RemoveTunnel(name: string) returns (found: bool)
      requires Valid()
      modifies this`processes, planner`specs, processes.Values
      ensures Valid() && View() == Remove(old(View()), name)
      ensures found <==> name in old(processes)
      ensures processes == old(processes) - {name}
      ensures found ==> old(processes)[name].View() == old(processes[name].View()).WantStopped()
      ensures forall n :: n in processes ==> processes[n].View() == old(processes[n].View())
    {
      if name !in processes {
        assert processes - {name} == processes;
        return false;
      }
      var p := processes[name];
      forall n | n in processes && n != name ensures processes[n] != p { DistinctObjects(n, name); }
      p.Stop();
      processes := processes - {name};
      planner.RemoveSpec(name);
      found := true;
    }

    /** Update's second half: remove the tunnel if it is there, then add it. */
    method Replace(spec: TunnelSpec, diskOk: bool, hasContext: bool) returns (r: AddOutcome)
      requires Valid()
      modifies this`processes, planner, processes.Values
      ensures Valid() && View() == Add(Remove(old(View()), spec.name), spec, diskOk)
      ensures r.Rejected? ==> processes == old(processes) - {spec.name}
      ensures !r.Rejected? ==>
        spec.name in processes && fresh(processes[spec.name])
        && processes == (old(processes) - {spec.name})[spec.name := processes[spec.name]]
      ensures spec.name in old(processes) ==>
        old(processes)[spec.name].View() == old(processes[spec.name].View()).WantStopped()
      ensures forall n :: n in old(processes) && n != spec.name ==> old(processes)[n].View() == old(processes[n].View())
    {
      var found := RemoveTunnel(spec.name);
      ghost var left := processes;
      r := AddTunnel(spec, diskOk, hasContext);
      assert left == old(processes) - {spec.name};
    }

    /** The gRPC Update handler, grpc_server.go:258-279. */
    method Update(spec: TunnelSpec, diskOk: bool, hasContext: bool) returns (r: AddOutcome)
      requires Valid()
      modifies this`processes, planner, processes.Values
      ensures Valid() && View() == Registries.Update(old(View()), spec, diskOk)
      ensures r.Rejected? ==> spec.name !in processes
      ensures forall n :: n in processes && n != spec.name ==>
        n in old(processes) && processes[n] == old(processes)[n] && processes[n].View() == old(processes[n].View())
      ensures old(spec.name in processes && processes[spec.name].spec == spec) ==>
        processes == old(processes) && !r.Rejected? && Started(old(processes[spec.name].View()), processes[spec.name].View(), r)
      ensures old(spec.name in processes && processes[spec.name].spec != spec) ==>
        old(processes)[spec.name].View() == old(processes[spec.name].View()).WantStopped()
        && (!r.Rejected? ==> spec.name in processes && fresh(processes[spec.name]))
    {
      if spec.name in processes && processes[spec.name].spec == spec {
        forall n | n in processes && n != spec.name ensures processes[n] != processes[spec.name] { DistinctObjects(n, spec.name); }
        r := StartTunnel(processes[spec.name]);
      } else {
        r := Replace(spec, diskOk, hasContext);
      }
    }

    /**
     * handleFailure up to its sleep, run without interruption: skip when the tunnel is meant to be
     * down, otherwise stop every planned dependent and decide about the restart.
     */
    method HandleFailure(name: string) returns (d: Decision)
      requires Valid()
      modifies processes.Values
      ensures Valid()
      ensures name !in processes ==> d == Unregistered
      ensures name in processes ==>
        IsDecision(old(processes[name].View()), d)
        && processes[name].View() == AfterDecision(old(processes[name].View()), d)
      ensures name in processes ==> var p, was := processes[name], old(processes[name].View());
        && (d.StayDown? <==> was.expected.DesiredStopped? || was.expected.DesiredDisabled?)
        && (d.NoRestart? <==> !d.StayDown? && (p.spec.restart.None? || p.spec.restart.value.policy == "never"))
        && (d.GiveUp? <==> !d.StayDown? && !d.NoRestart? && LimitReached(p.spec.restart.value, was.attempts))
        && (d.Restart? <==> !d.StayDown? && !d.NoRestart? && !d.GiveUp?)
        && p.restartAttempts == was.attempts + (if d.Restart? then 1 else 0)
        && p.status == if d.GiveUp? then Failed else was.status
      ensures forall x :: x in processes && x != name ==>
        processes[x].View() == if !d.Unregistered? && !d.StayDown? && IsDependent(planner.graph, planner.indices, name, x)
                               then Cascaded(old(processes[x].View())) else old(processes[x].View())
      ensures Safe(View()) && planner.planned.Some? && !d.Unregistered? && !d.StayDown? ==>
        forall x :: x in processes && x != name && Reaches(DepEdges(planner.specs), name, x) ==>
          processes[x].status.Stopped? || processes[x].expected.DesiredStopped?
    {
      if name !in processes {
        return Unregistered;
      }
      var p := processes[name];
      forall x | x in processes && x != name ensures processes[x] != p { DistinctObjects(x, name); }
      if p.expected.DesiredStopped? || p.expected.DesiredDisabled? {
        return StayDown;
      }
      Cascade(name);
      d := DecideRestart(p);
    }

    /** Step 1 of handleFailure: look up the dependents and stop them. */
    method Cascade(name: string)
      requires Valid() && name in processes
      modifies processes.Values
      ensures Valid() && processes[name].View() == old(processes[name].View())
      ensures forall x :: x in processes && x != name ==>
        processes[x].View() == if IsDependent(planner.graph, planner.indices, name, x)
                               then Cascaded(old(processes[x].View())) else old(processes[x].View())
      ensures Safe(View()) && planner.planned.Some? ==>
        forall x :: x in processes && x != name && Reaches(DepEdges(planner.specs), name, x) ==>
          processes[x].status.Stopped? || processes[x].expected.DesiredStopped?
    {
      var deps := planner.DependentsOf(name);
      if deps.Some? {
        StopDependents(deps.value);
      }
      forall x | x in processes && IsDependent(planner.graph, planner.indices, name, x)
        ensures deps.Some? && x in deps.value
      {
        DependentIsPlanned(planner.graph, planner.indices, name, x);
      }
      if Safe(View()) && planner.planned.Some? { CurrentDependents(name); }
    }

    lemma CurrentDependents(name: string)
      requires Valid() && Safe(View()) && planner.planned.Some?
      ensures forall x :: x in processes && x != name && Reaches(DepEdges(planner.specs), name, x) ==>
        IsDependent(planner.graph, planner.indices, name, x)
    {
      forall x | x in processes && x != name && Reaches(DepEdges(planner.specs), name, x)
        ensures IsDependent(planner.graph, planner.indices, name, x)
      {
        assert x in View().processes;
        CurrentDependentsArePlanned(View(), planner.graph, planner.indices, name, x);
      }
    }

    /** The cascade loop, supervisor.go:394-402. */
    method StopDependents(deps: seq<string>)
      requires Valid() && Distinct(deps)
      modifies processes.Values
      ensures Valid()
      ensures forall x :: x in processes ==>
        processes[x].View() == if x in deps then Cascaded(old(processes[x].View())) else old(processes[x].View())
    {
      for i := 0 to |deps|
        invariant Valid()
        invariant forall x :: x in processes ==>
          processes[x].View() == if x in deps[..i] then Cascaded(old(processes[x].View())) else old(processes[x].View())
      {
        var dep := deps[i];
        assert deps[..i + 1] == deps[..i] + [dep];
        assert dep !in deps[..i];
        if dep in processes {
          var depP := processes[dep];
          forall x | x in processes && x != dep ensures processes[x] != depP { DistinctObjects(x, dep); }
          if !depP.status.Stopped? {
            depP.Stop();
          }
        }
      }
      assert deps[..|deps|] == deps;
    }
  }

  /** startAndNotify up to the monitor it spawns; the outcome of launching the command is arbitrary. */
  method StartProcess(p: Process) returns (r: AddOutcome)
    modifies p`status, p`expected, p`portMappings
    ensures !r.Rejected? && Started(old(p.View()), p.View(), r)
    ensures old(p.status).Running? || old(p.status).Starting? ==> r.StartFailed?
  {
    var spawned: bool := *;
    var ok, _ := p.Start(spawned);
    r := if ok then Added else StartFailed;
  }

  /** StartTunnel on a registered process; whether a running child is really alive is not decided here. */
  method StartTunnel(p: Process) returns (r: AddOutcome)
    modifies p`status, p`expected, p`portMappings
    ensures !r.Rejected? && Started(old(p.View()), p.View(), r)
  {
    if p.status.Running? || p.status.Starting? {
      var alive: bool := *;
      if alive { return Added; }
    }
    r := StartProcess(p);
  }

  /** Step 2 of handleFailure: the restart policy. */
  method DecideRestart(p: Process) returns (d: Decision)
    requires !p.View().WantsDown()
    modifies p`status, p`restartAttempts
    ensures IsDecision(old(p.View()), d) && p.View() == AfterDecision(old(p.View()), d)
    ensures !d.Unregistered? && !d.StayDown?
    ensures d.NoRestart? <==> p.spec.restart.None? || p.spec.restart.value.policy == "never"
    ensures d.GiveUp? <==> !d.NoRestart? && LimitReached(p.spec.restart.value, old(p.restartAttempts))
    ensures p.restartAttempts == old(p.restartAttempts) + if d.Restart? then 1 else 0
    ensures p.status == if d.GiveUp? then Failed else old(p.status)
  {
    if p.spec.restart.None? || p.spec.restart.value.policy == "never" {
      return NoRestart;
    }
    var policy, attempts := p.spec.restart.value, p.restartAttempts;
    if policy.maxAttempts > 0 && WrapInt32(attempts) >= policy.maxAttempts {
      p.SetStatus(Failed);
      return GiveUp;
    }
    d := Restart(if InRange(policy, attempts) then Some(RestartDelay(policy, attempts)) else None);
    p.IncrementRestartAttempts();
  }

  /** The two inner loops of checkPortConflicts. */
  method FirstShared(keys: seq<string>, newKeys: seq<string>) returns (r: Option<string>)
    ensures r.None? <==> !Shares(keys, newKeys)
    ensures r.Some? ==> r.value in keys && r.value in newKeys
  {
    for i := 0 to |keys|
      invariant forall k :: k in keys[..i] ==> k !in newKeys
    {
      for j := 0 to |newKeys|
        invariant forall k :: k in newKeys[..j] ==> k != keys[i]
      {
        if keys[i] == newKeys[j] {
          assert keys[i] in keys && newKeys[j] in newKeys;
          return Some(keys[i]);
        }
        assert newKeys[..j + 1] == newKeys[..j] + [newKeys[j]];
      }
      assert newKeys[..|newKeys|] == newKeys;
      assert keys[..i + 1] == keys[..i] + [keys[i]];
    }
    assert keys[..|keys|] == keys;
    r := None;
  }
}
