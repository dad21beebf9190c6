/** cmd/tunneld/cmd/run.go: from a loaded configuration to a running supervisor. */
module Daemon {
  import opened Basics
  import opened Proto
  import opened Planning
  import opened Claiming
  import opened Registries
  import opened Supervision
  import opened Configs

  datatype StartupError = Invalid(error: ValidationError) | Unplannable(plan: PlanError)

  /**
   * Validate, convert, plan and register. A validated configuration can only fail to plan: Run's own
   * port check never finds a conflict, and on success every enabled tunnel is registered and was started
   * after all of its dependencies.
   */
  method StartDaemon(tunnels: map<string, TunnelConfig>)
    returns (r: Option<StartupError>, planner: Planner, supervisor: Supervisor, started: seq<string>)
    ensures supervisor.Valid() && supervisor.planner == planner
    ensures r.Some? && r.value.Invalid? <==>
      !((forall n :: n in tunnels ==> Converts(tunnels, n)) && NoDoubleClaim(SpecsOf(tunnels)))
    ensures r.None? <==>
      (forall n :: n in tunnels ==> Converts(tunnels, n)) && NoDoubleClaim(SpecsOf(tunnels)) && Plannable(SpecsOf(tunnels))
    ensures r.None? ==>
      var specs := SpecsOf(tunnels);
      supervisor.View() == Registry(specs, specs, Some(specs)) && Safe(supervisor.View())
    ensures r.None? ==> forall n :: n in supervisor.processes ==>
      n in SpecsOf(tunnels) && Launched(SpecsOf(tunnels)[n], supervisor.processes[n].View())
    ensures r.None? ==> exists order: seq<TunnelSpec> ::
      StartOrder(SpecsOf(tunnels), order) && |started| == |order|
      && forall i :: 0 <= i < |order| ==> started[i] == order[i].name
  {
    started := [];
    var invalid := Validate(tunnels);
    var converted, specs := ToSpecs(tunnels);
    planner := new Planner(if converted.Success? then specs else map[]);
    supervisor := new Supervisor(planner);
    if invalid.Some? {
      return Some(Invalid(invalid.value)), planner, supervisor, [];
    }
    var error;
    error, started := supervisor.Run();
    if error.Some? {
      assert error.value.PlanFailed?;
      return Some(Unplannable(error.value.plan)), planner, supervisor, [];
    }
    r := None;
  }
}
