/**
 * One forward, followed from the Tunnel resource through the agent, the daemon's port resolution and
 * the reported status to the published Service.
 */
module Alignment {
  import opened Proto
  import opened Ports
  import opened Crd
  import opened Conversion
  import opened Scheduling
  import opened Controllers
  import opened Convergence

  /** internal/api/grpc_server.go:32-43 followed by k8s/agent/reconciler.go:85-93. */
  ghost function ReportedForwards(ms: seq<PortMapping>): (fs: seq<ResolvedForward>)
    ensures |fs| == |ms|
    ensures forall i :: 0 <= i < |ms| ==>
      fs[i] == ResolvedForward(ms[i].localAddress, ms[i].configuredPort, ms[i].actualPort, ms[i].remotePort)
  {
    seq(|ms|, i requires 0 <= i < |ms| =>
      ResolvedForward(ms[i].localAddress, ms[i].configuredPort, ms[i].actualPort, ms[i].remotePort))
  }

  method ToResolvedForwards(ms: seq<PortMapping>) returns (fs: seq<ResolvedForward>)
    ensures fs == ReportedForwards(ms) && |fs| == |ms|
    ensures forall i :: 0 <= i < |ms| ==>
      && fs[i].listenAddress == ms[i].localAddress && fs[i].configuredPort == ms[i].configuredPort
      && fs[i].actualPort == ms[i].actualPort && fs[i].remotePort == ms[i].remotePort
  {
    fs := [];
    for i := 0 to |ms|
      invariant fs == ReportedForwards(ms)[..i]
    {
      fs := fs + [ResolvedForward(ms[i].localAddress, ms[i].configuredPort, ms[i].actualPort, ms[i].remotePort)];
    }
  }

  ghost function WithReport(t: Tunnel, ms: seq<PortMapping>): Tunnel {
    t.(status := t.status.(resolvedForwards := ReportedForwards(ms)))
  }

  /**
   * For every Tunnel and every exposed forward in range, the port the controller picks is the one the
   * resolved spec listens on for that forward, and the Service port is that forward's remote port as
   * reported. Out of range, nothing is picked.
   */
  lemma ForwardsAlign(t: Tunnel, clone: TunnelSpec, ms: seq<PortMapping>)
    requires t.spec.WellTyped() && Resolution(WireSpec(t), clone, ms)
    ensures var i, t' := if t.spec.expose.Some? then t.spec.expose.value.forwardIndex else 0, WithReport(t, ms);
      if i < |ms| then
        && |ForwardsOf(clone.kind)| == |ms|
        && PickActualPort(t') == ForwardsOf(clone.kind)[i].port == t'.status.resolvedForwards[i].actualPort
        && ServicePortOf(t'.spec) == ForwardsOf(clone.kind)[i].remote == t'.status.resolvedForwards[i].remotePort
      else PickActualPort(t') == 0 == ServicePortOf(t'.spec)
  {
    ForwardsOfClone(WireSpec(t), clone, ms);
  }

  /**
   * End to end: once the controller has settled on a Tunnel whose agent reported that resolution, the
   * Endpoints point at the port the daemon listens on for the exposed forward, and the Service offers the
   * forward's remote port, or the listening port itself when the remote port is zero.
   */
  lemma PublishedPortsAlign(nodes: seq<Node>, w: World, t: Tunnel, clone: TunnelSpec, ms: seq<PortMapping>)
    requires t.spec.WellTyped() && Resolution(WireSpec(t), clone, ms)
    requires w.tunnel == WithReport(t, ms) && Settled(nodes, w) && Publishable(nodes, w)
    ensures var i, name := t.spec.expose.value.forwardIndex, ServiceName(t);
      && i < |ForwardsOf(clone.kind)| && name in w.services && name in w.endpoints
      && var f := ForwardsOf(clone.kind)[i];
        && w.endpoints[name].subsets == [Subset([IPOf(nodes, t.status.node)], [ServicePort("tunnel", f.port, f.port, "TCP")])]
        && w.services[name].ports == [ServicePort("tunnel", if f.remote != 0 then f.remote else f.port, f.port, "TCP")]
  {
    ForwardsAlign(t, clone, ms);
    SettledMeaning(nodes, w);
  }
}
