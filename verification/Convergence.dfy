/** What repeated controller passes lead to, and when a Tunnel changes its node. */
module Convergence {
  import opened Basics
  import opened Traversal
  import opened Crd
  import opened Scheduling
  import opened Controllers

  ghost predicate Settled(nodes: seq<Node>, w: World) {
    Pass(nodes, w) == w
  }

  lemma MarkSettles(t: Tunnel, phase: Phase, reason: string, msg: Message)
    ensures Marked(Marked(t, phase, reason, msg), phase, reason, msg) == Marked(t, phase, reason, msg)
  {
    SetConditionIdempotent(t.status.conditions, Condition("Ready", false, reason, msg, t.generation));
  }

  lemma PublishSettles(w: World, ip: string, actual: int32)
    requires w.tunnel.spec.expose.Some?
    ensures var w' := Publish(w, ip, actual);
      w'.tunnel.spec == w.tunnel.spec && w'.tunnel.status.node == w.tunnel.status.node
      && w'.tunnel.status.resolvedForwards == w.tunnel.status.resolvedForwards && Publish(w', ip, actual) == w'
  {
    var t, name := w.tunnel, ServiceName(w.tunnel);
    var w' := Publish(w, ip, actual);
    forall labels: map<string, string>
      ensures labels + ManagedLabels(t.name) + ManagedLabels(t.name) == labels + ManagedLabels(t.name) {}
    if name in w'.services && name in w'.endpoints {
      assert w'.services[name := w'.services[name]] == w'.services;
      assert w'.endpoints[name := w'.endpoints[name]] == w'.endpoints;
    }
  }

  /** A pass that does not schedule leads to a fixed point at once. */
  lemma OtherPassSettles(nodes: seq<Node>, w: World)
    requires !w.tunnel.spec.WellTyped() || !NeedsNode(nodes, w.tunnel) || Choice(nodes, w.tunnel.spec.nodeSelector).None?
    ensures Settled(nodes, Pass(nodes, w))
  {
    var t := w.tunnel;
    if !t.spec.WellTyped() {
      MarkSettles(t, Phase.Failed, "Invalid", NotExactlyOne);
    } else if NeedsNode(nodes, t) {
      MarkSettles(t, Phase.Degraded, "Degraded", NoReadyNode(t.spec.nodeSelector));
    } else if ExposeRequested(t) && PickActualPort(t) > 0 {
      PublishSettles(w, IPOf(nodes, t.status.node), PickActualPort(t));
    }
  }

  /**
   * Two-pass convergence: with nodes, spec and reported ports fixed, a third pass from any state changes
   * nothing any more.
   */
  lemma TwoPasses(nodes: seq<Node>, w: World)
    ensures Settled(nodes, Pass(nodes, Pass(nodes, w)))
  {
    var t, w1 := w.tunnel, Pass(nodes, w);
    if t.spec.WellTyped() && NeedsNode(nodes, t) && Choice(nodes, t.spec.nodeSelector).Some? {
      var n :| n in nodes && Picked(nodes, t.spec.nodeSelector, n) && Choice(nodes, t.spec.nodeSelector) == Some(n.name);
      PickedIsStillValid(nodes, t.spec.nodeSelector, n);
      if n.name != "" { OtherPassSettles(nodes, w1); }
    } else {
      OtherPassSettles(nodes, w);
    }
  }

  /** The Service and Endpoints agree with the node, the reported port and the exposed forward. */
  ghost predicate Published(nodes: seq<Node>, w: World, name: string, actual: int32) {
    && w.tunnel.status.serviceRef == Some(name)
    && name in w.services && name in w.endpoints
    && w.services[name].owner == Some(w.tunnel.name) == w.endpoints[name].owner
    && w.services[name].selector == map[]
    && w.services[name].ports == [ServicePort("tunnel", if ServicePortOf(w.tunnel.spec) == 0 then actual else ServicePortOf(w.tunnel.spec), actual, "TCP")]
    && w.endpoints[name].subsets == [Subset([IPOf(nodes, w.tunnel.status.node)], [ServicePort("tunnel", actual, actual, "TCP")])]
  }

  ghost predicate Publishable(nodes: seq<Node>, w: World) {
    && w.tunnel.spec.WellTyped() && ExposeRequested(w.tunnel) && PickActualPort(w.tunnel) > 0
    && !NeedsNode(nodes, w.tunnel) && IPOf(nodes, w.tunnel.status.node) != "" && ServiceName(w.tunnel) != ""
    && (ServiceName(w.tunnel) in w.services ==> !OwnedByOther(w.services[ServiceName(w.tunnel)].owner, w.tunnel))
    && (ServiceName(w.tunnel) in w.endpoints ==> !OwnedByOther(w.endpoints[ServiceName(w.tunnel)].owner, w.tunnel))
  }

  /** What the fixed point looks like: published as requested, or with no Service recorded. */
  lemma SettledMeaning(nodes: seq<Node>, w: World)
    requires Settled(nodes, w)
    ensures Publishable(nodes, w) ==> Published(nodes, w, ServiceName(w.tunnel), PickActualPort(w.tunnel))
    ensures w.tunnel.spec.WellTyped() && !NeedsNode(nodes, w.tunnel) && !ExposeRequested(w.tunnel) ==>
      w.tunnel.status.serviceRef.None?
    ensures !w.tunnel.spec.WellTyped() ==> w.tunnel.status.phase == Phase.Failed
  {
    if Publishable(nodes, w) {
      var name := ServiceName(w.tunnel);
      var w' := Publish(w, IPOf(nodes, w.tunnel.status.node), PickActualPort(w.tunnel));
      assert w'.services[name].ports == PublishedService(ServiceLabels(w, name), w.tunnel, PickActualPort(w.tunnel)).ports;
    }
  }

  // ---- Sticky scheduling over interleaved events ----

  datatype Event =
    | NodesChanged(nodes: seq<Node>)
    | ControllerPass
    | AgentReported(phase: Phase, forwards: seq<ResolvedForward>, error: Message)
    | SpecEdited(spec: CrSpec)

  datatype Env = Env(nodes: seq<Node>, world: World)

  ghost function React(e: Env, ev: Event): Env {
    var t := e.world.tunnel;
    match ev
    case NodesChanged(nodes) => e.(nodes := nodes)
    case ControllerPass => e.(world := Pass(e.nodes, e.world))
    case AgentReported(phase, forwards, error) =>
      e.(world := e.world.(tunnel := t.(status := t.status.(
        phase := phase, resolvedForwards := forwards, lastError := error, observedGeneration := t.generation))))
    case SpecEdited(spec) => e.(world := e.world.(tunnel := t.(spec := spec, generation := t.generation + 1)))
  }

  ghost function After(e: Env, evs: seq<Event>): Env {
    if evs == [] then e else React(After(e, evs[..|evs| - 1]), evs[|evs| - 1])
  }

  ghost function NodeOf(e: Env): string {
    e.world.tunnel.status.node
  }

  /**
   * Sticky scheduling: over any interleaving of node changes, edits, agent reports and passes, the node
   * changes only at a pass that found none, or found the old one missing, not Ready or not matching, and
   * it changes to the least Ready matching node.
   */
  lemma StickyScheduling(e: Env, evs: seq<Event>, i: nat)
    requires i < |evs| && NodeOf(After(e, evs[..i + 1])) != NodeOf(After(e, evs[..i]))
    ensures evs[i].ControllerPass?
    ensures var before := After(e, evs[..i]);
      var sel := before.world.tunnel.spec.nodeSelector;
      && (NodeOf(before) == "" || !StillValid(before.nodes, NodeOf(before), sel))
      && exists n :: Picked(before.nodes, sel, n) && NodeOf(After(e, evs[..i + 1])) == n.name
  {
    assert evs[..i + 1][..i] == evs[..i];
    var before := After(e, evs[..i]);
    var w := before.world;
    if evs[i].ControllerPass? {
      if w.tunnel.spec.WellTyped() && !NeedsNode(before.nodes, w.tunnel) && ExposeRequested(w.tunnel) {
        PublishSettles(w, IPOf(before.nodes, w.tunnel.status.node), PickActualPort(w.tunnel));
      }
    }
  }

  /** With one node list, in whatever order it is given, unscheduled tunnels with one selector share a node. */
  lemma SharedSelectorSharesNode(nodes: seq<Node>, nodes': seq<Node>, v: World, w: World)
    requires Members(nodes) == Members(nodes')
    requires v.tunnel.spec.WellTyped() && w.tunnel.spec.WellTyped()
    requires v.tunnel.spec.nodeSelector == w.tunnel.spec.nodeSelector
    requires v.tunnel.status.node == "" == w.tunnel.status.node
    ensures Pass(nodes, v).tunnel.status.node == Pass(nodes', w).tunnel.status.node
  {
    ChoiceIgnoresOrder(nodes, nodes', v.tunnel.spec.nodeSelector);
  }
}
