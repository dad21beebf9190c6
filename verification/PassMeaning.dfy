/** One controller pass, case by case, on the fields of the objects it reads and writes. */
module PassMeanings {
  import opened Basics
  import opened Crd
  import opened Scheduling
  import opened Controllers
  import opened Convergence

  // ---- Conditions and objects ----

  /** Marked as failing: phase, error, generation and the Ready condition; everything else as before. */
  ghost predicate MarkedAs(t: Tunnel, t': Tunnel, phase: Phase, reason: string, msg: Message) {
    && t' == t.(status := t.status.(phase := phase, lastError := msg, observedGeneration := t.generation,
                                    conditions := t'.status.conditions))
    && ConditionSet(t.status.conditions, Condition("Ready", false, reason, msg, t.generation), t'.status.conditions)
  }

  /** b differs from a under that key at most. */
  ghost predicate SameElsewhere<V>(a: map<string, V>, b: map<string, V>, key: string) {
    forall k :: k != key ==> (k in b <==> k in a) && (k in a ==> b[k] == a[k])
  }

  /** The labels from before, with the controller's two labels written over them. */
  ghost predicate ManagedOver(before: map<string, string>, after: map<string, string>, tunnel: string) {
    && "app.kubernetes.io/managed-by" in after && after["app.kubernetes.io/managed-by"] == "tunneld-controller"
    && "tunneld.io/tunnel" in after && after["tunneld.io/tunnel"] == tunnel
    && forall k :: k != "app.kubernetes.io/managed-by" && k != "tunneld.io/tunnel" ==>
         (k in after <==> k in before) && (k in before ==> after[k] == before[k])
  }

  /** The Service written for the Tunnel, and what it keeps of the one that was there. */
  ghost predicate ServiceWritten(w: World, w': World, name: string, port: int32, actual: int32) {
    && name in w'.services
    && var s := w'.services[name];
      && s.owner == Some(w.tunnel.name) && s.kind == "ClusterIP" && s.selector == map[]
      && s.ports == [ServicePort("tunnel", port, actual, "TCP")]
      && ManagedOver(if name in w.services then w.services[name].labels else map[], s.labels, w.tunnel.name)
  }

  ghost predicate EndpointsWritten(w: World, w': World, name: string, ip: string, actual: int32) {
    && name in w'.endpoints
    && var e := w'.endpoints[name];
      && e.owner == Some(w.tunnel.name) && e.subsets == [Subset([ip], [ServicePort("tunnel", actual, actual, "TCP")])]
      && ManagedOver(if name in w.endpoints then w.endpoints[name].labels else map[], e.labels, w.tunnel.name)
  }

  ghost predicate Foreign(owner: Option<string>, t: Tunnel) {
    owner.Some? && owner.value != t.name
  }

  // ---- Passes that do not reach the Service ----

  lemma InvalidPass(nodes: seq<Node>, w: World)
    requires w.tunnel.spec.ssh.None? == w.tunnel.spec.kubectl.None?
    ensures var w' := Pass(nodes, w);
      MarkedAs(w.tunnel, w'.tunnel, Phase.Failed, "Invalid", NotExactlyOne)
      && w'.services == w.services && w'.endpoints == w.endpoints
  {
    SetConditionExactly(w.tunnel.status.conditions, Condition("Ready", false, "Invalid", NotExactlyOne, w.tunnel.generation));
  }

  /** The Tunnel has no node, or one that the re-check refuses. */
  ghost predicate Unplaced(nodes: seq<Node>, t: Tunnel) {
    && t.spec.ssh.None? != t.spec.kubectl.None?
    && (t.status.node == "" || !StillValid(nodes, t.status.node, t.spec.nodeSelector))
  }

  lemma {:induction false} LeastEligible(nodes: seq<Node>, sel: map<string, string>, n: Node) returns (m: Node)
    requires n in nodes && Eligible(n, sel)
    ensures Picked(nodes, sel, m)
    decreases |nodes|
  {
    var init, last := nodes[..|nodes| - 1], nodes[|nodes| - 1];
    assert nodes == init + [last];
    if x :| x in init && Eligible(x, sel) {
      m := LeastEligible(init, sel, x);
      if Eligible(last, sel) {
        StrLessTrichotomy(last.name, m.name);
        if StrLess(last.name, m.name) {
          forall y | y in init && Eligible(y, sel) ensures StrLess(last.name, y.name) {
            if y.name != m.name { StrLessTransitive(last.name, m.name, y.name); }
          }
          m := last;
        }
      }
    } else {
      m := last;
      assert n == last;
    }
  }

  ghost predicate PlacedOn(t: Tunnel, t': Tunnel, node: string) {
    t' == t.(status := t.status.(node := node, phase := Phase.Pending))
  }

  lemma SchedulingPass(nodes: seq<Node>, w: World)
    requires Unplaced(nodes, w.tunnel)
    ensures var w', sel := Pass(nodes, w), w.tunnel.spec.nodeSelector;
      && w'.services == w.services && w'.endpoints == w.endpoints
      && ((exists n :: n in nodes && Eligible(n, sel)) ==> exists n :: Picked(nodes, sel, n) && PlacedOn(w.tunnel, w'.tunnel, n.name))
      && ((forall n :: n in nodes ==> !Eligible(n, sel)) ==>
            MarkedAs(w.tunnel, w'.tunnel, Phase.Degraded, "Degraded", NoReadyNode(sel)))
  {
    var sel := w.tunnel.spec.nodeSelector;
    if n :| n in nodes && Eligible(n, sel) {
      var m := LeastEligible(nodes, sel, n);
      ChoiceIsPicked(nodes, sel, m);
    } else {
      SetConditionExactly(w.tunnel.status.conditions,
                          Condition("Ready", false, "Degraded", NoReadyNode(sel), w.tunnel.generation));
    }
  }

  // ---- Passes that manage the Service ----

  ghost predicate Placed(nodes: seq<Node>, t: Tunnel) {
    && t.spec.ssh.None? != t.spec.kubectl.None?
    && t.status.node != "" && StillValid(nodes, t.status.node, t.spec.nodeSelector)
  }

  ghost predicate Exposed(t: Tunnel) {
    t.spec.expose.Some? && t.spec.expose.value.service
  }

  /** The agent has reported a positive port for the exposed forward. */
  ghost predicate ReportedPort(t: Tunnel, actual: int32) {
    && t.spec.expose.Some? && t.spec.expose.value.forwardIndex < |t.status.resolvedForwards|
    && actual == t.status.resolvedForwards[t.spec.expose.value.forwardIndex].actualPort > 0
  }

  /** The remote port of the exposed forward, or the reported port when that is zero or out of range. */
  ghost function OfferedPort(t: Tunnel, actual: int32): int32
    requires t.spec.expose.Some?
  {
    var i := t.spec.expose.value.forwardIndex;
    var remote := if t.spec.ssh.Some? && i < |t.spec.ssh.value.localForwards| then t.spec.ssh.value.localForwards[i].targetPort
                  else if t.spec.kubectl.Some? && i < |t.spec.kubectl.value.forwards| then t.spec.kubectl.value.forwards[i].remotePort
                  else 0;
    if remote == 0 then actual else remote
  }

  /** The name under which the Tunnel is published. */
  ghost predicate PublishedAs(t: Tunnel, name: string) {
    t.spec.expose.Some? && name == if t.spec.expose.value.serviceName == "" then t.name else t.spec.expose.value.serviceName
  }

  /** An exposed Tunnel whose port is not reported yet is left alone. */
  lemma WaitingPass(nodes: seq<Node>, w: World)
    requires Placed(nodes, w.tunnel) && Exposed(w.tunnel) && forall p :: !ReportedPort(w.tunnel, p)
    ensures Pass(nodes, w) == w
  {
    var t := w.tunnel;
    assert !ReportedPort(t, PickActualPort(t));
  }

  /** Nothing is written for a node without an address, or over a Service that another Tunnel controls. */
  lemma RefusedPass(nodes: seq<Node>, w: World, n: Node, actual: int32, name: string)
    requires UniqueNames(nodes) && Placed(nodes, w.tunnel) && Exposed(w.tunnel) && ReportedPort(w.tunnel, actual)
    requires n in nodes && n.name == w.tunnel.status.node && PublishedAs(w.tunnel, name)
    requires NodeIP(n) == "" || (name in w.services && Foreign(w.services[name].owner, w.tunnel))
    ensures Pass(nodes, w) == w
  {
    assert IPOf(nodes, w.tunnel.status.node) == NodeIP(n);
  }

  lemma PassPublishes(nodes: seq<Node>, w: World, n: Node, actual: int32)
    requires UniqueNames(nodes) && Placed(nodes, w.tunnel) && Exposed(w.tunnel) && ReportedPort(w.tunnel, actual)
    requires n in nodes && n.name == w.tunnel.status.node
    ensures Pass(nodes, w) == Publish(w, NodeIP(n), actual)
  {
    assert IPOf(nodes, w.tunnel.status.node) == NodeIP(n);
    assert PickActualPort(w.tunnel) == actual;
  }

  lemma ManagedLabelsOver(before: map<string, string>, tunnel: string)
    ensures ManagedOver(before, before + ManagedLabels(tunnel), tunnel)
  {
  }

  lemma PublishesService(w: World, ip: string, actual: int32, name: string)
    requires PublishedAs(w.tunnel, name) && ip != "" && actual > 0
    requires name in w.services ==> !Foreign(w.services[name].owner, w.tunnel)
    ensures var w' := Publish(w, ip, actual);
      ServiceWritten(w, w', name, OfferedPort(w.tunnel, actual), actual)
      && SameElsewhere(w.services, w'.services, name) && SameElsewhere(w.endpoints, w'.endpoints, name)
  {
    ManagedLabelsOver(ServiceLabels(w, name), w.tunnel.name);
    assert Publish(w, ip, actual).services[name] == PublishedService(ServiceLabels(w, name), w.tunnel, actual);
  }

  /** How the pass ends once the Service is written. */
  ghost predicate Completed(w: World, w': World, name: string, ip: string, actual: int32) {
    if name in w.endpoints && Foreign(w.endpoints[name].owner, w.tunnel) then
      w'.endpoints == w.endpoints && w'.tunnel == w.tunnel
    else
      && EndpointsWritten(w, w', name, ip, actual)
      && w'.tunnel == if name == "" then w.tunnel else w.tunnel.(status := w.tunnel.status.(serviceRef := Some(name)))
  }

  lemma PublishesEndpoints(w: World, ip: string, actual: int32, name: string)
    requires PublishedAs(w.tunnel, name) && ip != "" && actual > 0
    requires name in w.services ==> !Foreign(w.services[name].owner, w.tunnel)
    ensures Completed(w, Publish(w, ip, actual), name, ip, actual)
  {
    ManagedLabelsOver(EndpointsLabels(w, name), w.tunnel.name);
  }

  /**
   * Otherwise the Service is written, with the offered and the reported port, then, unless another Tunnel
   * controls them, the Endpoints, with the node's address, and the reference. Nothing else changes.
   */
  lemma PublishingPass(nodes: seq<Node>, w: World, n: Node, actual: int32, name: string)
    requires UniqueNames(nodes) && Placed(nodes, w.tunnel) && Exposed(w.tunnel) && ReportedPort(w.tunnel, actual)
    requires n in nodes && n.name == w.tunnel.status.node && PublishedAs(w.tunnel, name)
    requires NodeIP(n) != "" && (name in w.services ==> !Foreign(w.services[name].owner, w.tunnel))
    ensures var w' := Pass(nodes, w);
      && ServiceWritten(w, w', name, OfferedPort(w.tunnel, actual), actual)
      && SameElsewhere(w.services, w'.services, name) && SameElsewhere(w.endpoints, w'.endpoints, name)
      && Completed(w, w', name, NodeIP(n), actual)
  {
    PassPublishes(nodes, w, n, actual);
    PublishesService(w, NodeIP(n), actual, name);
    PublishesEndpoints(w, NodeIP(n), actual, name);
  }

  /** A Tunnel that is no longer exposed loses its reference and both objects that it names. */
  lemma UnpublishingPass(nodes: seq<Node>, w: World)
    requires Placed(nodes, w.tunnel) && !Exposed(w.tunnel)
    ensures var w' := Pass(nodes, w);
      && w'.tunnel == w.tunnel.(status := w.tunnel.status.(serviceRef := None))
      && if w.tunnel.status.serviceRef.None? then w' == w
         else var name := w.tunnel.status.serviceRef.value;
           name !in w'.services && name !in w'.endpoints
           && SameElsewhere(w.services, w'.services, name) && SameElsewhere(w.endpoints, w'.endpoints, name)
  {
  }

  // ---- Over passes and runs ----

  /** Both objects of that name are gone, and no other has changed. */
  ghost predicate Withdrawn(w: World, w': World, name: string) {
    && name !in w'.services && name !in w'.endpoints
    && SameElsewhere(w.services, w'.services, name) && SameElsewhere(w.endpoints, w'.endpoints, name)
  }

  /** A pass drops a recorded reference exactly when the Tunnel is placed and not exposed, and then withdraws its objects. */
  lemma DroppedReference(nodes: seq<Node>, w: World)
    requires w.tunnel.status.serviceRef.Some?
    ensures Pass(nodes, w).tunnel.status.serviceRef.None? <==> Placed(nodes, w.tunnel) && !Exposed(w.tunnel)
    ensures Pass(nodes, w).tunnel.status.serviceRef.None? ==> Withdrawn(w, Pass(nodes, w), w.tunnel.status.serviceRef.value)
  {
  }

  /**
   * Over any interleaving of events, a Service is forgotten only at a pass that finds the Tunnel placed and
   * not exposed, and that pass deletes the Service and the Endpoints of the recorded name and nothing else.
   */
  lemma ForgottenServicesAreGone(e: Env, evs: seq<Event>, i: nat, name: string)
    requires i < |evs| && After(e, evs[..i]).world.tunnel.status.serviceRef == Some(name)
    requires After(e, evs[..i + 1]).world.tunnel.status.serviceRef.None?
    ensures evs[i].ControllerPass?
    ensures var before, after := After(e, evs[..i]), After(e, evs[..i + 1]);
      && Placed(before.nodes, before.world.tunnel) && !Exposed(before.world.tunnel)
      && Withdrawn(before.world, after.world, name)
  {
    assert evs[..i + 1][..i] == evs[..i];
    var before := After(e, evs[..i]);
    if evs[i].ControllerPass? { DroppedReference(before.nodes, before.world); }
  }
}
