/**
 * k8s/controllers/tunnel_controller.go and service.go: one pass of the controller over a Tunnel, as a
 * class that updates the stored objects and as a function, and what repeated passes lead to. API calls
 * succeed; the objects of the Tunnel's namespace are maps by name.
 */
module Controllers {
  import opened Basics
  import opened Crd
  import opened Scheduling

  /** The stored Tunnel and the Services and Endpoints of its namespace. */
  datatype World = World(tunnel: Tunnel, services: map<string, Service>, endpoints: map<string, Endpoints>)

  // ---- Conditions ----

  ghost function SetCondition(cs: seq<Condition>, c: Condition): seq<Condition> {
    if cs == [] then [c] else if cs[0].kind == c.kind then [c] + cs[1..] else [cs[0]] + SetCondition(cs[1..], c)
  }

  lemma {:induction false} SetConditionIdempotent(cs: seq<Condition>, c: Condition)
    ensures SetCondition(SetCondition(cs, c), c) == SetCondition(cs, c)
  {
    if cs != [] && cs[0].kind != c.kind {
      SetConditionIdempotent(cs[1..], c);
      var d := SetCondition(cs[1..], c);
      assert ([cs[0]] + d)[1..] == d;
    } else {
      var d := SetCondition(cs, c);
      assert [c] + d[1..] == d;
    }
  }

  /** cs' is cs with c in the place of the first condition of its type, or at the end when there is none. */
  ghost predicate ConditionSet(cs: seq<Condition>, c: Condition, cs': seq<Condition>) {
    || (cs' == cs + [c] && forall i :: 0 <= i < |cs| ==> cs[i].kind != c.kind)
    || exists k :: 0 <= k < |cs| && cs' == cs[k := c] && cs[k].kind == c.kind && forall i :: 0 <= i < k ==> cs[i].kind != c.kind
  }

  lemma {:induction false} SetConditionExactly(cs: seq<Condition>, c: Condition)
    ensures ConditionSet(cs, c, SetCondition(cs, c))
    decreases |cs|
  {
    if cs != [] && cs[0].kind != c.kind {
      var rest, rest' := cs[1..], SetCondition(cs[1..], c);
      SetConditionExactly(rest, c);
      assert forall i :: 0 <= i < |rest| ==> rest[i] == cs[i + 1];
      if k :| 0 <= k < |rest| && rest' == rest[k := c] && rest[k].kind == c.kind && forall i :: 0 <= i < k ==> rest[i].kind != c.kind {
        assert [cs[0]] + rest[k := c] == cs[k + 1 := c];
        assert forall i :: 0 < i < k + 1 ==> cs[i] == rest[i - 1];
      } else {
        assert [cs[0]] + (rest + [c]) == cs + [c];
        assert forall i :: 0 < i < |cs| ==> cs[i] == rest[i - 1];
      }
    } else if cs != [] {
      assert [c] + cs[1..] == cs[0 := c];
    }
  }

  // ---- Ports of the exposed forward ----

  /** pickActualPort: zero while the agent has not reported that forward. */
  function PickActualPort(t: Tunnel): int32 {
    var idx := if t.spec.expose.Some? then t.spec.expose.value.forwardIndex else 0;
    if idx >= |t.status.resolvedForwards| then 0 else t.status.resolvedForwards[idx].actualPort
  }

  function ServicePortOf(spec: CrSpec): int32 {
    var idx := if spec.expose.Some? then spec.expose.value.forwardIndex else 0;
    if spec.ssh.Some? && idx < |spec.ssh.value.localForwards| then spec.ssh.value.localForwards[idx].targetPort
    else if spec.kubectl.Some? && idx < |spec.kubectl.value.forwards| then spec.kubectl.value.forwards[idx].remotePort
    else 0
  }

  function ManagedLabels(name: string): map<string, string> {
    map["app.kubernetes.io/managed-by" := "tunneld-controller", "tunneld.io/tunnel" := name]
  }

  /** mergeLabels: b's entries written into a one by one, in any order. */
  method MergeLabels(a: map<string, string>, b: map<string, string>) returns (r: map<string, string>)
    ensures r == a + b
  {
    r := a;
    var todo := b.Keys;
    while todo != {}
      invariant todo <= b.Keys
      invariant r == a + (map k | k in b && k !in todo :: b[k])
      decreases todo
    {
      var k :| k in todo;
      r := r[k := b[k]];
      todo := todo - {k};
    }
  }

  // ---- One pass as a function ----

  ghost predicate ExposeRequested(t: Tunnel) {
    t.spec.expose.Some? && t.spec.expose.value.service
  }

  ghost function ServiceName(t: Tunnel): string
    requires t.spec.expose.Some?
  {
    if t.spec.expose.value.serviceName == "" then t.name else t.spec.expose.value.serviceName
  }

  /** SetControllerReference refuses an object that another Tunnel controls. */
  predicate OwnedByOther(owner: Option<string>, t: Tunnel) {
    owner.Some? && owner.value != t.name
  }

  ghost function PublishedService(labels: map<string, string>, t: Tunnel, actual: int32): Service {
    var port := if ServicePortOf(t.spec) == 0 then actual else ServicePortOf(t.spec);
    Service(labels + ManagedLabels(t.name), Some(t.name), "ClusterIP", map[], [ServicePort("tunnel", port, actual, "TCP")])
  }

  ghost function PublishedEndpoints(labels: map<string, string>, t: Tunnel, ip: string, actual: int32): Endpoints {
    Endpoints(labels + ManagedLabels(t.name), Some(t.name), [Subset([ip], [ServicePort("tunnel", actual, actual, "TCP")])])
  }

  function ServiceLabels(w: World, name: string): map<string, string> {
    if name in w.services then w.services[name].labels else map[]
  }

  function EndpointsLabels(w: World, name: string): map<string, string> {
    if name in w.endpoints then w.endpoints[name].labels else map[]
  }

  /** The Service and Endpoints written for a Tunnel; each write stops the pass if another Tunnel owns the object. */
  ghost function Publish(w: World, ip: string, actual: int32): World
    requires w.tunnel.spec.expose.Some?
  {
    var t, name := w.tunnel, ServiceName(w.tunnel);
    if ip == "" || actual <= 0 then w
    else if name in w.services && OwnedByOther(w.services[name].owner, t) then w
    else
      var w1 := w.(services := w.services[name := PublishedService(ServiceLabels(w, name), t, actual)]);
      if name in w.endpoints && OwnedByOther(w.endpoints[name].owner, t) then w1
      else
        var w2 := w1.(endpoints := w.endpoints[name := PublishedEndpoints(EndpointsLabels(w, name), t, ip, actual)]);
        if name == "" then w2 else w2.(tunnel := t.(status := t.status.(serviceRef := Some(name))))
  }

  ghost function Unpublish(w: World): World {
    if w.tunnel.status.serviceRef.None? then w
    else
      var name := w.tunnel.status.serviceRef.value;
      World(w.tunnel.(status := w.tunnel.status.(serviceRef := None)), w.services - {name}, w.endpoints - {name})
  }

  ghost function Marked(t: Tunnel, phase: Phase, reason: string, msg: Message): Tunnel {
    t.(status := t.status.(phase := phase, lastError := msg, observedGeneration := t.generation,
      conditions := SetCondition(t.status.conditions, Condition("Ready", false, reason, msg, t.generation))))
  }

  ghost predicate NeedsNode(nodes: seq<Node>, t: Tunnel) {
    t.status.node == "" || !StillValid(nodes, t.status.node, t.spec.nodeSelector)
  }

  ghost function IPOf(nodes: seq<Node>, name: string): string {
    if n :| n in nodes && n.name == name then NodeIP(n) else ""
  }

  /** One call of Reconcile with the given node list. */
  ghost function Pass(nodes: seq<Node>, w: World): World {
    var t := w.tunnel;
    if !t.spec.WellTyped() then w.(tunnel := Marked(t, Phase.Failed, "Invalid", NotExactlyOne))
    else if NeedsNode(nodes, t) then
      match Choice(nodes, t.spec.nodeSelector)
      case None => w.(tunnel := Marked(t, Phase.Degraded, "Degraded", NoReadyNode(t.spec.nodeSelector)))
      case Some(n) => w.(tunnel := t.(status := t.status.(node := n, phase := Phase.Pending)))
    else if ExposeRequested(t) && PickActualPort(t) > 0 then Publish(w, IPOf(nodes, t.status.node), PickActualPort(t))
    else if !ExposeRequested(t) then Unpublish(w)
    else w
  }

  // ---- The reconciler, updating the stored objects ----

  class TunnelReconciler {
    var tunnel: Tunnel
    var services: map<string, Service>
    var endpoints: map<string, Endpoints>

    ghost function View(): World
      reads this
    {
      World(tunnel, services, endpoints)
    }

    constructor (w: World)
      ensures View() == w
    {
      tunnel, services, endpoints := w.tunnel, w.services, w.endpoints;
    }

    method Reconcile(nodes: seq<Node>)
      requires UniqueNames(nodes)
      modifies this
      ensures View() == Pass(nodes, old(View()))
    {
      if tunnel.spec.ssh.None? == tunnel.spec.kubectl.None? {
        Mark(Phase.Failed, "Invalid", NotExactlyOne);
        return;
      }
      var valid := false;
      if tunnel.status.node != "" {
        valid := NodeStillValid(nodes, tunnel.status.node, tunnel.spec.nodeSelector);
      }
      if !valid {
        var node := PickNode(nodes, tunnel.spec.nodeSelector);
        if node.None? {
          Mark(Phase.Degraded, "Degraded", NoReadyNode(tunnel.spec.nodeSelector));
          return;
        }
        ChoiceIsPicked(nodes, tunnel.spec.nodeSelector, node.value);
        tunnel := tunnel.(status := tunnel.status.(node := node.value.name, phase := Phase.Pending));
        return;
      }
      var exposeRequested := tunnel.spec.expose.Some? && tunnel.spec.expose.value.service;
      var actualPort := PickActualPort(tunnel);
      if exposeRequested && actualPort > 0 {
        var n := GetNode(nodes, tunnel.status.node);
        var ip := NodeInternalIP(n.value);
        var name := ReconcileService(ip, actualPort);
        if name.Some? && name.value != "" {
          tunnel := tunnel.(status := tunnel.status.(serviceRef := name));
        }
      } else if !exposeRequested && tunnel.status.serviceRef.Some? {
        DeleteService(tunnel.status.serviceRef.value);
        tunnel := tunnel.(status := tunnel.status.(serviceRef := None));
      }
    }

    /** fail and degrade: phase, error and the Ready condition. */
    method Mark(phase: Phase, reason: string, msg: Message)
      modifies this`tunnel
      ensures tunnel == Marked(old(tunnel), phase, reason, msg)
    {
      var conditions := ReplaceCondition(tunnel.status.conditions, Condition("Ready", false, reason, msg, tunnel.generation));
      tunnel := tunnel.(status := tunnel.status.(phase := phase, lastError := msg,
        observedGeneration := tunnel.generation, conditions := conditions));
    }

    /** reconcileTunnelService: None stands for its error returns. */
    method ReconcileService(ip: string, actualPort: int32) returns (name: Option<string>)
      requires tunnel.spec.expose.Some? && tunnel.spec.expose.value.service
      modifies this`services, this`endpoints
      ensures name.None? ==> View() == Publish(old(View()), ip, actualPort)
      ensures name.Some? ==> name.value == ServiceName(tunnel)
      ensures name.Some? ==>
        Publish(old(View()), ip, actualPort) == (if name.value == "" then View()
          else View().(tunnel := tunnel.(status := tunnel.status.(serviceRef := name))))
    {
      if ip == "" || actualPort <= 0 {
        return None;
      }
      var n := tunnel.spec.expose.value.serviceName;
      if n == "" { n := tunnel.name; }
      var port := ServicePortOf(tunnel.spec);
      if port == 0 { port := actualPort; }
      var owned := if n in services then services[n].owner else Option.None;
      if OwnedByOther(owned, tunnel) {
        return None;
      }
      var labels := MergeLabels(if n in services then services[n].labels else map[], ManagedLabels(tunnel.name));
      services := services[n := Service(labels, Some(tunnel.name), "ClusterIP", map[],
                                        [ServicePort("tunnel", port, actualPort, "TCP")])];
      owned := if n in endpoints then endpoints[n].owner else Option.None;
      if OwnedByOther(owned, tunnel) {
        return None;
      }
      labels := MergeLabels(if n in endpoints then endpoints[n].labels else map[], ManagedLabels(tunnel.name));
      endpoints := endpoints[n := Endpoints(labels, Some(tunnel.name),
                                            [Subset([ip], [ServicePort("tunnel", actualPort, actualPort, "TCP")])])];
      name := Some(n);
    }

    /** deleteTunnelService: missing objects are not an error. */
    method DeleteService(name: string)
      modifies this`services, this`endpoints
      ensures services == old(services) - {name} && endpoints == old(endpoints) - {name}
    {
      services := services - {name};
      endpoints := endpoints - {name};
    }
  }

  /** setCondition: replaces the first condition of the same type, or appends. */
  method ReplaceCondition(cs: seq<Condition>, c: Condition) returns (r: seq<Condition>)
    ensures r == SetCondition(cs, c)
  {
    for i := 0 to |cs|
      invariant SetCondition(cs, c) == cs[..i] + SetCondition(cs[i..], c)
    {
      var rest := cs[i..];
      assert rest[0] == cs[i] && rest[1..] == cs[i + 1..];
      if cs[i].kind == c.kind {
        assert cs[..i] + ([c] + rest[1..]) == cs[..i] + [c] + cs[i + 1..];
        return cs[..i] + [c] + cs[i + 1..];
      }
      assert cs[..i] + ([cs[i]] + SetCondition(rest[1..], c)) == cs[..i + 1] + SetCondition(cs[i + 1..], c);
    }
    r := cs + [c];
  }
}
