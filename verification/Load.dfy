/** cmd/tunnelctl/cmd/load.go: a planned configuration sent to the daemon tunnel by tunnel. */
module Loads {
  import opened Proto
  import opened Planning
  import opened Claiming
  import opened Ports
  import opened Registries

  /**
   * slurpKeys, slurp.go:12-39: a key file on the client becomes a reference to an uploaded key, named by
   * `base` as the last element of its path.
   */
  function Slurped(spec: TunnelSpec, base: string -> string): TunnelSpec {
    match spec.kind
    case Ssh(s) =>
      if s.identityKeyFile == "" then spec
      else spec.(kind := Ssh(s.(identityKeyFile := "", identityKeyRef := base(s.identityKeyFile))))
    case Kubectl(k) =>
      if k.kubeconfigFile == "" then spec
      else spec.(kind := Kubectl(k.(kubeconfigFile := "", kubeconfigRef := base(k.kubeconfigFile))))
    case Unset => spec
  }

  lemma SlurpKeeps(spec: TunnelSpec, base: string -> string)
    ensures var s := Slurped(spec, base);
      s.name == spec.name && s.dependsOn == spec.dependsOn && KeysOf(s) == KeysOf(spec) && Slurped(s, base) == s
  {
    assert ForwardsOf(Slurped(spec, base).kind) == ForwardsOf(spec.kind);
  }

  /** What slurping changes: a key file given by path becomes a reference to its last element. */
  lemma SlurpExactly(spec: TunnelSpec, base: string -> string)
    ensures spec.kind.Ssh? ==> var s, s' := spec.kind.ssh, Slurped(spec, base).kind;
      s'.Ssh? && s'.ssh.identityKeyFile == ""
      && s'.ssh.identityKeyRef == (if s.identityKeyFile == "" then s.identityKeyRef else base(s.identityKeyFile))
      && s'.ssh.(identityKeyFile := s.identityKeyFile, identityKeyRef := s.identityKeyRef) == s
    ensures spec.kind.Kubectl? ==> var k, k' := spec.kind.kubectl, Slurped(spec, base).kind;
      k'.Kubectl? && k'.kubectl.kubeconfigFile == ""
      && k'.kubectl.kubeconfigRef == (if k.kubeconfigFile == "" then k.kubeconfigRef else base(k.kubeconfigFile))
      && k'.kubectl.(kubeconfigFile := k.kubeconfigFile, kubeconfigRef := k.kubeconfigRef) == k
    ensures Slurped(spec, base).(kind := spec.kind) == spec
  {
  }

  ghost function SlurpedMap(specs: Specs, base: string -> string): Specs {
    map n | n in specs :: Slurped(specs[n], base)
  }

  ghost function SlurpedOrder(order: seq<TunnelSpec>, base: string -> string): (r: seq<TunnelSpec>)
    ensures |r| == |order| && forall i :: 0 <= i < |order| ==> r[i] == Slurped(order[i], base)
  {
    seq(|order|, i requires 0 <= i < |order| => Slurped(order[i], base))
  }

  /** Planning and claims see no difference. */
  lemma SlurpKeepsPlan(specs: Specs, base: string -> string)
    ensures DepEdges(SlurpedMap(specs, base)) == DepEdges(specs)
    ensures Keyed(specs) ==> Keyed(SlurpedMap(specs, base))
    ensures Plannable(SlurpedMap(specs, base)) <==> Plannable(specs)
    ensures DisjointClaims(SlurpedMap(specs, base)) <==> DisjointClaims(specs)
  {
    var slurped := SlurpedMap(specs, base);
    forall n | n in specs
      ensures n in slurped && slurped[n].name == specs[n].name && slurped[n].dependsOn == specs[n].dependsOn
      ensures n in slurped && KeysOf(slurped[n]) == KeysOf(specs[n])
    {
      SlurpKeeps(specs[n], base);
    }
    assert slurped.Keys == specs.Keys;
    assert DepEdges(slurped) == DepEdges(specs);
    assert Closed(slurped) <==> Closed(specs);
  }

  lemma SlurpKeepsOrder(specs: Specs, order: seq<TunnelSpec>, base: string -> string)
    requires StartOrder(specs, order)
    ensures StartOrder(SlurpedMap(specs, base), SlurpedOrder(order, base))
  {
    var specs', order' := SlurpedMap(specs, base), SlurpedOrder(order, base);
    forall i | 0 <= i < |order| ensures order'[i].name == order[i].name && order'[i].dependsOn == order[i].dependsOn {
      SlurpKeeps(order[i], base);
    }
    forall n | n in specs' ensures specs'[n] in order' {
      var i :| 0 <= i < |order| && order[i] == specs[n];
      assert order'[i] == specs'[n];
    }
    forall i, d | 0 <= i < |order'| && d in order'[i].dependsOn ensures d in Names(order'[..i]) {
      assert d in Names(order[..i]);
      var j := IndexOfName(order[..i], d);
      NamesHas(order'[..i], j);
    }
  }

  /**
   * Load replay: sending the tunnels of a planned order one by one to an empty daemon, with their key
   * files replaced by references, is accepted at every step, and ends with exactly the planned set
   * registered, rewritten in that way and in no other.
   */
  lemma LoadReplay(specs: Specs, order: seq<TunnelSpec>, base: string -> string)
    requires Keyed(specs) && Plannable(specs) && StartOrder(specs, order) && DisjointClaims(specs)
    ensures var adds := AddsOf(SlurpedOrder(order, base));
      && ApplyAll(EMPTY, adds).processes == SlurpedMap(specs, base) == ApplyAll(EMPTY, adds).specs
      && forall k :: 0 <= k < |order| ==>
           AddVerdict(ApplyAll(EMPTY, adds[..k]), Slurped(order[k], base), true) == Accepted
  {
    SlurpKeepsPlan(specs, base);
    SlurpKeepsOrder(specs, order, base);
    Replay(SlurpedMap(specs, base), SlurpedOrder(order, base));
  }
}
