/** k8s/controllers/tunnelgroup_controller.go: the children of a group, and planning them on the daemon. */
module Groups {
  import opened Basics
  import opened Proto
  import opened Graphs
  import opened Planning
  import opened Registries
  import opened Crd
  import opened Conversion

  datatype Member = Member(
    name: string, dependsOn: seq<string>, ssh: Option<CrSsh>, kubectl: Option<CrKubectl>,
    health: Option<CrHealth>, restart: Option<CrRestart>, startupTimeout: Option<int>, shutdownTimeout: Option<int>)

  datatype GroupExpose = GroupExpose(tunnel: string, serviceName: string, forwardIndex: nat)

  datatype Group = Group(
    name: string, namespace: string, nodeSelector: map<string, string>, members: seq<Member>, expose: seq<GroupExpose>)

  function ChildName(group: string, member: string): string {
    group + "-" + member
  }

  ghost function Prefixed(group: string, deps: seq<string>): (r: seq<string>)
    ensures |r| == |deps| && forall i :: 0 <= i < |deps| ==> r[i] == ChildName(group, deps[i])
  {
    seq(|deps|, i requires 0 <= i < |deps| => ChildName(group, deps[i]))
  }

  method PrefixDeps(group: string, deps: seq<string>) returns (out: seq<string>)
    ensures out == Prefixed(group, deps)
  {
    out := [];
    for i := 0 to |deps|
      invariant out == Prefixed(group, deps)[..i]
    {
      out := out + [ChildName(group, deps[i])];
    }
  }

  /** The first exposure entry for the member; an empty service name means the member's own. */
  ghost function ExposeOf(es: seq<GroupExpose>, member: string): Option<Expose> {
    if es == [] then None
    else if es[0].tunnel == member
    then Some(Expose(true, if es[0].serviceName == "" then member else es[0].serviceName, es[0].forwardIndex))
    else ExposeOf(es[1..], member)
  }

  ghost predicate FirstFor(es: seq<GroupExpose>, member: string, k: int)
    requires 0 <= k < |es|
  {
    es[k].tunnel == member && forall j :: 0 <= j < k ==> es[j].tunnel != member
  }

  lemma {:induction false} ExposeAt(es: seq<GroupExpose>, member: string, k: nat)
    requires k < |es| && FirstFor(es, member, k)
    ensures ExposeOf(es, member)
         == Some(Expose(true, if es[k].serviceName == "" then member else es[k].serviceName, es[k].forwardIndex))
  {
    if k > 0 {
      assert forall j :: 0 <= j < k ==> es[1..][j] == es[j + 1];
      ExposeAt(es[1..], member, k - 1);
    }
  }

  lemma {:induction false} ExposeNone(es: seq<GroupExpose>, member: string)
    requires forall k :: 0 <= k < |es| ==> es[k].tunnel != member
    ensures ExposeOf(es, member).None?
  {
    if es != [] { ExposeNone(es[1..], member); }
  }

  /** The exposure by position: the first entry for the member decides, and none means no exposure. */
  lemma ExposeExactly(es: seq<GroupExpose>, member: string)
    ensures (forall k :: 0 <= k < |es| ==> es[k].tunnel != member) ==> ExposeOf(es, member).None?
    ensures forall k :: 0 <= k < |es| && FirstFor(es, member, k) ==>
      ExposeOf(es, member)
      == Some(Expose(true, if es[k].serviceName == "" then member else es[k].serviceName, es[k].forwardIndex))
  {
    if forall k :: 0 <= k < |es| ==> es[k].tunnel != member { ExposeNone(es, member); }
    forall k | 0 <= k < |es| && FirstFor(es, member, k)
      ensures ExposeOf(es, member)
        == Some(Expose(true, if es[k].serviceName == "" then member else es[k].serviceName, es[k].forwardIndex))
    {
      ExposeAt(es, member, k);
    }
  }

  method ExposeForMember(g: Group, member: string) returns (r: Option<Expose>)
    ensures r == ExposeOf(g.expose, member)
  {
    for i := 0 to |g.expose|
      invariant ExposeOf(g.expose, member) == ExposeOf(g.expose[i..], member)
    {
      var e := g.expose[i];
      if e.tunnel == member {
        var name := e.serviceName;
        if name == "" { name := member; }
        return Some(Expose(true, name, e.forwardIndex));
      }
    }
    r := None;
  }

  ghost function ChildSpec(g: Group, m: Member): CrSpec {
    CrSpec(Prefixed(g.name, m.dependsOn), m.ssh, m.kubectl, m.health, m.restart, m.startupTimeout, m.shutdownTimeout,
           g.nodeSelector, ExposeOf(g.expose, m.name))
  }

  ghost function Child(g: Group, m: Member, status: TunnelStatus): Tunnel {
    Tunnel(ChildName(g.name, m.name), g.namespace, 0, ChildSpec(g, m), status)
  }

  /** What a child takes from its member and from the group. */
  lemma ChildCarries(g: Group, m: Member, status: TunnelStatus)
    ensures var c := Child(g, m, status);
      && c.name == g.name + "-" + m.name && c.namespace == g.namespace
      && c.spec.ssh == m.ssh && c.spec.kubectl == m.kubectl && c.spec.health == m.health && c.spec.restart == m.restart
      && c.spec.startupTimeout == m.startupTimeout && c.spec.shutdownTimeout == m.shutdownTimeout
      && c.spec.nodeSelector == g.nodeSelector && c.spec.expose == ExposeOf(g.expose, m.name)
      && |c.spec.dependsOn| == |m.dependsOn|
      && forall i :: 0 <= i < |m.dependsOn| ==> c.spec.dependsOn[i] == g.name + "-" + m.dependsOn[i]
  {
  }

  /** What the daemon sees of a member, through the child Tunnel and the agent's translation. */
  ghost function DaemonSpec(g: Group, m: Member): TunnelSpec
    requires m.ssh.None? != m.kubectl.None?
  {
    WireSpec(Child(g, m, TunnelStatus(Phase.Unknown, "", [], None, 0, [], NoMessage)))
  }

  function FullName(g: Group, n: string): string {
    DaemonName(g.namespace, ChildName(g.name, n))
  }

  lemma FullNameInjective(g: Group, m: string, n: string)
    requires FullName(g, m) == FullName(g, n)
    ensures m == n
  {
    var p := g.namespace + "--" + g.name + "-";
    assert FullName(g, m) == p + m && FullName(g, n) == p + n;
    assert (p + m)[|p|..] == m && (p + n)[|p|..] == n;
  }

  /** Some member of the one group and some member of the other have one valid child Tunnel name. */
  ghost predicate ShareChild(g: string, h: string) {
    exists m, n :: ChildName(g, m) == ChildName(h, n) && IsSubdomain(ChildName(g, m))
  }

  lemma SharedChildShape(g: string, m: string, h: string, n: string)
    requires g != h && |g| <= |h| && ChildName(g, m) == ChildName(h, n) && IsSubdomain(ChildName(h, n))
    ensures g + "-" <= h && |h| <= 251
  {
    var a, b, child := g + "-", h + "-", ChildName(h, n);
    assert a + m == b + n == child;
    PrefixOfSame(a, m, b, n);
    assert g == a[..|g|] == b[..|g|] && h == b[..|h|];
    assert |g| < |h|;
    assert a == b[..|a|] == h[..|a|];
    assert child[|h|] == '-';
    assert |child| > |h| + 1;
  }

  lemma Continued(h: string)
    requires IsSubdomain(h) && |h| <= 251
    ensures IsSubdomain(ChildName(h, "a"))
  {
    var child := ChildName(h, "a");
    assert child == h + "-a" && forall i :: 0 <= i < |h| ==> child[i] == h[i];
    assert child[|h|] == '-' && child[|h| + 1] == 'a';
  }

  /**
   * Across the groups of one namespace child names are not unique: two groups can produce the same child,
   * and so the same daemon name, exactly when one is the other continued with a hyphen, and short enough
   * for a child to have a valid name at all.
   */
  lemma GroupsCollideExactly(g: string, h: string)
    requires IsSubdomain(g) && IsSubdomain(h) && g != h && |g| <= |h|
    ensures ShareChild(g, h) <==> g + "-" <= h && |h| <= 251
  {
    if m, n :| ChildName(g, m) == ChildName(h, n) && IsSubdomain(ChildName(g, m)) {
      SharedChildShape(g, m, h, n);
    }
    if g + "-" <= h && |h| <= 251 {
      var m := h[|g| + 1..] + "-a";
      assert h == g + "-" + h[|g| + 1..];
      assert ChildName(g, m) == ChildName(h, "a");
      Continued(h);
    }
  }

  // ---- The member graph and its image on the daemon ----

  ghost predicate DistinctMembers(ms: seq<Member>) {
    forall i, j :: 0 <= i < j < |ms| ==> ms[i].name != ms[j].name
  }

  ghost predicate Typed(ms: seq<Member>) {
    forall m :: m in ms ==> m.ssh.None? != m.kubectl.None?
  }

  ghost function MemberNames(ms: seq<Member>): set<string> {
    set m | m in ms :: m.name
  }

  ghost function MemberEdges(ms: seq<Member>): set<(string, string)> {
    set m, d | m in ms && d in m.dependsOn :: (d, m.name)
  }

  ghost predicate MembersClosed(ms: seq<Member>) {
    forall m, d :: m in ms && d in m.dependsOn ==> d in MemberNames(ms)
  }

  ghost function DaemonSpecs(g: Group): (order: seq<TunnelSpec>)
    requires Typed(g.members)
    ensures |order| == |g.members| && forall i :: 0 <= i < |order| ==> order[i] == DaemonSpec(g, g.members[i])
  {
    seq(|g.members|, i requires 0 <= i < |g.members| => DaemonSpec(g, g.members[i]))
  }

  /** The daemon's spec map after the whole group has been pushed. */
  ghost function GroupSpecs(g: Group): Specs
    requires Typed(g.members)
  {
    SpecMap(DaemonSpecs(g))
  }

  /** Every member name and every dependency name, with its name on the daemon. */
  ghost function Renaming(g: Group): map<string, string> {
    map n | n in MemberNames(g.members) + (set e | e in MemberEdges(g.members) :: e.0) :: FullName(g, n)
  }

  lemma DaemonSpecDeps(g: Group, m: Member)
    requires m.ssh.None? != m.kubectl.None?
    ensures DaemonSpec(g, m).name == FullName(g, m.name)
    ensures forall x :: x in DaemonSpec(g, m).dependsOn <==> exists d :: d in m.dependsOn && x == FullName(g, d)
  {
    var deps := DaemonSpec(g, m).dependsOn;
    assert |deps| == |m.dependsOn| && forall i :: 0 <= i < |deps| ==> deps[i] == FullName(g, m.dependsOn[i]);
    forall d | d in m.dependsOn ensures FullName(g, d) in deps {
      var i :| 0 <= i < |m.dependsOn| && m.dependsOn[i] == d;
      assert deps[i] == FullName(g, d);
    }
  }

  ghost predicate IsFullName(g: Group, n: string) {
    exists m :: m in g.members && n == FullName(g, m.name)
  }

  /** The group's spec map holds exactly one spec per member, under the member's full name. */
  lemma GroupSpecsHas(g: Group)
    requires Typed(g.members) && DistinctMembers(g.members)
    ensures forall m :: m in g.members ==> FullName(g, m.name) in GroupSpecs(g) && GroupSpecs(g)[FullName(g, m.name)] == DaemonSpec(g, m)
    ensures forall n :: n in GroupSpecs(g) <==> IsFullName(g, n)
  {
    var order := DaemonSpecs(g);
    forall i | 0 <= i < |order| ensures order[i].name == FullName(g, g.members[i].name) { DaemonSpecDeps(g, g.members[i]); }
    forall i, j | 0 <= i < j < |order| ensures order[i].name != order[j].name {
      if order[i].name == order[j].name { FullNameInjective(g, g.members[i].name, g.members[j].name); }
    }
    SpecMapHas(order);
    forall m | m in g.members
      ensures FullName(g, m.name) in GroupSpecs(g) && GroupSpecs(g)[FullName(g, m.name)] == DaemonSpec(g, m)
    {
      var i :| 0 <= i < |g.members| && g.members[i] == m;
      assert order[i].name == FullName(g, m.name);
    }
    forall n | n in GroupSpecs(g) ensures IsFullName(g, n) {
      var i := IndexOfName(order, n);
      assert g.members[i] in g.members;
    }
  }

  lemma RenamingOk(g: Group)
    ensures Injective(Renaming(g))
    ensures forall d :: d in MemberEdges(g.members) ==> d.0 in Renaming(g) && d.1 in Renaming(g)
  {
    var f := Renaming(g);
    forall x, y | x in f && y in f && f[x] == f[y] ensures x == y { FullNameInjective(g, x, y); }
    forall e | e in MemberEdges(g.members) ensures e.0 in f && e.1 in f {
      var m, d :| m in g.members && d in m.dependsOn && e == (d, m.name);
      assert m.name in MemberNames(g.members);
    }
  }

  /** The daemon's dependency graph is the member graph under the renaming. */
  lemma GroupEdges(g: Group)
    requires Typed(g.members) && DistinctMembers(g.members)
    requires forall d :: d in MemberEdges(g.members) ==> d.0 in Renaming(g) && d.1 in Renaming(g)
    ensures DepEdges(GroupSpecs(g)) == Image(MemberEdges(g.members), Renaming(g))
  {
    var specs, e, f := GroupSpecs(g), MemberEdges(g.members), Renaming(g);
    GroupSpecsHas(g);
    forall x | x in DepEdges(specs) ensures x in Image(e, f) {
      var n, d :| n in specs && d in specs[n].dependsOn && x == (d, n);
      var m :| m in g.members && n == FullName(g, m.name);
      DaemonSpecDeps(g, m);
      var d' :| d' in m.dependsOn && d == FullName(g, d');
      assert (d', m.name) in e;
      assert (f[(d', m.name).0], f[(d', m.name).1]) in Image(e, f);
    }
    forall x | x in Image(e, f) ensures x in DepEdges(specs) {
      var y :| y in e && x == (f[y.0], f[y.1]);
      var m, d :| m in g.members && d in m.dependsOn && y == (d, m.name);
      DaemonSpecDeps(g, m);
      assert FullName(g, d) in specs[FullName(g, m.name)].dependsOn;
    }
  }

  /** A dependency's full name is registered exactly when the dependency is a member. */
  lemma DepRegistered(g: Group, d: string)
    requires Typed(g.members) && DistinctMembers(g.members)
    ensures FullName(g, d) in GroupSpecs(g) <==> d in MemberNames(g.members)
  {
    GroupSpecsHas(g);
    if FullName(g, d) in GroupSpecs(g) {
      var m :| m in g.members && FullName(g, d) == FullName(g, m.name);
      FullNameInjective(g, d, m.name);
    }
  }

  lemma ClosedDown(g: Group, m: Member, d: string)
    requires Typed(g.members) && DistinctMembers(g.members) && Closed(GroupSpecs(g))
    requires m in g.members && d in m.dependsOn
    ensures d in MemberNames(g.members)
  {
    GroupSpecsHas(g);
    DaemonSpecDeps(g, m);
    var n := FullName(g, m.name);
    assert n in GroupSpecs(g) && FullName(g, d) in GroupSpecs(g)[n].dependsOn;
    DepRegistered(g, d);
  }

  lemma ClosedUp(g: Group, n: string, x: string)
    requires Typed(g.members) && DistinctMembers(g.members) && MembersClosed(g.members)
    requires n in GroupSpecs(g) && x in GroupSpecs(g)[n].dependsOn
    ensures x in GroupSpecs(g)
  {
    GroupSpecsHas(g);
    assert IsFullName(g, n);
    var m :| m in g.members && n == FullName(g, m.name);
    DaemonSpecDeps(g, m);
    var d :| d in m.dependsOn && x == FullName(g, d);
    DepRegistered(g, d);
  }

  lemma GroupClosed(g: Group)
    requires Typed(g.members) && DistinctMembers(g.members)
    ensures Closed(GroupSpecs(g)) <==> MembersClosed(g.members)
  {
    if MembersClosed(g.members) {
      forall n, x | n in GroupSpecs(g) && x in GroupSpecs(g)[n].dependsOn ensures x in GroupSpecs(g) { ClosedUp(g, n, x); }
    }
    if Closed(GroupSpecs(g)) {
      forall m, d | m in g.members && d in m.dependsOn ensures d in MemberNames(g.members) { ClosedDown(g, m, d); }
    }
  }

  /**
   * Renaming preserves planning: the daemon can plan a group exactly when the group's own member graph
   * is closed and acyclic.
   */
  lemma GroupPlannable(g: Group)
    requires Typed(g.members) && DistinctMembers(g.members)
    ensures Plannable(GroupSpecs(g)) <==> MembersClosed(g.members) && Acyclic(MemberEdges(g.members))
  {
    RenamingOk(g);
    GroupEdges(g);
    GroupClosed(g);
    RenamingKeepsAcyclic(MemberEdges(g.members), Renaming(g));
  }

  // ---- Aggregate status ----

  /** Failed beats Degraded beats Pending (or no phase yet) beats Healthy. */
  method AggregatePhase(phases: seq<Phase>) returns (r: Phase)
    ensures r == Phase.Failed <==> Phase.Failed in phases
    ensures r == Phase.Degraded <==> Phase.Failed !in phases && Phase.Degraded in phases
    ensures r == Phase.Pending <==>
      phases == []
      || (Phase.Failed !in phases && Phase.Degraded !in phases && (Phase.Pending in phases || Phase.Unknown in phases))
    ensures r == Phase.Healthy <==> phases != [] && forall p :: p in phases ==> p == Phase.Healthy || p == Phase.Stopped
  {
    if phases == [] {
      return Phase.Pending;
    }
    var hasPending, hasDegraded, hasFailed := false, false, false;
    for i := 0 to |phases|
      invariant hasFailed <==> Phase.Failed in phases[..i]
      invariant hasDegraded <==> Phase.Degraded in phases[..i]
      invariant hasPending <==> Phase.Pending in phases[..i] || Phase.Unknown in phases[..i]
    {
      assert phases[..i + 1] == phases[..i] + [phases[i]];
      match phases[i]
      case Failed => hasFailed := true;
      case Degraded => hasDegraded := true;
      case Pending => hasPending := true;
      case Unknown => hasPending := true;
      case Healthy =>
      case Stopped =>
    }
    assert phases[..|phases|] == phases;
    if hasFailed { return Phase.Failed; }
    if hasDegraded { return Phase.Degraded; }
    if hasPending { return Phase.Pending; }
    assert phases[0] in phases;
    r := Phase.Healthy;
  }
}
