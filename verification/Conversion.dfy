/** k8s/agent/conversion.go: daemon-side names and the translation of a Tunnel into a wire spec. */
module Conversion {
  import opened Basics
  import opened Proto
  import opened Durations
  import opened Crd

  // ---- Names ----

  function DaemonName(namespace: string, name: string): string {
    namespace + "--" + name
  }

  predicate IsAlnum(c: char) {
    'a' <= c <= 'z' || '0' <= c <= '9'
  }

  /** A namespace's name, a label of section 2.1 of RFC 1123: letters, digits and inner hyphens, at most 63. */
  ghost predicate IsLabel(s: string) {
    && 0 < |s| <= 63 && IsAlnum(s[0]) && IsAlnum(s[|s| - 1])
    && forall i :: 0 <= i < |s| ==> IsAlnum(s[i]) || s[i] == '-'
  }

  /** Any other object's name: dot-separated parts of that form, at most 253 characters together. */
  ghost predicate IsSubdomain(s: string) {
    && 0 < |s| <= 253 && IsAlnum(s[0]) && IsAlnum(s[|s| - 1])
    && (forall i :: 0 <= i < |s| ==> IsAlnum(s[i]) || s[i] == '-' || s[i] == '.')
    && forall i, j :: 0 <= i && j == i + 1 && j < |s| ==> (s[i] == '.' ==> IsAlnum(s[j])) && (s[j] == '.' ==> IsAlnum(s[i]))
  }

  ghost predicate HasDoubleHyphen(s: string) {
    exists i, j :: 0 <= i && j == i + 1 && j < |s| && s[i] == '-' && s[j] == '-'
  }

  lemma PrefixOfSame(a: string, x: string, b: string, y: string)
    requires a + x == b + y && |a| <= |b|
    ensures a <= b && x == b[|a|..] + y
  {
    assert (a + x)[..|a|] == a && (b + y)[..|a|] == b[..|a|];
    assert (a + x)[|a|..] == x && (b + y)[|a|..] == b[|a|..] + y;
  }

  /** Some Tunnel of the one namespace and some Tunnel of the other share a daemon name. */
  ghost predicate Collide(m: string, n: string) {
    exists s, t :: IsSubdomain(s) && IsSubdomain(t) && DaemonName(m, s) == DaemonName(n, t)
  }

  lemma CollisionShape(m: string, s: string, n: string, t: string)
    requires IsLabel(m) && IsLabel(n) && m != n && |m| <= |n| && IsSubdomain(s)
    requires DaemonName(m, s) == DaemonName(n, t)
    ensures |n| > |m| + 2 && m + "--" <= n && n[|m| + 2] != '-'
  {
    var a, b := m + "--", n + "--";
    assert a + s == b + t;
    PrefixOfSame(a, s, b, t);
    assert b[..|m|] == a[..|m|] == m && n == b[..|n|];
    assert b[|m|] == a[|m|] == '-' && b[|m| + 1] == a[|m| + 1] == '-';
    assert |n| != |m|;
    assert n[|n| - 1] == b[|n| - 1];
    assert |n| > |m| + 2;
    assert forall i :: 0 <= i < |a| ==> n[i] == b[i] == a[i];
    assert s[0] == b[|m| + 2] == n[|m| + 2];
  }

  /**
   * The Tunnels of two namespaces can share a daemon name exactly when the longer namespace goes on, after
   * the shorter one and the separator, with something a Tunnel's name can start with.
   */
  lemma NamesCollideExactly(m: string, n: string)
    requires IsLabel(m) && IsLabel(n) && m != n && |m| <= |n|
    ensures Collide(m, n) <==> |n| > |m| + 2 && m + "--" <= n && n[|m| + 2] != '-'
  {
    if s, t :| IsSubdomain(s) && IsSubdomain(t) && DaemonName(m, s) == DaemonName(n, t) {
      CollisionShape(m, s, n, t);
    }
    if |n| > |m| + 2 && m + "--" <= n && n[|m| + 2] != '-' {
      var rest := n[|m| + 2..];
      var s := rest + "--a";
      assert n == m + "--" + rest;
      assert rest[|rest| - 1] == n[|n| - 1];
      assert forall i :: 0 <= i < |rest| ==> rest[i] == n[|m| + 2 + i];
      assert IsSubdomain(s) && IsSubdomain("a");
      assert DaemonName(m, s) == DaemonName(n, "a");
    }
  }

  lemma InjectiveOrdered(m: string, s: string, n: string, t: string)
    requires IsLabel(m) && IsLabel(n) && !HasDoubleHyphen(n) && |m| <= |n| && DaemonName(m, s) == DaemonName(n, t)
    ensures m == n && s == t
  {
    var a, b := m + "--", n + "--";
    assert a + s == b + t;
    PrefixOfSame(a, s, b, t);
    assert b[|m|] == a[|m|] == '-' && b[|m| + 1] == a[|m| + 1] == '-';
    assert forall k :: 0 <= k < |n| ==> n[k] == b[k];
    assert m == a[..|m|] == b[..|m|] && n == b[..|n|];
  }

  /** Across namespaces that are labels without "--", the daemon name determines namespace and tunnel. */
  lemma DaemonNameInjective(m: string, s: string, n: string, t: string)
    requires IsLabel(m) && IsLabel(n) && !HasDoubleHyphen(m) && !HasDoubleHyphen(n)
    requires DaemonName(m, s) == DaemonName(n, t)
    ensures m == n && s == t
  {
    if |m| <= |n| { InjectiveOrdered(m, s, n, t); } else { InjectiveOrdered(n, t, m, s); }
  }

  /** A label may contain "--", and then two tunnels of different namespaces share a daemon name. */
  lemma DoubleHyphenCollides()
    ensures IsLabel("a") && IsLabel("a--b") && IsSubdomain("b--c") && IsSubdomain("c")
    ensures DaemonName("a", "b--c") == DaemonName("a--b", "c")
  {
  }

  // ---- Tunnel to wire spec ----

  function ToDurationPB(d: Option<int>): Option<Duration> {
    if d.None? then None else Some(NewDuration(d.value))
  }

  /** The daemon's name for the key: the TunnelKey reference wins over the Secret reference. */
  function KeyRef(namespace: string, key: Option<string>, secret: Option<string>): string {
    if key.Some? then DaemonName(namespace, key.value)
    else if secret.Some? then DaemonName(namespace, secret.value)
    else ""
  }

  function HealthPB(h: CrHealth): HealthCheckSpec {
    HealthCheckSpec(h.kind, h.address, ToDurationPB(h.interval), ToDurationPB(h.timeout), ToDurationPB(h.startupTimeout))
  }

  function BackoffPB(b: CrBackoff): BackoffSpec {
    BackoffSpec(b.multiplierMilli as real / 1000.0, ToDurationPB(b.maxDelay))
  }

  function RestartPB(r: CrRestart): RestartPolicySpec {
    RestartPolicySpec(r.policy, ToDurationPB(r.delay), r.maxAttempts,
                      if r.backoff.None? then None else Some(BackoffPB(r.backoff.value)))
  }

  ghost function DaemonNames(namespace: string, names: seq<string>): (r: seq<string>)
    ensures |r| == |names| && forall i :: 0 <= i < |names| ==> r[i] == DaemonName(namespace, names[i])
  {
    seq(|names|, i requires 0 <= i < |names| => DaemonName(namespace, names[i]))
  }

  ghost function WireKind(t: Tunnel): Kind
    requires t.spec.WellTyped()
  {
    if t.spec.ssh.Some? then
      var s := t.spec.ssh.value;
      Ssh(SSHSpec(s.user, s.host, s.port, "", s.localForwards, s.options,
                  KeyRef(t.namespace, s.identityKeyRef, s.identityKeySecretRef)))
    else
      var k := t.spec.kubectl.value;
      Kubectl(KubectlSpec(KeyRef(t.namespace, k.kubeconfigRef, k.kubeconfigSecretRef), k.context, k.namespace,
                          k.resource, k.forwards, k.apiServer, k.insecureSkipTLSVerify, ""))
  }

  ghost function WireSpec(t: Tunnel): TunnelSpec
    requires t.spec.WellTyped()
  {
    TunnelSpec(DaemonName(t.namespace, t.name), DaemonNames(t.namespace, t.spec.dependsOn), WireKind(t),
      if t.spec.health.None? then None else Some(HealthPB(t.spec.health.value)),
      if t.spec.restart.None? then None else Some(RestartPB(t.spec.restart.value)),
      ToDurationPB(t.spec.startupTimeout), ToDurationPB(t.spec.shutdownTimeout))
  }

  /** ToProto: None is its error for a Tunnel with both or neither type. */
  method ToProto(t: Tunnel) returns (r: Option<TunnelSpec>)
    ensures r == if t.spec.WellTyped() then Some(WireSpec(t)) else None
  {
    if t.spec.ssh.None? == t.spec.kubectl.None? {
      return None;
    }
    var out := TunnelSpec(DaemonName(t.namespace, t.name), [], Unset, None, None,
                          ToDurationPB(t.spec.startupTimeout), ToDurationPB(t.spec.shutdownTimeout));
    for i := 0 to |t.spec.dependsOn|
      invariant out == TunnelSpec(DaemonName(t.namespace, t.name), DaemonNames(t.namespace, t.spec.dependsOn)[..i], Unset, None, None,
                                  ToDurationPB(t.spec.startupTimeout), ToDurationPB(t.spec.shutdownTimeout))
    {
      out := out.(dependsOn := out.dependsOn + [DaemonName(t.namespace, t.spec.dependsOn[i])]);
    }
    assert out.dependsOn == DaemonNames(t.namespace, t.spec.dependsOn);
    if t.spec.health.Some? { out := out.(health := Some(HealthPB(t.spec.health.value))); }
    if t.spec.restart.Some? { out := out.(restart := Some(RestartPB(t.spec.restart.value))); }
    if t.spec.ssh.Some? {
      var s := t.spec.ssh.value;
      var forwards: seq<SSHForward> := [];
      for i := 0 to |s.localForwards|
        invariant forwards == s.localForwards[..i]
      {
        var f := s.localForwards[i];
        forwards := forwards + [SSHForward(f.listenAddress, f.listenPort, f.targetHost, f.targetPort)];
      }
      assert forwards == s.localForwards;
      out := out.(kind := Ssh(SSHSpec(s.user, s.host, s.port, "", forwards, s.options,
                                      KeyRef(t.namespace, s.identityKeyRef, s.identityKeySecretRef))));
    } else {
      var k := t.spec.kubectl.value;
      var forwards: seq<KubectlForward> := [];
      for i := 0 to |k.forwards|
        invariant forwards == k.forwards[..i]
      {
        var f := k.forwards[i];
        forwards := forwards + [KubectlForward(f.localAddress, f.localPort, f.remotePort)];
      }
      assert forwards == k.forwards;
      out := out.(kind := Kubectl(KubectlSpec(KeyRef(t.namespace, k.kubeconfigRef, k.kubeconfigSecretRef), k.context,
                                              k.namespace, k.resource, forwards, k.apiServer, k.insecureSkipTLSVerify, "")));
    }
    r := Some(out);
  }
}
