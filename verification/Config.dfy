/** internal/config/config.go: the YAML configuration's records, their translation and validation. */
module Configs {
  import opened Basics
  import opened Proto
  import opened Durations
  import opened Planning
  import opened Ports
  import opened Claiming
  import opened Processes
  import opened Backoff

  datatype SSHForwardConfig = SSHForwardConfig(listenAddress: string, listenPort: int, targetHost: string, targetPort: int)

  datatype SSHConfig = SSHConfig(
    user: string, host: string, port: int, identityKeyFile: string, identityKeyRef: string,
    localForwards: seq<SSHForwardConfig>, options: map<string, string>)

  datatype KubectlForwardConfig = KubectlForwardConfig(localAddress: string, localPort: int, remotePort: int)

  datatype KubectlConfig = KubectlConfig(
    kubeconfigFile: string, kubeconfigRef: string, context: string, namespace: string, resource: string,
    forwards: seq<KubectlForwardConfig>, apiServer: string, insecureSkipTLSVerify: bool)

  /** Durations are Go's int64 nanoseconds. */
  datatype HealthCheckConfig = HealthCheckConfig(kind: string, address: string, interval: int, timeout: int, startupTimeout: int)

  datatype BackoffConfig = BackoffConfig(multiplier: real, maxDelay: int)

  datatype RestartPolicyConfig = RestartPolicyConfig(policy: string, delay: int, maxAttempts: int, backoff: Option<BackoffConfig>)

  datatype TunnelConfig = TunnelConfig(
    enabled: bool, kind: string, dependsOn: seq<string>, ssh: Option<SSHConfig>, kubectl: Option<KubectlConfig>,
    health: HealthCheckConfig, restart: RestartPolicyConfig, startupTimeout: int, shutdownTimeout: int)

  datatype ConfigError = SectionMissing(kind: string) | UnknownType(kind: string)

  // ---- From the wire to the configuration ----

  ghost function SshForwardsIn(fs: seq<SSHForward>): (gs: seq<SSHForwardConfig>)
    ensures |gs| == |fs|
    ensures forall i :: 0 <= i < |fs| ==>
      gs[i] == SSHForwardConfig(fs[i].listenAddress, fs[i].listenPort, fs[i].targetHost, fs[i].targetPort)
  {
    seq(|fs|, i requires 0 <= i < |fs| =>
      SSHForwardConfig(fs[i].listenAddress, fs[i].listenPort, fs[i].targetHost, fs[i].targetPort))
  }

  ghost function KubectlForwardsIn(fs: seq<KubectlForward>): (gs: seq<KubectlForwardConfig>)
    ensures |gs| == |fs|
    ensures forall i :: 0 <= i < |fs| ==>
      gs[i] == KubectlForwardConfig(fs[i].localAddress, fs[i].localPort, fs[i].remotePort)
  {
    seq(|fs|, i requires 0 <= i < |fs| => KubectlForwardConfig(fs[i].localAddress, fs[i].localPort, fs[i].remotePort))
  }

  ghost function SshIn(s: SSHSpec): SSHConfig {
    SSHConfig(s.user, s.host, s.port, s.identityKeyFile, s.identityKeyRef, SshForwardsIn(s.localForwards), s.options)
  }

  ghost function KubectlIn(k: KubectlSpec): KubectlConfig {
    KubectlConfig(k.kubeconfigFile, k.kubeconfigRef, k.context, k.namespace, k.resource,
                  KubectlForwardsIn(k.forwards), k.apiServer, k.insecureSkipTlsVerify)
  }

  ghost function HealthIn(h: HealthCheckSpec): HealthCheckConfig {
    HealthCheckConfig(h.kind, h.address, AsDuration(h.interval), AsDuration(h.timeout), AsDuration(h.startupTimeout))
  }

  ghost function RestartIn(r: RestartPolicySpec): RestartPolicyConfig {
    RestartPolicyConfig(r.policy, AsDuration(r.delay), r.maxAttempts,
      if r.backoff.None? then None else Some(BackoffConfig(r.backoff.value.multiplier, AsDuration(r.backoff.value.maxDelay))))
  }

  /** FromProto reads through the health and restart messages without checking that they are there. */
  ghost predicate Readable(spec: TunnelSpec) {
    spec.health.Some? && spec.restart.Some?
  }

  ghost function ConfigOf(spec: TunnelSpec): TunnelConfig
    requires Readable(spec)
  {
    TunnelConfig(
      true,
      match spec.kind case Unset => "" case Ssh(_) => "ssh" case Kubectl(_) => "kubectl",
      spec.dependsOn,
      if spec.kind.Ssh? then Some(SshIn(spec.kind.ssh)) else None,
      if spec.kind.Kubectl? then Some(KubectlIn(spec.kind.kubectl)) else None,
      HealthIn(spec.health.value), RestartIn(spec.restart.value),
      AsDuration(spec.startupTimeout), AsDuration(spec.shutdownTimeout))
  }

  method FromProto(spec: TunnelSpec) returns (tc: TunnelConfig)
    requires Readable(spec)
    ensures tc == ConfigOf(spec)
  {
    var h, r := spec.health.value, spec.restart.value;
    tc := TunnelConfig(true, "", spec.dependsOn, None, None,
      HealthCheckConfig(h.kind, h.address, AsDuration(h.interval), AsDuration(h.timeout), AsDuration(h.startupTimeout)),
      RestartPolicyConfig(r.policy, AsDuration(r.delay), r.maxAttempts, None),
      AsDuration(spec.startupTimeout), AsDuration(spec.shutdownTimeout));
    if r.backoff.Some? {
      var b := BackoffConfig(r.backoff.value.multiplier, AsDuration(r.backoff.value.maxDelay));
      tc := tc.(restart := tc.restart.(backoff := Some(b)));
    }
    match spec.kind
    case Unset =>
    case Ssh(s) =>
      var forwards: seq<SSHForwardConfig> := [];
      for i := 0 to |s.localForwards|
        invariant forwards == SshForwardsIn(s.localForwards)[..i]
      {
        var f := s.localForwards[i];
        forwards := forwards + [SSHForwardConfig(f.listenAddress, f.listenPort, f.targetHost, f.targetPort)];
      }
      assert forwards == SshForwardsIn(s.localForwards);
      tc := tc.(kind := "ssh", ssh := Some(
        SSHConfig(s.user, s.host, s.port, s.identityKeyFile, s.identityKeyRef, forwards, s.options)));
    case Kubectl(k) =>
      var forwards: seq<KubectlForwardConfig> := [];
      for i := 0 to |k.forwards|
        invariant forwards == KubectlForwardsIn(k.forwards)[..i]
      {
        var f := k.forwards[i];
        forwards := forwards + [KubectlForwardConfig(f.localAddress, f.localPort, f.remotePort)];
      }
      assert forwards == KubectlForwardsIn(k.forwards);
      tc := tc.(kind := "kubectl", kubectl := Some(
        KubectlConfig(k.kubeconfigFile, k.kubeconfigRef, k.context, k.namespace, k.resource, forwards,
                      k.apiServer, k.insecureSkipTlsVerify)));
  }

  // ---- From the configuration to the wire ----

  ghost function SshForwardsOut(fs: seq<SSHForwardConfig>): (gs: seq<SSHForward>)
    ensures |gs| == |fs|
    ensures forall i :: 0 <= i < |fs| ==>
      gs[i] == SSHForward(fs[i].listenAddress, WrapInt32(fs[i].listenPort), fs[i].targetHost, WrapInt32(fs[i].targetPort))
  {
    seq(|fs|, i requires 0 <= i < |fs| =>
      SSHForward(fs[i].listenAddress, WrapInt32(fs[i].listenPort), fs[i].targetHost, WrapInt32(fs[i].targetPort)))
  }

  ghost function KubectlForwardsOut(fs: seq<KubectlForwardConfig>): (gs: seq<KubectlForward>)
    ensures |gs| == |fs|
    ensures forall i :: 0 <= i < |fs| ==>
      gs[i] == KubectlForward(fs[i].localAddress, WrapInt32(fs[i].localPort), WrapInt32(fs[i].remotePort))
  {
    seq(|fs|, i requires 0 <= i < |fs| =>
      KubectlForward(fs[i].localAddress, WrapInt32(fs[i].localPort), WrapInt32(fs[i].remotePort)))
  }

  ghost function SshOut(s: SSHConfig): SSHSpec {
    SSHSpec(s.user, s.host, WrapInt32(s.port), s.identityKeyFile, SshForwardsOut(s.localForwards), s.options, s.identityKeyRef)
  }

  ghost function KubectlOut(k: KubectlConfig): KubectlSpec {
    KubectlSpec(k.kubeconfigRef, k.context, k.namespace, k.resource, KubectlForwardsOut(k.forwards),
                k.apiServer, k.insecureSkipTLSVerify, k.kubeconfigFile)
  }

  function Out(ns: int): Option<Duration> {
    Some(NewDuration(ns))
  }

  function HealthOut(h: HealthCheckConfig): HealthCheckSpec {
    HealthCheckSpec(h.kind, h.address, Out(h.interval), Out(h.timeout), Out(h.startupTimeout))
  }

  function RestartOut(r: RestartPolicyConfig): RestartPolicySpec {
    RestartPolicySpec(r.policy, Out(r.delay), WrapInt32(r.maxAttempts),
      if r.backoff.None? then None else Some(BackoffSpec(r.backoff.value.multiplier, Out(r.backoff.value.maxDelay))))
  }

  ghost function SpecOf(tc: TunnelConfig, name: string): Result<TunnelSpec, ConfigError> {
    var spec := TunnelSpec(name, tc.dependsOn, Unset, Some(HealthOut(tc.health)), Some(RestartOut(tc.restart)),
                           Out(tc.startupTimeout), Out(tc.shutdownTimeout));
    if tc.kind == "ssh" then
      if tc.ssh.None? then Failure(SectionMissing("ssh")) else Success(spec.(kind := Ssh(SshOut(tc.ssh.value))))
    else if tc.kind == "kubectl" then
      if tc.kubectl.None? then Failure(SectionMissing("kubectl")) else Success(spec.(kind := Kubectl(KubectlOut(tc.kubectl.value))))
    else Failure(UnknownType(tc.kind))
  }

  method ToProto(tc: TunnelConfig, name: string) returns (r: Result<TunnelSpec, ConfigError>)
    ensures r == SpecOf(tc, name)
  {
    var p := TunnelSpec(name, tc.dependsOn, Unset, Some(HealthOut(tc.health)), Some(RestartOut(tc.restart)),
                        Out(tc.startupTimeout), Out(tc.shutdownTimeout));
    if tc.kind == "ssh" {
      if tc.ssh.None? { return Failure(SectionMissing("ssh")); }
      var s := tc.ssh.value;
      var forwards: seq<SSHForward> := [];
      for i := 0 to |s.localForwards|
        invariant forwards == SshForwardsOut(s.localForwards)[..i]
      {
        var f := s.localForwards[i];
        forwards := forwards + [SSHForward(f.listenAddress, WrapInt32(f.listenPort), f.targetHost, WrapInt32(f.targetPort))];
      }
      assert forwards == SshForwardsOut(s.localForwards);
      p := p.(kind := Ssh(SSHSpec(s.user, s.host, WrapInt32(s.port), s.identityKeyFile, forwards, s.options, s.identityKeyRef)));
    } else if tc.kind == "kubectl" {
      if tc.kubectl.None? { return Failure(SectionMissing("kubectl")); }
      var k := tc.kubectl.value;
      var forwards: seq<KubectlForward> := [];
      for i := 0 to |k.forwards|
        invariant forwards == KubectlForwardsOut(k.forwards)[..i]
      {
        var f := k.forwards[i];
        forwards := forwards + [KubectlForward(f.localAddress, WrapInt32(f.localPort), WrapInt32(f.remotePort))];
      }
      assert forwards == KubectlForwardsOut(k.forwards);
      p := p.(kind := Kubectl(KubectlSpec(k.kubeconfigRef, k.context, k.namespace, k.resource, forwards,
                                          k.apiServer, k.insecureSkipTLSVerify, k.kubeconfigFile)));
    } else {
      return Failure(UnknownType(tc.kind));
    }
    r := Success(p);
  }

  // ---- Field by field ----

  /** A configuration converts exactly when its type is known and the type's section is there. */
  lemma ConvertsExactly(tc: TunnelConfig, name: string)
    ensures SpecOf(tc, name).Success? <==> (tc.kind == "ssh" && tc.ssh.Some?) || (tc.kind == "kubectl" && tc.kubectl.Some?)
    ensures SpecOf(tc, name).Failure? ==>
      SpecOf(tc, name).error == if tc.kind == "ssh" || tc.kind == "kubectl" then SectionMissing(tc.kind) else UnknownType(tc.kind)
  {
  }

  /** x fits an int32, or y is the int32 with the same low 32 bits. */
  ghost predicate Narrowed(x: int, y: int32) {
    -0x8000_0000 <= y < 0x8000_0000 && (x - y) % 0x1_0000_0000 == 0
  }

  /** Numbers that do not fit an int32 are narrowed to their low 32 bits, ports as well as the restart limit. */
  lemma NarrowedFields(tc: TunnelConfig, name: string)
    requires SpecOf(tc, name).Success?
    ensures var spec := SpecOf(tc, name).value;
      && spec.name == name && Narrowed(tc.restart.maxAttempts, spec.restart.value.maxAttempts)
      && (spec.kind.Ssh? ==>
            Narrowed(tc.ssh.value.port, spec.kind.ssh.port)
            && forall i :: 0 <= i < |tc.ssh.value.localForwards| ==>
                 Narrowed(tc.ssh.value.localForwards[i].listenPort, spec.kind.ssh.localForwards[i].listenPort)
                 && Narrowed(tc.ssh.value.localForwards[i].targetPort, spec.kind.ssh.localForwards[i].targetPort))
      && (spec.kind.Kubectl? ==>
            forall i :: 0 <= i < |tc.kubectl.value.forwards| ==>
              Narrowed(tc.kubectl.value.forwards[i].localPort, spec.kind.kubectl.forwards[i].localPort)
              && Narrowed(tc.kubectl.value.forwards[i].remotePort, spec.kind.kubectl.forwards[i].remotePort))
  {
    forall x: int ensures Narrowed(x, WrapInt32(x)) { WrapInt32Exactly(x, WrapInt32(x)); }
  }

  /** Which wire field each configuration field comes from; with the round trips this fixes ToProto as well. */
  lemma FieldsCarried(spec: TunnelSpec)
    requires Readable(spec)
    ensures var tc, h, r := ConfigOf(spec), spec.health.value, spec.restart.value;
      && tc.enabled && tc.dependsOn == spec.dependsOn
      && tc.startupTimeout == AsDuration(spec.startupTimeout) && tc.shutdownTimeout == AsDuration(spec.shutdownTimeout)
      && tc.health.kind == h.kind && tc.health.address == h.address && tc.health.interval == AsDuration(h.interval)
      && tc.health.timeout == AsDuration(h.timeout) && tc.health.startupTimeout == AsDuration(h.startupTimeout)
      && tc.restart.policy == r.policy && tc.restart.delay == AsDuration(r.delay) && tc.restart.maxAttempts == r.maxAttempts
      && (tc.restart.backoff.Some? <==> r.backoff.Some?)
      && (r.backoff.Some? ==>
            tc.restart.backoff.value.multiplier == r.backoff.value.multiplier
            && tc.restart.backoff.value.maxDelay == AsDuration(r.backoff.value.maxDelay))
    ensures spec.kind.Unset? ==> ConfigOf(spec).kind == "" && ConfigOf(spec).ssh.None? && ConfigOf(spec).kubectl.None?
    ensures spec.kind.Ssh? ==>
      var tc, s := ConfigOf(spec), spec.kind.ssh;
      && tc.kind == "ssh" && tc.kubectl.None? && tc.ssh.Some? && tc.ssh.value.user == s.user && tc.ssh.value.host == s.host
      && tc.ssh.value.port == s.port && tc.ssh.value.options == s.options
      && tc.ssh.value.identityKeyFile == s.identityKeyFile && tc.ssh.value.identityKeyRef == s.identityKeyRef
      && |tc.ssh.value.localForwards| == |s.localForwards|
      && forall i :: 0 <= i < |s.localForwards| ==>
           var f, g := s.localForwards[i], tc.ssh.value.localForwards[i];
           g.listenAddress == f.listenAddress && g.listenPort == f.listenPort && g.targetHost == f.targetHost && g.targetPort == f.targetPort
    ensures spec.kind.Kubectl? ==>
      var tc, k := ConfigOf(spec), spec.kind.kubectl;
      && tc.kind == "kubectl" && tc.ssh.None? && tc.kubectl.Some? && tc.kubectl.value.context == k.context
      && tc.kubectl.value.namespace == k.namespace && tc.kubectl.value.resource == k.resource
      && tc.kubectl.value.apiServer == k.apiServer && tc.kubectl.value.insecureSkipTLSVerify == k.insecureSkipTlsVerify
      && tc.kubectl.value.kubeconfigFile == k.kubeconfigFile && tc.kubectl.value.kubeconfigRef == k.kubeconfigRef
      && |tc.kubectl.value.forwards| == |k.forwards|
      && forall i :: 0 <= i < |k.forwards| ==>
           var f, g := k.forwards[i], tc.kubectl.value.forwards[i];
           g.localAddress == f.localAddress && g.localPort == f.localPort && g.remotePort == f.remotePort
  {
  }

  // ---- Round trips ----

  ghost predicate DurationOk(d: Option<Duration>) {
    d.Some? ==> Normalised(d.value)
  }

  ghost predicate HealthOk(h: HealthCheckSpec) {
    DurationOk(h.interval) && DurationOk(h.timeout) && DurationOk(h.startupTimeout)
  }

  ghost predicate RestartOk(r: RestartPolicySpec) {
    DurationOk(r.delay) && (r.backoff.Some? ==> DurationOk(r.backoff.value.maxDelay))
  }

  /** Health and restart present, type set, durations in the form durationpb produces. */
  ghost predicate WellFormed(spec: TunnelSpec) {
    && Readable(spec) && !spec.kind.Unset?
    && HealthOk(spec.health.value) && RestartOk(spec.restart.value)
    && DurationOk(spec.startupTimeout) && DurationOk(spec.shutdownTimeout)
  }

  ghost function Present(d: Option<Duration>): Option<Duration> {
    if d.None? then Some(Duration(0, 0)) else d
  }

  ghost function PresentHealth(h: HealthCheckSpec): HealthCheckSpec {
    h.(interval := Present(h.interval), timeout := Present(h.timeout), startupTimeout := Present(h.startupTimeout))
  }

  ghost function PresentRestart(r: RestartPolicySpec): RestartPolicySpec {
    r.(delay := Present(r.delay),
       backoff := if r.backoff.None? then None
                  else Some(r.backoff.value.(maxDelay := Present(r.backoff.value.maxDelay))))
  }

  /** The same spec with every absent duration made an explicit zero. */
  ghost function Explicit(spec: TunnelSpec): TunnelSpec
    requires Readable(spec)
  {
    spec.(health := Some(PresentHealth(spec.health.value)), restart := Some(PresentRestart(spec.restart.value)),
          startupTimeout := Present(spec.startupTimeout), shutdownTimeout := Present(spec.shutdownTimeout))
  }

  lemma DurationTrip(d: Option<Duration>)
    requires DurationOk(d)
    ensures Out(AsDuration(d)) == Present(d) && DurationOk(Present(d)) && AsDuration(Present(d)) == AsDuration(d)
  {
    if d.Some? { ProtoRoundTrip(d.value); }
  }

  lemma HealthTrip(h: HealthCheckSpec)
    requires HealthOk(h)
    ensures HealthOut(HealthIn(h)) == PresentHealth(h) && HealthOk(PresentHealth(h))
  {
    DurationTrip(h.interval);
    DurationTrip(h.timeout);
    DurationTrip(h.startupTimeout);
  }

  lemma RestartTrip(r: RestartPolicySpec)
    requires RestartOk(r)
    ensures RestartOut(RestartIn(r)) == PresentRestart(r) && RestartOk(PresentRestart(r))
  {
    DurationTrip(r.delay);
    if r.backoff.Some? { DurationTrip(r.backoff.value.maxDelay); }
  }

  lemma KindTrip(kind: Kind)
    ensures kind.Ssh? ==> SshOut(SshIn(kind.ssh)) == kind.ssh
    ensures kind.Kubectl? ==> KubectlOut(KubectlIn(kind.kubectl)) == kind.kubectl
  {
    if kind.Ssh? { assert SshForwardsOut(SshForwardsIn(kind.ssh.localForwards)) == kind.ssh.localForwards; }
    if kind.Kubectl? { assert KubectlForwardsOut(KubectlForwardsIn(kind.kubectl.forwards)) == kind.kubectl.forwards; }
  }

  /** ToProto after FromProto gives the same spec back, with absent durations made zero. */
  lemma SpecRoundTrip(spec: TunnelSpec)
    requires WellFormed(spec)
    ensures SpecOf(ConfigOf(spec), spec.name) == Success(Explicit(spec))
    ensures WellFormed(Explicit(spec)) && Explicit(Explicit(spec)) == Explicit(spec)
  {
    HealthTrip(spec.health.value);
    RestartTrip(spec.restart.value);
    DurationTrip(spec.startupTimeout);
    DurationTrip(spec.shutdownTimeout);
    KindTrip(spec.kind);
  }

  /** A second trip changes nothing. */
  lemma SecondTrip(spec: TunnelSpec)
    requires WellFormed(spec)
    ensures SpecOf(ConfigOf(Explicit(spec)), spec.name) == Success(Explicit(spec))
  {
    SpecRoundTrip(spec);
    SpecRoundTrip(Explicit(spec));
  }

  /** What the daemon does with a spec is the same after a trip: ordering, claims, budget and delays. */
  lemma TripKeepsBehaviour(spec: TunnelSpec, attempts: nat)
    requires WellFormed(spec)
    ensures var s := Explicit(spec);
      && s.dependsOn == spec.dependsOn && KeysOf(s) == KeysOf(spec)
      && NeverRestarts(s) == NeverRestarts(spec) && BudgetSpent(s, attempts) == BudgetSpent(spec, attempts)
      && InRange(s.restart.value, attempts) == InRange(spec.restart.value, attempts)
      && (InRange(spec.restart.value, attempts) ==>
            RestartDelay(s.restart.value, attempts) == RestartDelay(spec.restart.value, attempts))
  {
    var r := spec.restart.value;
    DurationTrip(r.delay);
    if r.backoff.Some? {
      DurationTrip(r.backoff.value.maxDelay);
      assert Product(PresentRestart(r), attempts) == Product(r, attempts);
    }
  }

  /** Values that survive the conversion to int32 and int64. */
  ghost predicate ConfigInRange(tc: TunnelConfig) {
    && IsInt64(tc.startupTimeout) && IsInt64(tc.shutdownTimeout)
    && IsInt64(tc.health.interval) && IsInt64(tc.health.timeout) && IsInt64(tc.health.startupTimeout)
    && IsInt64(tc.restart.delay) && IsInt32(tc.restart.maxAttempts)
    && (tc.restart.backoff.Some? ==> IsInt64(tc.restart.backoff.value.maxDelay))
    && (tc.ssh.Some? ==>
          IsInt32(tc.ssh.value.port)
          && forall f :: f in tc.ssh.value.localForwards ==> IsInt32(f.listenPort) && IsInt32(f.targetPort))
    && (tc.kubectl.Some? ==>
          forall f :: f in tc.kubectl.value.forwards ==> IsInt32(f.localPort) && IsInt32(f.remotePort))
  }

  predicate IsInt32(x: int) {
    -TWO_31 <= x < TWO_31
  }

  lemma SshBack(s: SSHConfig)
    requires IsInt32(s.port) && forall f :: f in s.localForwards ==> IsInt32(f.listenPort) && IsInt32(f.targetPort)
    ensures SshIn(SshOut(s)) == s
  {
    forall i | 0 <= i < |s.localForwards| ensures SshForwardsIn(SshForwardsOut(s.localForwards))[i] == s.localForwards[i] {
      assert s.localForwards[i] in s.localForwards;
    }
    assert SshForwardsIn(SshForwardsOut(s.localForwards)) == s.localForwards;
  }

  lemma KubectlBack(k: KubectlConfig)
    requires forall f :: f in k.forwards ==> IsInt32(f.localPort) && IsInt32(f.remotePort)
    ensures KubectlIn(KubectlOut(k)) == k
  {
    forall i | 0 <= i < |k.forwards| ensures KubectlForwardsIn(KubectlForwardsOut(k.forwards))[i] == k.forwards[i] {
      assert k.forwards[i] in k.forwards;
    }
    assert KubectlForwardsIn(KubectlForwardsOut(k.forwards)) == k.forwards;
  }

  lemma PolicyBack(tc: TunnelConfig)
    requires ConfigInRange(tc)
    ensures HealthIn(HealthOut(tc.health)) == tc.health && RestartIn(RestartOut(tc.restart)) == tc.restart
  {
    DurationRoundTrip(tc.health.interval);
    DurationRoundTrip(tc.health.timeout);
    DurationRoundTrip(tc.health.startupTimeout);
    DurationRoundTrip(tc.restart.delay);
    if tc.restart.backoff.Some? { DurationRoundTrip(tc.restart.backoff.value.maxDelay); }
  }

  /** FromProto after ToProto is the identity, up to `enabled` and the section of the other type. */
  lemma ConfigRoundTrip(tc: TunnelConfig, name: string)
    requires ConfigInRange(tc) && SpecOf(tc, name).Success?
    ensures Readable(SpecOf(tc, name).value)
    ensures ConfigOf(SpecOf(tc, name).value)
         == tc.(enabled := true, ssh := if tc.kind == "ssh" then tc.ssh else None,
                kubectl := if tc.kind == "kubectl" then tc.kubectl else None)
  {
    PolicyBack(tc);
    DurationRoundTrip(tc.startupTimeout);
    DurationRoundTrip(tc.shutdownTimeout);
    if tc.kind == "ssh" { SshBack(tc.ssh.value); } else { KubectlBack(tc.kubectl.value); }
  }

  // ---- Validation ----

  ghost predicate Converts(tunnels: map<string, TunnelConfig>, n: string)
    requires n in tunnels
  {
    tunnels[n].enabled ==> SpecOf(tunnels[n], n).Success?
  }

  /** The enabled tunnels that convert, by name. */
  ghost function SpecsOf(tunnels: map<string, TunnelConfig>): Specs {
    map n | n in tunnels && tunnels[n].enabled && SpecOf(tunnels[n], n).Success? :: SpecOf(tunnels[n], n).value
  }

  datatype ValidationError = TypeRequired(name: string) | BadTunnel(name: string, error: ConfigError) | DoubleClaim(conflict: Conflict)

  /** ToSpecs, and the first loop of Validate: convert every enabled tunnel, in any map order. */
  method ToSpecs(tunnels: map<string, TunnelConfig>) returns (r: Result<seq<TunnelSpec>, ValidationError>, specs: Specs)
    ensures r.Success? <==> forall n :: n in tunnels ==> Converts(tunnels, n)
    ensures r.Success? ==> specs == SpecsOf(tunnels) && Keyed(specs) && Lists(specs, r.value)
    ensures r.Failure? ==>
      r.error.BadTunnel? && r.error.name in tunnels
      && tunnels[r.error.name].enabled && SpecOf(tunnels[r.error.name], r.error.name) == Failure(r.error.error)
  {
    specs := map[];
    var order: seq<TunnelSpec> := [];
    var todo := tunnels.Keys;
    while todo != {}
      invariant todo <= tunnels.Keys
      invariant forall n :: n in tunnels && n !in todo ==> Converts(tunnels, n)
      invariant forall n :: n in specs <==> n in tunnels && n !in todo && tunnels[n].enabled
      invariant forall n :: n in specs ==> SpecOf(tunnels[n], n) == Success(specs[n])
      invariant Lists(specs, order)
      decreases todo
    {
      var n :| n in todo;
      todo := todo - {n};
      if !tunnels[n].enabled { continue; }
      var p := ToProto(tunnels[n], n);
      if p.Failure? {
        return Failure(BadTunnel(n, p.error)), specs;
      }
      ListsNext(specs, order, p.value);
      specs := specs[n := p.value];
      order := order + [p.value];
    }
    r := Success(order);
  }

  lemma ListsNext(specs: Specs, order: seq<TunnelSpec>, s: TunnelSpec)
    requires Lists(specs, order) && s.name !in specs
    ensures Lists(specs[s.name := s], order + [s])
  {
  }

  /**
   * Validate accepts exactly when every enabled tunnel converts and no port key is claimed twice, in
   * whatever order its two loops visit the tunnels.
   */
  method Validate(tunnels: map<string, TunnelConfig>) returns (r: Option<ValidationError>)
    ensures r.None? <==> (forall n :: n in tunnels ==> Converts(tunnels, n)) && NoDoubleClaim(SpecsOf(tunnels))
    ensures r.Some? && r.value.DoubleClaim? ==> forall n :: n in tunnels ==> Converts(tunnels, n)
    ensures r.Some? && !r.value.DoubleClaim? ==>
      var n := r.value.name;
      n in tunnels && tunnels[n].enabled && (r.value.TypeRequired? <==> tunnels[n].kind == "")
      && (r.value.BadTunnel? ==> SpecOf(tunnels[n], n) == Failure(r.value.error))
  {
    var todo := tunnels.Keys;
    while todo != {}
      invariant todo <= tunnels.Keys
      invariant forall n :: n in tunnels && n !in todo ==> Converts(tunnels, n)
      decreases todo
    {
      var n :| n in todo;
      todo := todo - {n};
      if !tunnels[n].enabled { continue; }
      if tunnels[n].kind == "" {
        assert !Converts(tunnels, n);
        return Some(TypeRequired(n));
      }
      var p := ToProto(tunnels[n], n);
      if p.Failure? {
        assert !Converts(tunnels, n);
        return Some(BadTunnel(n, p.error));
      }
    }
    var converted, specs := ToSpecs(tunnels);
    var conflict := FindDoubleClaim(converted.value);
    NoDoubleAnyOrder(specs, converted.value);
    r := if conflict.None? then None else Some(DoubleClaim(conflict.value));
  }
}
