/** What the agent's wire spec says, read back into the terms of the Tunnel resource. */
module ReadBacks {
  import opened Basics
  import opened Proto
  import opened Durations
  import opened Crd
  import opened Conversion
  import opened Backoff
  import opened Processes

  // ---- The inverse of the translation ----

  function ReadDuration(d: Option<Duration>): Option<int> {
    if d.None? then None else Some(AsDuration(d))
  }

  /** A name without the namespace and the separator. */
  function Bare(namespace: string, name: string): string {
    if |name| >= |namespace| + 2 then name[|namespace| + 2..] else name
  }

  ghost function BareNames(namespace: string, names: seq<string>): (r: seq<string>)
    ensures |r| == |names| && forall i :: 0 <= i < |names| ==> r[i] == Bare(namespace, names[i])
  {
    seq(|names|, i requires 0 <= i < |names| => Bare(namespace, names[i]))
  }

  function ReadHealth(h: HealthCheckSpec): CrHealth {
    CrHealth(h.kind, h.address, ReadDuration(h.interval), ReadDuration(h.timeout), ReadDuration(h.startupTimeout))
  }

  /** The multiplier in thousandths. */
  function ReadBackoff(b: BackoffSpec): CrBackoff {
    var milli := (b.multiplier * 1000.0).Floor;
    CrBackoff(if -0x8000_0000 <= milli < 0x8000_0000 then milli else 0, ReadDuration(b.maxDelay))
  }

  function ReadRestart(r: RestartPolicySpec): CrRestart {
    CrRestart(r.policy, ReadDuration(r.delay), r.maxAttempts, if r.backoff.None? then None else Some(ReadBackoff(r.backoff.value)))
  }

  /** Everything but the key references, which KeysByCases covers, and the fields the agent does not send. */
  ghost function ReadSpec(namespace: string, wire: TunnelSpec): CrSpec {
    CrSpec(
      BareNames(namespace, wire.dependsOn),
      if wire.kind.Ssh? then
        var s := wire.kind.ssh;
        Some(CrSsh(s.user, s.host, s.port, None, None, s.localForwards, s.options))
      else None,
      if wire.kind.Kubectl? then
        var k := wire.kind.kubectl;
        Some(CrKubectl(None, None, k.context, k.namespace, k.resource, k.forwards, k.apiServer, k.insecureSkipTlsVerify))
      else None,
      if wire.health.None? then None else Some(ReadHealth(wire.health.value)),
      if wire.restart.None? then None else Some(ReadRestart(wire.restart.value)),
      ReadDuration(wire.startupTimeout), ReadDuration(wire.shutdownTimeout), map[], None)
  }

  /** The part of a resource's spec that the agent sends, without its key references. */
  ghost function Sent(spec: CrSpec): CrSpec {
    spec.(nodeSelector := map[], expose := None,
          ssh := if spec.ssh.None? then None
                 else Some(spec.ssh.value.(identityKeyRef := None, identityKeySecretRef := None)),
          kubectl := if spec.kubectl.None? then None
                     else Some(spec.kubectl.value.(kubeconfigRef := None, kubeconfigSecretRef := None)))
  }

  predicate Int64(d: Option<int>) {
    d.Some? ==> -0x8000_0000_0000_0000 <= d.value < 0x8000_0000_0000_0000
  }

  /** Every duration is an int64, as Go's are. */
  predicate DurationsFit(spec: CrSpec) {
    && Int64(spec.startupTimeout) && Int64(spec.shutdownTimeout)
    && (spec.health.Some? ==>
          Int64(spec.health.value.interval) && Int64(spec.health.value.timeout) && Int64(spec.health.value.startupTimeout))
    && (spec.restart.Some? ==>
          Int64(spec.restart.value.delay)
          && (spec.restart.value.backoff.Some? ==> Int64(spec.restart.value.backoff.value.maxDelay)))
  }

  // ---- The law ----

  lemma DurationBack(d: Option<int>)
    requires Int64(d)
    ensures ReadDuration(ToDurationPB(d)) == d
  {
    if d.Some? { DurationRoundTrip(d.value); }
  }

  lemma HealthBack(h: CrHealth)
    requires Int64(h.interval) && Int64(h.timeout) && Int64(h.startupTimeout)
    ensures ReadHealth(HealthPB(h)) == h
  {
    DurationBack(h.interval);
    DurationBack(h.timeout);
    DurationBack(h.startupTimeout);
  }

  lemma RestartBack(r: CrRestart)
    requires Int64(r.delay) && (r.backoff.Some? ==> Int64(r.backoff.value.maxDelay))
    ensures ReadRestart(RestartPB(r)) == r
  {
    DurationBack(r.delay);
    if r.backoff.Some? {
      DurationBack(r.backoff.value.maxDelay);
      assert r.backoff.value.multiplierMilli as real / 1000.0 * 1000.0 == r.backoff.value.multiplierMilli as real;
    }
  }

  lemma NamesBack(namespace: string, names: seq<string>)
    ensures BareNames(namespace, DaemonNames(namespace, names)) == names
  {
    forall i | 0 <= i < |names| ensures Bare(namespace, DaemonName(namespace, names[i])) == names[i] {
      assert DaemonName(namespace, names[i])[|namespace| + 2..] == names[i];
    }
  }

  /** The agent's wire spec, read back, is the resource's spec: policy, health, forwards, dependencies and timeouts. */
  lemma AgentRoundTrip(t: Tunnel)
    requires t.spec.WellTyped() && DurationsFit(t.spec)
    ensures ReadSpec(t.namespace, WireSpec(t)) == Sent(t.spec)
    ensures Bare(t.namespace, WireSpec(t).name) == t.name
  {
    NamesBack(t.namespace, t.spec.dependsOn);
    assert DaemonName(t.namespace, t.name)[|t.namespace| + 2..] == t.name;
    DurationBack(t.spec.startupTimeout);
    DurationBack(t.spec.shutdownTimeout);
    if t.spec.health.Some? { HealthBack(t.spec.health.value); }
    if t.spec.restart.Some? { RestartBack(t.spec.restart.value); }
  }

  /** The name under which the daemon finds the key: of the TunnelKey, else of the Secret, else none; never a file. */
  lemma KeysByCases(t: Tunnel)
    requires t.spec.WellTyped()
    ensures t.spec.ssh.Some? ==>
      var s, wire := t.spec.ssh.value, WireSpec(t);
      && wire.kind.Ssh? && wire.kind.ssh.identityKeyFile == ""
      && (s.identityKeyRef.Some? ==> wire.kind.ssh.identityKeyRef == t.namespace + "--" + s.identityKeyRef.value)
      && (s.identityKeyRef.None? && s.identityKeySecretRef.Some? ==>
            wire.kind.ssh.identityKeyRef == t.namespace + "--" + s.identityKeySecretRef.value)
      && (s.identityKeyRef.None? && s.identityKeySecretRef.None? ==> wire.kind.ssh.identityKeyRef == "")
    ensures t.spec.kubectl.Some? ==>
      var k, wire := t.spec.kubectl.value, WireSpec(t);
      && wire.kind.Kubectl? && wire.kind.kubectl.kubeconfigFile == ""
      && (k.kubeconfigRef.Some? ==> wire.kind.kubectl.kubeconfigRef == t.namespace + "--" + k.kubeconfigRef.value)
      && (k.kubeconfigRef.None? && k.kubeconfigSecretRef.Some? ==>
            wire.kind.kubectl.kubeconfigRef == t.namespace + "--" + k.kubeconfigSecretRef.value)
      && (k.kubeconfigRef.None? && k.kubeconfigSecretRef.None? ==> wire.kind.kubectl.kubeconfigRef == "")
  {
  }

  // ---- What the daemon then does ----

  function OrZero(d: Option<int>): int {
    if d.None? then 0 else d.value
  }

  /** The growth factor of a resource's backoff: thousandths, and twice for a missing or negative one. */
  function Factor(b: CrBackoff): real {
    if b.multiplierMilli <= 0 then 2.0 else b.multiplierMilli as real / 1000.0
  }

  /** The product before truncation and cap, on the resource's own fields. */
  function DelayProduct(r: CrRestart, k: nat): real
    requires r.backoff.Some?
  {
    OrZero(r.delay) as real * Pow(Factor(r.backoff.value), k)
  }

  /** The wire policy's numbers are the resource's. */
  lemma WirePolicy(r: CrRestart, k: nat)
    requires Int64(r.delay) && (r.backoff.Some? ==> Int64(r.backoff.value.maxDelay))
    ensures var p := RestartPB(r);
      && AsDuration(p.delay) == OrZero(r.delay) && (p.backoff.Some? <==> r.backoff.Some?)
      && (r.backoff.Some? ==>
            AsDuration(p.backoff.value.maxDelay) == OrZero(r.backoff.value.maxDelay) && Product(p, k) == DelayProduct(r, k))
  {
    DurationBack(r.delay);
    if r.backoff.Some? {
      DurationBack(r.backoff.value.maxDelay);
      WireProduct(OrZero(r.delay) as real, r.backoff.value, k);
    }
  }

  lemma WireProduct(d: real, b: CrBackoff, k: nat)
    ensures Grown(d, Multiplier(BackoffPB(b)), k) == d * Pow(Factor(b), k)
  {
    FactorIsMultiplier(b);
    GrownIsPower(d, Factor(b), k);
  }

  lemma FactorIsMultiplier(b: CrBackoff)
    ensures Multiplier(BackoffPB(b)) == Factor(b) > 0.0
  {
    if b.multiplierMilli <= 0 { assert b.multiplierMilli as real / 1000.0 <= 0.0; }
  }

  /**
   * How long the daemon waits before restart k of a Tunnel's process, on the resource's own fields: the
   * delay at first and without a backoff; otherwise the delay times the factor to the k, truncated, and
   * capped by a positive maxDelay.
   */
  lemma DaemonWaits(t: Tunnel, r: CrRestart, k: nat)
    requires t.spec.WellTyped() && DurationsFit(t.spec) && t.spec.restart == Some(r)
    requires r.backoff.Some? && k > 0 ==> -0x8000_0000_0000_0000 as real < DelayProduct(r, k) < 0x8000_0000_0000_0000 as real
    ensures WireSpec(t).restart.Some? && InRange(WireSpec(t).restart.value, k)
    ensures var p, d := WireSpec(t).restart.value, OrZero(r.delay);
      && (d <= 0 ==> Wait(p, k) == 0)
      && (d > 0 && (r.backoff.None? || k == 0) ==> Wait(p, k) == d)
      && (d > 0 && r.backoff.Some? && k > 0 ==>
            var raw, cap := Trunc(DelayProduct(r, k)), OrZero(r.backoff.value.maxDelay);
            Wait(p, k) == if cap > 0 && raw > cap then cap else raw)
  {
    var p := RestartPB(r);
    WirePolicy(r, k);
    if r.backoff.None? || k == 0 { BaseWait(p, k); } else { WaitForm(p, k); }
  }

  /** Whether the daemon restarts the process at all, on the resource's own fields. */
  lemma DaemonRestarts(t: Tunnel, attempts: nat)
    requires t.spec.WellTyped()
    ensures NeverRestarts(WireSpec(t)) <==> t.spec.restart.None? || t.spec.restart.value.policy == "never"
    ensures t.spec.restart.Some? ==>
      (BudgetSpent(WireSpec(t), attempts) <==>
         t.spec.restart.value.maxAttempts > 0 && WrapInt32(attempts) >= t.spec.restart.value.maxAttempts)
  {
  }
}
