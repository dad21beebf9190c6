/** internal/tunnel/ports.go: port claim keys and dynamic port resolution. */
module Ports {
  import opened Basics
  import opened Proto

  const DEFAULT_LISTEN_ADDRESS := "127.0.0.1"

  // ---- Decimal printing and host:port joining ----

  function Digit(d: nat): (c: char)
    requires d < 10
    ensures '0' <= c <= '9' && c as int - '0' as int == d
  {
    ('0' as int + d) as char
  }

  function Decimal(n: nat): string {
    if n < 10 then [Digit(n)] else Decimal(n / 10) + [Digit(n % 10)]
  }

  lemma {:induction false} DecimalIsDigits(n: nat)
    ensures Decimal(n) != "" && forall i :: 0 <= i < |Decimal(n)| ==> '0' <= Decimal(n)[i] <= '9'
  {
    if n >= 10 { DecimalIsDigits(n / 10); }
  }

  /** fmt.Sprintf("%d", x) */
  function FormatInt(x: int): string {
    if x < 0 then "-" + Decimal(-x) else Decimal(x)
  }

  ghost function ParseDigits(s: string): int {
    if s == "" then 0 else 10 * ParseDigits(s[..|s| - 1]) + (s[|s| - 1] as int - '0' as int)
  }

  lemma {:induction false} ParseDecimal(n: nat)
    ensures ParseDigits(Decimal(n)) == n
  {
    if n >= 10 {
      ParseDecimal(n / 10);
      var s := Decimal(n);
      assert s[..|s| - 1] == Decimal(n / 10);
    }
  }

  lemma DecimalInjective(m: nat, n: nat)
    requires Decimal(m) == Decimal(n)
    ensures m == n
  {
    ParseDecimal(m);
    ParseDecimal(n);
  }

  lemma FormatIntInjective(x: int, y: int)
    requires FormatInt(x) == FormatInt(y)
    ensures x == y
  {
    var s := FormatInt(x);
    DecimalIsDigits(if x < 0 then -x else x);
    DecimalIsDigits(if y < 0 then -y else y);
    if x < 0 || y < 0 {
      assert s[0] == '-';
      assert s[1..] == Decimal(-x) == Decimal(-y);
      DecimalInjective(-x, -y);
    } else {
      DecimalInjective(x, y);
    }
  }

  lemma {:induction false} NoLeadingZero(n: nat)
    ensures n > 0 ==> Decimal(n)[0] != '0'
  {
    if n >= 10 {
      NoLeadingZero(n / 10);
      DecimalIsDigits(n / 10);
    }
  }

  /** The decimal numeral of an integer: a minus sign if negative, then its digits without a leading zero. */
  lemma FormatIntExactly(x: int)
    ensures var s := FormatInt(x);
      && s != "" && (x < 0 ==> s[0] == '-')
      && var digits := if x < 0 then s[1..] else s;
        && digits != "" && (forall i :: 0 <= i < |digits| ==> '0' <= digits[i] <= '9')
        && ParseDigits(digits) == (if x < 0 then -x else x)
        && (x != 0 ==> digits[0] != '0') && (x == 0 ==> digits == "0")
  {
    var n := if x < 0 then -x else x;
    DecimalIsDigits(n);
    ParseDecimal(n);
    NoLeadingZero(n);
    if x < 0 { assert FormatInt(x)[1..] == Decimal(n); }
  }

  lemma FormatIntHasNoColon(x: int)
    ensures ':' !in FormatInt(x)
  {
    DecimalIsDigits(if x < 0 then -x else x);
  }

  /** net.JoinHostPort */
  function JoinHostPort(host: string, port: string): string {
    if ':' in host then "[" + host + "]:" + port else host + ":" + port
  }

  /** The text before the last colon and the text after it are determined by the joined string. */
  lemma LastColonSplits(a: string, p: string, b: string, q: string)
    requires ':' !in p && ':' !in q
    requires a + ":" + p == b + ":" + q
    ensures a == b && p == q
  {
    var s, t := a + ":" + p, b + ":" + q;
    forall k | |a| < k < |s| ensures s[k] != ':' { assert s[k] == p[k - |a| - 1]; }
    forall k | |b| < k < |t| ensures t[k] != ':' { assert t[k] == q[k - |b| - 1]; }
    assert s[|a|] == ':' && t[|b|] == ':';
    assert s[..|a|] == a && t[..|b|] == b;
    assert s[|a| + 1..] == p && t[|b| + 1..] == q;
  }

  lemma JoinHostPortInjective(a: string, p: string, b: string, q: string)
    requires ':' !in p && ':' !in q
    requires JoinHostPort(a, p) == JoinHostPort(b, q)
    ensures a == b && p == q
  {
    var a', b' := Bracketed(a), Bracketed(b);
    assert JoinHostPort(a, p) == a' + ":" + p by { if ':' in a { assert "[" + a + "]:" + p == a' + ":" + p; } }
    assert JoinHostPort(b, q) == b' + ":" + q by { if ':' in b { assert "[" + b + "]:" + q == b' + ":" + q; } }
    LastColonSplits(a', p, b', q);
    BracketedInjective(a, b);
  }

  ghost function Bracketed(host: string): string {
    if ':' in host then "[" + host + "]" else host
  }

  lemma BracketedInjective(a: string, b: string)
    requires Bracketed(a) == Bracketed(b)
    ensures a == b
  {
    var s := Bracketed(a);
    assert ':' in a <==> ':' in s by { if ':' in a { BracketedKeepsColon(a); } }
    assert ':' in b <==> ':' in s by { if ':' in b { BracketedKeepsColon(b); } }
    if ':' in a { assert s[1..|s| - 1] == a == b; }
  }

  lemma BracketedKeepsColon(a: string)
    requires ':' in a
    ensures ':' in Bracketed(a)
  {
    var i :| 0 <= i < |a| && a[i] == ':';
    assert Bracketed(a)[i + 1] == ':';
  }

  // ---- Claim keys ----

  function ListenAddress(addr: string): string {
    if addr == "" then DEFAULT_LISTEN_ADDRESS else addr
  }

  function ClaimKey(addr: string, port: int): string {
    JoinHostPort(ListenAddress(addr), FormatInt(port))
  }

  /** Two forwards share a key string exactly when their defaulted address and port agree. */
  lemma ClaimKeyFaithful(a: string, p: int, b: string, q: int)
    ensures ClaimKey(a, p) == ClaimKey(b, q) <==> ListenAddress(a) == ListenAddress(b) && p == q
  {
    if ClaimKey(a, p) == ClaimKey(b, q) {
      FormatIntHasNoColon(p);
      FormatIntHasNoColon(q);
      JoinHostPortInjective(ListenAddress(a), FormatInt(p), ListenAddress(b), FormatInt(q));
      FormatIntInjective(p, q);
    }
  }

  /** What an SSH and a kubectl forward have in common: where they listen and what they reach. */
  datatype Forward = Forward(address: string, port: int32, remote: int32)

  ghost function OfSsh(f: SSHForward): Forward {
    Forward(f.listenAddress, f.listenPort, f.targetPort)
  }

  ghost function OfKubectl(f: KubectlForward): Forward {
    Forward(f.localAddress, f.localPort, f.remotePort)
  }

  ghost function ForwardsOf(kind: Kind): (fs: seq<Forward>) {
    match kind
    case Unset => []
    case Ssh(ssh) =>
      seq(|ssh.localForwards|, i requires 0 <= i < |ssh.localForwards| => OfSsh(ssh.localForwards[i]))
    case Kubectl(kc) =>
      seq(|kc.forwards|, i requires 0 <= i < |kc.forwards| => OfKubectl(kc.forwards[i]))
  }

  ghost function KeysOfForwards(fs: seq<Forward>): seq<string> {
    if fs == [] then []
    else
      var f := fs[|fs| - 1];
      KeysOfForwards(fs[..|fs| - 1]) + if f.port == 0 then [] else [ClaimKey(f.address, f.port)]
  }

  ghost function KeysOf(spec: TunnelSpec): seq<string> {
    KeysOfForwards(ForwardsOf(spec.kind))
  }

  ghost predicate Claims(f: Forward, key: string) {
    f.port != 0 && ClaimKey(f.address, f.port) == key
  }

  lemma KeysLast(fs: seq<Forward>, key: string)
    requires fs != []
    ensures key in KeysOfForwards(fs) <==> key in KeysOfForwards(fs[..|fs| - 1]) || Claims(fs[|fs| - 1], key)
  {
  }

  lemma {:induction false} ClaimIsListed(fs: seq<Forward>, i: nat, key: string)
    requires i < |fs| && Claims(fs[i], key)
    ensures key in KeysOfForwards(fs)
    decreases |fs|
  {
    KeysLast(fs, key);
    if i < |fs| - 1 {
      assert fs[..|fs| - 1][i] == fs[i];
      ClaimIsListed(fs[..|fs| - 1], i, key);
    }
  }

  lemma {:induction false} ListedIsClaimed(fs: seq<Forward>, key: string) returns (i: nat)
    requires key in KeysOfForwards(fs)
    ensures i < |fs| && Claims(fs[i], key)
    decreases |fs|
  {
    KeysLast(fs, key);
    i := |fs| - 1;
    if !Claims(fs[i], key) { i := ListedIsClaimed(fs[..i], key); }
  }

  /** A key is claimed exactly when some forward with a non-zero port produces it. */
  lemma KeysOfForwardsHas(fs: seq<Forward>, key: string)
    ensures key in KeysOfForwards(fs) <==> exists i :: 0 <= i < |fs| && Claims(fs[i], key)
  {
    if key in KeysOfForwards(fs) { var _ := ListedIsClaimed(fs, key); }
    if i :| 0 <= i < |fs| && Claims(fs[i], key) { ClaimIsListed(fs, i, key); }
  }

  lemma KeysNext(fs: seq<Forward>, i: nat)
    requires i < |fs|
    ensures KeysOfForwards(fs[..i + 1])
         == KeysOfForwards(fs[..i]) + if fs[i].port == 0 then [] else [ClaimKey(fs[i].address, fs[i].port)]
  {
    assert fs[..i + 1][..i] == fs[..i];
  }

  /** LocalPortKeys: the keys of the non-zero local ports, in forward order. */
  method LocalPortKeys(spec: TunnelSpec) returns (keys: seq<string>)
    ensures keys == KeysOf(spec)
  {
    keys := [];
    ghost var fs := ForwardsOf(spec.kind);
    if spec.kind.Ssh? {
      var forwards := spec.kind.ssh.localForwards;
      for i := 0 to |forwards|
        invariant keys == KeysOfForwards(fs[..i])
      {
        KeysNext(fs, i);
        if forwards[i].listenPort == 0 { continue; }
        keys := keys + [ClaimKey(forwards[i].listenAddress, forwards[i].listenPort)];
      }
    }
    if spec.kind.Kubectl? {
      var forwards := spec.kind.kubectl.forwards;
      for i := 0 to |forwards|
        invariant keys == KeysOfForwards(fs[..i])
      {
        KeysNext(fs, i);
        if forwards[i].localPort == 0 { continue; }
        keys := keys + [ClaimKey(forwards[i].localAddress, forwards[i].localPort)];
      }
    }
    assert fs[..|fs|] == fs;
  }

  ghost function DefaultedAddress(addr: string): string {
    if addr == "" then "127.0.0.1" else addr
  }

  ghost predicate SshClaims(fs: seq<SSHForward>, key: string) {
    exists i :: 0 <= i < |fs| && fs[i].listenPort != 0
      && key == JoinHostPort(DefaultedAddress(fs[i].listenAddress), FormatInt(fs[i].listenPort))
  }

  ghost predicate KubectlClaims(fs: seq<KubectlForward>, key: string) {
    exists i :: 0 <= i < |fs| && fs[i].localPort != 0
      && key == JoinHostPort(DefaultedAddress(fs[i].localAddress), FormatInt(fs[i].localPort))
  }

  /** The claims of a spec on its own fields: which ports it claims, and under which address. */
  lemma ClaimsExactly(spec: TunnelSpec, key: string)
    ensures spec.kind.Ssh? ==> (key in KeysOf(spec) <==> SshClaims(spec.kind.ssh.localForwards, key))
    ensures spec.kind.Kubectl? ==> (key in KeysOf(spec) <==> KubectlClaims(spec.kind.kubectl.forwards, key))
    ensures spec.kind.Unset? ==> KeysOf(spec) == []
  {
    var gs := ForwardsOf(spec.kind);
    KeysOfForwardsHas(gs, key);
    if i :| 0 <= i < |gs| && Claims(gs[i], key) {
      if spec.kind.Ssh? { assert gs[i] == OfSsh(spec.kind.ssh.localForwards[i]); }
      if spec.kind.Kubectl? { assert gs[i] == OfKubectl(spec.kind.kubectl.forwards[i]); }
    }
    if spec.kind.Ssh? {
      var fs := spec.kind.ssh.localForwards;
      forall i | 0 <= i < |fs| && fs[i].listenPort != 0 && key == ClaimKey(fs[i].listenAddress, fs[i].listenPort)
        ensures key in KeysOf(spec)
      {
        assert Claims(gs[i], key);
      }
    }
    if spec.kind.Kubectl? {
      var fs := spec.kind.kubectl.forwards;
      forall i | 0 <= i < |fs| && fs[i].localPort != 0 && key == ClaimKey(fs[i].localAddress, fs[i].localPort)
        ensures key in KeysOf(spec)
      {
        assert Claims(gs[i], key);
      }
    }
  }

  // ---- Dynamic resolution ----

  datatype PortMapping = PortMapping(localAddress: string, configuredPort: int32, actualPort: int32, remotePort: int32)

  /** net.Listen on port 0: an error, or whatever free port the system hands out. */
  method AllocatePort(addr: string) returns (r: Option<int32>)
    ensures r.Some? ==> 1 <= r.value <= 65535
  {
    if * {
      r := None;
    } else {
      var p: int32 :| 1 <= p <= 65535;
      r := Some(p);
    }
  }

  /** The listening ports chosen for a spec's forwards: configured ones kept, zeros replaced. */
  ghost predicate Resolves(fs: seq<Forward>, ports: seq<int32>) {
    && |ports| == |fs|
    && forall i :: 0 <= i < |fs| ==> ports[i] != 0 && (fs[i].port != 0 ==> ports[i] == fs[i].port)
  }

  ghost function SshWithPorts(fs: seq<SSHForward>, ports: seq<int32>): (gs: seq<SSHForward>)
    requires |ports| == |fs|
    ensures |gs| == |fs| && forall i :: 0 <= i < |fs| ==> gs[i] == fs[i].(listenPort := ports[i])
  {
    seq(|fs|, i requires 0 <= i < |fs| => fs[i].(listenPort := ports[i]))
  }

  ghost function KubectlWithPorts(fs: seq<KubectlForward>, ports: seq<int32>): (gs: seq<KubectlForward>)
    requires |ports| == |fs|
    ensures |gs| == |fs| && forall i :: 0 <= i < |fs| ==> gs[i] == fs[i].(localPort := ports[i])
  {
    seq(|fs|, i requires 0 <= i < |fs| => fs[i].(localPort := ports[i]))
  }

  ghost function WithPorts(kind: Kind, ports: seq<int32>): Kind
    requires |ports| == |ForwardsOf(kind)|
  {
    match kind
    case Unset => Unset
    case Ssh(ssh) => Ssh(ssh.(localForwards := SshWithPorts(ssh.localForwards, ports)))
    case Kubectl(kc) => Kubectl(kc.(forwards := KubectlWithPorts(kc.forwards, ports)))
  }

  ghost function MappingFor(f: Forward, actual: int32): PortMapping {
    PortMapping(ListenAddress(f.address), f.port, actual, f.remote)
  }

  ghost function MappingsFor(fs: seq<Forward>, ports: seq<int32>): (ms: seq<PortMapping>)
    requires |ports| == |fs|
    ensures |ms| == |fs| && forall i :: 0 <= i < |fs| ==> ms[i] == MappingFor(fs[i], ports[i])
  {
    seq(|fs|, i requires 0 <= i < |fs| => MappingFor(fs[i], ports[i]))
  }

  ghost function ActualPorts(ms: seq<PortMapping>): (ports: seq<int32>) {
    seq(|ms|, i requires 0 <= i < |ms| => ms[i].actualPort)
  }

  /** The addresses for which a port has to be requested: those of the port-0 forwards. */
  ghost function Requests(fs: seq<Forward>): seq<string> {
    if fs == [] then []
    else Requests(fs[..|fs| - 1]) + if fs[|fs| - 1].port == 0 then [ListenAddress(fs[|fs| - 1].address)] else []
  }

  /** A resolved clone: the input with only its zero ports filled in, and one mapping per forward. */
  ghost predicate Resolution(spec: TunnelSpec, clone: TunnelSpec, ms: seq<PortMapping>) {
    var fs, ports := ForwardsOf(spec.kind), ActualPorts(ms);
    && |ms| == |fs| && Resolves(fs, ports)
    && ms == MappingsFor(fs, ports)
    && clone == spec.(kind := WithPorts(spec.kind, ports))
  }

  /** One loop iteration: the actual port for a configured one, and whether the system was asked. */
  method ResolveOne(addr: string, configured: int32) returns (actual: Option<int32>, asked: seq<string>)
    ensures configured != 0 ==> actual == Some(configured) && asked == []
    ensures configured == 0 ==> asked == [addr] && (actual.Some? ==> actual.value != 0)
  {
    if configured == 0 {
      actual := AllocatePort(addr);
      asked := [addr];
    } else {
      actual, asked := Some(configured), [];
    }
  }

  /** The mapping records the forward, with its configured port or a port that was asked for. */
  ghost predicate Maps(f: Forward, m: PortMapping) {
    m == MappingFor(f, m.actualPort) && m.actualPort != 0 && (f.port != 0 ==> m.actualPort == f.port)
  }

  lemma MapsAll(fs: seq<Forward>, ms: seq<PortMapping>)
    requires |ms| == |fs| && forall i :: 0 <= i < |fs| ==> Maps(fs[i], ms[i])
    ensures Resolves(fs, ActualPorts(ms)) && ms == MappingsFor(fs, ActualPorts(ms))
  {
    forall i | 0 <= i < |fs| ensures ActualPorts(ms)[i] != 0 && (fs[i].port != 0 ==> ActualPorts(ms)[i] == fs[i].port) {
      assert Maps(fs[i], ms[i]);
    }
  }

  /** The loop over SSH forwards. */
  method ResolveSsh(base: seq<SSHForward>, ghost fs: seq<Forward>)
    returns (r: Option<(seq<SSHForward>, seq<PortMapping>)>, asked: seq<string>)
    requires |fs| == |base| && forall i :: 0 <= i < |base| ==> fs[i] == OfSsh(base[i])
    ensures r.Some? ==>
      var ports := ActualPorts(r.value.1);
      asked == Requests(fs) && Resolves(fs, ports)
      && r.value.1 == MappingsFor(fs, ports) && r.value.0 == SshWithPorts(base, ports)
    ensures r.None? ==> asked != [] && asked <= Requests(fs)
  {
    var forwards, mappings: seq<PortMapping> := base, [];
    asked := [];
    for i := 0 to |base|
      invariant |forwards| == |base| && |mappings| == i
      invariant forall j :: 0 <= j < i ==> Maps(fs[j], mappings[j]) && forwards[j] == base[j].(listenPort := mappings[j].actualPort)
      invariant forall j :: i <= j < |base| ==> forwards[j] == base[j]
      invariant asked == Requests(fs[..i])
    {
      var f := forwards[i];
      var addr := ListenAddress(f.listenAddress);
      assert fs[..i + 1][..i] == fs[..i];
      RequestsPrefix(fs, i + 1);
      var actual, req := ResolveOne(addr, f.listenPort);
      asked := asked + req;
      if actual.None? { return None, asked; }
      if f.listenPort == 0 { forwards := forwards[i := f.(listenPort := actual.value)]; }
      mappings := mappings + [PortMapping(addr, f.listenPort, actual.value, f.targetPort)];
    }
    assert fs[..|fs|] == fs;
    MapsAll(fs, mappings);
    assert forwards == SshWithPorts(base, ActualPorts(mappings));
    r := Some((forwards, mappings));
  }

  /** The loop over kubectl forwards. */
  method ResolveKubectl(base: seq<KubectlForward>, ghost fs: seq<Forward>)
    returns (r: Option<(seq<KubectlForward>, seq<PortMapping>)>, asked: seq<string>)
    requires |fs| == |base| && forall i :: 0 <= i < |base| ==> fs[i] == OfKubectl(base[i])
    ensures r.Some? ==>
      var ports := ActualPorts(r.value.1);
      asked == Requests(fs) && Resolves(fs, ports)
      && r.value.1 == MappingsFor(fs, ports) && r.value.0 == KubectlWithPorts(base, ports)
    ensures r.None? ==> asked != [] && asked <= Requests(fs)
  {
    var forwards, mappings: seq<PortMapping> := base, [];
    asked := [];
    for i := 0 to |base|
      invariant |forwards| == |base| && |mappings| == i
      invariant forall j :: 0 <= j < i ==> Maps(fs[j], mappings[j]) && forwards[j] == base[j].(localPort := mappings[j].actualPort)
      invariant forall j :: i <= j < |base| ==> forwards[j] == base[j]
      invariant asked == Requests(fs[..i])
    {
      var f := forwards[i];
      var addr := ListenAddress(f.localAddress);
      assert fs[..i + 1][..i] == fs[..i];
      RequestsPrefix(fs, i + 1);
      var actual, req := ResolveOne(addr, f.localPort);
      asked := asked + req;
      if actual.None? { return None, asked; }
      if f.localPort == 0 { forwards := forwards[i := f.(localPort := actual.value)]; }
      mappings := mappings + [PortMapping(addr, f.localPort, actual.value, f.remotePort)];
    }
    assert fs[..|fs|] == fs;
    MapsAll(fs, mappings);
    assert forwards == KubectlWithPorts(base, ActualPorts(mappings));
    r := Some((forwards, mappings));
  }

  /**
   * ResolvePortsInProto. `asked` records the addresses for which the system was asked for a port.
   */
  method ResolvePorts(spec: TunnelSpec) returns (r: Option<(TunnelSpec, seq<PortMapping>)>, asked: seq<string>)
    ensures r.Some? ==> Resolution(spec, r.value.0, r.value.1) && asked == Requests(ForwardsOf(spec.kind))
    ensures r.None? ==> asked != [] && asked <= Requests(ForwardsOf(spec.kind))
  {
    match spec.kind
    case Unset =>
      r, asked := Some((spec, [])), [];
    case Ssh(ssh) =>
      var q;
      q, asked := ResolveSsh(ssh.localForwards, ForwardsOf(spec.kind));
      r := if q.None? then None
           else Some((spec.(kind := Ssh(ssh.(localForwards := q.value.0))), q.value.1));
    case Kubectl(kc) =>
      var q;
      q, asked := ResolveKubectl(kc.forwards, ForwardsOf(spec.kind));
      r := if q.None? then None
           else Some((spec.(kind := Kubectl(kc.(forwards := q.value.0))), q.value.1));
  }

  lemma {:induction false} RequestsPrefix(fs: seq<Forward>, k: nat)
    requires k <= |fs|
    ensures Requests(fs[..k]) <= Requests(fs)
    decreases |fs|
  {
    if k < |fs| {
      RequestsPrefix(fs[..|fs| - 1], k);
      assert fs[..|fs| - 1][..k] == fs[..k];
    } else {
      assert fs[..k] == fs;
    }
  }

  /** The clone's forwards are the input's, with the chosen ports. */
  lemma ForwardsOfClone(spec: TunnelSpec, clone: TunnelSpec, ms: seq<PortMapping>)
    requires Resolution(spec, clone, ms)
    ensures |ForwardsOf(clone.kind)| == |ForwardsOf(spec.kind)| == |ms|
    ensures forall i :: 0 <= i < |ms| ==>
      ForwardsOf(clone.kind)[i] == ForwardsOf(spec.kind)[i].(port := ms[i].actualPort)
  {
  }

  /** Whether the mapping records that listener: address defaulted, a zero port replaced, any other kept. */
  ghost predicate Listens(m: PortMapping, addr: string, port: int32, remote: int32) {
    && m.localAddress == DefaultedAddress(addr) && m.configuredPort == port && m.remotePort == remote
    && m.actualPort != 0 && (port != 0 ==> m.actualPort == port)
  }

  /** A resolution on the spec's own fields: one mapping per forward, and only zero ports are filled in. */
  lemma ResolutionExactly(spec: TunnelSpec, clone: TunnelSpec, ms: seq<PortMapping>)
    requires Resolution(spec, clone, ms)
    ensures clone == spec.(kind := clone.kind)
    ensures spec.kind.Ssh? ==> var fs := spec.kind.ssh.localForwards;
      && clone.kind.Ssh? && clone.kind.ssh == spec.kind.ssh.(localForwards := clone.kind.ssh.localForwards)
      && |ms| == |fs| == |clone.kind.ssh.localForwards|
      && forall i :: 0 <= i < |fs| ==>
           && Listens(ms[i], fs[i].listenAddress, fs[i].listenPort, fs[i].targetPort)
           && clone.kind.ssh.localForwards[i] == fs[i].(listenPort := ms[i].actualPort)
    ensures spec.kind.Kubectl? ==> var fs := spec.kind.kubectl.forwards;
      && clone.kind.Kubectl? && clone.kind.kubectl == spec.kind.kubectl.(forwards := clone.kind.kubectl.forwards)
      && |ms| == |fs| == |clone.kind.kubectl.forwards|
      && forall i :: 0 <= i < |fs| ==>
           && Listens(ms[i], fs[i].localAddress, fs[i].localPort, fs[i].remotePort)
           && clone.kind.kubectl.forwards[i] == fs[i].(localPort := ms[i].actualPort)
    ensures spec.kind.Unset? ==> clone.kind.Unset? && ms == []
  {
    var gs, ports := ForwardsOf(spec.kind), ActualPorts(ms);
    forall i | 0 <= i < |ms| ensures ms[i] == MappingFor(gs[i], ms[i].actualPort) && ports[i] == ms[i].actualPort {}
  }

  lemma {:induction false} NoRequests(fs: seq<Forward>)
    requires forall i :: 0 <= i < |fs| ==> fs[i].port != 0
    ensures Requests(fs) == []
    decreases |fs|
  {
    if fs != [] { NoRequests(fs[..|fs| - 1]); }
  }

  /** The system is asked for a port exactly when some forward has none. */
  lemma {:induction false} RequestsExactly(fs: seq<Forward>)
    ensures Requests(fs) == [] <==> forall i :: 0 <= i < |fs| ==> fs[i].port != 0
    decreases |fs|
  {
    if fs != [] { RequestsExactly(fs[..|fs| - 1]); }
  }

  /** Resolving a resolved spec asks the system for nothing and changes nothing. */
  lemma ResolveAgain(spec: TunnelSpec, clone: TunnelSpec, ms: seq<PortMapping>, again: TunnelSpec, ms': seq<PortMapping>)
    requires Resolution(spec, clone, ms)
    ensures Requests(ForwardsOf(clone.kind)) == []
    ensures Resolution(clone, again, ms') ==>
      again == clone && |ms'| == |ms| &&
      forall i :: 0 <= i < |ms| ==> ms'[i] == ms[i].(configuredPort := ms[i].actualPort)
  {
    ForwardsOfClone(spec, clone, ms);
    var fs, fs' := ForwardsOf(spec.kind), ForwardsOf(clone.kind);
    assert forall i :: 0 <= i < |ms| ==> ActualPorts(ms)[i] == ms[i].actualPort;
    NoRequests(fs');
    if Resolution(clone, again, ms') {
      assert forall i :: 0 <= i < |ms'| ==> ActualPorts(ms')[i] == fs'[i].port == ActualPorts(ms)[i];
      assert ActualPorts(ms') == ActualPorts(ms);
      assert WithPorts(clone.kind, ActualPorts(ms)) == clone.kind;
    }
  }

  ghost function MappedKeys(ms: seq<PortMapping>, dynamic: bool): seq<string> {
    if ms == [] then []
    else
      var m := ms[|ms| - 1];
      MappedKeys(ms[..|ms| - 1], dynamic)
      + if dynamic || m.configuredPort != 0 then [JoinHostPort(m.localAddress, FormatInt(m.actualPort))] else []
  }

  lemma {:induction false} KeysOfMapped(fs: seq<Forward>, gs: seq<Forward>, ms: seq<PortMapping>)
    requires |fs| == |gs| == |ms|
    requires Resolves(fs, ActualPorts(ms)) && ms == MappingsFor(fs, ActualPorts(ms))
    requires forall i :: 0 <= i < |ms| ==> gs[i] == fs[i].(port := ms[i].actualPort)
    ensures KeysOfForwards(gs) == MappedKeys(ms, true)
    ensures KeysOfForwards(fs) == MappedKeys(ms, false)
    decreases |ms|
  {
    if ms != [] {
      var k := |ms| - 1;
      assert ActualPorts(ms[..k]) == ActualPorts(ms)[..k];
      KeysOfMapped(fs[..k], gs[..k], ms[..k]);
      assert ActualPorts(ms)[k] == ms[k].actualPort;
    }
  }

  /**
   * The resolved spec claims the (address, actual port) pair of every forward; the configured spec
   * claims the subsequence of those whose port was configured.
   */
  lemma ResolvedKeys(spec: TunnelSpec, clone: TunnelSpec, ms: seq<PortMapping>)
    requires Resolution(spec, clone, ms)
    ensures KeysOf(clone) == MappedKeys(ms, true)
    ensures KeysOf(spec) == MappedKeys(ms, false)
  {
    ForwardsOfClone(spec, clone, ms);
    KeysOfMapped(ForwardsOf(spec.kind), ForwardsOf(clone.kind), ms);
  }
}
