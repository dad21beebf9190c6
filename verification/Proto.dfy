/** The wire messages of api/v1/spec.proto and the runtime states of a tunnel. */
module Proto {
  import opened Basics

  /** google.protobuf.Duration */
  datatype Duration = Duration(seconds: int, nanos: int)

  datatype SSHForward = SSHForward(listenAddress: string, listenPort: int32, targetHost: string, targetPort: int32)

  datatype SSHSpec = SSHSpec(
    user: string, host: string, port: int32, identityKeyFile: string,
    localForwards: seq<SSHForward>, options: map<string, string>, identityKeyRef: string)

  datatype KubectlForward = KubectlForward(localAddress: string, localPort: int32, remotePort: int32)

  datatype KubectlSpec = KubectlSpec(
    kubeconfigRef: string, context: string, namespace: string, resource: string,
    forwards: seq<KubectlForward>, apiServer: string, insecureSkipTlsVerify: bool, kubeconfigFile: string)

  /** The oneof "type" of a TunnelSpec. */
  datatype Kind = Unset | Ssh(ssh: SSHSpec) | Kubectl(kubectl: KubectlSpec)

  datatype HealthCheckSpec = HealthCheckSpec(
    kind: string, address: string,
    interval: Option<Duration>, timeout: Option<Duration>, startupTimeout: Option<Duration>)

  datatype BackoffSpec = BackoffSpec(multiplier: real, maxDelay: Option<Duration>)

  datatype RestartPolicySpec = RestartPolicySpec(
    policy: string, delay: Option<Duration>, maxAttempts: int32, backoff: Option<BackoffSpec>)

  datatype TunnelSpec = TunnelSpec(
    name: string, dependsOn: seq<string>, kind: Kind,
    health: Option<HealthCheckSpec>, restart: Option<RestartPolicySpec>,
    startupTimeout: Option<Duration>, shutdownTimeout: Option<Duration>)

  datatype Status = Stopped | Starting | Running | Degraded | Failed

  datatype ExpectedState = DesiredRunning | DesiredStopped | DesiredDisabled
}
