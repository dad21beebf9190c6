/** The Tunnel custom resource (k8s/api/v1alpha1) and the objects that publish it. */
module Crd {
  import opened Basics
  import opened Proto

  /** Optional durations are int64 nanoseconds. */
  datatype CrHealth = CrHealth(
    kind: string, address: string, interval: Option<int>, timeout: Option<int>, startupTimeout: Option<int>)

  datatype CrBackoff = CrBackoff(multiplierMilli: int32, maxDelay: Option<int>)

  datatype CrRestart = CrRestart(policy: string, delay: Option<int>, maxAttempts: int32, backoff: Option<CrBackoff>)

  /** Key references are reduced to the referenced object's name. */
  datatype CrSsh = CrSsh(
    user: string, host: string, port: int32, identityKeyRef: Option<string>, identityKeySecretRef: Option<string>,
    localForwards: seq<SSHForward>, options: map<string, string>)

  datatype CrKubectl = CrKubectl(
    kubeconfigRef: Option<string>, kubeconfigSecretRef: Option<string>, context: string, namespace: string,
    resource: string, forwards: seq<KubectlForward>, apiServer: string, insecureSkipTLSVerify: bool)

  datatype Expose = Expose(service: bool, serviceName: string, forwardIndex: nat)

  datatype CrSpec = CrSpec(
    dependsOn: seq<string>, ssh: Option<CrSsh>, kubectl: Option<CrKubectl>,
    health: Option<CrHealth>, restart: Option<CrRestart>,
    startupTimeout: Option<int>, shutdownTimeout: Option<int>,
    nodeSelector: map<string, string>, expose: Option<Expose>)
  {
    /** Exactly one of ssh and kubectl is set. */
    predicate WellTyped() {
      ssh.None? != kubectl.None?
    }
  }

  datatype ResolvedForward = ResolvedForward(listenAddress: string, configuredPort: int32, actualPort: int32, remotePort: int32)

  datatype Phase = Unknown | Pending | Healthy | Degraded | Failed | Stopped

  datatype Message = NoMessage | NotExactlyOne | NoReadyNode(selector: map<string, string>) | Reported(text: string)

  /** metav1.Condition without its timestamp. */
  datatype Condition = Condition(kind: string, status: bool, reason: string, message: Message, observedGeneration: int)

  datatype TunnelStatus = TunnelStatus(
    phase: Phase, node: string, resolvedForwards: seq<ResolvedForward>, serviceRef: Option<string>,
    observedGeneration: int, conditions: seq<Condition>, lastError: Message)

  datatype Tunnel = Tunnel(name: string, namespace: string, generation: int, spec: CrSpec, status: TunnelStatus)

  datatype ServicePort = ServicePort(name: string, port: int32, targetPort: int32, protocol: string)

  /** `owner` is the name of the controlling Tunnel, when there is one. */
  datatype Service = Service(
    labels: map<string, string>, owner: Option<string>, kind: string, selector: map<string, string>, ports: seq<ServicePort>)

  datatype Subset = Subset(ips: seq<string>, ports: seq<ServicePort>)

  datatype Endpoints = Endpoints(labels: map<string, string>, owner: Option<string>, subsets: seq<Subset>)
}
