# tunneld: a verified model

This project models the tunnel daemon `tunneld` and its Kubernetes side in Dafny and proves
properties of the model. Verify it with `dafny verify dfyconfig.toml`.

## What is modelled

- **Planning** (`Graphs`, `Traversal`, `Planner`): the planner turns named specs into a dependency graph,
  orders it and answers "who depends on this tunnel". The topological sort and the flood come from the
  `gographs` package, which is not part of this repository; `Traversal` contains Kahn's algorithm and a
  breadth-first search, proved correct, that stand in for the calls at planner.go:63 and planner.go:90.
  `Connect` is taken to succeed on valid indices. Map iteration runs in an arbitrary order; where the order
  matters, in the loop that connects the edges, it is a parameter.
- **Registry** (`Claims`, `Registry`, `RejectedAdds`, `Load`, `Supervisor`, `Daemon`): the supervisor's process
  map beside the planner's spec map. `Registries` holds the operations as functions on values, with the
  theorems about all runs; the classes `Planner`, `Process` and `Supervisor` update their fields as the source
  does, and each method's contract ties its new state to those functions.
- **Failure handling** (`Processes`, `Lifecycle`, `StopLatch`, `StopExact`, `RestartBudget`, `StartBudget`,
  `FailureRun`, `BudgetOverrun`, `CleanExit`, `CascadeRuns`, `HandlerRun`, `RegistryRun`): every monitor
  goroutine, with the `handleFailure` it ends in, is a thread of a step system in which each lock-protected
  block is one step. Threads hold process objects, not names, so a handler can act on a process that has been
  removed or replaced since. The step system and the methods on objects are two models of the same code, and are
  proved to agree: `HandlerAlone` and `StartAlone` for an uninterrupted handler and start, `OpsAreRun` and
  `RunIsOps` for the registry and the planner's graph over whole runs. A child's exit message is a counter per
  process: a message may be received by any monitor or Stop of that process, which allows more interleavings
  than the channels do. Adds are not compared for ports in the step system, which allows more runs as well.
  Monitors that end because the daemon shuts down are not modelled. A run from boot may begin with Run's Plan of
  the configured tunnels and their registration one by one, in any order and interleaved with everything else.
- **Backoff, ports, configuration** (`Durations`, `Backoff`, `Ports`, `Config`): restart delays in exact reals
  truncated to integers, dynamic port resolution, claim keys down to decimal printing and bracketing, the
  translation between the YAML records and the wire spec, and validation.
- **Kubernetes** (`Crd`, `Scheduler`, `Controller`, `PassMeaning`, `Convergence`, `Conversion`, `ReadBack`,
  `Alignment`, `Groups`): scheduling, one controller pass as a class over the stored objects and as a function,
  repeated passes, the agent's translation and its inverse, group children, and one forward followed end to end.

Parameters stand for what the code cannot decide: the outcome of disk writes and of launching a command,
allocated ports, clocks, ticks and node lists. The API server's rule that node names are unique is a
hypothesis where a node is fetched by name.

## What the proofs found

- A Plan that fails leaves its graph behind and only the spec is rolled back. A rejection for a cycle leaves the
  whole graph, so the cascade still finds every dependent. A rejection for a missing dependency leaves whatever
  the map iteration had connected: starting from dependencies that all exist, the cascade stays complete in
  every iteration order exactly when the new spec's dependencies exist, or no registered tunnel depends on
  another (`RejectedAddMayForgetDependents`; `DependentsSurviveExactly` without that assumption). The cascade is
  therefore proved under the hypothesis that the latest Plan built the whole graph; removals since then are
  covered.
- The attempt counter can exceed `max_attempts` m, because handlers of one tunnel may overlap between reading
  and counting. Each of them goes back to one registration or explicit start of the name, so with n of those
  the counter is at most m - 1 + n (`RestartBudget`), that bound is reached by a run from an empty daemon
  (`OverrunReached`), and m is respected in all runs exactly when n is at most 1 (`BudgetKeptExactly`).
  On a Kubernetes node every poll of the agent ends in Update (k8s/agent/reconciler.go:66-74), and an Update with
  an unchanged spec starts the tunnel again unless its child is alive (grpc_server.go:262-268). Each such poll is
  one more start: while a tunnel keeps failing, n grows with the polls, and a stopped tunnel is started by the
  next poll, so there neither `max_attempts` nor a Stop lasts.
- A stopped process stays stopped in every run if and only if no handler or start of it is under way that the
  restart policy lets pass, now or after another monitor has reset its counter (`StopHoldsExactly`). The
  equivalence is for processes that are not stuck, that is up without a child and without a monitor. A stuck
  process can only be freed by a handler that gives up; without a threat Stop holds for it too (`StopHolds`).
  The most common threat is a handler that sleeps through its delay (`SleepingHandlerOverridesStop`).
- A rejected Update has already removed the old tunnel: `UpdateSurvives` says exactly when the name stays
  registered, `UpdateLosesTunnel` reaches a loss. Removing a tunnel that another depends on blocks the adds of
  all other names (`RemovalBlocksAdds`, `DanglingDependencyBlocksAdds`).
- The first restart delay is never capped, so `max_delay` is respected exactly when the base delay is not
  above it (`CapRespected`).
- AddTunnel accepts a spec that claims one key twice by itself; Run and Validate do not
  (`AddAgreesWithRunCheck`, `RepeatedKeyIsAccepted`).
- Namespaces that contain `--` can make daemon names collide (`DoubleHyphenCollides`, `NamesCollideExactly`), and
  two groups of one namespace can produce the same child, such as group `a` with member `b-c` and group `a-b`
  with member `c` (`GroupsCollideExactly`).

Where documentation and code disagree the model follows the code. docs/configuration.md:17 promises
that dependencies are healthy before a tunnel starts, but Run starts each tunnel without waiting, so only
the start order is proved. README.md:33 and docs/examples/bastion-kubernetes.md:53 promise that dependents are
restarted once the upstream recovers; no code does this. docs/configuration.md:54-56 gives `policy` and
`delay` defaults of `always` and `5s`; the code applies no default, so that a policy without a delay restarts at
once (`UnsetDelayMeansAtOnce`). `on-failure`, like the empty policy, also restarts after a clean exit: every
present policy but `never` does (`CleanExitRestartsExactly`).

## Model

| member | source | states |
|---|---|---|
| Traversal.TopologicalSort | internal/dependency/planner.go:63-69 | stands in for the library sort: succeeds exactly on acyclic graphs, with every vertex once and after all its predecessors |
| Traversal.Flood | internal/dependency/planner.go:87-90 | stands in for the library flood: exactly the vertices reachable from the start, each once |
| Planning.Planner.constructor | internal/dependency/planner.go:16-22 | starts from the given specs with an empty graph |
| Planning.Planner.AddSpec | internal/dependency/planner.go:24-29 | stores the spec under its name and touches nothing else |
| Planning.Planner.RemoveSpec | internal/dependency/planner.go:31-33 | forgets the name and touches neither graph nor indices |
| Planning.Planner.Plan | internal/dependency/planner.go:35-78 | succeeds exactly when every dependency exists and there is no cycle, whatever the map order; the result is the specs, each once, dependencies first; after a cycle the graph is complete, after a missing dependency it is a partial build |
| Planning.AddVertices | internal/dependency/planner.go:39-42 | one indexed vertex per spec for every iteration order, no edges yet |
| Planning.AddEdges | internal/dependency/planner.go:49-61 | for the given iteration order, all dependency edges, or the first missing dependency met and exactly the edges added before it |
| Planning.BuildOutcome | internal/dependency/planner.go:49-61 | over the whole map, in any order: no error exactly when every dependency exists, and then all edges; otherwise a partial build |
| Planning.SortedIsStartOrder | internal/dependency/planner.go:71-77 | a topological order of vertex indices, read back through the graph, is a start order of the specs |
| Planning.Planner.DependentsOf | internal/dependency/planner.go:81-99 | unknown names are an error; otherwise exactly the names the planned graph reaches, the tunnel itself excluded, each once |
| RejectedAdds.PartialBuildExactly | internal/dependency/planner.go:49-55 | the partial builds are exactly what the iteration orders of the map produce |
| RejectedAdds.DependentsSurviveExactly | internal/daemon/supervisor.go:168-173 | after an add of a new name every cascade stays complete in every iteration order exactly when no spec with a missing dependency can stop the build before a registered dependency is connected |
| RejectedAdds.RejectedAddMayForgetDependents | internal/daemon/supervisor.go:168-173 | for a registry with all dependencies registered: exactly when the new spec's dependencies exist or no registered tunnel depends on another |
| Claiming.FindDoubleClaim | internal/daemon/supervisor.go:59-67 | reports a conflict exactly when some key is claimed twice, and names two claimants of that key |
| Claiming.NoDoubleAnyOrder | internal/config/config.go:330-342 | the verdict of the claim walk is the same for every order of the tunnels |
| Claiming.NoDoubleClaimExactly | internal/daemon/supervisor.go:59-67 | the port check passes exactly when no two forwards, of one tunnel or of two, listen on one defaulted address and one configured port |
| Ports.LocalPortKeys | internal/tunnel/ports.go:85-112 | the keys of the forwards with a non-zero port, in order |
| Ports.KeysOfForwardsHas | internal/tunnel/ports.go:85-112 | a key is claimed exactly when some forward with a non-zero port has that key |
| Ports.ClaimsExactly | internal/tunnel/ports.go:85-112 | the claims of an SSH or kubectl spec on its own fields: address defaulted to 127.0.0.1, joined with every non-zero local port |
| Ports.ClaimKeyFaithful | internal/tunnel/ports.go:92-96 | two keys are equal exactly when the defaulted addresses and the ports are, for every address and every integer port |
| Ports.JoinHostPortInjective | internal/tunnel/ports.go:96-108 | joining host and port loses nothing, with or without colons in the host |
| Ports.FormatIntInjective | internal/tunnel/ports.go:96-108 | decimal printing distinguishes all integers, negative ones included |
| Ports.FormatIntExactly | internal/tunnel/ports.go:96-108 | the printed port is its decimal numeral: a minus sign if negative, then digits of that value without a leading zero |
| Ports.AllocatePort | internal/tunnel/ports.go:117-125 | an error or some non-zero port |
| Ports.ResolvePorts | internal/tunnel/ports.go:25-80 | fills exactly the zero ports, gives one mapping per forward in order, asks the system once per zero port, and fails only after asking |
| Ports.ForwardsOfClone | internal/tunnel/ports.go:29-77 | the clone's forwards are the input's with the mapped ports, index by index |
| Ports.ResolutionExactly | internal/tunnel/ports.go:25-80 | a resolution on the spec's own fields: per forward the defaulted address, both ports and the remote port, and a clone that differs in zero ports only |
| Ports.ResolveAgain | internal/tunnel/ports.go:21-24 | resolving a resolved spec asks for nothing and changes nothing |
| Ports.ResolvedKeys | internal/tunnel/ports.go:82-112 | the resolved spec claims every joined (address, actual port); the configured spec claims the subsequence with configured ports |
| Processes.Process.constructor | internal/daemon/process.go:45-54 | a new process is stopped, not wanted, with no attempts and no mappings |
| Processes.Process.Start | internal/daemon/process.go:110-201 | refused without effect unless stopped or failed; otherwise wanted running, and Starting exactly when no port was refused and the command was launched; any new mappings resolve the spec |
| Processes.Process.Stop | internal/daemon/process.go:203-204 | the expected state becomes stopped at once, nothing else changes |
| Processes.Process.IncrementRestartAttempts | internal/daemon/process.go:98-102 | counts one attempt, nothing else changes |
| Registries.RunsStaySafe | internal/daemon/supervisor.go:124-199 | over every sequence of adds, removes and updates both maps agree, claims stay disjoint, dependencies stay acyclic, and only removals separate the registry from the latest complete plan |
| Registries.VerdictExactly | internal/daemon/supervisor.go:139-173 | the reason for a rejection is the first check that fails, and every outcome has exactly its cause |
| Registries.AddIsAllOrNothing | internal/daemon/supervisor.go:139-178 | after any run an accepted add leaves a closed acyclic set with the spec registered; a rejected one leaves both maps as they were |
| Registries.AddAgreesWithRunCheck | internal/daemon/supervisor.go:124-137 | an accepted add keeps the stricter check of Run and Validate satisfied exactly when the spec repeats no key of its own |
| Registries.RepeatedKeyIsAccepted | internal/daemon/supervisor.go:124-137 | any forward with a fixed port, given twice in one spec, is accepted by an add although Run's check would refuse it |
| Registries.UpdateSurvives | internal/api/grpc_server.go:258-279 | the name stays registered exactly when the spec is unchanged, or can be saved, shares no port with the other tunnels and plans with them; other tunnels are untouched |
| Registries.UpdateLosesTunnel | internal/api/grpc_server.go:271-277 | one accepted add and one update naming a missing dependency leave nothing registered |
| Registries.DanglingDependencyBlocksAdds | internal/daemon/supervisor.go:168-173 | a name can be added exactly when it is free and no registered tunnel depends on another missing name |
| Registries.RemovalBlocksAdds | internal/daemon/supervisor.go:186-199 | a removal keeps a closed registry closed exactly when no other tunnel depends on the name, and exactly then other free names can still be added |
| Registries.PrefixPlannable | cmd/tunnelctl/cmd/load.go:36-42 | every prefix of a planned order is closed and acyclic |
| Registries.Replay | internal/daemon/supervisor.go:139-178 | adding a planned set with disjoint claims in order to an empty supervisor is accepted at every step and ends with exactly that set |
| Loads.SlurpKeepsPlan | cmd/tunnelctl/cmd/slurp.go:12-39 | replacing key files by references changes neither dependencies nor claims |
| Loads.SlurpExactly | cmd/tunnelctl/cmd/slurp.go:12-39 | a key file becomes a reference to the last element of its path, and nothing else changes |
| Loads.LoadReplay | cmd/tunnelctl/cmd/load.go:36-61 | the load of a planned set with disjoint claims is accepted at every step and ends with exactly that set, its key files replaced by references |
| Supervision.Supervisor.constructor | internal/daemon/supervisor.go:30-38 | a new supervisor has no processes |
| Supervision.Supervisor.Run | internal/daemon/supervisor.go:52-79 | registers everything exactly when the specs can be planned and no key is claimed twice; then both maps agree, the registry is safe, every process is wanted and Starting if its launch succeeded, and tunnels were started in dependency order; otherwise nothing is registered |
| Supervision.Supervisor.RegisterNext | internal/daemon/supervisor.go:69-79 | one turn of the loop: a fresh process under the spec's name, started |
| Supervision.Supervisor.CheckPortConflicts | internal/daemon/supervisor.go:124-137 | a conflict exactly when some registered tunnel shares a key, and the key and its owner are named correctly |
| Supervision.Supervisor.AddTunnel | internal/daemon/supervisor.go:139-184 | the registry afterwards, the exact reason for a rejection, and otherwise a fresh process under the name: started when there is a context, even when the launch fails, and idle without one |
| Supervision.Supervisor.Create | internal/api/grpc_server.go:229-239 | an add for which a tunnel that is already there is a success without effect |
| Supervision.Supervisor.RemoveTunnel | internal/daemon/supervisor.go:186-199 | removes the name from both maps, tells that process to stop, leaves all others alone; reports an unknown name |
| Supervision.Supervisor.Update | internal/api/grpc_server.go:258-279 | the registry afterwards; other processes keep their state; an unchanged spec is started in place, a changed one stops the old process and gets a fresh one; after a rejection the tunnel is gone |
| Supervision.StartTunnel | internal/daemon/supervisor.go:235-254 | nothing for a live process, a start that passes the guard otherwise, success only when it is up or starting |
| Supervision.Supervisor.HandleFailure | internal/daemon/supervisor.go:374-434 | ignores unregistered and unwanted tunnels; otherwise changes exactly the planned dependents that are not stopped, gives up exactly when a positive max_attempts is reached and otherwise counts the restart, and with a completely planned graph leaves every current transitive dependent stopped or told to stop |
| Supervision.Supervisor.Cascade | internal/daemon/supervisor.go:389-403 | stops exactly the planned dependents, the failed tunnel itself excluded |
| Supervision.DecideRestart | internal/daemon/supervisor.go:405-434 | never or absent policy: nothing; a positive max_attempts that the counter has reached as an int32: Failed; otherwise, also without a limit, one more attempt and the delay |
| Supervision.CurrentDependentsArePlanned | internal/daemon/supervisor.go:389-391 | removals since a complete plan leave every current dependent among the planned ones |
| Daemon.StartDaemon | cmd/tunneld/cmd/run.go:60-65 | a validated configuration can only fail to plan; on success every enabled tunnel is registered, wanted, and was started after its dependencies |
| Lifecycle.NextKeepsWellNamed | internal/daemon/supervisor.go:52-199 | every step keeps names leading to processes registered under them and, after a plan that built the whole graph, that graph covering all dependencies of the registered and the configured tunnels |
| Lifecycle.StatusExactly | internal/daemon/process.go:177-198 | who sets a status and to what: an exit, a healthy check, a timeout, a handler that gives up, a launch, and nobody else |
| Lifecycle.ChildrenExactly | internal/daemon/process.go:171-198 | a launch is one more child, an exit turns a child into one message, and one reader takes it |
| Lifecycle.ExpectedExactly | internal/daemon/process.go:98-117 | who sets the expected state and the counter: a start past its guard, a stop by name or as a dependent, a healthy check and a counted failure, and nobody else |
| StopLatch.StopHolds | internal/daemon/process.go:203-204 | after Stop, unless a handler or start under way can still start the process, no run without an explicit start of its name makes it wanted or adds a child |
| StopLatch.ExpectedStateFrame | internal/daemon/process.go:110-117 | only a Start past its guard makes a process wanted; only a stop, a removal or a cascade that looked it up makes it unwanted |
| StopExact.SleepingHandlerOverridesStop | internal/daemon/supervisor.go:433-436 | a sleeping handler makes the process wanted again by itself once its child is gone |
| StopExact.LaunchingOverridesStop | internal/daemon/supervisor.go:389-436 | any thread that is past the expected-state check, or starting, makes the process wanted again or adds a child by itself, unless its start guard or the restart policy turns it away |
| StopExact.ThreatOverrides | internal/daemon/supervisor.go:326-436 | every threat is real: with the help of the process's other monitors some run without any call makes it wanted again or adds a child |
| StopExact.StopHoldsExactly | internal/daemon/process.go:203-204 | a stopped process that is not stuck stays stopped in all runs without an explicit start of its name if and only if it is not threatened |
| RestartBudgets.RegisteredIsNewborn | internal/daemon/process.go:45-54 | in every run from boot a process registered by Run or by an add starts its life with nothing counted and no handler about to count |
| RestartBudgets.Conservation | internal/daemon/supervisor.go:433-436 | restarts fired and pending add up to those counted; resets done and due add up to transitions to healthy |
| RestartBudgets.OverlapBudget | internal/daemon/supervisor.go:411-436 | with max_attempts m and at most k handlers between check and count the counter stays at most m - 1 + k, and restarts are at most that many times one more than the transitions to healthy |
| StartBudgets.InvolvedWithinStarts | internal/daemon/supervisor.go:309-326 | in every run from boot the goroutines that concern a name are at most its registrations and explicit starts |
| StartBudgets.RestartBudget | internal/daemon/supervisor.go:411-436 | in every run from boot with n registrations and explicit starts of a tunnel its counter stays at most m - 1 + n, the int32 cast is exact, and restarts are at most (m - 1 + n) times one more than the transitions to healthy |
| StartBudgets.OneStartKeepsBudget | internal/daemon/supervisor.go:411-436 | registered once and never started explicitly, a tunnel keeps to m and to m times one more than its transitions to healthy |
| RestartBudgets.NeverMeansNone | internal/daemon/supervisor.go:405-409 | with a never or absent policy no run restarts the process automatically |
| BudgetOverruns.OverlappingHandlersOverrun | internal/daemon/supervisor.go:411-434 | from a first start, m - 1 restarts and then n handlers that overlap take the counter to m - 1 + n |
| BudgetOverruns.OverrunReached | internal/daemon/supervisor.go:411-434 | wherever a tunnel that nobody depends on can be registered, a run from boot with n starts of it reaches m - 1 + n |
| BudgetOverruns.BudgetKeptExactly | internal/daemon/supervisor.go:411-434 | max_attempts is respected in all runs from boot with n starts of the tunnel if and only if n is at most 1 |
| BudgetOverruns.OneStartReachesExactly | internal/daemon/supervisor.go:411-417 | under any present policy but never, some run with one start takes the counter to k if and only if max_attempts is not positive or k is at most max_attempts |
| CleanExits.CleanExitRestartsExactly | internal/daemon/supervisor.go:338-340 | for every tunnel that can be registered, some run from boot in which no child fails restarts it automatically if and only if its policy is present and not never |
| CascadeRuns.ListIsComplete | internal/daemon/supervisor.go:389-393 | with a completely planned graph the handler's list holds every registered transitive dependent and nothing outside the planned reach |
| CascadeRuns.CascadeHandlesAll | internal/daemon/supervisor.go:394-402 | under every interleaving the handler comes to each listed dependent by a step of its own, and does not find it registered, or looks its process up and, at the end of that turn, leaves it stopped or told to stop |
| CascadeRuns.CascadeCovers | internal/daemon/supervisor.go:389-403 | in every run from the listing to after the loop, that holds for every tunnel that depended on the failed one at the listing, even one that was down then and was started meanwhile |
| CascadeRuns.CascadeStopsOnlyPlanned | internal/daemon/supervisor.go:389-403 | whenever the loop is about to stop a process, the handler itself looked it up, after the listing, under a name the planned graph reached from the failed tunnel |
| HandlerRuns.HandlerAlone | internal/daemon/supervisor.go:374-436 | a handler thread that is not interrupted does to every process what HandleFailure promises, and ends or sleeps accordingly |
| HandlerRuns.StartAlone | internal/daemon/process.go:110-179 | a start that is not interrupted does what StartProcess promises: watched and one more child exactly if launched, over otherwise |
| HandlerRuns.HealthyAlone | internal/daemon/supervisor.go:350-357 | a healthy check of a process that is not Running makes it Running with a fresh counter and changes nothing else; of a Running one, nothing at all |
| HandlerRuns.FailingAlone | internal/daemon/supervisor.go:338-365 | a health timeout marks the process Failed, an exit takes its message, and either way the failure is reported under the process's name |
| RegistryRuns.StepIsOp | internal/daemon/supervisor.go:139-199 | every step of the daemon changes the registry by the operation of its label, and by nothing when it has none |
| RegistryRuns.RunIsOps | internal/daemon/supervisor.go:139-199 | every run whose adds get past the port comparison ends in the registry that its operations lead to, planner graph included |
| RegistryRuns.OpsAreRun | internal/daemon/supervisor.go:139-199 | every sequence of adds, removes and updates is a run, and ends in that registry |
| Backoff.GrownIsPower | internal/daemon/supervisor.go:425 | the product used is delay times multiplier to the attempts |
| Backoff.WaitForm | internal/daemon/supervisor.go:419-435 | the wait at an attempt: the truncated product, capped from the second attempt on; none for a non-positive delay |
| Backoff.BaseWait | internal/daemon/supervisor.go:419-420 | without a backoff section, and at the first attempt, the wait is the configured delay |
| Backoff.TruncExactly | internal/daemon/supervisor.go:425 | the conversion of the product drops the fraction, toward zero for both signs |
| Backoff.UnsetDelayMeansAtOnce | internal/daemon/supervisor.go:419-431 | a policy without a delay restarts at once at every attempt |
| Backoff.WaitNondecreasing | internal/daemon/supervisor.go:419-431 | with multiplier at least 1 and base delay within the cap the waits never shrink |
| Backoff.CapRespected | internal/daemon/supervisor.go:426-429 | every wait is within max_delay exactly when the base delay is |
| Backoff.CappedStays | internal/daemon/supervisor.go:426-429 | once capped, every later wait is the cap |
| Backoff.StreakBound | internal/daemon/supervisor.go:411-435 | m restarts of one streak wait at most delay times (mult^m - 1) / (mult - 1) |
| Backoff.StreakCapped | internal/daemon/supervisor.go:411-435 | with a cap at or above the base delay, m restarts wait at most m caps |
| Waiting.WaitHealthy | internal/daemon/supervisor.go:267-307 | success exactly at a Running observation; "tunnel failed" only at Failed under a never or absent policy; timeout only past the deadline; always at the first tick that ends the wait |
| Waiting.EndsInTime | internal/daemon/supervisor.go:279-306 | with ticks at least half a second apart the wait ends within a number of ticks computed from the timeout |
| Waiting.TickLimitExactly | internal/daemon/supervisor.go:284-289 | that number: 61 by default, one when the timeout is negative, and two a second plus one otherwise |
| Waiting.RunningWins | internal/daemon/supervisor.go:291-304 | under a restart policy a Running observation before the deadline wins over earlier failures |
| Configs.FromProto | internal/config/config.go:130-202 | the configuration record of a wire spec, forwards in order |
| Configs.ToProto | internal/config/config.go:204-285 | the wire spec of a configuration, with int32 truncation, or which section or type is wrong |
| Configs.FieldsCarried | internal/config/config.go:130-202 | which wire field every configuration field comes from |
| Configs.ConvertsExactly | internal/config/config.go:204-280 | ToProto succeeds exactly when the type is ssh or kubectl and its section is there, and otherwise names what is missing |
| Configs.NarrowedFields | internal/config/config.go:220-265 | numbers beyond int32, ports as well as max_attempts, keep their low 32 bits |
| Configs.SpecRoundTrip | internal/config/config.go:130-285 | there and back gives the same spec with absent durations made zero |
| Configs.SecondTrip | internal/config/config.go:130-285 | a second trip changes nothing |
| Configs.TripKeepsBehaviour | internal/daemon/supervisor.go:405-431 | dependencies, claim keys, restart decisions and delays survive the trip |
| Configs.ConfigRoundTrip | internal/config/config.go:130-285 | the other way round is the identity up to enabled and the unused section, for values in range |
| Configs.ToSpecs | internal/config/config.go:303-316 | converts exactly the enabled tunnels, keyed by name, or names one that does not convert |
| Configs.Validate | internal/config/config.go:318-344 | accepts exactly when every enabled tunnel converts and no key is claimed twice, for every map order; a refusal names a tunnel without a type or one that does not convert, with its error |
| Scheduling.IsNodeReady | k8s/controllers/scheduler.go:59-66 | the first Ready condition decides |
| Scheduling.EligibleExactly | k8s/controllers/scheduler.go:24-31 | a node qualifies exactly when it carries every selected label and its first Ready condition is True |
| Basics.StrLessExactly | k8s/controllers/scheduler.go:32 | the order of names is the lexicographic one, by the first position where they differ |
| Scheduling.PickNode | k8s/controllers/scheduler.go:16-40 | the least Ready matching node, or none when there is none |
| Scheduling.ChoiceIgnoresOrder | k8s/controllers/scheduler.go:24-35 | the choice does not depend on the order of the node list |
| Scheduling.LabelTestsDiffer | k8s/controllers/tunnel_controller.go:110-114 | the two label tests differ exactly on an empty selector value for an absent label |
| Scheduling.PickedIsStillValid | k8s/controllers/tunnel_controller.go:105-116 | any node the scheduler picks passes the re-check |
| Scheduling.NodeInternalIP | k8s/controllers/scheduler.go:44-57 | the first internal address, else the first non-empty external one, else nothing |
| Scheduling.NodeIPExactly | k8s/controllers/scheduler.go:44-57 | the address by position in the list |
| Scheduling.NodeStillValid | k8s/controllers/tunnel_controller.go:105-116 | the node exists, passes the label test and is Ready |
| Scheduling.StillValidExactly | k8s/controllers/tunnel_controller.go:105-116 | the re-check on the node's own labels and conditions |
| Controllers.TunnelReconciler.Reconcile | k8s/controllers/tunnel_controller.go:42-103 | the stored objects after one pass, as the pass function gives them |
| Controllers.TunnelReconciler.Mark | k8s/controllers/tunnel_controller.go:126-140 | phase, error, generation and the Ready condition, nothing else |
| Controllers.TunnelReconciler.ReconcileService | k8s/controllers/service.go:21-78 | the Service and Endpoints written, and what a missing address or a foreign owner leaves undone |
| Controllers.TunnelReconciler.DeleteService | k8s/controllers/service.go:80-90 | both objects of that name are gone, all others stay |
| Controllers.ReplaceCondition | k8s/controllers/tunnel_controller.go:142-160 | replaces the first condition of the type or appends |
| Controllers.MergeLabels | k8s/controllers/service.go:116-124 | the second map wins, for every order of writing |
| Controllers.SetConditionIdempotent | k8s/controllers/tunnel_controller.go:142-160 | setting a condition twice is setting it once |
| Controllers.SetConditionExactly | k8s/controllers/tunnel_controller.go:142-160 | the first condition of the type is replaced in place, or the new one is appended |
| PassMeanings.InvalidPass | k8s/controllers/tunnel_controller.go:53-56 | a Tunnel with both or neither type is marked Failed and nothing else changes |
| PassMeanings.SchedulingPass | k8s/controllers/tunnel_controller.go:58-72 | an unplaced Tunnel gets the least eligible node and phase Pending, or is marked Degraded when there is none |
| PassMeanings.WaitingPass | k8s/controllers/tunnel_controller.go:74-77 | an exposed Tunnel without a reported port is left alone |
| PassMeanings.RefusedPass | k8s/controllers/service.go:32-60 | nothing is written for a node without an address or over a foreign Service |
| PassMeanings.PublishingPass | k8s/controllers/service.go:36-78 | what Service and Endpoints then hold, which labels they keep, when the Endpoints are refused, and that no other object changes |
| PassMeanings.UnpublishingPass | k8s/controllers/tunnel_controller.go:92-100 | a placed Tunnel that is not exposed loses its reference and both objects it names, and no other |
| PassMeanings.ForgottenServicesAreGone | k8s/controllers/tunnel_controller.go:92-100 | over any interleaving of events a reference is dropped only by such a pass, which deletes both objects |
| Convergence.TwoPasses | k8s/controllers/tunnel_controller.go:42-116 | after two passes from any state a third changes nothing |
| Convergence.SettledMeaning | k8s/controllers/service.go:21-78 | at the fixed point an exposable Tunnel is published with its node's address, reported port and remote port, and an unexposed one records no Service |
| Convergence.StickyScheduling | k8s/controllers/tunnel_controller.go:58-72 | over any interleaving of events the node changes only at a pass that found it empty or unfit, and to the least Ready match |
| Convergence.SharedSelectorSharesNode | k8s/controllers/scheduler.go:12-40 | with one node list, in any order, unscheduled Tunnels with one selector land on one node |
| Conversion.ToProto | k8s/agent/conversion.go:28-116 | the wire spec of a well-typed Tunnel, an error otherwise |
| ReadBacks.AgentRoundTrip | k8s/agent/conversion.go:28-116 | the wire spec read back with its own inverse is the resource's spec: dependencies, policy, backoff, health, forwards and timeouts |
| ReadBacks.KeysByCases | k8s/agent/conversion.go:65-96 | the key reference: of the TunnelKey, else of the Secret, else none, and never a file |
| ReadBacks.DaemonWaits | k8s/agent/conversion.go:50-63 | how long the daemon waits before each restart, on the resource's own delay, thousandths and cap |
| ReadBacks.DaemonRestarts | k8s/agent/conversion.go:50-63 | whether the daemon restarts at all and when it gives up, on the resource's own fields |
| Conversion.NamesCollideExactly | k8s/agent/conversion.go:19-23 | for two labels, some valid Tunnel names share a daemon name exactly when the longer label continues the shorter one and the separator with a letter or digit |
| Conversion.DaemonNameInjective | k8s/agent/conversion.go:19-23 | for labels without a double hyphen the daemon name determines namespace and tunnel |
| Conversion.DoubleHyphenCollides | k8s/agent/conversion.go:19-23 | labels may contain a double hyphen, and then two Tunnels collide |
| Alignment.ToResolvedForwards | internal/api/grpc_server.go:32-43 | one reported forward per mapping, in order |
| Alignment.ForwardsAlign | k8s/controllers/tunnel_controller.go:164-173 | the picked port is the one the resolved spec listens on for the exposed forward and the service port is its reported remote port; out of range nothing is picked |
| Alignment.PublishedPortsAlign | k8s/controllers/service.go:40-72 | at the fixed point Endpoints and Service carry that forward's listening and remote port |
| Groups.PrefixDeps | k8s/controllers/tunnelgroup_controller.go:89-98 | every dependency prefixed, in order |
| Groups.ExposeForMember | k8s/controllers/tunnelgroup_controller.go:100-115 | the first entry for the member, with its own name when none is given |
| Groups.ExposeExactly | k8s/controllers/tunnelgroup_controller.go:100-115 | the exposure by position in the list of entries |
| Groups.ChildCarries | k8s/controllers/tunnelgroup_controller.go:40-63 | which field of a child comes from the member and which from the group |
| Groups.FullNameInjective | k8s/controllers/tunnelgroup_controller.go:85-87 | within one group distinct members have distinct daemon names |
| Groups.GroupsCollideExactly | k8s/controllers/tunnelgroup_controller.go:85-87 | two groups of one namespace can produce the same valid child name exactly when one name is the other continued with a hyphen and leaves room for a member |
| Groups.GroupEdges | k8s/agent/conversion.go:38-40 | the daemon's dependency graph is the member graph under the renaming |
| Groups.GroupPlannable | k8s/controllers/tunnelgroup_controller.go:85-98 | the daemon can plan a group exactly when its member graph is closed and acyclic |
| Graphs.RenamingKeepsAcyclic | k8s/controllers/tunnelgroup_controller.go:89-98 | an injective renaming neither creates nor removes cycles |
| Groups.AggregatePhase | k8s/controllers/tunnelgroup_controller.go:119-144 | Failed beats Degraded beats Pending beats Healthy, exactly |
| Durations.DurationRoundTrip | internal/config/config.go:208-209 | every int64 duration survives the wire form |
| Durations.AsDurationExactly | internal/config/config.go:135-148 | the nanoseconds of a wire duration, and which end of int64 an overflow goes to |
| Basics.WrapInt32 | internal/daemon/supervisor.go:412 | the cast is exact precisely for values in int32 range |
| Basics.WrapInt32Exactly | internal/daemon/supervisor.go:412 | the cast is the one int32 congruent to its argument modulo 2^32 |

## Left out

- Operating system and library effects: processes, pipes, log files, sockets, YAML text, gRPC, the Kubernetes client; their outcomes are parameters or nondeterministic.
- Health gating of dependents and restarting dependents after recovery: no code does either.
- "At most one live child per tunnel" and an accurate status after Stop: not true of the code, a health timeout restarts without cancelling the old child.
- Residency on a single node after rescheduling, and cleanup of Services whose name changed: no code removes the old object.
- Negative forward indexes: the code would index out of range; the index is a natural number here.
- Floating-point rounding in the backoff, and products outside int64, whose conversion the Go specification leaves to the implementation; `RestartDelay` is defined only in range.
- Distinctness of ports allocated by the operating system.
- Aliasing of proto messages: messages are values, so that ResolvePortsInProto leaves its input alone is true by construction.
- Nil and empty lists and maps are not distinguished.
- Process.EffectiveHealthCheck, BuildCommand, key upload, log streaming, Status and WatchStatus: lookups and straight-line code.
- StopTunnel, EnableTunnel and DisableTunnel are labels of the step system and have no method of their own; SetEnabled's write to the configuration file is not modelled.
- Supervision.Supervisor.AddTunnel: a persistent add of a spec without a health or restart section ends in a nil dereference in FromProto (config.go:130-148) while the lock is held; `diskOk` covers only saves that return.
- Port claims and saved files in the step system: its registrations check dependencies only, so its runs include all real ones.
- Key files that the client cannot read: load reports the tunnel and goes on without it.
- AddTunnel leaves the saved file of a persistent tunnel behind when planning fails; files are not modelled.
- Adds of a configured tunnel's name before Run has registered it, and adds before Run's Plan: Supervisor.Run is modelled on an empty process map, and the step system has no such adds.
- Failing Kubernetes API calls and objects changing during a pass: a pass is atomic and its calls succeed.
- Key references carry only the referenced object's name.
- TunnelGroup reconciliation writes children through the API; only the children's specs and names are modelled.
