/** internal/daemon/process.go: one supervised process. */
module Processes {
  import opened Basics
  import opened Proto
  import opened Ports

  /** The fields of a Process that the supervisor's decisions read and write. */
  datatype Proc = Proc(
    spec: TunnelSpec, status: Status, expected: ExpectedState, attempts: nat, mappings: seq<PortMapping>)
  {
    /** Start's guard, process.go:112. */
    predicate MayStart() {
      status.Stopped? || status.Failed?
    }

    function WantRunning(): Proc {
      this.(expected := DesiredRunning)
    }

    function WantStopped(): Proc {
      this.(expected := DesiredStopped)
    }

    predicate WantsDown() {
      expected.DesiredStopped? || expected.DesiredDisabled?
    }

    function WithStatus(s: Status): Proc {
      this.(status := s)
    }
  }

  function NewProc(spec: TunnelSpec): Proc {
    Proc(spec, Stopped, DesiredStopped, 0, [])
  }

  // ---- The restart policy, supervisor.go:406-412 ----

  predicate NeverRestarts(spec: TunnelSpec) {
    spec.restart.None? || spec.restart.value.policy == "never"
  }

  predicate BudgetSpent(spec: TunnelSpec, attempts: nat)
    requires spec.restart.Some?
  {
    spec.restart.value.maxAttempts > 0 && WrapInt32(attempts) >= spec.restart.value.maxAttempts
  }

  class Process {
    const spec: TunnelSpec
    var status: Status
    var expected: ExpectedState
    var restartAttempts: nat
    var portMappings: seq<PortMapping>

    ghost function View(): Proc
      reads this
    {
      Proc(spec, status, expected, restartAttempts, portMappings)
    }

    constructor (spec: TunnelSpec)
      ensures View() == NewProc(spec) == Proc(spec, Stopped, DesiredStopped, 0, [])
    {
      this.spec := spec;
      status := Stopped;
      expected := DesiredStopped;
      restartAttempts := 0;
      portMappings := [];
    }

    method SetStatus(s: Status)
      modifies this`status
      ensures View() == old(View()).WithStatus(s)
    {
      status := s;
    }

    method IncrementRestartAttempts()
      modifies this`restartAttempts
      ensures View() == old(View()).(attempts := old(restartAttempts) + 1)
    {
      restartAttempts := restartAttempts + 1;
    }

    /** Stop: the expected state changes at once; the child's exit is reported later, by its waiter. */
    method Stop()
      modifies this`expected
      ensures View() == old(View()).WantStopped() && expected.DesiredStopped?
    {
      expected := DesiredStopped;
    }

    /**
     * Start, uninterrupted. `spawned` is the outcome of opening the log, building and launching the
     * command; `resolved` says that the system refused no port. A failed start leaves the expected state
     * Running, and may leave new port mappings.
     */
    method Start(spawned: bool) returns (ok: bool, resolved: bool)
      modifies this`status, this`expected, this`portMappings
      ensures ok <==> (old(status).Stopped? || old(status).Failed?) && resolved && spawned
      ensures (forall i :: 0 <= i < |ForwardsOf(spec.kind)| ==> ForwardsOf(spec.kind)[i].port != 0) ==> resolved
      ensures old(status).Stopped? || old(status).Failed? ==> expected.DesiredRunning?
      ensures status == if ok then Starting else old(status)
      ensures !old(View()).MayStart() ==> !ok && View() == old(View())
      ensures old(View()).MayStart() ==>
        View() == old(View()).WantRunning().WithStatus(if ok then Starting else old(status)).(mappings := portMappings)
      ensures ok ==> spawned && exists clone :: Resolution(spec, clone, portMappings)
      ensures portMappings == old(portMappings) || exists clone :: Resolution(spec, clone, portMappings)
    {
      if !(status.Stopped? || status.Failed?) {
        return false, true;
      }
      expected := DesiredRunning;
      RequestsExactly(ForwardsOf(spec.kind));
      var resolution, _ := ResolvePorts(spec);
      if resolution.None? {
        return false, false;
      }
      resolved := true;
      portMappings := resolution.value.1;
      assert Resolution(spec, resolution.value.0, portMappings);
      if !spawned {
        return false, true;
      }
      status := Starting;
      ok := true;
    }
  }
}
