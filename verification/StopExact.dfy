/** When a Stop does not hold: the runs that start the process again by themselves. */
module StopExact {
  import opened Basics
  import opened Graphs
  import opened Traversal
  import opened Processes
  import opened Lifecycle
  import opened StopLatch

  /** Labels that no call from outside is needed for. */
  ghost predicate Automatic(ls: seq<Label>) {
    forall l :: l in ls ==> l.Run? || l.ChildExit?
  }

  /** A start of the process passes its guard, at the latest when a child is gone. */
  ghost predicate CanStart(s: State, pid: nat) {
    pid < |s.slots| && (ProcOf(s, pid).MayStart() || s.slots[pid].children > 0)
  }

  /** After that run the process is wanted again. */
  ghost predicate Revives(s: State, ls: seq<Label>, pid: nat) {
    && Automatic(ls) && Exec(s, ls).Some?
    && pid < |Exec(s, ls).value.slots| && ProcOf(Exec(s, ls).value, pid).expected.DesiredRunning?
  }

  /** After that run it is wanted again, or has one more child. */
  ghost predicate Overrides(s: State, ls: seq<Label>, pid: nat)
    requires pid < |s.slots|
  {
    || Revives(s, ls, pid)
    || (Automatic(ls) && Exec(s, ls).Some? && pid < |Exec(s, ls).value.slots|
        && Exec(s, ls).value.slots[pid].children == s.slots[pid].children + 1)
  }

  // ---- Runs in which one thread moves ----

  /** From s to q the k-th thread alone has moved, and the process has kept its spec. */
  ghost predicate Aside(s: State, q: State, k: nat, pid: nat) {
    && |q.threads| == |s.threads| && (forall j :: 0 <= j < |s.threads| && j != k ==> q.threads[j] == s.threads[j])
    && WellNamed(q) && ThreadsKnown(q)
    && pid < |s.slots| && pid < |q.slots| && ProcOf(q, pid).spec == ProcOf(s, pid).spec
  }

  lemma RunAside(s: State, k: nat, c: Choice, q: State, pid: nat)
    requires WellNamed(s) && ThreadsKnown(s) && pid < |s.slots| && Next(s, Run(k, c)) == Some(q)
    ensures Aside(s, q, k, pid)
  {
    AdvanceKeepsSpecs(s, k, c, q);
    NextKeepsWellNamed(s, Run(k, c), q);
    StepKeepsKnown(s, Run(k, c), q);
  }

  lemma Prepend(s: State, l: Label, q: State, ls: seq<Label>) returns (all: seq<Label>)
    requires Next(s, l) == Some(q) && Exec(q, ls).Some? && (l.Run? || l.ChildExit?) && Automatic(ls)
    ensures Automatic(all) && Exec(s, all) == Exec(q, ls)
  {
    all := [l] + ls;
    ExecFirst(s, l);
    ExecConcat(s, [l], ls);
  }

  lemma Append(s: State, a: seq<Label>, q: State, b: seq<Label>) returns (all: seq<Label>)
    requires Exec(s, a) == Some(q) && Exec(q, b).Some? && Automatic(a) && Automatic(b)
    ensures Automatic(all) && Exec(s, all) == Exec(q, b)
  {
    all := a + b;
    ExecConcat(s, a, b);
  }

  // ---- From the policy's check to the start ----

  lemma BeginOverrides(s: State, tid: nat, pid: nat) returns (ls: seq<Label>)
    requires tid < |s.threads| && s.threads[tid] == Begin(pid) && CanStart(s, pid)
    ensures Revives(s, ls, pid)
  {
    if ProcOf(s, pid).MayStart() {
      ls := [Run(tid, Go)];
      ExecFirst(s, Run(tid, Go));
    } else {
      var q := Next(s, ChildExit(pid, false)).value;
      ExecFirst(q, Run(tid, Go));
      ls := Prepend(s, ChildExit(pid, false), q, [Run(tid, Go)]);
    }
  }

  /**
   * A handler that is asleep when Stop runs starts the process again by itself, registered or not, as soon
   * as the old child is gone.
   */
  lemma SleepingHandlerOverridesStop(s: State, tid: nat, pid: nat) returns (ls: seq<Label>)
    requires tid < |s.threads| && s.threads[tid] == Sleep(pid) && CanStart(s, pid)
    ensures Revives(s, ls, pid)
  {
    var q := Next(s, Run(tid, Go)).value;
    ls := BeginOverrides(q, tid, pid);
    ls := Prepend(s, Run(tid, Go), q, ls);
  }

  lemma CountingHandlerOverridesStop(s: State, tid: nat, pid: nat) returns (ls: seq<Label>)
    requires tid < |s.threads| && s.threads[tid] == Increment(pid) && CanStart(s, pid)
    ensures Revives(s, ls, pid)
  {
    var q := Next(s, Run(tid, Go)).value;
    ls := SleepingHandlerOverridesStop(q, tid, pid);
    ls := Prepend(s, Run(tid, Go), q, ls);
  }

  // ---- To the policy's check ----

  /** How many steps the thread is from the policy's check at most. */
  ghost function Distance(t: Thread): nat {
    match t
    case Cascade(_, deps) => 1 + 3 * |deps|
    case StopOne(_, _, deps) => 2 + 3 * |deps|
    case Inspect(_, _, deps) => 3 + 3 * |deps|
    case _ => 0
  }

  /** The process is as before, up to its expected state. */
  ghost predicate SameButExpected(slot: Slot, slot': Slot) {
    && slot'.children == slot.children && slot'.proc.status == slot.proc.status
    && slot'.proc.attempts == slot.proc.attempts && slot'.proc.spec == slot.proc.spec
  }

  lemma EffectBeforeCheck(s: State, t: Thread, c: Choice, pid: nat)
    requires WellNamed(s) && Known(s, t) && BeforeCheck(t, pid) && !t.CheckBudget?
    requires t.ListDependents? && ProcOf(s, pid).spec.name in s.indexed ==>
      c.Deps? && EnumeratesDependents(s, ProcOf(s, pid).spec.name, c.deps)
    ensures var e := EffectOf(s, t, c);
      && !e.Disabled? && BeforeCheck(e.thread, pid) && !e.thread.ListDependents?
      && (t.ListDependents? || Distance(e.thread) < Distance(t))
      && (e.Write? ==> e.slot < |s.slots| && SameButExpected(s.slots[e.slot], e.content))
  {
  }

  lemma StepToCheck(s: State, tid: nat, pid: nat) returns (c: Choice, q: State)
    requires WellNamed(s) && ThreadsKnown(s) && tid < |s.threads|
    requires BeforeCheck(s.threads[tid], pid) && !s.threads[tid].CheckBudget?
    ensures Next(s, Run(tid, c)) == Some(q) && Aside(s, q, tid, pid) && SameButExpected(s.slots[pid], q.slots[pid])
    ensures BeforeCheck(q.threads[tid], pid) && !q.threads[tid].ListDependents?
    ensures s.threads[tid].ListDependents? || Distance(q.threads[tid]) < Distance(s.threads[tid])
  {
    var name := ProcOf(s, pid).spec.name;
    var ds := Enumerate(set x | x in s.indexed && x != name && Reaches(s.graph, name, x));
    assert forall x :: x in ds <==> x in Members(ds);
    c := Deps(ds);
    EffectBeforeCheck(s, s.threads[tid], c, pid);
    q := Next(s, Run(tid, c)).value;
    RunAside(s, tid, c, q, pid);
  }

  /** The handler goes through its listing and its cascade, whatever is in them. */
  lemma {:induction false} ReachCheck(s: State, tid: nat, pid: nat) returns (ls: seq<Label>, q: State)
    requires WellNamed(s) && ThreadsKnown(s) && tid < |s.threads| && BeforeCheck(s.threads[tid], pid)
    ensures Automatic(ls) && Exec(s, ls) == Some(q) && Aside(s, q, tid, pid)
    ensures q.threads[tid] == CheckBudget(pid) && SameButExpected(s.slots[pid], q.slots[pid])
    decreases s.threads[tid].ListDependents?, Distance(s.threads[tid])
  {
    if s.threads[tid].CheckBudget? {
      return [], s;
    }
    var c, r := StepToCheck(s, tid, pid);
    var rest;
    rest, q := ReachCheck(r, tid, pid);
    ls := Prepend(s, Run(tid, c), r, rest);
  }

  lemma HandlerOverridesStop(s: State, tid: nat, pid: nat) returns (ls: seq<Label>)
    requires WellNamed(s) && ThreadsKnown(s) && tid < |s.threads| && BeforeCheck(s.threads[tid], pid)
    requires CanStart(s, pid) && PassesBudget(s, pid)
    ensures Revives(s, ls, pid)
  {
    var a, q := ReachCheck(s, tid, pid);
    var r := Next(q, Run(tid, Go)).value;
    var b := CountingHandlerOverridesStop(r, tid, pid);
    b := Prepend(q, Run(tid, Go), r, b);
    ls := Append(s, a, q, b);
  }

  /**
   * Any thread past the expected-state check, or starting, makes the process wanted again or launches one
   * more child by itself, if its start guard and the restart policy do not turn it away.
   */
  lemma LaunchingOverridesStop(s: State, tid: nat, pid: nat) returns (ls: seq<Label>)
    requires WellNamed(s) && ThreadsKnown(s) && tid < |s.threads| && pid < |s.slots|
    requires BeforeCheck(s.threads[tid], pid) || PastCheck(s.threads[tid], pid)
    requires !s.threads[tid].Spawn? ==> CanStart(s, pid)
    requires BeforeCheck(s.threads[tid], pid) ==> PassesBudget(s, pid)
    ensures Overrides(s, ls, pid) && (!s.threads[tid].Spawn? ==> Revives(s, ls, pid))
  {
    match s.threads[tid]
    case Spawn(_) =>
      ls := [Run(tid, Go)];
      ExecFirst(s, Run(tid, Go));
    case Begin(_) => ls := BeginOverrides(s, tid, pid);
    case Sleep(_) => ls := SleepingHandlerOverridesStop(s, tid, pid);
    case Increment(_) => ls := CountingHandlerOverridesStop(s, tid, pid);
    case _ => ls := HandlerOverridesStop(s, tid, pid);
  }

  // ---- What other threads of the process can do first ----

  /** The process is up without a child, and nobody watches it: only a handler that gives up could free it. */
  ghost predicate Stuck(s: State, pid: nat)
    requires pid < |s.slots|
  {
    !CanStart(s, pid) && !OtherMonitor(s, pid, -1) && !WillReset(s, pid)
  }

  /** The counter of the process is as before, or reset. */
  ghost predicate CountKept(s: State, q: State, pid: nat)
    requires pid < |s.slots| && pid < |q.slots|
  {
    ProcOf(q, pid).attempts == ProcOf(s, pid).attempts || ProcOf(q, pid).attempts == 0
  }

  ghost function MonitorDistance(t: Thread): nat {
    match t
    case MarkRunning(_) => 3
    case ResetAttempts(_) => 2
    case Watch(_) => 1
    case _ => 0
  }

  ghost predicate Monitors(t: Thread, pid: nat) {
    t == Watch(pid) || Failing(t, pid) || Resetting(t, pid)
  }

  lemma MonitorStep(s: State, k: nat, pid: nat) returns (c: Choice, q: State)
    requires WellNamed(s) && ThreadsKnown(s) && k < |s.threads| && Monitors(s.threads[k], pid)
    ensures Next(s, Run(k, c)) == Some(q) && Aside(s, q, k, pid) && CountKept(s, q, pid)
    ensures if Failing(s.threads[k], pid) then ProcOf(q, pid).status.Failed?
            else Monitors(q.threads[k], pid) && MonitorDistance(q.threads[k]) < MonitorDistance(s.threads[k])
  {
    c := TimedOut;
    assert Known(s, s.threads[k]);
    q := Next(s, Run(k, c)).value;
    RunAside(s, k, c, q, pid);
  }

  /** A monitor can bring the process down to Failed, whatever it is about to do. */
  lemma {:induction false} MonitorFails(s: State, k: nat, pid: nat) returns (ls: seq<Label>, q: State)
    requires WellNamed(s) && ThreadsKnown(s) && k < |s.threads| && Monitors(s.threads[k], pid)
    ensures Automatic(ls) && Exec(s, ls) == Some(q) && Aside(s, q, k, pid) && CountKept(s, q, pid)
    ensures ProcOf(q, pid).status.Failed?
    decreases MonitorDistance(s.threads[k])
  {
    var c, r := MonitorStep(s, k, pid);
    if Failing(s.threads[k], pid) {
      ls, q := [Run(k, c)], r;
      ExecFirst(s, Run(k, c));
    } else {
      var rest;
      rest, q := MonitorFails(r, k, pid);
      ls := Prepend(s, Run(k, c), r, rest);
    }
  }

  /** The run has left that thread where it was. */
  ghost predicate Ready(s: State, q: State, tid: nat, pid: nat) {
    && tid < |s.threads| && tid < |q.threads| && q.threads[tid] == s.threads[tid]
    && WellNamed(q) && ThreadsKnown(q)
    && pid < |s.slots| && pid < |q.slots| && ProcOf(q, pid).spec == ProcOf(s, pid).spec
  }

  lemma OpensGuard(s: State, tid: nat, pid: nat) returns (ls: seq<Label>, q: State)
    requires WellNamed(s) && ThreadsKnown(s) && tid < |s.threads| && pid < |s.slots| && !Stuck(s, pid)
    requires !Monitors(s.threads[tid], pid)
    ensures Automatic(ls) && Exec(s, ls) == Some(q) && Ready(s, q, tid, pid) && CanStart(q, pid)
    ensures PassesBudget(s, pid) ==> PassesBudget(q, pid)
  {
    if CanStart(s, pid) {
      return [], s;
    }
    var k: nat :| k < |s.threads| && Monitors(s.threads[k], pid);
    ls, q := MonitorFails(s, k, pid);
  }

  /** The process found healthy: its counter is reset, and the thread goes on watching. */
  lemma {:induction false} ResetNow(s: State, k: nat, pid: nat) returns (ls: seq<Label>, q: State)
    requires WellNamed(s) && ThreadsKnown(s) && k < |s.threads| && pid < |s.slots|
    requires Resetting(s.threads[k], pid) || (s.threads[k] == Watch(pid) && !ProcOf(s, pid).status.Running?)
    ensures Automatic(ls) && Exec(s, ls) == Some(q) && Aside(s, q, k, pid)
    ensures q.threads[k] == Watch(pid) && ProcOf(q, pid).attempts == 0
    decreases if s.threads[k].Watch? then 2 else if s.threads[k].MarkRunning? then 1 else 0
  {
    var r := Next(s, Run(k, Healthy)).value;
    RunAside(s, k, Healthy, r, pid);
    if s.threads[k].ResetAttempts? {
      ls, q := [Run(k, Healthy)], r;
      ExecFirst(s, Run(k, Healthy));
    } else {
      var rest;
      rest, q := ResetNow(r, k, pid);
      ls := Prepend(s, Run(k, Healthy), r, rest);
    }
  }

  /** A handler whose budget is spent gives up, and marks the process failed. */
  lemma GivesUp(s: State, o: nat, pid: nat) returns (ls: seq<Label>, q: State)
    requires WellNamed(s) && ThreadsKnown(s) && o < |s.threads| && BeforeCheck(s.threads[o], pid) && pid < |s.slots|
    requires !NeverRestarts(ProcOf(s, pid).spec) && BudgetSpent(ProcOf(s, pid).spec, ProcOf(s, pid).attempts)
    ensures Automatic(ls) && Exec(s, ls) == Some(q) && Aside(s, q, o, pid) && ProcOf(q, pid).status.Failed?
  {
    var a, r := ReachCheck(s, o, pid);
    var r' := Next(r, Run(o, Go)).value;
    RunAside(r, o, Go, r', pid);
    assert r'.threads[o] == GiveUp(pid);
    var b;
    b, q := MonitorFails(r', o, pid);
    b := Prepend(r, Run(o, Go), r', b);
    ls := Append(s, a, r, b);
  }

  /** A watcher that may recover can be brought to find the process in another status than Running. */
  lemma StopsRunning(s: State, tid: nat, k: nat, pid: nat) returns (ls: seq<Label>, q: State)
    requires WellNamed(s) && ThreadsKnown(s) && tid < |s.threads| && BeforeCheck(s.threads[tid], pid) && pid < |s.slots|
    requires !NeverRestarts(ProcOf(s, pid).spec) && BudgetSpent(ProcOf(s, pid).spec, ProcOf(s, pid).attempts)
    requires MayRecover(s, pid, k)
    ensures Automatic(ls) && Exec(s, ls) == Some(q) && Ready(s, q, tid, pid)
    ensures k < |q.threads| && q.threads[k] == Watch(pid) && !ProcOf(q, pid).status.Running?
  {
    if !ProcOf(s, pid).status.Running? {
      ls, q := [], s;
    } else if s.slots[pid].children > 0 {
      var l := ChildExit(pid, false);
      ls, q := [l], Next(s, l).value;
      ExecFirst(s, l);
      NextKeepsWellNamed(s, l, q);
      StepKeepsKnown(s, l, q);
    } else if OtherMonitor(s, pid, k) {
      var j: nat :| j < |s.threads| && j != k && (s.threads[j] == Watch(pid) || Failing(s.threads[j], pid));
      ls, q := MonitorFails(s, j, pid);
    } else {
      var o: nat :| o < |s.threads| && o != tid && BeforeCheck(s.threads[o], pid);
      ls, q := GivesUp(s, o, pid);
    }
  }

  /** Where the counter may be reset it can be reset, beside a handler that is still before the check. */
  lemma Resets(s: State, tid: nat, pid: nat) returns (ls: seq<Label>, q: State)
    requires WellNamed(s) && ThreadsKnown(s) && tid < |s.threads| && BeforeCheck(s.threads[tid], pid) && pid < |s.slots|
    requires !NeverRestarts(ProcOf(s, pid).spec) && BudgetSpent(ProcOf(s, pid).spec, ProcOf(s, pid).attempts)
    requires MayReset(s, pid)
    ensures Automatic(ls) && Exec(s, ls) == Some(q) && Ready(s, q, tid, pid) && PassesBudget(q, pid) && !Stuck(q, pid)
  {
    var k: nat;
    if WillReset(s, pid) {
      k :| k < |s.threads| && Resetting(s.threads[k], pid);
      ls, q := ResetNow(s, k, pid);
    } else {
      k :| MayRecover(s, pid, k);
      var a, r := StopsRunning(s, tid, k, pid);
      var b;
      b, q := ResetNow(r, k, pid);
      ls := Append(s, a, r, b);
    }
    assert OtherMonitor(q, pid, -1);
  }

  // ---- Every threat is real ----

  lemma HandlerWillOverride(s: State, tid: nat, pid: nat) returns (ls: seq<Label>)
    requires WellNamed(s) && ThreadsKnown(s) && tid < |s.threads| && BeforeCheck(s.threads[tid], pid) && pid < |s.slots|
    requires PassesBudget(s, pid) && !Stuck(s, pid)
    ensures Revives(s, ls, pid)
  {
    var a, q := OpensGuard(s, tid, pid);
    var b := HandlerOverridesStop(q, tid, pid);
    ls := Append(s, a, q, b);
  }

  lemma StarterWillOverride(s: State, tid: nat, pid: nat) returns (ls: seq<Label>)
    requires WellNamed(s) && ThreadsKnown(s) && tid < |s.threads| && PastCheck(s.threads[tid], pid) && pid < |s.slots|
    requires !Stuck(s, pid)
    ensures Overrides(s, ls, pid)
  {
    if s.threads[tid].Spawn? {
      ls := LaunchingOverridesStop(s, tid, pid);
    } else {
      var a, q := OpensGuard(s, tid, pid);
      var b := LaunchingOverridesStop(q, tid, pid);
      ls := Append(s, a, q, b);
    }
  }

  lemma ThreatOverrides(s: State, pid: nat) returns (ls: seq<Label>)
    requires WellNamed(s) && ThreadsKnown(s) && pid < |s.slots| && Threatened(s, pid) && !Stuck(s, pid)
    ensures Overrides(s, ls, pid)
  {
    if Starting(s, pid) {
      var tid: nat :| tid < |s.threads| && PastCheck(s.threads[tid], pid);
      ls := StarterWillOverride(s, tid, pid);
    } else {
      var tid: nat :| tid < |s.threads| && BeforeCheck(s.threads[tid], pid);
      if PassesBudget(s, pid) {
        ls := HandlerWillOverride(s, tid, pid);
      } else {
        var a, q := Resets(s, tid, pid);
        var b := HandlerWillOverride(q, tid, pid);
        ls := Append(s, a, q, b);
      }
    }
  }

  /** No run without an explicit start of the name makes the process wanted or adds a child. */
  ghost predicate StaysStopped(s: State, pid: nat, name: string)
    requires pid < |s.slots|
  {
    forall ls :: Exec(s, ls).Some? && ApiStart(name) !in ls ==> DownAfter(s, ls, pid)
  }

  ghost predicate DownAfter(s: State, ls: seq<Label>, pid: nat)
    requires pid < |s.slots| && Exec(s, ls).Some?
  {
    var end := Exec(s, ls).value;
    pid < |end.slots| && ProcOf(end, pid).expected.DesiredStopped? && end.slots[pid].children <= s.slots[pid].children
  }

  /**
   * Stop, exactly: a stopped process stays stopped in every run, whatever happens to the rest, if and only if
   * no handler or start of it is under way that its policy lets pass, now or after a reset of its counter.
   * This is for any process that is not stuck as up without a child and without a monitor; StopHolds needs
   * no such condition.
   */
  lemma StopHoldsExactly(s: State, name: string, s': State)
    requires WellNamed(s) && ThreadsKnown(s) && Next(s, ApiStop(name)) == Some(s') && !Stuck(s, s.names[name])
    ensures s.names[name] < |s'.slots|
    ensures StaysStopped(s', s.names[name], name) <==> !Threatened(s, s.names[name])
  {
    var pid := s.names[name];
    StopKeepsThreats(s, name, s');
    if Threatened(s, pid) {
      NextKeepsWellNamed(s, ApiStop(name), s');
      StepKeepsKnown(s, ApiStop(name), s');
      assert !Stuck(s', pid);
      var ls := ThreatOverrides(s', pid);
      assert !DownAfter(s', ls, pid);
    } else {
      forall ls | Exec(s', ls).Some? && ApiStart(name) !in ls ensures DownAfter(s', ls, pid) {
        StopHolds(s, name, s', ls);
      }
    }
  }
}
