/**
 * The two models of handleFailure agree: a handler thread that runs without interruption, step by step, does
 * to every process what the method Supervisor.HandleFailure promises.
 */
module HandlerRuns {
  import opened Basics
  import opened Proto
  import opened Graphs
  import opened Traversal
  import opened Processes
  import opened Lifecycle
  import opened Backoff
  import opened Supervision

  ghost predicate OnlyThread(ls: seq<Label>, tid: nat) {
    forall l :: l in ls ==> l.Run? && l.tid == tid
  }

  lemma Then(s: State, tid: nat, c: Choice, q: State, ls: seq<Label>) returns (all: seq<Label>)
    requires Next(s, Run(tid, c)) == Some(q) && Exec(q, ls).Some? && OnlyThread(ls, tid)
    ensures OnlyThread(all, tid) && Exec(s, all) == Exec(q, ls) && all == [Run(tid, c)] + ls
  {
    all := [Run(tid, c)] + ls;
    ExecFirst(s, Run(tid, c));
    ExecConcat(s, [Run(tid, c)], ls);
  }

  /** s with one thread elsewhere and other slots. */
  ghost function At(s: State, tid: nat, t: Thread, slots: seq<Slot>): State
    requires tid < |s.threads|
  {
    s.(threads := s.threads[tid := t], slots := slots)
  }

  // ---- The cascade ----

  ghost function CascadeOne(slots: seq<Slot>, names: map<string, nat>, d: string): (r: seq<Slot>)
    ensures |r| == |slots|
  {
    if d in names && names[d] < |slots| then slots[names[d] := slots[names[d]].(proc := Cascaded(slots[names[d]].proc))]
    else slots
  }

  ghost function CascadeSlots(slots: seq<Slot>, names: map<string, nat>, ds: seq<string>): (r: seq<Slot>)
    ensures |r| == |slots|
    decreases |ds|
  {
    if ds == [] then slots else CascadeSlots(CascadeOne(slots, names, ds[0]), names, ds[1..])
  }

  ghost predicate NamedIn(names: map<string, nat>, ds: seq<string>, q: nat) {
    exists d :: d in ds && d in names && names[d] == q
  }

  lemma {:induction false} CascadeSlotsAt(slots: seq<Slot>, names: map<string, nat>, ds: seq<string>, q: nat)
    requires q < |slots|
    ensures CascadeSlots(slots, names, ds)[q] ==
      if NamedIn(names, ds, q) then slots[q].(proc := Cascaded(slots[q].proc)) else slots[q]
    decreases |ds|
  {
    if ds != [] {
      CascadeSlotsAt(CascadeOne(slots, names, ds[0]), names, ds[1..], q);
      assert ds == [ds[0]] + ds[1..];
      if ds[0] in names && names[ds[0]] == q { assert NamedIn(names, ds, q); }
      if NamedIn(names, ds[1..], q) { assert NamedIn(names, ds, q); }
    }
  }

  /** One turn of the loop. */
  lemma CascadeTurn(s: State, tid: nat, pid: nat, ds: seq<string>) returns (ls: seq<Label>)
    requires NamesLead(s) && tid < |s.threads| && s.threads[tid] == Cascade(pid, ds) && pid < |s.slots| && ds != []
    ensures OnlyThread(ls, tid)
    ensures Exec(s, ls) == Some(At(s, tid, Cascade(pid, ds[1..]), CascadeOne(s.slots, s.names, ds[0])))
  {
    var d, rest, go := ds[0], ds[1..], Run(tid, Go);
    var end := At(s, tid, Cascade(pid, rest), CascadeOne(s.slots, s.names, d));
    ExecFirst(s, go);
    if d !in s.names {
      ls := [go];
    } else {
      var dep := s.names[d];
      var s1 := At(s, tid, Inspect(pid, dep, rest), s.slots);
      assert Next(s, go) == Some(s1);
      ExecFirst(s1, go);
      if ProcOf(s, dep).status.Stopped? {
        assert end.slots == s.slots;
        assert s1.threads[tid := Cascade(pid, rest)] == end.threads;
        ls := Then(s, tid, Go, s1, [go]);
      } else {
        var s2 := At(s, tid, StopOne(pid, dep, rest), s.slots);
        assert s1.threads[tid := StopOne(pid, dep, rest)] == s2.threads;
        assert s2.threads[tid := Cascade(pid, rest)] == end.threads;
        ExecFirst(s2, go);
        ls := Then(s1, tid, Go, s2, [go]);
        ls := Then(s, tid, Go, s1, ls);
      }
    }
  }

  lemma {:induction false} CascadeAlone(s: State, tid: nat, pid: nat, ds: seq<string>) returns (ls: seq<Label>)
    requires NamesLead(s) && tid < |s.threads| && s.threads[tid] == Cascade(pid, ds) && pid < |s.slots|
    ensures OnlyThread(ls, tid)
    ensures Exec(s, ls) == Some(At(s, tid, CheckBudget(pid), CascadeSlots(s.slots, s.names, ds)))
    decreases |ds|
  {
    if ds == [] {
      ls := [Run(tid, Go)];
      ExecFirst(s, Run(tid, Go));
    } else {
      var a := CascadeTurn(s, tid, pid, ds);
      var q := At(s, tid, Cascade(pid, ds[1..]), CascadeOne(s.slots, s.names, ds[0]));
      var b := CascadeAlone(q, tid, pid, ds[1..]);
      ls := a + b;
      ExecConcat(s, a, b);
      assert q.threads[tid := CheckBudget(pid)] == s.threads[tid := CheckBudget(pid)];
    }
  }

  // ---- The decision ----

  /** Where the thread is when the handler is done or goes to sleep. */
  ghost function Resting(d: Decision, pid: nat): Thread {
    if d.Restart? then Sleep(pid) else Done
  }

  ghost function DecisionFor(p: Proc): (d: Decision)
    ensures IsDecision(p, d)
  {
    if p.WantsDown() then StayDown
    else if NeverRestarts(p.spec) then NoRestart
    else if BudgetSpent(p.spec, p.attempts) then Decision.GiveUp
    else Restart(if InRange(p.spec.restart.value, p.attempts)
                 then Some(RestartDelay(p.spec.restart.value, p.attempts)) else None)
  }

  lemma DecideAlone(s: State, tid: nat, pid: nat) returns (ls: seq<Label>)
    requires tid < |s.threads| && s.threads[tid] == CheckBudget(pid) && pid < |s.slots| && !ProcOf(s, pid).WantsDown()
    ensures OnlyThread(ls, tid)
    ensures var d := DecisionFor(ProcOf(s, pid));
      Exec(s, ls) == Some(At(s, tid, Resting(d, pid),
                             s.slots[pid := s.slots[pid].(proc := AfterDecision(ProcOf(s, pid), d))]))
  {
    var p, go, d := ProcOf(s, pid), Run(tid, Go), DecisionFor(ProcOf(s, pid));
    var end := At(s, tid, Resting(d, pid), s.slots[pid := s.slots[pid].(proc := AfterDecision(p, d))]);
    ExecFirst(s, go);
    if NeverRestarts(p.spec) {
      assert s.slots[pid := s.slots[pid]] == s.slots;
      ls := [go];
    } else {
      var t := if d.GiveUp? then Thread.GiveUp(pid) else Increment(pid);
      var q := At(s, tid, t, s.slots);
      assert Next(s, go) == Some(q);
      assert q.threads[tid := Resting(d, pid)] == end.threads;
      ExecFirst(q, go);
      ls := Then(s, tid, Go, q, [go]);
    }
  }

  // ---- The whole handler ----

  /** x is a dependent that the planned graph knows. */
  ghost predicate PlannedDependent(s: State, name: string, x: string) {
    name in s.indexed && x in s.indexed && x != name && Reaches(s.graph, name, x)
  }

  ghost function Listed(s: State, name: string): set<string> {
    set x | x in s.indexed && PlannedDependent(s, name, x)
  }

  /** From the listing to the policy's check: exactly the planned dependents that are registered are cascaded. */
  lemma ListAlone(s: State, tid: nat, pid: nat) returns (ls: seq<Label>, ds: seq<string>)
    requires NamesLead(s) && tid < |s.threads| && s.threads[tid] == ListDependents(pid) && pid < |s.slots|
    ensures Members(ds) == Listed(s, ProcOf(s, pid).spec.name) && OnlyThread(ls, tid)
    ensures Exec(s, ls) == Some(At(s, tid, CheckBudget(pid), CascadeSlots(s.slots, s.names, ds)))
  {
    var name := ProcOf(s, pid).spec.name;
    if name !in s.indexed {
      assert Listed(s, name) == {};
      ls, ds := [Run(tid, Go)], [];
      ExecFirst(s, Run(tid, Go));
    } else {
      ds := Enumerate(Listed(s, name));
      assert forall x :: x in ds <==> x in Members(ds);
      assert EnumeratesDependents(s, name, ds);
      var q := At(s, tid, Cascade(pid, ds), s.slots);
      assert Next(s, Run(tid, Deps(ds))) == Some(q);
      ls := CascadeAlone(q, tid, pid, ds);
      ls := Then(s, tid, Deps(ds), q, ls);
      assert q.threads[tid := CheckBudget(pid)] == s.threads[tid := CheckBudget(pid)];
    }
  }

  /** What the handler has done to every process, as HandleFailure promises it. */
  ghost predicate HandledAs(s: State, q: State, name: string, pid: nat, d: Decision) {
    && |q.slots| == |s.slots| && pid < |s.slots|
    && (if ProcOf(s, pid).WantsDown() then d == StayDown else IsDecision(ProcOf(s, pid), d))
    && ProcOf(q, pid) == AfterDecision(ProcOf(s, pid), d)
    && forall x :: x in s.names && x != name && s.names[x] < |s.slots| ==>
         ProcOf(q, s.names[x]) == if !d.StayDown? && PlannedDependent(s, name, x)
                                  then Cascaded(ProcOf(s, s.names[x])) else ProcOf(s, s.names[x])
  }

  lemma CascadeThenDecide(s: State, name: string, pid: nat, ds: seq<string>, slots: seq<Slot>, d: Decision)
    requires NamesLead(s) && name in s.names && s.names[name] == pid && Members(ds) == Listed(s, name)
    requires slots == CascadeSlots(s.slots, s.names, ds) && !ProcOf(s, pid).WantsDown() && IsDecision(ProcOf(s, pid), d)
    ensures slots[pid] == s.slots[pid]
    ensures var q := s.(slots := slots[pid := slots[pid].(proc := AfterDecision(slots[pid].proc, d))]);
      HandledAs(s, q, name, pid, d)
  {
    forall x | x in s.names && x != name ensures s.names[x] != pid && (NamedIn(s.names, ds, s.names[x]) <==> PlannedDependent(s, name, x)) {
      assert x in ds <==> x in Members(ds);
      if y :| y in ds && y in s.names && s.names[y] == s.names[x] { assert y == x; }
    }
    forall x | x in s.names { CascadeSlotsAt(s.slots, s.names, ds, s.names[x]); }
    forall y | y in ds && y in s.names ensures s.names[y] != pid {
      assert y in Members(ds);
      assert ProcOf(s, s.names[y]).spec.name == y != name;
    }
    CascadeSlotsAt(s.slots, s.names, ds, pid);
  }

  /**
   * A handler that is not interrupted: a thread that reports a failure of the name can run on its own to its
   * end or its sleep, and has then done to the processes exactly what HandleFailure promises.
   */
  lemma HandlerAlone(s: State, tid: nat, name: string) returns (ls: seq<Label>, q: State, d: Decision)
    requires WellNamed(s) && tid < |s.threads| && s.threads[tid] == Report(name)
    ensures OnlyThread(ls, tid) && Exec(s, ls) == Some(q)
    ensures if name !in s.names then d == Unregistered && q == At(s, tid, Done, s.slots)
            else q == At(s, tid, Resting(d, s.names[name]), q.slots) && HandledAs(s, q, name, s.names[name], d)
  {
    var go := Run(tid, Go);
    ExecFirst(s, go);
    if name !in s.names {
      return [go], At(s, tid, Done, s.slots), Unregistered;
    }
    var pid := s.names[name];
    var p, s1 := ProcOf(s, pid), At(s, tid, CheckExpected(pid), s.slots);
    assert Next(s, go) == Some(s1);
    ExecFirst(s1, go);
    if p.WantsDown() {
      ls := Then(s, tid, Go, s1, [go]);
      q, d := At(s, tid, Done, s.slots), StayDown;
      assert s1.threads[tid := Done] == q.threads;
    } else {
      ls, q, d := HandlerGoesOn(s1, tid, name, pid);
      ls := Then(s, tid, Go, s1, ls);
      assert s1.threads[tid := Resting(d, pid)] == s.threads[tid := Resting(d, pid)];
    }
  }

  lemma ListThenDecide(s: State, tid: nat, name: string, pid: nat) returns (ls: seq<Label>, q: State, d: Decision)
    requires NamesLead(s) && tid < |s.threads| && s.threads[tid] == ListDependents(pid)
    requires name in s.names && s.names[name] == pid && !ProcOf(s, pid).WantsDown()
    ensures OnlyThread(ls, tid) && Exec(s, ls) == Some(q)
    ensures q == At(s, tid, Resting(d, pid), q.slots) && HandledAs(s, q, name, pid, d)
  {
    var a, ds := ListAlone(s, tid, pid);
    var r := At(s, tid, CheckBudget(pid), CascadeSlots(s.slots, s.names, ds));
    d := DecisionFor(ProcOf(s, pid));
    CascadeThenDecide(s, name, pid, ds, r.slots, d);
    var b := DecideAlone(r, tid, pid);
    ExecConcat(s, a, b);
    ls, q := a + b, Exec(r, b).value;
    assert q.threads == s.threads[tid := Resting(d, pid)];
  }

  lemma HandlerGoesOn(s: State, tid: nat, name: string, pid: nat) returns (ls: seq<Label>, q: State, d: Decision)
    requires NamesLead(s) && tid < |s.threads| && s.threads[tid] == CheckExpected(pid)
    requires name in s.names && s.names[name] == pid && !ProcOf(s, pid).WantsDown()
    ensures OnlyThread(ls, tid) && Exec(s, ls) == Some(q)
    ensures q == At(s, tid, Resting(d, pid), q.slots) && HandledAs(s, q, name, pid, d)
  {
    var r := At(s, tid, ListDependents(pid), s.slots);
    assert Next(s, Run(tid, Go)) == Some(r);
    ls, q, d := ListThenDecide(r, tid, name, pid);
    ls := Then(s, tid, Go, r, ls);
    assert q.threads == s.threads[tid := Resting(d, pid)];
  }

  // ---- Starting a process ----

  /** How the launch ends, given the guard and whether the command can be spawned. */
  ghost function Launch(p: Proc, spawned: bool): AddOutcome {
    if (p.status.Stopped? || p.status.Failed?) && spawned then Added else StartFailed
  }

  /**
   * A start that is not interrupted does what StartProcess promises: it is watched, with one more live child,
   * exactly if it was launched, and over otherwise.
   */
  lemma StartAlone(s: State, tid: nat, pid: nat, spawned: bool) returns (ls: seq<Label>, q: State)
    requires tid < |s.threads| && s.threads[tid] == Begin(pid) && pid < |s.slots|
    ensures OnlyThread(ls, tid) && Exec(s, ls) == Some(q) && |q.slots| == |s.slots|
    ensures var r, launched := Launch(ProcOf(s, pid), spawned), Launch(ProcOf(s, pid), spawned).Added?;
      && q == At(s, tid, if launched then Watch(pid) else Done, s.slots[pid := q.slots[pid]])
      && Started(ProcOf(s, pid), ProcOf(q, pid), r)
      && q.slots[pid].children == s.slots[pid].children + (if launched then 1 else 0)
      && q.slots[pid].exits == s.slots[pid].exits
  {
    var p, choice := ProcOf(s, pid), if spawned then Go else SpawnFails;
    ExecFirst(s, Run(tid, Go));
    if !p.MayStart() {
      q := At(s, tid, Done, s.slots);
      assert s.slots[pid := s.slots[pid]] == s.slots;
      return [Run(tid, Go)], q;
    }
    var s1 := At(s, tid, Spawn(pid), s.slots[pid := s.slots[pid].(proc := p.WantRunning())]);
    assert Next(s, Run(tid, Go)) == Some(s1);
    ExecFirst(s1, Run(tid, choice));
    q := Next(s1, Run(tid, choice)).value;
    assert q.threads == s.threads[tid := if spawned then Watch(pid) else Done];
    assert q.slots == s.slots[pid := q.slots[pid]];
    ls := Then(s, tid, Go, s1, [Run(tid, choice)]);
  }

  // ---- The monitor between two failures ----

  /** A healthy check of a process that is not Running: it becomes Running and its counter starts afresh. */
  lemma HealthyAlone(s: State, tid: nat, pid: nat) returns (ls: seq<Label>, q: State)
    requires tid < |s.threads| && s.threads[tid] == Watch(pid) && pid < |s.slots|
    ensures OnlyThread(ls, tid) && Exec(s, ls) == Some(q) && ls != [] && ls[0] == Run(tid, Healthy)
    ensures ProcOf(s, pid).status.Running? ==> q == s
    ensures !ProcOf(s, pid).status.Running? ==>
      var healthy := ProcOf(s, pid).(status := Running, attempts := 0);
      q == s.(slots := s.slots[pid := s.slots[pid].(proc := healthy)])
  {
    var p, go := ProcOf(s, pid), Run(tid, Go);
    ExecFirst(s, Run(tid, Healthy));
    if p.status.Running? {
      assert s.threads[tid := Watch(pid)] == s.threads;
      return [Run(tid, Healthy)], s;
    }
    var s1 := At(s, tid, MarkRunning(pid), s.slots);
    var s2 := At(s, tid, ResetAttempts(pid), s.slots[pid := s.slots[pid].(proc := p.WithStatus(Running))]);
    q := s.(slots := s.slots[pid := s.slots[pid].(proc := p.(status := Running, attempts := 0))]);
    assert Next(s, Run(tid, Healthy)) == Some(s1);
    assert s1.threads[tid := ResetAttempts(pid)] == s2.threads && s2.threads[tid := Watch(pid)] == q.threads;
    assert s2.slots[pid := q.slots[pid]] == q.slots;
    ExecFirst(s1, go);
    ExecFirst(s2, go);
    ls := Then(s1, tid, Go, s2, [go]);
    ls := Then(s, tid, Healthy, s1, ls);
  }

  /** A health timeout marks the process Failed, and an exit takes its message; both then report the failure. */
  lemma FailingAlone(s: State, tid: nat, pid: nat, c: Choice) returns (ls: seq<Label>, q: State)
    requires tid < |s.threads| && s.threads[tid] == Watch(pid) && pid < |s.slots|
    requires c.TimedOut? || (c.Exit? && s.slots[pid].exits > 0)
    ensures OnlyThread(ls, tid) && Exec(s, ls) == Some(q)
    ensures var slot := s.slots[pid];
      q == At(s, tid, Report(slot.proc.spec.name), s.slots[pid :=
        if c.Exit? then slot.(exits := slot.exits - 1) else slot.(proc := slot.proc.(status := Failed))])
  {
    var p := ProcOf(s, pid);
    ExecFirst(s, Run(tid, c));
    if c.Exit? {
      return [Run(tid, c)], Next(s, Run(tid, c)).value;
    }
    var s1 := At(s, tid, MarkFailed(pid), s.slots);
    q := At(s, tid, Report(p.spec.name), s.slots[pid := s.slots[pid].(proc := p.WithStatus(Failed))]);
    assert Next(s, Run(tid, c)) == Some(s1);
    assert s1.threads[tid := Report(p.spec.name)] == q.threads;
    ExecFirst(s1, Run(tid, Go));
    ls := Then(s, tid, c, s1, [Run(tid, Go)]);
  }
}
