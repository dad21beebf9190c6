/** One start followed step by step: launched, gone again, cleanly or not, reported, through every check, counted. */
module FailureRuns {
  import opened Basics
  import opened Proto
  import opened Processes
  import opened Lifecycle

  /** Labels that neither register nor start anything. */
  ghost predicate NoStarts(ls: seq<Label>) {
    forall l :: l in ls ==> !l.Register? && !l.RegisterNext? && !l.ApiStart?
  }

  /** No child fails, and no health check times out. */
  ghost predicate OnlyCleanExits(ls: seq<Label>) {
    forall l :: l in ls ==> (l.ChildExit? ==> l.clean) && (l.Run? ==> !l.choice.TimedOut?)
  }

  /** A process that is down, registered, alone in the planned graph, and may still be restarted. */
  ghost predicate Restartable(s: State, pid: nat) {
    && pid < |s.slots|
    && var p := ProcOf(s, pid);
      && p.MayStart() && !NeverRestarts(p.spec) && !BudgetSpent(p.spec, p.attempts)
      && p.spec.name in s.names && s.names[p.spec.name] == pid
      && p.spec.name in s.indexed && EnumeratesDependents(s, p.spec.name, [])
  }

  /** A state like s, but with another slot for pid and its last thread somewhere else. */
  ghost function Put(s: State, pid: nat, slot: Slot, t: Thread): State
    requires pid < |s.slots| && s.threads != []
  {
    s.(slots := s.slots[pid := slot], threads := s.threads[|s.threads| - 1 := t])
  }

  function Ended(clean: bool): Status {
    if clean then Stopped else Failed
  }

  ghost function Down(s: State, pid: nat, clean: bool): Slot
    requires pid < |s.slots|
  {
    s.slots[pid].(proc := ProcOf(s, pid).WantRunning().WithStatus(Ended(clean)))
  }

  /** The last thread's step, on the slot it writes. */
  lemma Move(s: State, pid: nat, slot: Slot, t: Thread, c: Choice, slot': Slot, t': Thread)
    requires pid < |s.slots| && s.threads != []
    requires EffectOf(Put(s, pid, slot, t), t, c) == Write(t', pid, slot')
          || (slot == slot' && EffectOf(Put(s, pid, slot, t), t, c) == To(t'))
    ensures Next(Put(s, pid, slot, t), Run(|s.threads| - 1, c)) == Some(Put(s, pid, slot', t'))
  {
    var tid := |s.threads| - 1;
    assert s.threads[tid := t][tid := t'] == s.threads[tid := t'];
    assert s.slots[pid := slot][pid := slot'] == s.slots[pid := slot'];
  }

  ghost function Launch(tid: nat): seq<Label> {
    [Run(tid, Go)] + [Run(tid, Go)]
  }

  ghost function Die(pid: nat, tid: nat, clean: bool): seq<Label> {
    [ChildExit(pid, clean)] + [Run(tid, Exit)]
  }

  ghost function Handle(tid: nat): seq<Label> {
    [Run(tid, Go)] + [Run(tid, Go)] + [Run(tid, Deps([]))] + [Run(tid, Go)] + [Run(tid, Go)]
  }

  ghost function Up(s: State, pid: nat): Slot
    requires pid < |s.slots|
  {
    Slot(ProcOf(s, pid).WantRunning().WithStatus(Starting), s.slots[pid].children + 1, s.slots[pid].exits)
  }

  ghost function Wanted(s: State, pid: nat): Slot
    requires pid < |s.slots|
  {
    s.slots[pid].(proc := ProcOf(s, pid).WantRunning())
  }

  lemma Begins(s: State, pid: nat)
    requires Restartable(s, pid) && s.threads != [] && s.threads[|s.threads| - 1] == Begin(pid)
    ensures Next(s, Run(|s.threads| - 1, Go)) == Some(Put(s, pid, Wanted(s, pid), Spawn(pid)))
  {
  }

  lemma Launches(s: State, pid: nat)
    requires Restartable(s, pid) && s.threads != [] && s.threads[|s.threads| - 1] == Begin(pid)
    ensures Exec(s, Launch(|s.threads| - 1)) == Some(Put(s, pid, Up(s, pid), Watch(pid)))
  {
    var go := Run(|s.threads| - 1, Go);
    Begins(s, pid);
    ExecFirst(s, go);
    ExecOne(s, [go], go);
    Spawns(s, pid);
  }

  lemma Spawns(s: State, pid: nat)
    requires pid < |s.slots| && s.threads != []
    ensures Next(Put(s, pid, Wanted(s, pid), Spawn(pid)), Run(|s.threads| - 1, Go)) == Some(Put(s, pid, Up(s, pid), Watch(pid)))
  {
    Move(s, pid, Wanted(s, pid), Spawn(pid), Go, Up(s, pid), Watch(pid));
  }

  lemma Dies(s: State, pid: nat, clean: bool)
    requires pid < |s.slots| && s.threads != []
    ensures Exec(Put(s, pid, Up(s, pid), Watch(pid)), Die(pid, |s.threads| - 1, clean))
         == Some(Put(s, pid, Down(s, pid, clean), Report(ProcOf(s, pid).spec.name)))
  {
    var tid, up, slot := |s.threads| - 1, Up(s, pid), s.slots[pid];
    var dead := Slot(up.proc.WithStatus(Ended(clean)), slot.children, slot.exits + 1);
    var s2 := Put(s, pid, up, Watch(pid));
    assert s.slots[pid := up][pid := dead] == s.slots[pid := dead];
    assert Next(s2, ChildExit(pid, clean)) == Some(Put(s, pid, dead, Watch(pid)));
    Move(s, pid, dead, Watch(pid), Exit, Down(s, pid, clean), Report(slot.proc.spec.name));
    ExecFirst(s2, ChildExit(pid, clean));
    ExecOne(s2, [ChildExit(pid, clean)], Run(tid, Exit));
  }

  lemma LaunchEnds(s: State, pid: nat, clean: bool)
    requires Restartable(s, pid) && s.threads != [] && s.threads[|s.threads| - 1] == Begin(pid)
    ensures Exec(s, Launch(|s.threads| - 1) + Die(pid, |s.threads| - 1, clean))
         == Some(Put(s, pid, Down(s, pid, clean), Report(ProcOf(s, pid).spec.name)))
  {
    var tid := |s.threads| - 1;
    Launches(s, pid);
    Dies(s, pid, clean);
    ExecConcat(s, Launch(tid), Die(pid, tid, clean));
  }

  lemma HandlerPasses(s: State, pid: nat, clean: bool)
    requires Restartable(s, pid) && s.threads != []
    ensures var down := Down(s, pid, clean);
      Exec(Put(s, pid, down, Report(ProcOf(s, pid).spec.name)), Handle(|s.threads| - 1)) == Some(Put(s, pid, down, Increment(pid)))
  {
    var tid, name, down := |s.threads| - 1, ProcOf(s, pid).spec.name, Down(s, pid, clean);
    var s4, s5 := Put(s, pid, down, Report(name)), Put(s, pid, down, CheckExpected(pid));
    var s6, s7 := Put(s, pid, down, ListDependents(pid)), Put(s, pid, down, Cascade(pid, []));
    var s8 := Put(s, pid, down, CheckBudget(pid));
    assert EnumeratesDependents(s6, name, []);
    Move(s, pid, down, Report(name), Go, down, CheckExpected(pid));
    Move(s, pid, down, CheckExpected(pid), Go, down, ListDependents(pid));
    Move(s, pid, down, ListDependents(pid), Deps([]), down, Cascade(pid, []));
    Move(s, pid, down, Cascade(pid, []), Go, down, CheckBudget(pid));
    Move(s, pid, down, CheckBudget(pid), Go, down, Increment(pid));
    ExecFirst(s4, Run(tid, Go));
    ExecOne(s4, [Run(tid, Go)], Run(tid, Go));
    ExecOne(s4, [Run(tid, Go)] + [Run(tid, Go)], Run(tid, Deps([])));
    ExecOne(s4, [Run(tid, Go)] + [Run(tid, Go)] + [Run(tid, Deps([]))], Run(tid, Go));
    ExecOne(s4, [Run(tid, Go)] + [Run(tid, Go)] + [Run(tid, Deps([]))] + [Run(tid, Go)], Run(tid, Go));
  }

  /** Start, launch, exit, be reported, pass every check: the last thread ends up about to count. */
  lemma OneFailure(s: State, pid: nat, clean: bool) returns (ls: seq<Label>)
    requires Restartable(s, pid) && s.threads != [] && s.threads[|s.threads| - 1] == Begin(pid)
    ensures NoStarts(ls) && (clean ==> OnlyCleanExits(ls))
    ensures Exec(s, ls) == Some(Put(s, pid, Down(s, pid, clean), Increment(pid)))
  {
    var tid := |s.threads| - 1;
    LaunchEnds(s, pid, clean);
    HandlerPasses(s, pid, clean);
    ls := Launch(tid) + Die(pid, tid, clean) + Handle(tid);
    ExecConcat(s, Launch(tid) + Die(pid, tid, clean), Handle(tid));
  }

  ghost function Recounted(s: State, pid: nat, clean: bool): Slot
    requires pid < |s.slots|
  {
    var down := Down(s, pid, clean);
    down.(proc := down.proc.(attempts := down.proc.attempts + 1))
  }

  lemma CountsAndSleeps(s: State, pid: nat, clean: bool)
    requires pid < |s.slots| && s.threads != []
    ensures Exec(Put(s, pid, Down(s, pid, clean), Increment(pid)), [Run(|s.threads| - 1, Go)] + [Run(|s.threads| - 1, Go)])
         == Some(Put(s, pid, Recounted(s, pid, clean), Begin(pid)))
  {
    var go, down, again := Run(|s.threads| - 1, Go), Down(s, pid, clean), Recounted(s, pid, clean);
    Move(s, pid, down, Increment(pid), Go, again, Sleep(pid));
    Move(s, pid, again, Sleep(pid), Go, again, Begin(pid));
    ExecFirst(Put(s, pid, down, Increment(pid)), go);
    ExecOne(Put(s, pid, down, Increment(pid)), [go], go);
  }

  /** One exit, counted and slept through: the last thread is about to start the process again. */
  lemma OneRestart(s: State, pid: nat, clean: bool) returns (ls: seq<Label>)
    requires Restartable(s, pid) && s.threads != [] && s.threads[|s.threads| - 1] == Begin(pid)
    ensures NoStarts(ls) && Exec(s, ls) == Some(Put(s, pid, Recounted(s, pid, clean), Begin(pid)))
  {
    var go := Run(|s.threads| - 1, Go);
    var fail := OneFailure(s, pid, clean);
    CountsAndSleeps(s, pid, clean);
    ls := fail + ([go] + [go]);
    ExecConcat(s, fail, [go] + [go]);
  }
}
