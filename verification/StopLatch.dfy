/** What a Stop guarantees over every interleaved run. */
module StopLatch {
  import opened Basics
  import opened Processes
  import opened Lifecycle

  // ---- Where a thread stands with respect to a process object ----

  /** Past handleFailure's expected-state check, with the restart policy's check still before it. */
  ghost predicate BeforeCheck(t: Thread, pid: nat) {
    (t.ListDependents? || t.Cascade? || t.Inspect? || t.StopOne? || t.CheckBudget?) && t.pid == pid
  }

  /** Past the policy's check, or starting. */
  ghost predicate PastCheck(t: Thread, pid: nat) {
    t == Increment(pid) || t == Sleep(pid) || t == Begin(pid) || t == Spawn(pid)
  }

  /** About to mark it running, and then to reset its counter. */
  ghost predicate Resetting(t: Thread, pid: nat) {
    t == MarkRunning(pid) || t == ResetAttempts(pid)
  }

  /** About to mark it failed. */
  ghost predicate Failing(t: Thread, pid: nat) {
    t == MarkFailed(pid) || t == GiveUp(pid)
  }

  ghost predicate Handled(s: State, pid: nat) {
    exists k :: 0 <= k < |s.threads| && BeforeCheck(s.threads[k], pid)
  }

  ghost predicate Starting(s: State, pid: nat) {
    exists k :: 0 <= k < |s.threads| && PastCheck(s.threads[k], pid)
  }

  ghost predicate HandledTwice(s: State, pid: nat) {
    exists i, j :: 0 <= i < |s.threads| && 0 <= j < |s.threads| && i != j
      && BeforeCheck(s.threads[i], pid) && BeforeCheck(s.threads[j], pid)
  }

  ghost predicate WillReset(s: State, pid: nat) {
    exists k :: 0 <= k < |s.threads| && Resetting(s.threads[k], pid)
  }

  /** Some thread but the k-th can mark it failed. */
  ghost predicate OtherMonitor(s: State, pid: nat, k: int) {
    exists j :: 0 <= j < |s.threads| && j != k && (s.threads[j] == Watch(pid) || Failing(s.threads[j], pid))
  }

  /** The k-th thread watches it, and may find it healthy in another status than Running. */
  ghost predicate MayRecover(s: State, pid: nat, k: int)
    requires pid < |s.slots|
  {
    && 0 <= k < |s.threads| && s.threads[k] == Watch(pid)
    && (!ProcOf(s, pid).status.Running? || s.slots[pid].children > 0 || OtherMonitor(s, pid, k) || HandledTwice(s, pid))
  }

  /** The counter may go back to zero. */
  ghost predicate MayReset(s: State, pid: nat)
    requires pid < |s.slots|
  {
    WillReset(s, pid) || exists k :: MayRecover(s, pid, k)
  }

  /**
   * Some thread can still start the process by itself: one that is past the policy's check, or one before
   * it that the policy will let through, now or after a reset of the counter.
   */
  ghost predicate Threatened(s: State, pid: nat)
    requires pid < |s.slots|
  {
    var p := ProcOf(s, pid);
    || Starting(s, pid)
    || (!NeverRestarts(p.spec) && Handled(s, pid) && (!BudgetSpent(p.spec, p.attempts) || MayReset(s, pid)))
  }

  ghost predicate Latched(s: State, pid: nat) {
    pid < |s.slots| && ProcOf(s, pid).expected.DesiredStopped? && !Threatened(s, pid)
  }

  // ---- No step makes a threat ----

  /** Where a handler of the process comes from, when the process is meant to be stopped. */
  lemma HandlerClasses(s: State, t: Thread, c: Choice, pid: nat)
    requires pid < |s.slots| && ProcOf(s, pid).expected.DesiredStopped? && !EffectOf(s, t, c).Disabled?
    ensures BeforeCheck(EffectOf(s, t, c).thread, pid) ==> BeforeCheck(t, pid)
  {
  }

  lemma StarterClasses(s: State, t: Thread, c: Choice, pid: nat)
    requires pid < |s.slots| && !PastCheck(t, pid) && !EffectOf(s, t, c).Disabled?
    ensures PastCheck(EffectOf(s, t, c).thread, pid) ==> t == CheckBudget(pid) && PassesBudget(s, pid)
  {
  }

  /** Where a monitor of the process comes from. */
  lemma WatcherClasses(s: State, t: Thread, c: Choice, pid: nat)
    requires pid < |s.slots| && !PastCheck(t, pid) && !EffectOf(s, t, c).Disabled?
    ensures var t' := EffectOf(s, t, c).thread;
      && (t' == Watch(pid) ==> t == Watch(pid) || t == ResetAttempts(pid))
      && (Resetting(t', pid) ==> t == MarkRunning(pid) || (t == Watch(pid) && !ProcOf(s, pid).status.Running?))
  {
  }

  lemma FailingClasses(s: State, t: Thread, c: Choice, pid: nat)
    requires pid < |s.slots| && !EffectOf(s, t, c).Disabled? && Failing(EffectOf(s, t, c).thread, pid)
    ensures t == Watch(pid) || t == CheckBudget(pid)
  {
  }

  /** What such a thread's step does to the process. */
  lemma EffectOnStopped(s: State, t: Thread, c: Choice, pid: nat)
    requires pid < |s.slots| && ProcOf(s, pid).expected.DesiredStopped? && !PastCheck(t, pid)
    ensures var e, p := EffectOf(s, t, c), ProcOf(s, pid);
      e.Write? && e.slot == pid ==>
        && e.content.proc.expected.DesiredStopped? && e.content.children == s.slots[pid].children
        && e.content.proc.spec == p.spec
        && (e.content.proc.attempts != p.attempts ==> t == ResetAttempts(pid))
        && (e.content.proc.status != p.status ==> Resetting(t, pid) || Failing(t, pid))
  {
  }

  /** The k-th thread of s', unless it is the one that moved, stands where it stood. */
  ghost predicate Moved(s: State, s': State, tid: nat) {
    && |s'.threads| == |s.threads| && tid < |s.threads|
    && forall k :: 0 <= k < |s.threads| && k != tid ==> s'.threads[k] == s.threads[k]
  }

  /** A step of a thread that is neither starting nor resetting it leaves the process up unless it is failing it. */
  lemma StatusIsOld(s: State, s': State, tid: nat, c: Choice, pid: nat)
    requires Latched(s, pid) && Next(s, Run(tid, c)) == Some(s') && Moved(s, s', tid) && pid < |s'.slots|
    requires !WillReset(s, pid)
    ensures s'.slots[pid].children == s.slots[pid].children
    ensures ProcOf(s', pid).status != ProcOf(s, pid).status ==> Failing(s.threads[tid], pid)
  {
    assert !PastCheck(s.threads[tid], pid) && !Resetting(s.threads[tid], pid);
    EffectOnStopped(s, s.threads[tid], c, pid);
  }

  /** Another monitor was one before, or was a second handler. */
  lemma OtherMonitorIsOld(s: State, s': State, tid: nat, c: Choice, pid: nat, h: nat, k: int)
    requires Latched(s, pid) && Next(s, Run(tid, c)) == Some(s') && Moved(s, s', tid) && !WillReset(s, pid)
    requires h < |s'.threads| && BeforeCheck(s'.threads[h], pid) && BeforeCheck(s.threads[h], pid)
    requires OtherMonitor(s', pid, k)
    ensures OtherMonitor(s, pid, k) || HandledTwice(s, pid)
  {
    var j :| 0 <= j < |s'.threads| && j != k && (s'.threads[j] == Watch(pid) || Failing(s'.threads[j], pid));
    var t := s.threads[tid];
    if j == tid {
      assert !PastCheck(t, pid) && !Resetting(t, pid);
      WatcherClasses(s, t, c, pid);
      if Failing(s'.threads[j], pid) { FailingClasses(s, t, c, pid); }
      assert t == CheckBudget(pid) ==> BeforeCheck(s.threads[tid], pid) && h != tid;
    }
  }

  /** A watcher that may recover after a step could do so before. */
  lemma RecoveryIsOld(s: State, s': State, tid: nat, c: Choice, pid: nat, h: nat, k: int)
    requires Latched(s, pid) && Next(s, Run(tid, c)) == Some(s') && Moved(s, s', tid) && pid < |s'.slots|
    requires h < |s'.threads| && BeforeCheck(s'.threads[h], pid) && BeforeCheck(s.threads[h], pid)
    requires HandledTwice(s', pid) ==> HandledTwice(s, pid)
    requires MayRecover(s', pid, k) && s.threads[k] == Watch(pid) && !WillReset(s, pid)
    ensures MayRecover(s, pid, k)
  {
    StatusIsOld(s, s', tid, c, pid);
    if OtherMonitor(s', pid, k) { OtherMonitorIsOld(s, s', tid, c, pid, h, k); }
  }

  lemma HandlersAreOld(s: State, s': State, tid: nat, c: Choice, pid: nat)
    requires Latched(s, pid) && Next(s, Run(tid, c)) == Some(s') && Moved(s, s', tid)
    ensures forall k :: 0 <= k < |s'.threads| && BeforeCheck(s'.threads[k], pid) ==> BeforeCheck(s.threads[k], pid)
    ensures HandledTwice(s', pid) ==> HandledTwice(s, pid)
  {
    HandlerClasses(s, s.threads[tid], c, pid);
  }

  lemma RunKeepsUnreset(s: State, s': State, tid: nat, c: Choice, pid: nat, h: nat)
    requires Latched(s, pid) && Next(s, Run(tid, c)) == Some(s') && Moved(s, s', tid) && pid < |s'.slots|
    requires h < |s'.threads| && BeforeCheck(s'.threads[h], pid) && BeforeCheck(s.threads[h], pid)
    requires HandledTwice(s', pid) ==> HandledTwice(s, pid)
    requires !MayReset(s, pid)
    ensures !MayReset(s', pid)
  {
    var t := s.threads[tid];
    assert !PastCheck(t, pid) && !Resetting(t, pid) && !MayRecover(s, pid, tid);
    WatcherClasses(s, t, c, pid);
    forall k | MayRecover(s', pid, k) ensures MayRecover(s, pid, k) {
      RecoveryIsOld(s, s', tid, c, pid, h, k);
    }
  }

  lemma RunKeepsLatch(s: State, tid: nat, c: Choice, s': State, pid: nat)
    requires Latched(s, pid) && Next(s, Run(tid, c)) == Some(s')
    ensures Latched(s', pid) && s'.slots[pid].children <= s.slots[pid].children
  {
    AdvanceKeepsSpecs(s, tid, c, s');
    var t := s.threads[tid];
    assert !PastCheck(t, pid);
    StarterClasses(s, t, c, pid);
    EffectOnStopped(s, t, c, pid);
    assert t == CheckBudget(pid) ==> Handled(s, pid);
    HandlersAreOld(s, s', tid, c, pid);
    if k :| 0 <= k < |s'.threads| && BeforeCheck(s'.threads[k], pid) {
      assert BeforeCheck(s.threads[k], pid) && Handled(s, pid);
      if !NeverRestarts(ProcOf(s, pid).spec) {
        assert !MayReset(s, pid) && t != ResetAttempts(pid);
        RunKeepsUnreset(s, s', tid, c, pid, k);
      }
    }
  }

  /** Threads beyond those of s concern other process objects. */
  lemma NewThreadsElsewhere(s: State, l: Label, s': State, pid: nat)
    requires WellNamed(s) && pid < |s.slots| && Next(s, l) == Some(s') && !l.Run?
    requires l != ApiStart(ProcOf(s, pid).spec.name)
    ensures |s.threads| <= |s'.threads| && s'.threads[..|s.threads|] == s.threads
    ensures forall k :: |s.threads| <= k < |s'.threads| ==> s'.threads[k].Begin? && s'.threads[k].pid != pid
  {
    NextThreads(s, l, s');
  }

  lemma SameThreats(s: State, s': State, pid: nat)
    requires pid < |s.slots| && pid < |s'.slots| && |s.threads| <= |s'.threads| && s'.threads[..|s.threads|] == s.threads
    requires forall k :: |s.threads| <= k < |s'.threads| ==> s'.threads[k].Begin? && s'.threads[k].pid != pid
    ensures forall k :: 0 <= k < |s.threads| ==> s'.threads[k] == s.threads[k]
    ensures Starting(s', pid) ==> Starting(s, pid)
    ensures Handled(s', pid) ==> Handled(s, pid)
    ensures HandledTwice(s', pid) ==> HandledTwice(s, pid)
    ensures WillReset(s', pid) ==> WillReset(s, pid)
    ensures forall k :: OtherMonitor(s', pid, k) ==> OtherMonitor(s, pid, k)
  {
    assert forall k :: 0 <= k < |s.threads| ==> s'.threads[k] == s'.threads[..|s.threads|][k];
  }

  /** What the labels that move no thread do to the process. */
  lemma SlotOtherwise(s: State, l: Label, s': State, pid: nat)
    requires pid < |s.slots| && ProcOf(s, pid).expected.DesiredStopped? && Next(s, l) == Some(s') && !l.Run?
    ensures pid < |s'.slots| && ProcOf(s', pid).spec == ProcOf(s, pid).spec
    ensures ProcOf(s', pid).expected.DesiredStopped? && ProcOf(s', pid).attempts == ProcOf(s, pid).attempts
    ensures s'.slots[pid].children <= s.slots[pid].children
    ensures ProcOf(s', pid).status != ProcOf(s, pid).status ==> s.slots[pid].children > 0
  {
  }

  /** The other labels move no thread; they add at most a start of another process object. */
  lemma OtherKeepsLatch(s: State, l: Label, s': State, pid: nat)
    requires WellNamed(s) && Latched(s, pid) && Next(s, l) == Some(s') && !l.Run?
    requires l != ApiStart(ProcOf(s, pid).spec.name)
    ensures Latched(s', pid) && s'.slots[pid].children <= s.slots[pid].children
  {
    NewThreadsElsewhere(s, l, s', pid);
    SlotOtherwise(s, l, s', pid);
    SameThreats(s, s', pid);
    forall k | MayRecover(s', pid, k) ensures MayRecover(s, pid, k) {}
  }

  lemma NextKeepsLatch(s: State, l: Label, s': State, pid: nat)
    requires WellNamed(s) && Latched(s, pid) && Next(s, l) == Some(s')
    requires l != ApiStart(ProcOf(s, pid).spec.name)
    ensures Latched(s', pid) && s'.slots[pid].children <= s.slots[pid].children
  {
    if l.Run? { RunKeepsLatch(s, l.tid, l.choice, s', pid); } else { OtherKeepsLatch(s, l, s', pid); }
  }

  lemma {:induction false} LatchedStays(s: State, ls: seq<Label>, pid: nat)
    requires WellNamed(s) && Latched(s, pid) && Exec(s, ls).Some?
    requires forall i :: 0 <= i < |ls| ==> ls[i] != ApiStart(ProcOf(s, pid).spec.name)
    ensures var s' := Exec(s, ls).value;
      Latched(s', pid) && s'.slots[pid].children <= s.slots[pid].children
      && ProcOf(s', pid).spec == ProcOf(s, pid).spec
    decreases |ls|
  {
    if ls != [] {
      var init, l := ls[..|ls| - 1], ls[|ls| - 1];
      LatchedStays(s, init, pid);
      ExecKeepsWellNamed(s, init);
      NextKeepsSpecs(Exec(s, init).value, l, Exec(s, ls).value);
      NextKeepsLatch(Exec(s, init).value, l, Exec(s, ls).value, pid);
    }
  }

  lemma StopKeepsThreats(s: State, name: string, s': State)
    requires WellNamed(s) && Next(s, ApiStop(name)) == Some(s')
    ensures var pid := s.names[name];
      pid < |s'.slots| && s'.threads == s.threads && s'.slots[pid].children == s.slots[pid].children
      && ProcOf(s', pid) == ProcOf(s, pid).WantStopped() && (Threatened(s', pid) <==> Threatened(s, pid))
  {
    var pid := s.names[name];
    forall k ensures MayRecover(s', pid, k) <==> MayRecover(s, pid, k) {}
  }

  /**
   * Stop latch: after Stop (or Disable), unless some handler or start of the process that is under way can
   * still start it, no sequence of child exits, health checks, failure handling, removals or
   * registrations starts it again or makes it expected to run, unless its name is started explicitly.
   */
  lemma StopHolds(s: State, name: string, s': State, ls: seq<Label>)
    requires WellNamed(s) && Next(s, ApiStop(name)) == Some(s') && !Threatened(s, s.names[name])
    requires Exec(s', ls).Some? && forall i :: 0 <= i < |ls| ==> ls[i] != ApiStart(name)
    ensures var pid, end := s.names[name], Exec(s', ls).value;
      pid < |end.slots| && ProcOf(end, pid).expected.DesiredStopped?
      && end.slots[pid].children <= s.slots[pid].children
  {
    StopKeepsThreats(s, name, s');
    NextKeepsWellNamed(s, ApiStop(name), s');
    LatchedStays(s', ls, s.names[name]);
  }

  /**
   * Who changes a process's expected state: only a Start past its guard sets it to running, only an
   * explicit stop or removal of its name, or a cascade that looked it up, sets it to stopped; and only a
   * launched command adds a child.
   */
  lemma ExpectedStateFrame(s: State, l: Label, s': State, q: nat)
    requires Next(s, l) == Some(s') && q < |s.slots|
    ensures q < |s'.slots|
    ensures ProcOf(s', q).expected != ProcOf(s, q).expected ==>
      if ProcOf(s', q).expected.DesiredRunning? then l.Run? && l.tid < |s.threads| && s.threads[l.tid] == Begin(q)
      else
        || ((l.ApiStop? || l.Unregister?) && l.name in s.names && s.names[l.name] == q)
        || (l.Run? && l.tid < |s.threads| && s.threads[l.tid].StopOne? && s.threads[l.tid].dep == q)
    ensures s'.slots[q].children > s.slots[q].children ==>
      l.Run? && l.tid < |s.threads| && s.threads[l.tid] == Spawn(q)
  {
    NextKeepsSpecs(s, l, s');
    if l.Run? { EffectFrame(s, s.threads[l.tid], l.choice, q); }
  }

  lemma EffectFrame(s: State, t: Thread, c: Choice, q: nat)
    requires q < |s.slots|
    ensures var e := EffectOf(s, t, c);
      e.Write? && e.slot == q ==>
        && (e.content.proc.expected != ProcOf(s, q).expected ==>
              if e.content.proc.expected.DesiredRunning? then t == Begin(q) else t.StopOne? && t.dep == q)
        && (e.content.children > s.slots[q].children ==> t == Spawn(q))
  {
  }
}
