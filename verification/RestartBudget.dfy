/** How often a process is restarted automatically, over every interleaved run. */
module RestartBudgets {
  import opened Basics
  import opened Proto
  import opened Processes
  import opened Lifecycle

  /** How many threads are about to take the same step. */
  ghost function Tally(s: State, t: Thread): nat {
    multiset(s.threads)[t]
  }

  ghost predicate Performs(s: State, l: Label, t: Thread) {
    l.Run? && l.tid < |s.threads| && s.threads[l.tid] == t
  }

  /** How many steps of a run were taken by a thread in state t. */
  ghost function Count(s: State, ls: seq<Label>, t: Thread): nat {
    if ls == [] then 0
    else
      var init, l := ls[..|ls| - 1], ls[|ls| - 1];
      var q := Exec(s, init);
      Count(s, init, t) + One(q.Some? && Performs(q.value, l, t))
  }

  /** The counter of a process object; none is counted before it is registered. */
  ghost function Attempts(s: State, pid: nat): nat {
    if pid < |s.slots| then ProcOf(s, pid).attempts else 0
  }

  /** Nothing has been counted for this process object yet: it is freshly registered, or yet to be. */
  ghost predicate Newborn(s: State, pid: nat) {
    && Attempts(s, pid) == 0
    && Tally(s, Increment(pid)) == 0 && Tally(s, Sleep(pid)) == 0 && Tally(s, ResetAttempts(pid)) == 0
  }

  /** In every run of the daemon, a process object is newborn when it is registered. */
  lemma RegisteredIsNewborn(ls: seq<Label>, s: State, l: Label, spec: TunnelSpec, s': State)
    requires Exec(BOOT, ls) == Some(s) && Registers(s, l, spec) && Next(s, l) == Some(s')
    ensures Newborn(s', |s.slots|) && ProcOf(s', |s.slots|).spec == spec
  {
    BootedWell(ls, s);
    var pid := |s.slots|;
    forall t | t == Increment(pid) || t == Sleep(pid) || t == ResetAttempts(pid) ensures Tally(s', t) == 0 {
      assert t !in s'.threads;
    }
  }

  // ---- Where each thread state comes from ----

  lemma ToIncrement(s: State, t: Thread, c: Choice, pid: nat)
    requires !EffectOf(s, t, c).Disabled?
    ensures EffectOf(s, t, c).thread == Increment(pid) <==> t == CheckBudget(pid) && PassesBudget(s, pid)
  {
  }

  lemma ToSleepOrReset(s: State, t: Thread, c: Choice, pid: nat)
    requires !EffectOf(s, t, c).Disabled?
    ensures EffectOf(s, t, c).thread == Sleep(pid) <==> t == Increment(pid)
    ensures EffectOf(s, t, c).thread == ResetAttempts(pid) <==> t == MarkRunning(pid)
  {
  }

  lemma EffectAttempts(s: State, t: Thread, c: Choice, pid: nat)
    requires !EffectOf(s, t, c).Disabled? && pid < |s.slots|
    ensures var e, a := EffectOf(s, t, c), ProcOf(s, pid).attempts;
      && (t == Increment(pid) || t == ResetAttempts(pid) ==> e.Write? && e.slot == pid)
      && (e.Write? && e.slot == pid ==>
            e.content.proc.attempts == (if t == Increment(pid) then a + 1 else if t == ResetAttempts(pid) then 0 else a))
  {
  }

  lemma StepAttempts(s: State, l: Label, s': State, pid: nat)
    requires Next(s, l) == Some(s')
    ensures pid < |s.slots| ==> pid < |s'.slots| && ProcOf(s', pid).spec == ProcOf(s, pid).spec
    ensures Attempts(s', pid) ==
      if Performs(s, l, Increment(pid)) then Attempts(s, pid) + 1
      else if Performs(s, l, ResetAttempts(pid)) then 0 else Attempts(s, pid)
  {
    NextKeepsSpecs(s, l, s');
    if l.Run? && pid < |s.slots| { EffectAttempts(s, s.threads[l.tid], l.choice, pid); }
  }

  function One(b: bool): nat {
    if b then 1 else 0
  }

  lemma MoveTally(threads: seq<Thread>, tid: nat, t': Thread, x: Thread)
    requires tid < |threads|
    ensures multiset(threads[tid := t'])[x] + One(threads[tid] == x) == multiset(threads)[x] + One(t' == x)
  {
    assert multiset(threads[tid := t']) == multiset(threads) - multiset{threads[tid]} + multiset{t'};
    assert threads[tid] in threads;
  }

  /** A step moves one thread from its state to the next one; other labels add at most a Begin. */
  lemma StepMoves(s: State, l: Label, s': State, x: Thread, t': Thread)
    requires Next(s, l) == Some(s') && !x.Begin?
    requires l.Run? && l.tid < |s.threads| ==> t' == EffectOf(s, s.threads[l.tid], l.choice).thread
    ensures Tally(s', x) + One(Performs(s, l, x)) == Tally(s, x) + One(l.Run? && t' == x)
  {
    NextThreads(s, l, s');
    if l.Run? {
      MoveTally(s.threads, l.tid, t', x);
    } else if s'.threads != s.threads {
      var last := s'.threads[|s.threads|];
      assert last.Begin? && multiset(s'.threads) == multiset(s.threads) + multiset{last};
    }
  }

  /** One step's effect on the number of threads in the states that matter. */
  lemma StepTallies(s: State, l: Label, s': State, pid: nat)
    requires Next(s, l) == Some(s')
    ensures Tally(s', Sleep(pid)) + One(Performs(s, l, Sleep(pid)))
         == Tally(s, Sleep(pid)) + One(Performs(s, l, Increment(pid)))
    ensures Tally(s', ResetAttempts(pid)) + One(Performs(s, l, ResetAttempts(pid)))
         == Tally(s, ResetAttempts(pid)) + One(Performs(s, l, MarkRunning(pid)))
    ensures Tally(s', Increment(pid)) + One(Performs(s, l, Increment(pid)))
         == Tally(s, Increment(pid)) + One(Checked(s, l, pid))
  {
    NextThreads(s, l, s');
    var t' := if l.Run? then s'.threads[l.tid] else Done;
    StepMoves(s, l, s', Sleep(pid), t');
    StepMoves(s, l, s', ResetAttempts(pid), t');
    StepMoves(s, l, s', Increment(pid), t');
    if l.Run? {
      ToIncrement(s, s.threads[l.tid], l.choice, pid);
      ToSleepOrReset(s, s.threads[l.tid], l.choice, pid);
    }
  }

  /** A budget check of this process that let a restart through. */
  ghost predicate Checked(s: State, l: Label, pid: nat) {
    Performs(s, l, CheckBudget(pid)) && PassesBudget(s, pid)
  }

  // ---- Conservation over runs ----

  /** Every restart was counted, and every reset follows a transition to healthy. */
  lemma {:induction false} Conservation(s: State, ls: seq<Label>, end: State, pid: nat)
    requires Newborn(s, pid) && Exec(s, ls) == Some(end)
    ensures Count(s, ls, Sleep(pid)) + Tally(end, Sleep(pid)) == Count(s, ls, Increment(pid))
    ensures Count(s, ls, ResetAttempts(pid)) + Tally(end, ResetAttempts(pid)) == Count(s, ls, MarkRunning(pid))
    decreases |ls|
  {
    if ls != [] {
      var init, l := ls[..|ls| - 1], ls[|ls| - 1];
      var q := Exec(s, init).value;
      Conservation(s, init, q, pid);
      StepTallies(q, l, end, pid);
    }
  }

  ghost function WindowAt(s: Option<State>, pid: nat): nat {
    if s.None? then 0 else Tally(s.value, Increment(pid))
  }

  /** At no moment of the run are more than k handlers of this process between their budget check and their count. */
  ghost predicate AtMost(s: State, ls: seq<Label>, pid: nat, k: nat) {
    WindowAt(Exec(s, ls), pid) <= k && (ls != [] ==> AtMost(s, ls[..|ls| - 1], pid, k))
  }

  /** Once it is registered, the process has max_attempts m > 0, and m - 1 + k is an int32. */
  ghost predicate Limited(s: State, pid: nat, k: nat, bound: nat) {
    pid < |s.slots| ==>
      var spec := ProcOf(s, pid).spec;
      && spec.restart.Some? && spec.restart.value.maxAttempts > 0
      && bound == spec.restart.value.maxAttempts - 1 + k < TWO_31
  }

  lemma {:induction false} AttemptsBounded(s: State, ls: seq<Label>, end: State, pid: nat, k: nat, bound: nat)
    requires Newborn(s, pid) && Exec(s, ls) == Some(end) && AtMost(s, ls, pid, k)
    requires Limited(end, pid, k, bound)
    ensures Attempts(end, pid) + Tally(end, Increment(pid)) <= bound
    decreases |ls|
  {
    if ls != [] {
      var init, l := ls[..|ls| - 1], ls[|ls| - 1];
      var q := Exec(s, init).value;
      StepAttempts(q, l, end, pid);
      AttemptsBounded(s, init, q, pid, k, bound);
      StepTallies(q, l, end, pid);
    }
  }

  lemma CountNext(s: State, ls: seq<Label>, q: State, t: Thread)
    requires ls != [] && Exec(s, ls[..|ls| - 1]) == Some(q)
    ensures Count(s, ls, t) == Count(s, ls[..|ls| - 1], t) + One(Performs(q, ls[|ls| - 1], t))
  {
  }

  /** bound, once for each of the given number of epochs. */
  ghost function Epochs(bound: nat, n: nat): nat {
    if n == 0 then 0 else Epochs(bound, n - 1) + bound
  }

  lemma {:induction false} EpochsIsProduct(bound: nat, n: nat)
    ensures Epochs(bound, n) == bound * n
  {
    if n > 0 { EpochsIsProduct(bound, n - 1); }
  }

  lemma {:induction false} EpochsMonotone(bound: nat, m: nat, n: nat)
    requires m <= n
    ensures Epochs(bound, m) <= Epochs(bound, n)
    decreases n
  {
    if m < n { EpochsMonotone(bound, m, n - 1); }
  }

  lemma IncrementsStep(q: State, l: Label, end: State, pid: nat, bound: nat, incs: nat, resets: nat)
    requires Next(q, l) == Some(end) && Attempts(q, pid) <= bound
    requires incs <= Attempts(q, pid) + Epochs(bound, resets)
    ensures incs + One(Performs(q, l, Increment(pid)))
         <= Attempts(end, pid) + Epochs(bound, resets + One(Performs(q, l, ResetAttempts(pid))))
  {
    StepAttempts(q, l, end, pid);
  }

  lemma IncrementsExtend(s: State, ls: seq<Label>, q: State, end: State, pid: nat, bound: nat)
    requires ls != [] && Exec(s, ls[..|ls| - 1]) == Some(q) && Next(q, ls[|ls| - 1]) == Some(end)
    requires Attempts(q, pid) <= bound
    requires var init := ls[..|ls| - 1];
      Count(s, init, Increment(pid)) <= Attempts(q, pid) + Epochs(bound, Count(s, init, ResetAttempts(pid)))
    ensures Count(s, ls, Increment(pid)) <= Attempts(end, pid) + Epochs(bound, Count(s, ls, ResetAttempts(pid)))
  {
    var init, l := ls[..|ls| - 1], ls[|ls| - 1];
    IncrementsStep(q, l, end, pid, bound, Count(s, init, Increment(pid)), Count(s, init, ResetAttempts(pid)));
    CountNext(s, ls, q, Increment(pid));
    CountNext(s, ls, q, ResetAttempts(pid));
  }

  lemma {:induction false} IncrementsBounded(s: State, ls: seq<Label>, end: State, pid: nat, k: nat, bound: nat)
    requires Newborn(s, pid) && Exec(s, ls) == Some(end) && AtMost(s, ls, pid, k)
    requires Limited(end, pid, k, bound)
    ensures Count(s, ls, Increment(pid)) <= Attempts(end, pid) + Epochs(bound, Count(s, ls, ResetAttempts(pid)))
    decreases |ls|
  {
    if ls != [] {
      var init := ls[..|ls| - 1];
      var q := Exec(s, init).value;
      StepAttempts(q, ls[|ls| - 1], end, pid);
      IncrementsBounded(s, init, q, pid, k, bound);
      AttemptsBounded(s, init, q, pid, k, bound);
      IncrementsExtend(s, ls, q, end, pid, bound);
    }
  }

  /**
   * With max_attempts m > 0 and never more than k handlers of one process between check and count, the
   * counter stays at or below m - 1 + k and there are at most (m - 1 + k) * (1 + h) automatic restarts, h
   * being the number of transitions to healthy.
   */
  lemma OverlapBudget(s: State, ls: seq<Label>, end: State, pid: nat, k: nat, bound: nat, restarts: nat, healthy: nat)
    requires Newborn(s, pid) && Exec(s, ls) == Some(end) && AtMost(s, ls, pid, k)
    requires Limited(end, pid, k, bound)
    requires restarts == Count(s, ls, Sleep(pid)) && healthy == Count(s, ls, MarkRunning(pid))
    ensures Attempts(end, pid) <= bound && restarts <= bound * (1 + healthy)
  {
    AttemptsBounded(s, ls, end, pid, k, bound);
    IncrementsBounded(s, ls, end, pid, k, bound);
    Conservation(s, ls, end, pid);
    EpochArithmetic(restarts, Attempts(end, pid), bound, Count(s, ls, ResetAttempts(pid)), healthy);
  }

  lemma EpochArithmetic(fires: nat, attempts: nat, bound: nat, resets: nat, healthy: nat)
    requires fires <= attempts + Epochs(bound, resets) && attempts <= bound && resets <= healthy
    ensures fires <= bound * (1 + healthy)
  {
    EpochsMonotone(bound, resets, healthy);
    EpochsIsProduct(bound, 1 + healthy);
  }

  /** Under a never or absent policy there is no automatic restart at all. */
  lemma {:induction false} NeverMeansNone(s: State, ls: seq<Label>, end: State, pid: nat)
    requires Newborn(s, pid) && Exec(s, ls) == Some(end)
    requires pid < |end.slots| ==>
      ProcOf(end, pid).spec.restart.None? || ProcOf(end, pid).spec.restart.value.policy == "never"
    ensures Count(s, ls, Sleep(pid)) == 0
    ensures Tally(end, Increment(pid)) == 0 && Tally(end, Sleep(pid)) == 0
    decreases |ls|
  {
    if ls != [] {
      var init, l := ls[..|ls| - 1], ls[|ls| - 1];
      var q := Exec(s, init).value;
      StepAttempts(q, l, end, pid);
      NeverMeansNone(s, init, q, pid);
      StepTallies(q, l, end, pid);
      NoPerformer(q, l, Sleep(pid));
      NoPerformer(q, l, Increment(pid));
    }
  }

  lemma NoPerformer(s: State, l: Label, t: Thread)
    requires Tally(s, t) == 0
    ensures !Performs(s, l, t)
  {
    assert t !in s.threads;
  }
}
