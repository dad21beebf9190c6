/**
 * The restart budget in terms of what callers do: every goroutine that handles a tunnel goes back to one
 * registration or one explicit start of its name, so the number of starts bounds how far the attempt
 * counter can overrun max_attempts.
 */
module StartBudgets {
  import opened Basics
  import opened Lifecycle
  import opened RestartBudgets

  ghost predicate IsStart(l: Label, name: string) {
    l == ApiStart(name) || l == RegisterNext(name) || (l.Register? && l.spec.name == name)
  }

  /** How often a tunnel of that name was registered or explicitly started. */
  ghost function Starts(ls: seq<Label>, name: string): nat {
    if ls == [] then 0 else Starts(ls[..|ls| - 1], name) + One(IsStart(ls[|ls| - 1], name))
  }

  lemma {:induction false} StartsConcat(a: seq<Label>, b: seq<Label>, name: string)
    ensures Starts(a + b, name) == Starts(a, name) + Starts(b, name)
    decreases |b|
  {
    if b == [] {
      assert a + b == a;
    } else {
      StartsConcat(a, b[..|b| - 1], name);
      assert (a + b)[..|a + b| - 1] == a + b[..|b| - 1];
    }
  }

  // ---- Every thread goes back to a start of the name it concerns ----

  ghost predicate Concerns(s: State, t: Thread, name: string) {
    if t.Done? then false
    else if t.Report? then t.name == name
    else t.pid < |s.slots| && ProcOf(s, t.pid).spec.name == name
  }

  ghost function Involved(s: State, ts: seq<Thread>, name: string): nat {
    if ts == [] then 0 else Involved(s, ts[..|ts| - 1], name) + One(Concerns(s, ts[|ts| - 1], name))
  }

  lemma {:induction false} InvolvedShrinks(s: State, ts: seq<Thread>, s': State, ts': seq<Thread>, name: string)
    requires |ts'| == |ts| && forall i :: 0 <= i < |ts| && Concerns(s', ts'[i], name) ==> Concerns(s, ts[i], name)
    ensures Involved(s', ts', name) <= Involved(s, ts, name)
    decreases |ts|
  {
    if ts != [] { InvolvedShrinks(s, ts[..|ts| - 1], s', ts'[..|ts| - 1], name); }
  }

  lemma {:induction false} TallyInvolved(s: State, ts: seq<Thread>, t: Thread, name: string)
    requires Concerns(s, t, name)
    ensures multiset(ts)[t] <= Involved(s, ts, name)
    decreases |ts|
  {
    if ts != [] {
      var init, last := ts[..|ts| - 1], ts[|ts| - 1];
      TallyInvolved(s, init, t, name);
      assert ts == init + [last];
    }
  }

  /** A step leaves a thread with the name it concerned before, or with none. */
  lemma EffectConcerns(s: State, t: Thread, c: Choice, name: string)
    requires WellNamed(s) && Known(s, t)
    ensures var e := EffectOf(s, t, c); !e.Disabled? && Concerns(s, e.thread, name) ==> Concerns(s, t, name)
  {
  }

  lemma ConcernsKept(s: State, s': State, t: Thread, name: string)
    requires SameSpecs(s, s') && Known(s, t)
    ensures Concerns(s', t, name) <==> Concerns(s, t, name)
  {
  }

  lemma RunInvolved(s: State, tid: nat, c: Choice, s': State, name: string)
    requires WellNamed(s) && ThreadsKnown(s) && Next(s, Run(tid, c)) == Some(s')
    ensures Involved(s', s'.threads, name) <= Involved(s, s.threads, name)
  {
    AdvanceKeepsSpecs(s, tid, c, s');
    var t, t' := s.threads[tid], s'.threads[tid];
    EffectConcerns(s, t, c, name);
    EffectKnown(s, t, c);
    forall i | 0 <= i < |s.threads| && Concerns(s', s'.threads[i], name) ensures Concerns(s, s.threads[i], name) {
      ConcernsKept(s, s', s'.threads[i], name);
    }
    InvolvedShrinks(s, s.threads, s', s'.threads, name);
  }

  lemma StepInvolved(s: State, l: Label, s': State, name: string)
    requires WellNamed(s) && ThreadsKnown(s) && Next(s, l) == Some(s')
    ensures Involved(s', s'.threads, name) <= Involved(s, s.threads, name) + One(IsStart(l, name))
  {
    if l.Run? {
      RunInvolved(s, l.tid, l.choice, s', name);
    } else {
      NextKeepsSpecs(s, l, s');
      NextThreads(s, l, s');
      forall i | 0 <= i < |s.threads| ensures Concerns(s', s.threads[i], name) <==> Concerns(s, s.threads[i], name) {
        ConcernsKept(s, s', s.threads[i], name);
      }
      InvolvedShrinks(s, s.threads, s', s.threads, name);
      if s'.threads != s.threads { assert s'.threads[..|s'.threads| - 1] == s.threads; }
    }
  }

  lemma {:induction false} InvolvedWithinStarts(ls: seq<Label>, end: State, name: string)
    requires Exec(BOOT, ls) == Some(end)
    ensures Involved(end, end.threads, name) <= Starts(ls, name)
    decreases |ls|
  {
    if ls != [] {
      var init, l := ls[..|ls| - 1], ls[|ls| - 1];
      var q := Exec(BOOT, init).value;
      InvolvedWithinStarts(init, q, name);
      BootedWell(init, q);
      StepInvolved(q, l, end, name);
    }
  }

  /** The object, once it is registered, has that name. */
  ghost predicate NamedOnce(s: State, pid: nat, name: string) {
    pid < |s.slots| ==> ProcOf(s, pid).spec.name == name
  }

  lemma WindowWithinStarts(ls: seq<Label>, end: State, pid: nat, name: string)
    requires Exec(BOOT, ls) == Some(end) && NamedOnce(end, pid, name)
    ensures Tally(end, Increment(pid)) <= Starts(ls, name)
  {
    if pid < |end.slots| {
      TallyInvolved(end, end.threads, Increment(pid), name);
      InvolvedWithinStarts(ls, end, name);
    } else {
      BootedWell(ls, end);
      assert Increment(pid) !in end.threads;
    }
  }

  lemma {:induction false} StartsBoundOverlap(ls: seq<Label>, end: State, pid: nat, name: string, k: nat)
    requires Exec(BOOT, ls) == Some(end) && NamedOnce(end, pid, name) && Starts(ls, name) <= k
    ensures AtMost(BOOT, ls, pid, k)
    decreases |ls|
  {
    WindowWithinStarts(ls, end, pid, name);
    if ls != [] {
      var init, l := ls[..|ls| - 1], ls[|ls| - 1];
      var q := Exec(BOOT, init).value;
      NextKeepsSpecs(q, l, end);
      StartsBoundOverlap(init, q, pid, name, k);
    }
  }

  /**
   * Restart budget: in every run of the daemon in which a tunnel with max_attempts m > 0 has been
   * registered or explicitly started `starts` times, its counter is at most m - 1 + starts, and its
   * automatic restarts are at most (m - 1 + starts) * (1 + healthy).
   */
  lemma RestartBudget(ls: seq<Label>, end: State, pid: nat, starts: nat, bound: nat, restarts: nat, healthy: nat)
    requires Exec(BOOT, ls) == Some(end) && pid < |end.slots|
    requires starts == Starts(ls, ProcOf(end, pid).spec.name) && Limited(end, pid, starts, bound)
    requires restarts == Count(BOOT, ls, Sleep(pid)) && healthy == Count(BOOT, ls, MarkRunning(pid))
    ensures ProcOf(end, pid).attempts <= bound
    ensures WrapInt32(ProcOf(end, pid).attempts) == ProcOf(end, pid).attempts
    ensures restarts <= bound * (1 + healthy)
  {
    StartsBoundOverlap(ls, end, pid, ProcOf(end, pid).spec.name, starts);
    OverlapBudget(BOOT, ls, end, pid, starts, bound, restarts, healthy);
  }

  /** A tunnel that is registered once and never started explicitly keeps within max_attempts. */
  lemma OneStartKeepsBudget(ls: seq<Label>, end: State, pid: nat, m: nat, restarts: nat, healthy: nat)
    requires Exec(BOOT, ls) == Some(end) && pid < |end.slots|
    requires var spec := ProcOf(end, pid).spec;
      Starts(ls, spec.name) <= 1 && spec.restart.Some? && spec.restart.value.maxAttempts == m > 0
    requires restarts == Count(BOOT, ls, Sleep(pid)) && healthy == Count(BOOT, ls, MarkRunning(pid))
    ensures ProcOf(end, pid).attempts <= m && restarts <= m * (1 + healthy)
  {
    StartsBoundOverlap(ls, end, pid, ProcOf(end, pid).spec.name, 1);
    OverlapBudget(BOOT, ls, end, pid, 1, m, restarts, healthy);
  }
}
