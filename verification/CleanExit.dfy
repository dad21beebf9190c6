/** Which tunnels are restarted automatically after exits that are no failures. */
module CleanExits {
  import opened Basics
  import opened Proto
  import opened Processes
  import opened Lifecycle
  import opened FailureRuns
  import opened RestartBudgets
  import opened BudgetOverruns

  /** In that run from boot the tunnel is restarted automatically, and no child failed. */
  ghost predicate RestartsCleanly(ls: seq<Label>, pid: nat, spec: TunnelSpec) {
    && OnlyCleanExits(ls) && Exec(BOOT, ls).Some?
    && pid < |Exec(BOOT, ls).value.slots| && ProcOf(Exec(BOOT, ls).value, pid).spec == spec
    && Count(BOOT, ls, Sleep(pid)) > 0
  }

  /** A process about to be started exits cleanly and passes the checks. */
  lemma ExitsCleanly(pre: seq<Label>, s: State, pid: nat) returns (ls: seq<Label>, q: State)
    requires Exec(BOOT, pre) == Some(s) && OnlyCleanExits(pre)
    requires Restartable(s, pid) && s.threads != [] && s.threads[|s.threads| - 1] == Begin(pid)
    ensures OnlyCleanExits(ls) && Exec(BOOT, ls) == Some(q)
    ensures q == Put(s, pid, Down(s, pid, true), Increment(pid))
  {
    var exit := OneFailure(s, pid, true);
    q := Put(s, pid, Down(s, pid, true), Increment(pid));
    ls := pre + exit;
    ExecConcat(BOOT, pre, exit);
  }

  /** Its handler counts the attempt and sleeps. */
  lemma Counts(pre: seq<Label>, s: State, tid: nat, pid: nat) returns (ls: seq<Label>, q: State)
    requires Exec(BOOT, pre) == Some(s) && OnlyCleanExits(pre)
    requires tid < |s.threads| && s.threads[tid] == Increment(pid) && pid < |s.slots|
    ensures OnlyCleanExits(ls) && Exec(BOOT, ls) == Some(q) && tid < |q.threads| && q.threads[tid] == Sleep(pid)
    ensures pid < |q.slots| && ProcOf(q, pid).spec == ProcOf(s, pid).spec
  {
    ls := pre + [Run(tid, Go)];
    ExecOne(BOOT, pre, Run(tid, Go));
    q := Next(s, Run(tid, Go)).value;
  }

  /** The sleeping handler wakes up. */
  lemma WakesUp(ls: seq<Label>, q: State, tid: nat, pid: nat) returns (all: seq<Label>)
    requires Exec(BOOT, ls) == Some(q) && tid < |q.threads| && q.threads[tid] == Sleep(pid) && pid < |q.slots|
    requires OnlyCleanExits(ls)
    ensures RestartsCleanly(all, pid, ProcOf(q, pid).spec)
  {
    all := ls + [Run(tid, Go)];
    ExecOne(BOOT, ls, Run(tid, Go));
    NextKeepsSpecs(q, Run(tid, Go), Next(q, Run(tid, Go)).value);
    assert all[..|all| - 1] == ls;
    CountNext(BOOT, all, q, Sleep(pid));
  }

  lemma NeverDoesNot(ls: seq<Label>, pid: nat, spec: TunnelSpec)
    requires NeverRestarts(spec)
    ensures !RestartsCleanly(ls, pid, spec)
  {
    if RestartsCleanly(ls, pid, spec) { NeverMeansNone(BOOT, ls, Exec(BOOT, ls).value, pid); }
  }

  /** Registered after its dependencies, the tunnel is started, exits, and is about to be counted. */
  lemma ReachCount(spec: TunnelSpec) returns (ls: seq<Label>, s: State, tid: nat, pid: nat)
    requires spec.name !in spec.dependsOn && !NeverRestarts(spec)
    ensures Exec(BOOT, ls) == Some(s) && OnlyCleanExits(ls) && pid < |s.slots| && ProcOf(s, pid).spec == spec
    ensures tid < |s.threads| && s.threads[tid] == Increment(pid)
  {
    var pre, q := StubsRegister(spec, set d | d in spec.dependsOn);
    BootedWell(pre, q);
    var r := RegisterPlanned(q, spec);
    pid, tid := |q.slots|, |q.threads|;
    RegisteredIsRestartable(q, spec, r);
    ExecOne(BOOT, pre, Register(spec));
    ls, s := ExitsCleanly(pre + [Register(spec)], r, pid);
  }

  lemma OtherwiseItDoes(spec: TunnelSpec) returns (ls: seq<Label>, pid: nat)
    requires spec.name !in spec.dependsOn && !NeverRestarts(spec)
    ensures RestartsCleanly(ls, pid, spec)
  {
    var before, s, tid, p := ReachCount(spec);
    var counted, q := Counts(before, s, tid, p);
    pid := p;
    ls := WakesUp(counted, q, tid, pid);
  }

  /**
   * Every policy but "never" restarts a tunnel after a clean exit, "on-failure" and the empty policy
   * included: for every tunnel that can be registered, some run from boot without any failure restarts it
   * automatically if and only if its policy is present and not "never".
   */
  lemma CleanExitRestartsExactly(spec: TunnelSpec)
    requires spec.name !in spec.dependsOn
    ensures (exists ls, pid: nat :: RestartsCleanly(ls, pid, spec))
       <==> spec.restart.Some? && spec.restart.value.policy != "never"
  {
    if NeverRestarts(spec) {
      forall ls, pid: nat ensures !RestartsCleanly(ls, pid, spec) { NeverDoesNot(ls, pid, spec); }
    } else {
      var ls, pid := OtherwiseItDoes(spec);
    }
  }
}
