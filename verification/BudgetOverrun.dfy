/**
 * The bound of RestartBudget is reached: explicit starts whose failures overlap push the attempt counter
 * past max_attempts, by one for each start after the registration.
 */
module BudgetOverruns {
  import opened Basics
  import opened Proto
  import opened Processes
  import opened Graphs
  import opened Planning
  import opened Lifecycle
  import opened FailureRuns
  import opened RestartBudgets
  import opened StartBudgets

  lemma {:induction false} NoStartsCount(ls: seq<Label>, name: string)
    requires NoStarts(ls)
    ensures Starts(ls, name) == 0
    decreases |ls|
  {
    if ls != [] { NoStartsCount(ls[..|ls| - 1], name); }
  }

  ghost predicate HasAttempts(s: State, pid: nat, spec: TunnelSpec, attempts: nat) {
    pid < |s.slots| && ProcOf(s, pid).spec == spec && ProcOf(s, pid).attempts == attempts
  }

  // ---- One thread on its own counts up to max_attempts - 1 ----

  lemma {:induction false} WindUp(s: State, pid: nat, spec: TunnelSpec, k: nat) returns (ls: seq<Label>, end: State)
    requires Restartable(s, pid) && s.threads != [] && s.threads[|s.threads| - 1] == Begin(pid)
    requires HasAttempts(s, pid, spec, 0) && (spec.restart.value.maxAttempts <= 0 || k < spec.restart.value.maxAttempts)
    ensures NoStarts(ls) && Exec(s, ls) == Some(end) && |end.threads| == |s.threads|
    ensures Restartable(end, pid) && end.threads[|end.threads| - 1] == Begin(pid) && HasAttempts(end, pid, spec, k)
    decreases k
  {
    if k == 0 {
      return [], s;
    }
    var ls', q := WindUp(s, pid, spec, k - 1);
    var more := OneRestart(q, pid, false);
    end := Put(q, pid, Recounted(q, pid, false), Begin(pid));
    ls := ls' + more;
    ExecConcat(s, ls', more);
    assert EnumeratesDependents(end, spec.name, []);
  }

  // ---- Explicit starts line up further handlers, which then all count ----

  ghost predicate Waiting(s: State, t: State, pid: nat, k: nat) {
    && |t.threads| == |s.threads| + k && t.threads[..|s.threads|] == s.threads
    && (forall i :: |s.threads| <= i < |t.threads| ==> t.threads[i] == Increment(pid))
  }

  /** k explicit starts, each followed by a failure, line up k handlers between check and count. */
  lemma {:induction false} LineUp(s: State, pid: nat, spec: TunnelSpec, a: nat, k: nat) returns (ls: seq<Label>, end: State)
    requires Restartable(s, pid) && HasAttempts(s, pid, spec, a)
    ensures Exec(s, ls) == Some(end) && Restartable(end, pid) && HasAttempts(end, pid, spec, a)
    ensures Waiting(s, end, pid, k) && Starts(ls, spec.name) == k
    decreases k
  {
    if k == 0 {
      return [], s;
    }
    var ls', q := LineUp(s, pid, spec, a, k - 1);
    var q' := q.(threads := q.threads + [Begin(pid)]);
    ExecOne(s, ls', ApiStart(spec.name));
    assert EnumeratesDependents(q', spec.name, []);
    var fail := OneFailure(q', pid, false);
    end := Put(q', pid, Down(q', pid, false), Increment(pid));
    ls := ls' + [ApiStart(spec.name)] + fail;
    ExecConcat(s, ls' + [ApiStart(spec.name)], fail);
    assert EnumeratesDependents(end, spec.name, []);
    StartsConcat(ls' + [ApiStart(spec.name)], fail, spec.name);
    StartsConcat(ls', [ApiStart(spec.name)], spec.name);
    NoStartsCount(fail, spec.name);
  }

  /** Lined-up handlers then all count. */
  lemma {:induction false} CountAll(s: State, pid: nat, spec: TunnelSpec, a: nat, first: nat, k: nat)
    returns (ls: seq<Label>, end: State)
    requires HasAttempts(s, pid, spec, a) && first + k <= |s.threads|
    requires forall i :: first <= i < first + k ==> s.threads[i] == Increment(pid)
    ensures NoStarts(ls) && Exec(s, ls) == Some(end) && HasAttempts(end, pid, spec, a + k)
    decreases k
  {
    if k == 0 {
      return [], s;
    }
    var l := Run(first, Go);
    var q := SetProc(s, pid, ProcOf(s, pid).(attempts := a + 1)).(threads := s.threads[first := Sleep(pid)]);
    assert Next(s, l) == Some(q);
    ExecFirst(s, l);
    var ls';
    ls', end := CountAll(q, pid, spec, a + 1, first + 1, k - 1);
    ls := [l] + ls';
    ExecConcat(s, [l], ls');
  }

  /** m - 1 restarts and one more failure: the last thread is about to count the m-th. */
  lemma ReachLimit(s: State, pid: nat, spec: TunnelSpec, a: nat) returns (ls: seq<Label>, end: State)
    requires Restartable(s, pid) && s.threads != [] && s.threads[|s.threads| - 1] == Begin(pid)
    requires HasAttempts(s, pid, spec, 0) && spec.restart.value.maxAttempts == a + 1
    ensures NoStarts(ls) && Exec(s, ls) == Some(end) && |end.threads| == |s.threads|
    ensures Restartable(end, pid) && end.threads[|end.threads| - 1] == Increment(pid) && HasAttempts(end, pid, spec, a)
  {
    var up, q := WindUp(s, pid, spec, a);
    var fail := OneFailure(q, pid, false);
    end := Put(q, pid, Down(q, pid, false), Increment(pid));
    assert EnumeratesDependents(end, spec.name, []);
    ls := up + fail;
    ExecConcat(s, up, fail);
  }

  /** n - 1 explicit starts beside a handler that is about to count, and then n counts. */
  lemma OverrunTogether(s: State, pid: nat, spec: TunnelSpec, a: nat, n: nat) returns (ls: seq<Label>, end: State)
    requires Restartable(s, pid) && s.threads != [] && s.threads[|s.threads| - 1] == Increment(pid)
    requires HasAttempts(s, pid, spec, a) && n > 0
    ensures Exec(s, ls) == Some(end) && HasAttempts(end, pid, spec, a + n) && Starts(ls, spec.name) == n - 1
  {
    var line, r := LineUp(s, pid, spec, a, n - 1);
    var tid := |s.threads| - 1;
    assert r.threads[tid] == r.threads[..|s.threads|][tid];
    var count;
    count, end := CountAll(r, pid, spec, a, tid, n);
    ls := line + count;
    ExecConcat(s, line, count);
    StartsConcat(line, count, spec.name);
    NoStartsCount(count, spec.name);
  }

  /** From a first Begin: max_attempts - 1 restarts by one thread, then n handlers that count together. */
  lemma OverlappingHandlersOverrun(s: State, pid: nat, spec: TunnelSpec, n: nat) returns (ls: seq<Label>, end: State)
    requires Restartable(s, pid) && s.threads != [] && s.threads[|s.threads| - 1] == Begin(pid)
    requires HasAttempts(s, pid, spec, 0) && spec.restart.value.maxAttempts > 0 && n > 0
    ensures Exec(s, ls) == Some(end) && HasAttempts(end, pid, spec, spec.restart.value.maxAttempts - 1 + n)
    ensures Starts(ls, spec.name) == n - 1
  {
    var a := spec.restart.value.maxAttempts - 1;
    var up, q := ReachLimit(s, pid, spec, a);
    var over;
    over, end := OverrunTogether(q, pid, spec, a, n);
    ls := up + over;
    ExecConcat(s, up, over);
    StartsConcat(up, over, spec.name);
    NoStartsCount(up, spec.name);
  }

  /** A restart policy with a limit. */
  ghost predicate Budgeted(spec: TunnelSpec) {
    !NeverRestarts(spec) && spec.restart.value.maxAttempts > 0
  }

  ghost predicate NobodyDependsOn(s: State, name: string) {
    forall n :: n in PlannerSpecs(s) ==> name !in PlannerSpecs(s)[n].dependsOn
  }

  lemma NobodyInGraph(specs: Specs, name: string, x: string)
    requires Keyed(specs) && Acyclic(DepEdges(specs)) && x != name
    requires forall n :: n in specs && n != name ==> name !in specs[n].dependsOn
    ensures !Reaches(DepEdges(specs), name, x)
  {
    if Reaches(DepEdges(specs), name, x) {
      SinkReachesItself(DepEdges(specs), name, x);
      SelfEdgeIsCycle(DepEdges(specs), name);
    }
  }

  lemma NobodyPlanned(s: State, spec: TunnelSpec, s': State)
    requires WellNamed(s) && Next(s, Register(spec)) == Some(s') && NobodyDependsOn(s, spec.name)
    ensures EnumeratesDependents(s', spec.name, [])
  {
    var specs := PlannerSpecs(s)[spec.name := spec];
    assert Keyed(RegSpecs(s));
    forall x | x != spec.name ensures !Reaches(s'.graph, spec.name, x) { NobodyInGraph(specs, spec.name, x); }
  }

  lemma RegisteredIsRestartable(s: State, spec: TunnelSpec, s': State)
    requires WellNamed(s) && Next(s, Register(spec)) == Some(s') && !NeverRestarts(spec) && NobodyDependsOn(s, spec.name)
    ensures Restartable(s', |s.slots|) && HasAttempts(s', |s.slots|, spec, 0)
    ensures s'.threads == s.threads + [Begin(|s.slots|)]
  {
    NobodyPlanned(s, spec, s');
  }

  /**
   * Wherever a tunnel with max_attempts m > 0 that nobody depends on can be registered, the run can go on
   * so that n starts in all, the registration included, take its counter to m - 1 + n.
   */
  lemma OverrunReached(pre: seq<Label>, s: State, spec: TunnelSpec, s': State, n: nat) returns (ls: seq<Label>, end: State)
    requires Exec(BOOT, pre) == Some(s) && Next(s, Register(spec)) == Some(s')
    requires Budgeted(spec) && NobodyDependsOn(s, spec.name) && n > 0
    ensures Exec(BOOT, ls) == Some(end) && pre <= ls && Starts(ls, spec.name) == Starts(pre, spec.name) + n
    ensures HasAttempts(end, |s.slots|, spec, spec.restart.value.maxAttempts - 1 + n)
  {
    BootedWell(pre, s);
    RegisteredIsRestartable(s, spec, s');
    var init := pre + [Register(spec)];
    ExecOne(BOOT, pre, Register(spec));
    var rest;
    rest, end := OverlappingHandlersOverrun(s', |s.slots|, spec, n);
    ls := init + rest;
    ExecConcat(BOOT, init, rest);
    StartsConcat(init, rest, spec.name);
    StartsConcat(pre, [Register(spec)], spec.name);
  }

  // ---- The dependencies can be registered first ----

  ghost predicate Plain(specs: Specs, n: string)
    requires n in specs
  {
    specs[n].dependsOn == []
  }

  lemma OneLevelIsPlannable(specs: Specs, name: string)
    requires forall n :: n in specs && n != name ==> Plain(specs, n)
    requires name in specs ==> forall d :: d in specs[name].dependsOn ==> d in specs && d != name
    ensures Plannable(specs)
  {
    RankedIsAcyclic(DepEdges(specs), map n | n in specs :: if n == name then 1 else 0);
  }

  /** Like the tunnel, but without dependencies and forwards, and under another name. */
  function Stub(spec: TunnelSpec, d: string): TunnelSpec {
    spec.(name := d, dependsOn := [], kind := Ssh(SSHSpec("", "", 0, "", [], map[], "")))
  }

  lemma RegisterPlanned(s: State, spec: TunnelSpec) returns (s': State)
    requires WellNamed(s) && spec.name !in PlannerSpecs(s)
    requires forall n :: n in PlannerSpecs(s) ==> Plain(PlannerSpecs(s), n)
    requires forall d :: d in spec.dependsOn ==> d in PlannerSpecs(s)
    ensures Next(s, Register(spec)) == Some(s') && PlannerSpecs(s') == PlannerSpecs(s)[spec.name := spec]
    ensures NobodyDependsOn(s, spec.name)
  {
    OneLevelIsPlannable(PlannerSpecs(s)[spec.name := spec], spec.name);
    s' := Next(s, Register(spec)).value;
    RegisterWellNamed(s, spec, s');
  }

  lemma {:induction false} StubsRegister(spec: TunnelSpec, deps: set<string>) returns (ls: seq<Label>, s: State)
    requires spec.name !in deps
    ensures Exec(BOOT, ls) == Some(s) && PlannerSpecs(s).Keys == deps && Starts(ls, spec.name) == 0
    ensures forall l :: l in ls ==> l.Register?
    ensures forall n :: n in PlannerSpecs(s) ==> Plain(PlannerSpecs(s), n)
    decreases deps
  {
    if deps == {} {
      return [], BOOT;
    }
    var d :| d in deps;
    var ls', q := StubsRegister(spec, deps - {d});
    BootedWell(ls', q);
    s := RegisterPlanned(q, Stub(spec, d));
    ls := ls' + [Register(Stub(spec, d))];
    ExecOne(BOOT, ls', Register(Stub(spec, d)));
    StartsConcat(ls', [Register(Stub(spec, d))], spec.name);
  }

  // ---- What one start can reach ----

  /** After the run from boot the process object has that spec and that count. */
  ghost predicate Counts(ls: seq<Label>, pid: nat, spec: TunnelSpec, a: nat) {
    Exec(BOOT, ls).Some? && HasAttempts(Exec(BOOT, ls).value, pid, spec, a)
  }

  /** After a run from boot with one start of the tunnel its counter is k. */
  ghost predicate ReachedWithOneStart(ls: seq<Label>, pid: nat, spec: TunnelSpec, k: nat) {
    Starts(ls, spec.name) == 1 && Counts(ls, pid, spec, k)
  }

  /** A tunnel that can be registered, registered and about to be started for the first time. */
  lemma RegisterOnce(spec: TunnelSpec) returns (ls: seq<Label>, s: State, pid: nat)
    requires spec.name !in spec.dependsOn && !NeverRestarts(spec)
    ensures Exec(BOOT, ls) == Some(s) && Starts(ls, spec.name) == 1
    ensures Restartable(s, pid) && s.threads != [] && s.threads[|s.threads| - 1] == Begin(pid) && HasAttempts(s, pid, spec, 0)
  {
    var pre, q := StubsRegister(spec, set d | d in spec.dependsOn);
    BootedWell(pre, q);
    s := RegisterPlanned(q, spec);
    pid := |q.slots|;
    RegisteredIsRestartable(q, spec, s);
    ExecOne(BOOT, pre, Register(spec));
    ls := pre + [Register(spec)];
    StartsConcat(pre, [Register(spec)], spec.name);
  }

  lemma Continue(a: seq<Label>, s: State, b: seq<Label>, q: State, pid: nat, spec: TunnelSpec, k: nat) returns (ls: seq<Label>)
    requires Exec(BOOT, a) == Some(s) && Starts(a, spec.name) == 1
    requires Exec(s, b) == Some(q) && Starts(b, spec.name) == 0 && HasAttempts(q, pid, spec, k)
    ensures ReachedWithOneStart(ls, pid, spec, k)
  {
    ls := a + b;
    ExecConcat(BOOT, a, b);
    StartsConcat(a, b, spec.name);
  }

  lemma CountsUpTo(spec: TunnelSpec, k: nat) returns (ls: seq<Label>, pid: nat)
    requires spec.name !in spec.dependsOn && !NeverRestarts(spec)
    requires spec.restart.value.maxAttempts <= 0 || k <= spec.restart.value.maxAttempts
    ensures ReachedWithOneStart(ls, pid, spec, k)
  {
    var a, s, p := RegisterOnce(spec);
    pid := p;
    if spec.restart.value.maxAttempts > 0 && k == spec.restart.value.maxAttempts {
      var b, q := OverlappingHandlersOverrun(s, pid, spec, 1);
      ls := Continue(a, s, b, q, pid, spec, k);
    } else {
      var b, q := WindUp(s, pid, spec, k);
      NoStartsCount(b, spec.name);
      ls := Continue(a, s, b, q, pid, spec, k);
    }
  }

  /**
   * A positive max_attempts is the only limit: a tunnel that can be registered, under any present policy but
   * "never", reaches the count k in some run with one start if and only if max_attempts is not positive, or k
   * is at most max_attempts.
   */
  lemma OneStartReachesExactly(spec: TunnelSpec, k: nat)
    requires spec.name !in spec.dependsOn && spec.restart.Some? && spec.restart.value.policy != "never"
    ensures (exists ls, pid: nat :: ReachedWithOneStart(ls, pid, spec, k))
       <==> spec.restart.value.maxAttempts <= 0 || k <= spec.restart.value.maxAttempts
  {
    var m := spec.restart.value.maxAttempts;
    if m <= 0 || k <= m {
      var ls, pid := CountsUpTo(spec, k);
    }
    if ls, pid: nat :| ReachedWithOneStart(ls, pid, spec, k) && m > 0 {
      OneStartKeepsBudget(ls, Exec(BOOT, ls).value, pid, m, Count(BOOT, ls, Sleep(pid)), Count(BOOT, ls, MarkRunning(pid)));
    }
  }

  /** In every run with n starts of the tunnel its counter stays within max_attempts. */
  ghost predicate KeepsBudget(spec: TunnelSpec, n: nat)
    requires spec.restart.Some?
  {
    forall ls, pid: nat, a: nat :: Starts(ls, spec.name) == n && Counts(ls, pid, spec, a) ==> a <= spec.restart.value.maxAttempts
  }

  /**
   * The restart budget, exactly, for any tunnel that can be registered: max_attempts is respected in every
   * run with n starts of the tunnel if and only if it was not started again after its registration.
   */
  lemma BudgetKeptExactly(spec: TunnelSpec, n: nat)
    requires Budgeted(spec) && spec.name !in spec.dependsOn
    ensures KeepsBudget(spec, n) <==> n <= 1
  {
    if n <= 1 {
      forall ls, pid: nat, a: nat | Starts(ls, spec.name) == n && Counts(ls, pid, spec, a)
        ensures a <= spec.restart.value.maxAttempts
      {
        var end := Exec(BOOT, ls).value;
        OneStartKeepsBudget(ls, end, pid, spec.restart.value.maxAttempts,
                            Count(BOOT, ls, Sleep(pid)), Count(BOOT, ls, MarkRunning(pid)));
      }
    } else {
      var deps := set d | d in spec.dependsOn;
      var pre, s := StubsRegister(spec, deps);
      BootedWell(pre, s);
      var s' := RegisterPlanned(s, spec);
      var ls, end := OverrunReached(pre, s, spec, s', n);
      assert Counts(ls, |s.slots|, spec, spec.restart.value.maxAttempts - 1 + n);
    }
  }
}
