/** The failure cascade under interleaving: which dependents are listed, and that each of them is dealt with. */
module CascadeRuns {
  import opened Basics
  import opened Graphs
  import opened Planning
  import opened Lifecycle

  /** The thread is inside the cascade loop. */
  ghost predicate Looping(t: Thread) {
    t.Cascade? || t.Inspect? || t.StopOne?
  }

  /** The list holds nothing that the planned graph does not reach from the failed tunnel. */
  lemma ListIsPlanned(s: State, tid: nat, c: Choice, s': State, pid: nat, name: string)
    requires tid < |s.threads| && s.threads[tid] == ListDependents(pid) && Next(s, Run(tid, c)) == Some(s')
    requires pid < |s.slots| && name == ProcOf(s, pid).spec.name
    ensures tid < |s'.threads| && (Looping(s'.threads[tid]) ==> s'.threads[tid].Cascade?)
    ensures s'.threads[tid].Cascade? ==>
      forall x :: x in s'.threads[tid].deps ==> x in s.indexed && x != name && Reaches(s.graph, name, x)
  {
  }

  /**
   * When the latest Plan built the whole graph, the list taken by a failing handler contains every registered
   * tunnel that depends on the failed one, directly or through tunnels that are registered or about to
   * be, and nothing that the planned graph does not reach from it.
   */
  lemma ListIsComplete(s: State, tid: nat, c: Choice, s': State, pid: nat, name: string)
    requires WellNamed(s) && s.current && Next(s, Run(tid, c)) == Some(s')
    requires tid < |s.threads| && s.threads[tid] == ListDependents(pid)
    requires pid < |s.slots| && name == ProcOf(s, pid).spec.name
    ensures forall x :: x in s.names && x != name && Reaches(DepEdges(PlannerSpecs(s)), name, x) ==>
      c.Deps? && s'.threads[tid] == Cascade(pid, c.deps) && x in c.deps
    ensures s'.threads[tid].Cascade? ==>
      forall x :: x in s'.threads[tid].deps ==> x in s.indexed && x != name && Reaches(s.graph, name, x)
  {
    ListIsPlanned(s, tid, c, s', pid, name);
    forall x | x in s.names && x != name && Reaches(DepEdges(PlannerSpecs(s)), name, x)
      ensures c.Deps? && s'.threads[tid] == Cascade(pid, c.deps) && x in c.deps
    {
      ReachesMonotone(DepEdges(PlannerSpecs(s)), s.graph, name, x);
      SinkReachesItself(s.graph, name, x);
      assert x in RegSpecs(s);
    }
  }

  /** A run with the states it passes through. */
  ghost predicate IsRun(states: seq<State>, ls: seq<Label>) {
    && |states| == |ls| + 1
    && forall i, j :: 0 <= i && j == i + 1 && j < |states| ==> Next(states[i], ls[i]) == Some(states[j])
  }

  lemma {:induction false} RunIsExec(states: seq<State>, ls: seq<Label>)
    requires IsRun(states, ls)
    ensures Exec(states[0], ls) == Some(states[|ls|])
    decreases |ls|
  {
    if ls != [] {
      var n := |ls| - 1;
      RunIsExec(states[..n + 1], ls[..n]);
      assert Next(states[n], ls[n]) == Some(states[n + 1]);
    }
  }

  ghost predicate DownOrTold(s: State, dep: nat) {
    dep < |s.slots| && (ProcOf(s, dep).status.Stopped? || ProcOf(s, dep).expected.DesiredStopped?)
  }

  // ---- The handler's own steps ----

  ghost predicate At(states: seq<State>, i: nat, tid: nat, t: Thread) {
    i < |states| && tid < |states[i].threads| && states[i].threads[tid] == t
  }

  /** From state i to the next the handler, at its loop head, looks d up and finds that process object. */
  ghost predicate LooksUp(states: seq<State>, tid: nat, i: nat, pid: nat, d: string, dep: nat, rest: seq<string>) {
    && At(states, i, tid, Cascade(pid, [d] + rest)) && At(states, i + 1, tid, Inspect(pid, dep, rest))
    && d in states[i].names && states[i].names[d] == dep
  }

  /** From state i to the next the handler, at its loop head, does not find d and goes on. */
  ghost predicate Skips(states: seq<State>, tid: nat, i: nat, pid: nat, d: string, rest: seq<string>) {
    && At(states, i, tid, Cascade(pid, [d] + rest)) && At(states, i + 1, tid, Cascade(pid, rest))
    && d !in states[i].names
  }

  /** From state j to the next the handler is done with the process, which is then stopped or told to stop. */
  ghost predicate Finishes(states: seq<State>, tid: nat, j: nat, pid: nat, dep: nat, rest: seq<string>) {
    && (At(states, j, tid, Inspect(pid, dep, rest)) || At(states, j, tid, StopOne(pid, dep, rest)))
    && At(states, j + 1, tid, Cascade(pid, rest)) && DownOrTold(states[j + 1], dep)
  }

  /** One turn of the loop: the handler looks d up at i, and at j it is done with the process it found. */
  ghost predicate Stops(states: seq<State>, tid: nat, i: nat, j: nat, pid: nat, d: string, dep: nat, rest: seq<string>) {
    i < j && LooksUp(states, tid, i, pid, d, dep, rest) && Finishes(states, tid, j, pid, dep, rest)
  }

  ghost predicate WasSkipped(states: seq<State>, tid: nat, d: string) {
    exists i: nat, pid: nat, rest :: Skips(states, tid, i, pid, d, rest)
  }

  ghost predicate WasStopped(states: seq<State>, tid: nat, d: string) {
    exists i: nat, j: nat, pid: nat, dep: nat, rest :: Stops(states, tid, i, j, pid, d, dep, rest)
  }

  /** The handler did not find d registered, or it found a process and left it stopped or told to stop. */
  ghost predicate Handled(states: seq<State>, tid: nat, d: string) {
    WasSkipped(states, tid, d) || WasStopped(states, tid, d)
  }

  ghost predicate AllHandled(states: seq<State>, tid: nat, ds: seq<string>) {
    forall d :: d in ds ==> Handled(states, tid, d)
  }

  lemma AtExtends(part: seq<State>, states: seq<State>, k: nat, i: nat, tid: nat, t: Thread)
    requires k + |part| <= |states| && part == states[k..k + |part|] && At(part, i, tid, t)
    ensures At(states, k + i, tid, t) && part[i] == states[k + i]
  {
  }

  lemma LooksUpExtends(part: seq<State>, states: seq<State>, k: nat, tid: nat, i: nat, pid: nat, d: string, dep: nat, rest: seq<string>)
    requires k + |part| <= |states| && part == states[k..k + |part|] && LooksUp(part, tid, i, pid, d, dep, rest)
    ensures LooksUp(states, tid, k + i, pid, d, dep, rest)
  {
    AtExtends(part, states, k, i, tid, Cascade(pid, [d] + rest));
    AtExtends(part, states, k, i + 1, tid, Inspect(pid, dep, rest));
  }

  lemma FinishesExtends(part: seq<State>, states: seq<State>, k: nat, tid: nat, j: nat, pid: nat, dep: nat, rest: seq<string>)
    requires k + |part| <= |states| && part == states[k..k + |part|] && Finishes(part, tid, j, pid, dep, rest)
    ensures Finishes(states, tid, k + j, pid, dep, rest)
  {
    AtExtends(part, states, k, j, tid, part[j].threads[tid]);
    AtExtends(part, states, k, j + 1, tid, Cascade(pid, rest));
  }

  lemma SkippedExtends(part: seq<State>, states: seq<State>, k: nat, tid: nat, d: string)
    requires k + |part| <= |states| && part == states[k..k + |part|] && WasSkipped(part, tid, d)
    ensures WasSkipped(states, tid, d)
  {
    var i: nat, pid: nat, rest :| Skips(part, tid, i, pid, d, rest);
    AtExtends(part, states, k, i, tid, Cascade(pid, [d] + rest));
    AtExtends(part, states, k, i + 1, tid, Cascade(pid, rest));
    assert Skips(states, tid, k + i, pid, d, rest);
  }

  lemma StoppedExtends(part: seq<State>, states: seq<State>, k: nat, tid: nat, d: string)
    requires k + |part| <= |states| && part == states[k..k + |part|] && WasStopped(part, tid, d)
    ensures WasStopped(states, tid, d)
  {
    var i: nat, j: nat, pid: nat, dep: nat, rest :| Stops(part, tid, i, j, pid, d, dep, rest);
    LooksUpExtends(part, states, k, tid, i, pid, d, dep, rest);
    FinishesExtends(part, states, k, tid, j, pid, dep, rest);
    assert Stops(states, tid, k + i, k + j, pid, d, dep, rest);
  }

  /** What happened in a stretch of the run happened in the run. */
  lemma HandledExtends(part: seq<State>, states: seq<State>, k: nat, tid: nat, d: string)
    requires k + |part| <= |states| && part == states[k..k + |part|] && Handled(part, tid, d)
    ensures Handled(states, tid, d)
  {
    if WasSkipped(part, tid, d) { SkippedExtends(part, states, k, tid, d); } else { StoppedExtends(part, states, k, tid, d); }
  }

  lemma AllExtend(part: seq<State>, states: seq<State>, k: nat, tid: nat, ds: seq<string>)
    requires k + |part| <= |states| && part == states[k..k + |part|] && AllHandled(part, tid, ds)
    ensures AllHandled(states, tid, ds)
  {
    forall d | d in ds ensures Handled(states, tid, d) { HandledExtends(part, states, k, tid, d); }
  }

  // ---- The loop ----

  /** Before the last state the process was looked up under d. */
  ghost predicate BusyWith(states: seq<State>, tid: nat, pid: nat, d: string, dep: nat, rest: seq<string>) {
    exists i: nat :: i + 1 < |states| && LooksUp(states, tid, i, pid, d, dep, rest)
  }

  /** How far the loop has come: the names before `done` are handled, the one being handled was looked up. */
  ghost predicate Progress(states: seq<State>, tid: nat, ds: seq<string>, t: Thread, done: nat) {
    && Looping(t) && done <= |ds|
    && AllHandled(states, tid, ds[..done])
    && if t.Cascade? then t.deps == ds[done..]
       else done < |ds| && t.deps == ds[done + 1..] && BusyWith(states, tid, t.pid, ds[done], t.dep, t.deps)
  }

  lemma BusyExtends(states: seq<State>, k: nat, tid: nat, pid: nat, d: string, dep: nat, rest: seq<string>)
    requires k <= |states| && BusyWith(states[..k], tid, pid, d, dep, rest)
    ensures BusyWith(states, tid, pid, d, dep, rest)
  {
    var i: nat :| i + 1 < k && LooksUp(states[..k], tid, i, pid, d, dep, rest);
    LooksUpExtends(states[..k], states, 0, tid, i, pid, d, dep, rest);
  }

  lemma ProgressExtends(states: seq<State>, k: nat, tid: nat, ds: seq<string>, t: Thread, done: nat)
    requires k <= |states| && Progress(states[..k], tid, ds, t, done)
    ensures Progress(states, tid, ds, t, done)
  {
    AllExtend(states[..k], states, 0, tid, ds[..done]);
    if !t.Cascade? { BusyExtends(states, k, tid, t.pid, ds[done], t.dep, t.deps); }
  }

  lemma OneMore(states: seq<State>, tid: nat, ds: seq<string>, done: nat)
    requires done < |ds| && AllHandled(states, tid, ds[..done]) && Handled(states, tid, ds[done])
    ensures AllHandled(states, tid, ds[..done + 1])
  {
    assert ds[..done + 1] == ds[..done] + [ds[done]];
  }

  /** The loop head: leaves, skips an unregistered name, or looks the next one up. */
  lemma HeadStep(states: seq<State>, tid: nat, ds: seq<string>, n: nat, c: Choice, done: nat) returns (done': nat)
    requires |states| == n + 2 && tid < |states[n].threads| && Next(states[n], Run(tid, c)) == Some(states[n + 1])
    requires states[n].threads[tid].Cascade? && Progress(states, tid, ds, states[n].threads[tid], done)
    ensures tid < |states[n + 1].threads|
    ensures var t' := states[n + 1].threads[tid];
      if Looping(t') then Progress(states, tid, ds, t', done') else AllHandled(states, tid, ds)
  {
    done' := done;
    var q, q', pid := states[n], states[n + 1], states[n].threads[tid].pid;
    if done == |ds| {
      assert ds[..done] == ds;
    } else {
      var d, rest := ds[done], ds[done + 1..];
      assert q.threads[tid].deps == [d] + rest;
      assert At(states, n, tid, Cascade(pid, [d] + rest));
      if d in q.names {
        assert At(states, n + 1, tid, Inspect(pid, q.names[d], rest));
        assert LooksUp(states, tid, n, pid, d, q.names[d], rest);
      } else {
        assert At(states, n + 1, tid, Cascade(pid, rest));
        assert Skips(states, tid, n, pid, d, rest);
        OneMore(states, tid, ds, done);
        done' := done + 1;
      }
    }
  }

  lemma BodyEffect(q: State, tid: nat, c: Choice, q': State)
    requires Next(q, Run(tid, c)) == Some(q') && tid < |q.threads| && (q.threads[tid].Inspect? || q.threads[tid].StopOne?)
    ensures tid < |q'.threads|
    ensures var t, t' := q.threads[tid], q'.threads[tid];
      t' == StopOne(t.pid, t.dep, t.deps) || (t' == Cascade(t.pid, t.deps) && DownOrTold(q', t.dep))
  {
  }

  /** The end of a turn of the loop. */
  lemma TurnEnds(states: seq<State>, tid: nat, n: nat, t: Thread, d: string)
    requires |states| == n + 2 && (t.Inspect? || t.StopOne?) && BusyWith(states, tid, t.pid, d, t.dep, t.deps)
    requires At(states, n, tid, t) && At(states, n + 1, tid, Cascade(t.pid, t.deps)) && DownOrTold(states[n + 1], t.dep)
    ensures Handled(states, tid, d)
  {
    var i: nat :| i + 1 < n + 2 && LooksUp(states, tid, i, t.pid, d, t.dep, t.deps);
    assert i != n;
    assert Stops(states, tid, i, n, t.pid, d, t.dep, t.deps);
  }

  lemma NextTurn(states: seq<State>, tid: nat, ds: seq<string>, t: Thread, done: nat)
    requires Progress(states, tid, ds, t, done) && !t.Cascade? && Handled(states, tid, ds[done])
    ensures Progress(states, tid, ds, Cascade(t.pid, t.deps), done + 1)
  {
    OneMore(states, tid, ds, done);
  }

  /** The loop body: the dependent is found stopped, or is about to be told, or is told. */
  lemma BodyStep(states: seq<State>, tid: nat, ds: seq<string>, n: nat, t: Thread, t': Thread, done: nat) returns (done': nat)
    requires |states| == n + 2 && At(states, n, tid, t) && At(states, n + 1, tid, t')
    requires !t.Cascade? && Progress(states, tid, ds, t, done)
    requires t' == StopOne(t.pid, t.dep, t.deps) || (t' == Cascade(t.pid, t.deps) && DownOrTold(states[n + 1], t.dep))
    ensures Progress(states, tid, ds, t', done')
  {
    done' := done;
    if t'.Cascade? {
      TurnEnds(states, tid, n, t, ds[done]);
      NextTurn(states, tid, ds, t, done);
      done' := done + 1;
    }
  }

  /** The thread is in its loop in each of the first k states. */
  ghost predicate StaysInLoop(states: seq<State>, tid: nat, k: nat)
    requires k <= |states|
  {
    forall i :: 0 <= i < k ==> tid < |states[i].threads| && Looping(states[i].threads[tid])
  }

  lemma LoopStep(states: seq<State>, n: nat, l: Label, tid: nat, ds: seq<string>, done: nat) returns (done': nat)
    requires |states| == n + 2 && Next(states[n], l) == Some(states[n + 1])
    requires tid < |states[n].threads| && Progress(states[..n + 1], tid, ds, states[n].threads[tid], done)
    ensures tid < |states[n + 1].threads|
    ensures var t' := states[n + 1].threads[tid];
      if Looping(t') then Progress(states, tid, ds, t', done') else AllHandled(states, tid, ds)
  {
    var q, q' := states[n], states[n + 1];
    ProgressExtends(states, n + 1, tid, ds, q.threads[tid], done);
    NextKeepsSpecs(q, l, q');
    done' := done;
    if !(l.Run? && l.tid == tid) {
      NextThreads(q, l, q');
      assert q'.threads[tid] == q.threads[tid];
    } else if q.threads[tid].Cascade? {
      done' := HeadStep(states, tid, ds, n, l.choice, done);
    } else {
      BodyEffect(q, tid, l.choice, q');
      done' := BodyStep(states, tid, ds, n, q.threads[tid], q'.threads[tid], done);
    }
  }

  /** As long as the thread has not left its loop it makes progress; when it leaves, everything is handled. */
  lemma {:induction false} LoopProgress(states: seq<State>, ls: seq<Label>, tid: nat, ds: seq<string>) returns (done: nat)
    requires IsRun(states, ls) && StaysInLoop(states, tid, |ls|) && tid < |states[0].threads|
    requires states[0].threads[tid].Cascade? && states[0].threads[tid].deps == ds
    ensures tid < |states[|ls|].threads|
    ensures var t := states[|ls|].threads[tid];
      if Looping(t) then Progress(states, tid, ds, t, done) else AllHandled(states, tid, ds)
    decreases |ls|
  {
    if ls == [] {
      return 0;
    }
    var n := |ls| - 1;
    done := LoopProgress(states[..n + 1], ls[..n], tid, ds);
    assert Next(states[n], ls[n]) == Some(states[n + 1]);
    done := LoopStep(states, n, ls[n], tid, ds, done);
  }

  /** The first state in which the thread is no longer in its loop. */
  lemma LeavesLoop(states: seq<State>, ls: seq<Label>, tid: nat) returns (k: nat)
    requires IsRun(states, ls) && tid < |states[0].threads| && Looping(states[0].threads[tid])
    requires tid < |states[|ls|].threads| && !Looping(states[|ls|].threads[tid])
    ensures k <= |ls| && StaysInLoop(states, tid, k) && tid < |states[k].threads| && !Looping(states[k].threads[tid])
  {
    k := 0;
    while Looping(states[k].threads[tid])
      invariant k <= |ls| && StaysInLoop(states, tid, k) && tid < |states[k].threads|
      decreases |ls| - k
    {
      assert k < |ls| && Next(states[k], ls[k]) == Some(states[k + 1]);
      NextKeepsSpecs(states[k], ls[k], states[k + 1]);
      k := k + 1;
    }
  }

  /**
   * In every run in which a handler enters its loop with a list of dependents and later leaves it, it
   * came to each of them by a step of its own, and either did not find it registered or found a process
   * and left it stopped or told to stop, whatever the other goroutines and API calls did meanwhile.
   */
  lemma CascadeHandlesAll(states: seq<State>, ls: seq<Label>, tid: nat, ds: seq<string>)
    requires IsRun(states, ls) && tid < |states[0].threads|
    requires states[0].threads[tid].Cascade? && states[0].threads[tid].deps == ds
    requires tid < |states[|ls|].threads| && !Looping(states[|ls|].threads[tid])
    ensures AllHandled(states, tid, ds)
  {
    var k := LeavesLoop(states, ls, tid);
    var done := LoopProgress(states[..k + 1], ls[..k], tid, ds);
    AllExtend(states[..k + 1], states, 0, tid, ds);
  }

  // ---- From the listing to the end of the loop ----

  /** The run starts with the step in which the failing handler lists its tunnel's dependents. */
  ghost predicate StartsListing(states: seq<State>, ls: seq<Label>, tid: nat, pid: nat, name: string) {
    && IsRun(states, ls) && ls != [] && ls[0].Run? && ls[0].tid == tid
    && tid < |states[0].threads| && states[0].threads[tid] == ListDependents(pid)
    && pid < |states[0].slots| && name == ProcOf(states[0], pid).spec.name
  }

  lemma TailIsRun(states: seq<State>, ls: seq<Label>)
    requires IsRun(states, ls) && ls != []
    ensures IsRun(states[1..], ls[1..]) && Next(states[0], ls[0]) == Some(states[1])
  {
    var rest := states[1..];
    assert Next(states[0], ls[0]) == Some(states[1]);
    forall i, j | 0 <= i && j == i + 1 && j < |rest| ensures Next(rest[i], ls[1..][i]) == Some(rest[j]) {
      assert Next(states[i + 1], ls[i + 1]) == Some(states[j + 1]);
    }
  }

  lemma HandledAfterListing(states: seq<State>, ls: seq<Label>, tid: nat, ds: seq<string>, x: string)
    requires IsRun(states, ls) && ls != [] && tid < |states[1].threads|
    requires states[1].threads[tid].Cascade? && states[1].threads[tid].deps == ds && x in ds
    requires tid < |states[|ls|].threads| && !Looping(states[|ls|].threads[tid])
    ensures Handled(states, tid, x)
  {
    var rest := states[1..];
    TailIsRun(states, ls);
    assert rest[0] == states[1] && rest[|ls[1..]|] == states[|ls|];
    CascadeHandlesAll(rest, ls[1..], tid, ds);
    assert Handled(rest, tid, x) && |rest| == |ls|;
    HandledExtends(rest, states, 1, tid, x);
  }

  /**
   * Cascade: in every run from a handler's listing to after its loop, the handler came to every tunnel that
   * at the listing was registered and depended on the failed one, directly or indirectly, even one that
   * was down then and was started meanwhile, and did not find it registered or left its process stopped or
   * told to stop. The latest Plan must have built the whole graph.
   */
  lemma CascadeCovers(states: seq<State>, ls: seq<Label>, tid: nat, pid: nat, name: string, x: string)
    requires StartsListing(states, ls, tid, pid, name) && WellNamed(states[0]) && states[0].current
    requires tid < |states[|ls|].threads| && !Looping(states[|ls|].threads[tid])
    requires x in states[0].names && x != name && Reaches(DepEdges(PlannerSpecs(states[0])), name, x)
    ensures Handled(states, tid, x)
  {
    TailIsRun(states, ls);
    ListIsComplete(states[0], tid, ls[0].choice, states[1], pid, name);
    NextKeepsSpecs(states[0], ls[0], states[1]);
    HandledAfterListing(states, ls, tid, ls[0].choice.deps, x);
  }

  /**
   * And it stops nothing else: whenever the handler is about to stop a process in its loop, it looked that
   * process up, after the listing, under a name that the planned graph reached from the failed tunnel.
   */
  lemma CascadeStopsOnlyPlanned(states: seq<State>, ls: seq<Label>, tid: nat, pid: nat, name: string)
    returns (x: string, i: nat)
    requires StartsListing(states, ls, tid, pid, name)
    requires StaysInLoop(states[1..], tid, |ls|) && states[|ls|].threads[tid].StopOne?
    ensures x in states[0].indexed && x != name && Reaches(states[0].graph, name, x)
    ensures var t := states[|ls|].threads[tid];
      0 < i < |ls| && LooksUp(states, tid, i, t.pid, x, t.dep, t.deps)
  {
    TailIsRun(states, ls);
    ListIsPlanned(states[0], tid, ls[0].choice, states[1], pid, name);
    var ds, t := states[1].threads[tid].deps, states[|ls|].threads[tid];
    assert states[1..][0] == states[1];
    var done := LoopProgress(states[1..], ls[1..], tid, ds);
    x := ds[done];
    var k: nat :| k + 1 < |states[1..]| && LooksUp(states[1..], tid, k, t.pid, x, t.dep, t.deps);
    LooksUpExtends(states[1..], states, 1, tid, k, t.pid, x, t.dep, t.deps);
    i := 1 + k;
  }
}
