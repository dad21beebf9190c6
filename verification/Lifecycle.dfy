/**
 * Failure handling as a system of interleaved steps. Every monitor goroutine of startAndNotify, with
 * the handleFailure it ends in, is a thread; each block that holds one lock is one step. Process
 * objects are slots, found by name through the process map, so a handler may hold a process that has
 * been removed or replaced since.
 */
module Lifecycle {
  import opened Basics
  import opened Proto
  import opened Graphs
  import opened Traversal
  import opened Planning
  import opened Processes

  /** What a goroutine does next; `pid` is the process object it holds. */
  datatype Thread =
    | Done
    | Watch(pid: nat)                                     // select loop, supervisor.go:334
    | MarkRunning(pid: nat)                               // a healthy check found another status, 352
    | ResetAttempts(pid: nat)                             // 356
    | MarkFailed(pid: nat)                                // health timeout, 362
    | Report(name: string)                                // handleFailure's lookup by name, 376
    | CheckExpected(pid: nat)                             // 384
    | ListDependents(pid: nat)                            // 391
    | Cascade(pid: nat, deps: seq<string>)                // loop head and lookup, 394-396
    | Inspect(pid: nat, dep: nat, deps: seq<string>)      // reads the dependent's status, 398
    | StopOne(pid: nat, dep: nat, deps: seq<string>)      // depP.Stop(), 400
    | CheckBudget(pid: nat)                               // 406-412
    | GiveUp(pid: nat)                                    // 414
    | Increment(pid: nat)                                 // 434
    | Sleep(pid: nat)                                     // 435
    | Begin(pid: nat)                                     // Start's guarded block, process.go:111-117
    | Spawn(pid: nat)                                     // the rest of Start, process.go:119-179

  /** A process object, its live children and the exit messages nobody has received yet. */
  datatype Slot = Slot(proc: Proc, children: nat, exits: nat)

  /**
   * `pending` are the configured specs that Run has planned and not registered yet. `graph` and `indexed`
   * are the planner's; `current` says that its latest Plan built the whole graph.
   */
  datatype State = State(
    slots: seq<Slot>, names: map<string, nat>, threads: seq<Thread>, pending: Specs,
    graph: set<(string, string)>, indexed: set<string>, current: bool)

  datatype Choice = Go | Exit | Healthy | TimedOut | Deps(deps: seq<string>) | SpawnFails

  datatype Label =
    | Run(tid: nat, choice: Choice)
    | ChildExit(pid: nat, clean: bool)
    | StopReceives(pid: nat)                              // a Stop in progress takes the exit message
    | ApiStart(name: string)                              // a start of StartTunnel, EnableTunnel, or Update with an unchanged spec
    | ApiStop(name: string)                               // StopTunnel or DisableTunnel
    | Configure(specs: Specs)                             // Run's Plan, supervisor.go:54
    | RegisterNext(name: string)                          // one turn of Run's registration loop, 69-79
    | Register(spec: TunnelSpec)                          // an accepted AddTunnel
    | RejectAdd(spec: TunnelSpec, graph: set<(string, string)>)   // AddTunnel with a Plan that failed
    | Unregister(name: string)                            // RemoveTunnel

  function SetProc(s: State, pid: nat, p: Proc): State
    requires pid < |s.slots|
  {
    s.(slots := s.slots[pid := s.slots[pid].(proc := p)])
  }

  function ProcOf(s: State, pid: nat): Proc
    requires pid < |s.slots|
  {
    s.slots[pid].proc
  }

  ghost function RegSpecs(s: State): Specs {
    map n | n in s.names && s.names[n] < |s.slots| :: ProcOf(s, s.names[n]).spec
  }

  /** The planner's specs: the registered ones and those that Run has yet to register. */
  ghost function PlannerSpecs(s: State): Specs {
    s.pending + RegSpecs(s)
  }

  ghost predicate EnumeratesDependents(s: State, name: string, ds: seq<string>) {
    Distinct(ds) && forall x :: x in ds <==> x in s.indexed && x != name && Reaches(s.graph, name, x)
  }

  /** What a thread's step does: go on as another thread, and perhaps write one slot. */
  datatype Effect = Disabled | To(thread: Thread) | Write(thread: Thread, slot: nat, content: Slot)

  ghost function WriteProc(s: State, t: Thread, pid: nat, p: Proc): Effect
    requires pid < |s.slots|
  {
    Write(t, pid, s.slots[pid].(proc := p))
  }

  ghost function EffectOf(s: State, t: Thread, c: Choice): Effect {
    match t
    case Done => Disabled
    case Report(name) => To(if name in s.names then CheckExpected(s.names[name]) else Done)
    case Inspect(pid, dep, deps) =>
      if dep >= |s.slots| then Disabled
      else To(if ProcOf(s, dep).status.Stopped? then Cascade(pid, deps) else StopOne(pid, dep, deps))
    case StopOne(pid, dep, deps) =>
      if dep >= |s.slots| then Disabled else WriteProc(s, Cascade(pid, deps), dep, ProcOf(s, dep).WantStopped())
    case _ => if t.pid < |s.slots| then EffectOn(s, t, c, s.slots[t.pid], ProcOf(s, t.pid)) else Disabled
  }

  /** The steps that concern the process the thread holds. */
  ghost function EffectOn(s: State, t: Thread, c: Choice, slot: Slot, p: Proc): Effect
    requires !t.Done? && !t.Report? && !t.Inspect? && !t.StopOne?
    requires t.pid < |s.slots| && slot == s.slots[t.pid] && p == slot.proc
  {
    match t
    case Watch(pid) =>
      if c.Exit? && slot.exits > 0 then Write(Report(p.spec.name), pid, slot.(exits := slot.exits - 1))
      else if c.Healthy? then To(if p.status.Running? then t else MarkRunning(pid))
      else if c.TimedOut? then To(MarkFailed(pid))
      else Disabled
    case MarkRunning(pid) => WriteProc(s, ResetAttempts(pid), pid, p.WithStatus(Running))
    case ResetAttempts(pid) => WriteProc(s, Watch(pid), pid, p.(attempts := 0))
    case MarkFailed(pid) => WriteProc(s, Report(p.spec.name), pid, p.WithStatus(Failed))
    case CheckExpected(pid) => To(if p.WantsDown() then Done else ListDependents(pid))
    case ListDependents(pid) =>
      if p.spec.name !in s.indexed then To(CheckBudget(pid))
      else if c.Deps? && EnumeratesDependents(s, p.spec.name, c.deps) then To(Cascade(pid, c.deps))
      else Disabled
    case Cascade(pid, deps) =>
      if deps == [] then To(CheckBudget(pid))
      else if deps[0] in s.names then To(Inspect(pid, s.names[deps[0]], deps[1..]))
      else To(Cascade(pid, deps[1..]))
    case CheckBudget(pid) =>
      To(if NeverRestarts(p.spec) then Done
         else if BudgetSpent(p.spec, p.attempts) then GiveUp(pid) else Increment(pid))
    case GiveUp(pid) => WriteProc(s, Done, pid, p.WithStatus(Failed))
    case Increment(pid) => WriteProc(s, Sleep(pid), pid, p.(attempts := p.attempts + 1))
    case Sleep(pid) => To(Begin(pid))
    case Begin(pid) => if p.MayStart() then WriteProc(s, Spawn(pid), pid, p.WantRunning()) else To(Done)
    case Spawn(pid) =>
      if c.SpawnFails? then To(Done)
      else Write(Watch(pid), pid, Slot(p.WithStatus(Starting), slot.children + 1, slot.exits))
  }

  ghost function Advance(s: State, tid: nat, c: Choice): Option<State>
    requires tid < |s.threads|
  {
    match EffectOf(s, s.threads[tid], c)
    case Disabled => None
    case To(t) => Some(s.(threads := s.threads[tid := t]))
    case Write(t, q, content) =>
      if q < |s.slots| then Some(s.(threads := s.threads[tid := t], slots := s.slots[q := content])) else None
  }

  /** A new process object under the spec's name, about to be started. */
  ghost function AddProcess(s: State, spec: TunnelSpec): State {
    s.(slots := s.slots + [Slot(NewProc(spec), 0, 0)], names := s.names[spec.name := |s.slots|],
       threads := s.threads + [Begin(|s.slots|)])
  }

  /** The label registers that spec: a turn of Run's loop or an accepted AddTunnel. */
  ghost predicate Registers(s: State, l: Label, spec: TunnelSpec) {
    l == Register(spec) || (l.RegisterNext? && l.name in s.pending && spec == s.pending[l.name])
  }

  /** What a failed Plan leaves in the graph: everything when it found a cycle, part of it otherwise. */
  ghost predicate LeftByPlan(specs: Specs, graph: set<(string, string)>) {
    if Closed(specs) then graph == DepEdges(specs) else exists n, missing :: PartialBuild(specs, graph, n, missing)
  }

  ghost function Next(s: State, l: Label): Option<State> {
    match l
    case Run(tid, c) => if tid < |s.threads| then Advance(s, tid, c) else None
    case ChildExit(pid, clean) =>
      if pid < |s.slots| && s.slots[pid].children > 0 then
        var slot := s.slots[pid];
        Some(s.(slots := s.slots[pid := Slot(slot.proc.WithStatus(if clean then Stopped else Failed),
                                             slot.children - 1, slot.exits + 1)]))
      else None
    case StopReceives(pid) =>
      if pid < |s.slots| && s.slots[pid].exits > 0
      then Some(s.(slots := s.slots[pid := s.slots[pid].(exits := s.slots[pid].exits - 1)])) else None
    case ApiStart(name) =>
      if name in s.names then Some(s.(threads := s.threads + [Begin(s.names[name])])) else None
    case ApiStop(name) =>
      if name in s.names && s.names[name] < |s.slots|
      then Some(SetProc(s, s.names[name], ProcOf(s, s.names[name]).WantStopped())) else None
    case Configure(specs) =>
      if s.names == map[] && s.pending == map[] && Keyed(specs) && Plannable(specs)
      then Some(s.(pending := specs, graph := DepEdges(specs), indexed := specs.Keys, current := true)) else None
    case RegisterNext(name) =>
      if name in s.pending then Some(AddProcess(s, s.pending[name]).(pending := s.pending - {name})) else None
    case Register(spec) =>
      var specs := PlannerSpecs(s)[spec.name := spec];
      if spec.name !in PlannerSpecs(s) && Plannable(specs)
      then Some(AddProcess(s, spec).(graph := DepEdges(specs), indexed := specs.Keys, current := true)) else None
    case RejectAdd(spec, graph) =>
      var specs := PlannerSpecs(s)[spec.name := spec];
      if spec.name !in PlannerSpecs(s) && !Plannable(specs) && LeftByPlan(specs, graph)
      then Some(s.(graph := graph, indexed := specs.Keys, current := Closed(specs))) else None
    case Unregister(name) =>
      if name in s.names && s.names[name] < |s.slots|
      then Some(SetProc(s, s.names[name], ProcOf(s, s.names[name]).WantStopped()).(names := s.names - {name})) else None
  }

  /** Runs are label sequences whose every step is enabled. */
  ghost function Exec(s: State, ls: seq<Label>): Option<State> {
    if ls == [] then Some(s)
    else
      var q := Exec(s, ls[..|ls| - 1]);
      if q.None? then None else Next(q.value, ls[|ls| - 1])
  }

  /** The restart policy would let the process be restarted now. */
  ghost predicate PassesBudget(s: State, pid: nat) {
    pid < |s.slots|
    && !NeverRestarts(ProcOf(s, pid).spec) && !BudgetSpent(ProcOf(s, pid).spec, ProcOf(s, pid).attempts)
  }

  // ---- Well-formedness: slots stay, names lead to the process registered under them ----

  ghost predicate NamesLead(s: State) {
    forall n :: n in s.names ==> s.names[n] < |s.slots| && ProcOf(s, s.names[n]).spec.name == n
  }

  ghost predicate WellNamed(s: State) {
    && NamesLead(s) && Keyed(s.pending) && (forall n :: n in s.pending ==> n !in s.names)
    && (s.current ==> Covers(s.graph, s.indexed, PlannerSpecs(s)))
  }

  /** The planner's graph knows every dependency of the specs. */
  ghost predicate Covers(graph: set<(string, string)>, indexed: set<string>, specs: Specs) {
    DepEdges(specs) <= graph && specs.Keys <= indexed && forall d, n :: (d, n) in graph ==> d in indexed
  }

  lemma PlanCovers(specs: Specs)
    requires Closed(specs)
    ensures Covers(DepEdges(specs), specs.Keys, specs)
  {
  }

  lemma CoversFewer(graph: set<(string, string)>, indexed: set<string>, specs: Specs, fewer: Specs)
    requires Covers(graph, indexed, specs) && forall n :: n in fewer ==> n in specs && fewer[n] == specs[n]
    ensures Covers(graph, indexed, fewer)
  {
    assert DepEdges(fewer) <= DepEdges(specs);
  }

  /** Slots only ever appear, and keep their spec. */
  ghost predicate SameSpecs(s: State, s': State) {
    |s.slots| <= |s'.slots| && forall q :: 0 <= q < |s.slots| ==> ProcOf(s', q).spec == ProcOf(s, q).spec
  }

  /** Steps that touch neither the process map nor the planner. */
  ghost predicate SameRegistry(s: State, s': State) {
    s'.names == s.names && s'.pending == s.pending && s'.graph == s.graph && s'.indexed == s.indexed && s'.current == s.current
  }

  lemma EffectKeepsSpec(s: State, t: Thread, c: Choice)
    ensures var e := EffectOf(s, t, c);
      e.Write? ==> e.slot < |s.slots| && e.content.proc.spec == ProcOf(s, e.slot).spec
  {
  }

  lemma AdvanceKeepsSpecs(s: State, tid: nat, c: Choice, s': State)
    requires tid < |s.threads| && Advance(s, tid, c) == Some(s')
    ensures SameSpecs(s, s') && SameRegistry(s, s') && |s.threads| == |s'.threads|
    ensures forall k :: 0 <= k < |s.threads| && k != tid ==> s'.threads[k] == s.threads[k]
  {
    EffectKeepsSpec(s, s.threads[tid], c);
  }

  lemma NextKeepsSpecs(s: State, l: Label, s': State)
    requires Next(s, l) == Some(s')
    ensures SameSpecs(s, s') && |s.threads| <= |s'.threads|
    ensures !l.Configure? && !l.RegisterNext? && !l.Register? && !l.RejectAdd? && !l.Unregister? ==> SameRegistry(s, s')
  {
    if l.Run? { AdvanceKeepsSpecs(s, l.tid, l.choice, s'); }
  }

  lemma {:induction false} ExecKeepsSpecs(s: State, ls: seq<Label>, end: State)
    requires Exec(s, ls) == Some(end)
    ensures SameSpecs(s, end)
    decreases |ls|
  {
    if ls != [] {
      var q := Exec(s, ls[..|ls| - 1]).value;
      ExecKeepsSpecs(s, ls[..|ls| - 1], q);
      NextKeepsSpecs(q, ls[|ls| - 1], end);
    }
  }

  lemma SameRegistryWellNamed(s: State, s': State)
    requires WellNamed(s) && SameSpecs(s, s') && SameRegistry(s, s')
    ensures WellNamed(s')
  {
    assert RegSpecs(s') == RegSpecs(s);
  }

  lemma AddProcessSpecs(s: State, spec: TunnelSpec, s': State)
    requires NamesLead(s) && spec.name !in s.names
    requires s'.slots == AddProcess(s, spec).slots && s'.names == AddProcess(s, spec).names
    ensures NamesLead(s') && RegSpecs(s') == RegSpecs(s)[spec.name := spec]
  {
  }

  lemma MergeOne(pending: Specs, registered: Specs, name: string, spec: TunnelSpec)
    requires name !in registered
    ensures pending + registered[name := spec] == (pending + registered)[name := spec]
    ensures name in pending && pending[name] == spec ==> pending - {name} + registered[name := spec] == pending + registered
  {
  }

  lemma RegisterWellNamed(s: State, spec: TunnelSpec, s': State)
    requires WellNamed(s) && Next(s, Register(spec)) == Some(s')
    ensures WellNamed(s') && PlannerSpecs(s') == PlannerSpecs(s)[spec.name := spec]
  {
    AddProcessSpecs(s, spec, s');
    MergeOne(s.pending, RegSpecs(s), spec.name, spec);
    PlanCovers(PlannerSpecs(s)[spec.name := spec]);
  }

  lemma RegisterNextWellNamed(s: State, name: string, s': State)
    requires WellNamed(s) && Next(s, RegisterNext(name)) == Some(s')
    ensures WellNamed(s') && PlannerSpecs(s') == PlannerSpecs(s)
  {
    assert name !in s.names;
    AddProcessSpecs(s, s.pending[name], s');
    MergeOne(s.pending, RegSpecs(s), name, s.pending[name]);
  }

  lemma RemoveProcessSpecs(s: State, name: string, s': State)
    requires NamesLead(s) && Next(s, Unregister(name)) == Some(s')
    ensures NamesLead(s') && forall n :: n in RegSpecs(s') ==> n in RegSpecs(s) && RegSpecs(s')[n] == RegSpecs(s)[n]
  {
    NextKeepsSpecs(s, Unregister(name), s');
  }

  lemma UnregisterWellNamed(s: State, name: string, s': State)
    requires WellNamed(s) && Next(s, Unregister(name)) == Some(s')
    ensures WellNamed(s')
  {
    RemoveProcessSpecs(s, name, s');
    assert s'.pending == s.pending && forall n :: n in RegSpecs(s) ==> n !in s.pending;
    if s.current { CoversFewer(s.graph, s.indexed, PlannerSpecs(s), PlannerSpecs(s')); }
  }

  lemma RejectWellNamed(s: State, spec: TunnelSpec, graph: set<(string, string)>, s': State)
    requires WellNamed(s) && Next(s, RejectAdd(spec, graph)) == Some(s')
    ensures WellNamed(s')
  {
    var specs := PlannerSpecs(s)[spec.name := spec];
    assert RegSpecs(s') == RegSpecs(s);
    if Closed(specs) {
      PlanCovers(specs);
      CoversFewer(graph, specs.Keys, specs, PlannerSpecs(s));
    }
  }

  lemma ConfigureWellNamed(s: State, specs: Specs, s': State)
    requires WellNamed(s) && Next(s, Configure(specs)) == Some(s')
    ensures WellNamed(s')
  {
    PlanCovers(specs);
    assert PlannerSpecs(s') == specs;
  }

  lemma NextKeepsWellNamed(s: State, l: Label, s': State)
    requires WellNamed(s) && Next(s, l) == Some(s')
    ensures WellNamed(s')
  {
    NextKeepsSpecs(s, l, s');
    match l
    case Configure(specs) => ConfigureWellNamed(s, specs, s');
    case RegisterNext(name) => RegisterNextWellNamed(s, name, s');
    case Register(spec) => RegisterWellNamed(s, spec, s');
    case Unregister(name) => UnregisterWellNamed(s, name, s');
    case RejectAdd(spec, graph) => RejectWellNamed(s, spec, graph, s');
    case _ => SameRegistryWellNamed(s, s');
  }

  lemma {:induction false} ExecKeepsWellNamed(s: State, ls: seq<Label>)
    requires WellNamed(s) && Exec(s, ls).Some?
    ensures WellNamed(Exec(s, ls).value)
    decreases |ls|
  {
    if ls != [] {
      ExecKeepsWellNamed(s, ls[..|ls| - 1]);
      NextKeepsWellNamed(Exec(s, ls[..|ls| - 1]).value, ls[|ls| - 1], Exec(s, ls).value);
    }
  }

  // ---- What a step does to a process, status by status ----

  /** The thread that takes the step, if it is a step of a thread. */
  ghost predicate Takes(s: State, l: Label, t: Thread) {
    l.Run? && l.tid < |s.threads| && s.threads[l.tid] == t
  }

  lemma EffectStatus(s: State, t: Thread, c: Choice, q: nat)
    requires q < |s.slots| && EffectOf(s, t, c).Write? && EffectOf(s, t, c).slot == q
    ensures EffectOf(s, t, c).content.proc.status ==
      if t == MarkRunning(q) then Running
      else if t == MarkFailed(q) || t == GiveUp(q) then Failed
      else if t == Spawn(q) then Starting
      else ProcOf(s, q).status
  {
  }

  lemma EffectMarks(s: State, t: Thread, c: Choice, q: nat)
    requires q < |s.slots| && !EffectOf(s, t, c).Disabled?
    ensures t == MarkRunning(q) || t == MarkFailed(q) || t == GiveUp(q) || (t == Spawn(q) && !c.SpawnFails?) ==>
      EffectOf(s, t, c).Write? && EffectOf(s, t, c).slot == q
    ensures t == Spawn(q) && c.SpawnFails? ==> EffectOf(s, t, c).To?
  {
  }

  /** Every step's effect on a status: who sets it, and to what. */
  lemma StatusExactly(s: State, l: Label, s': State, q: nat)
    requires Next(s, l) == Some(s') && q < |s.slots|
    ensures q < |s'.slots|
    ensures ProcOf(s', q).status ==
      if l.ChildExit? && l.pid == q then (if l.clean then Stopped else Failed)
      else if Takes(s, l, MarkRunning(q)) then Running
      else if Takes(s, l, MarkFailed(q)) || Takes(s, l, GiveUp(q)) then Failed
      else if Takes(s, l, Spawn(q)) && !l.choice.SpawnFails? then Starting
      else ProcOf(s, q).status
  {
    NextKeepsSpecs(s, l, s');
    if l.Run? {
      var t := s.threads[l.tid];
      EffectMarks(s, t, l.choice, q);
      if EffectOf(s, t, l.choice).Write? && EffectOf(s, t, l.choice).slot == q { EffectStatus(s, t, l.choice, q); }
    }
  }

  lemma EffectChildren(s: State, t: Thread, c: Choice, q: nat)
    requires q < |s.slots| && EffectOf(s, t, c).Write? && EffectOf(s, t, c).slot == q
    ensures EffectOf(s, t, c).content.children == s.slots[q].children + if t == Spawn(q) then 1 else 0
    ensures EffectOf(s, t, c).content.exits + (if t == Watch(q) then 1 else 0) == s.slots[q].exits
  {
  }

  lemma EffectReceives(s: State, t: Thread, c: Choice, q: nat)
    requires q < |s.slots| && t == Watch(q) && !EffectOf(s, t, c).Disabled?
    ensures c.Exit? <==> EffectOf(s, t, c).Write?
    ensures c.Exit? ==> EffectOf(s, t, c).slot == q && EffectOf(s, t, c).thread == Report(ProcOf(s, q).spec.name)
  {
  }

  /** A command launched is one more live child; an exit turns a child into a message, which one reader takes. */
  lemma ChildrenExactly(s: State, l: Label, s': State, q: nat)
    requires Next(s, l) == Some(s') && q < |s.slots|
    ensures q < |s'.slots|
    ensures s'.slots[q].children + (if l.ChildExit? && l.pid == q then 1 else 0)
         == s.slots[q].children + if Takes(s, l, Spawn(q)) && !l.choice.SpawnFails? then 1 else 0
    ensures s'.slots[q].exits
          + (if (l.StopReceives? && l.pid == q) || (Takes(s, l, Watch(q)) && l.choice.Exit?) then 1 else 0)
         == s.slots[q].exits + if l.ChildExit? && l.pid == q then 1 else 0
  {
    NextKeepsSpecs(s, l, s');
    if l.Run? {
      var t := s.threads[l.tid];
      EffectMarks(s, t, l.choice, q);
      if t == Watch(q) { EffectReceives(s, t, l.choice, q); }
      if EffectOf(s, t, l.choice).Write? && EffectOf(s, t, l.choice).slot == q { EffectChildren(s, t, l.choice, q); }
    }
  }

  lemma EffectExpected(s: State, t: Thread, c: Choice, q: nat)
    requires q < |s.slots| && EffectOf(s, t, c).Write? && EffectOf(s, t, c).slot == q
    ensures EffectOf(s, t, c).content.proc.expected ==
      if t == Begin(q) then DesiredRunning
      else if t.StopOne? && t.dep == q then DesiredStopped
      else ProcOf(s, q).expected
    ensures EffectOf(s, t, c).content.proc.attempts ==
      if t == ResetAttempts(q) then 0
      else if t == Increment(q) then ProcOf(s, q).attempts + 1
      else ProcOf(s, q).attempts
  {
  }

  lemma EffectWrites(s: State, t: Thread, c: Choice, q: nat)
    requires q < |s.slots| && !EffectOf(s, t, c).Disabled?
    ensures t == ResetAttempts(q) || t == Increment(q) || (t.StopOne? && t.dep == q) ==>
      EffectOf(s, t, c).Write? && EffectOf(s, t, c).slot == q
    ensures t == Begin(q) ==>
      if ProcOf(s, q).status.Stopped? || ProcOf(s, q).status.Failed?
      then EffectOf(s, t, c).Write? && EffectOf(s, t, c).slot == q && EffectOf(s, t, c).thread == Spawn(q)
      else EffectOf(s, t, c) == To(Done)
  {
  }

  /** The step begins a start of the process that its guard lets through. */
  ghost predicate Begins(s: State, l: Label, q: nat)
    requires q < |s.slots|
  {
    Takes(s, l, Begin(q)) && (ProcOf(s, q).status.Stopped? || ProcOf(s, q).status.Failed?)
  }

  /** The step stops the process: through its name, or as another handler's dependent. */
  ghost predicate ToldToStop(s: State, l: Label, q: nat) {
    || ((l.ApiStop? || l.Unregister?) && l.name in s.names && s.names[l.name] == q)
    || (l.Run? && l.tid < |s.threads| && s.threads[l.tid].StopOne? && s.threads[l.tid].dep == q)
  }

  /** Every step's effect on the expected state and on the restart counter. */
  lemma ExpectedExactly(s: State, l: Label, s': State, q: nat)
    requires Next(s, l) == Some(s') && q < |s.slots|
    ensures q < |s'.slots|
    ensures ProcOf(s', q).expected ==
      if Begins(s, l, q) then DesiredRunning else if ToldToStop(s, l, q) then DesiredStopped else ProcOf(s, q).expected
    ensures ProcOf(s', q).attempts ==
      if Takes(s, l, ResetAttempts(q)) then 0
      else ProcOf(s, q).attempts + if Takes(s, l, Increment(q)) then 1 else 0
  {
    NextKeepsSpecs(s, l, s');
    if l.Run? {
      var t := s.threads[l.tid];
      EffectWrites(s, t, l.choice, q);
      if EffectOf(s, t, l.choice).Write? && EffectOf(s, t, l.choice).slot == q { EffectExpected(s, t, l.choice, q); }
    }
  }

  // ---- Building runs ----

  lemma ExecOne(s: State, ls: seq<Label>, l: Label)
    requires Exec(s, ls).Some?
    ensures Exec(s, ls + [l]) == Next(Exec(s, ls).value, l)
  {
    assert (ls + [l])[..|ls + [l]| - 1] == ls;
  }

  lemma ExecFirst(s: State, l: Label)
    ensures Exec(s, [l]) == Next(s, l)
  {
    ExecOne(s, [], l);
    assert [] + [l] == [l];
  }

  lemma {:induction false} ExecConcat(s: State, a: seq<Label>, b: seq<Label>)
    requires Exec(s, a).Some?
    ensures Exec(s, a + b) == Exec(Exec(s, a).value, b)
    decreases |b|
  {
    if b == [] {
      assert a + b == a;
    } else {
      ExecConcat(s, a, b[..|b| - 1]);
      assert (a + b)[..|a + b| - 1] == a + b[..|b| - 1];
    }
  }

  lemma NextThreads(s: State, l: Label, s': State)
    requires Next(s, l) == Some(s')
    ensures l.Run? ==>
      l.tid < |s.threads| && !EffectOf(s, s.threads[l.tid], l.choice).Disabled?
      && s'.threads == s.threads[l.tid := EffectOf(s, s.threads[l.tid], l.choice).thread]
    ensures !l.Run? ==>
      s'.threads == match l
                    case ApiStart(name) => if name in s.names then s.threads + [Begin(s.names[name])] else s.threads
                    case RegisterNext(_) => s.threads + [Begin(|s.slots|)]
                    case Register(_) => s.threads + [Begin(|s.slots|)]
                    case _ => s.threads
  {
  }

  // ---- Threads hold process objects that exist ----

  ghost predicate Known(s: State, t: Thread) {
    t.Done? || t.Report? || (t.pid < |s.slots| && (t.Inspect? || t.StopOne? ==> t.dep < |s.slots|))
  }

  ghost predicate ThreadsKnown(s: State) {
    forall k :: 0 <= k < |s.threads| ==> Known(s, s.threads[k])
  }

  lemma EffectKnown(s: State, t: Thread, c: Choice)
    requires WellNamed(s) && Known(s, t)
    ensures var e := EffectOf(s, t, c); !e.Disabled? ==> Known(s, e.thread)
  {
  }

  lemma StepKeepsKnown(s: State, l: Label, s': State)
    requires WellNamed(s) && ThreadsKnown(s) && Next(s, l) == Some(s')
    ensures ThreadsKnown(s')
  {
    NextKeepsSpecs(s, l, s');
    NextThreads(s, l, s');
    if l.Run? { EffectKnown(s, s.threads[l.tid], l.choice); }
  }

  lemma {:induction false} ExecKeepsKnown(s: State, ls: seq<Label>, end: State)
    requires WellNamed(s) && ThreadsKnown(s) && Exec(s, ls) == Some(end)
    ensures ThreadsKnown(end)
    decreases |ls|
  {
    if ls != [] {
      var init, l := ls[..|ls| - 1], ls[|ls| - 1];
      var q := Exec(s, init).value;
      ExecKeepsKnown(s, init, q);
      ExecKeepsWellNamed(s, init);
      StepKeepsKnown(q, l, end);
    }
  }

  /** The daemon before anything is registered. */
  const BOOT := State([], map[], [], map[], {}, {}, true)

  lemma BootedWell(ls: seq<Label>, end: State)
    requires Exec(BOOT, ls) == Some(end)
    ensures WellNamed(end) && ThreadsKnown(end)
  {
    ExecKeepsWellNamed(BOOT, ls);
    ExecKeepsKnown(BOOT, ls, end);
  }
}
