/** One step of the plan strategy as a whole (`src/axiom/runtime/plan_strategy.py:56-87` and `:175-272`): from the
    snapshot of the scheduler to what the run does next, and why a plan never stalls. */
module PlanAdvance {
  import opened Wrappers
  import opened Ordering
  import opened Digraph
  import opened PlanGraph
  import opened PlanModels
  import opened PlanRun
  import opened PlanStrategy

  // ---- The scheduler's snapshot ----

  datatype Snapshot = Snapshot(ready: seq<TaskId>, active: seq<TaskId>, waiting: seq<TaskId>, terminal: seq<TaskId>)

  const TERMINAL := {Completed, Failed, Skipped, Cancelled}

  function ReadyTasks(m: Records): set<TaskId> {
    set t | t in m && Executable(DepsIn(m), StatusesIn(m), t)
  }

  function ActiveTasks(m: Records, runs: ChildRuns): set<TaskId> {
    set t | t in m && m[t].status == Running && !IsWaiting(runs, m[t])
  }

  function WaitingTasks(m: Records, runs: ChildRuns): set<TaskId> {
    set t | t in m && m[t].status !in TERMINAL && IsWaiting(runs, m[t])
  }

  function TerminalTasks(m: Records): set<TaskId> {
    set t | t in m && m[t].status in TERMINAL
  }

  /** The tasks to launch: running ones whose child run does not exist yet or is running. */
  function LaunchableTasks(m: Records, runs: ChildRuns): set<TaskId> {
    set t | t in m && m[t].status == Running && HasChildRun(m[t])
            && (ChildOf(runs, m[t]).None? || ChildOf(runs, m[t]).value.status == StillRunning)
  }

  function SnapshotOf(order: seq<TaskId>, m: Records, runs: ChildRuns): Snapshot {
    Snapshot(Select(order, ReadyTasks(m)), Select(order, ActiveTasks(m, runs)), Select(order, WaitingTasks(m, runs)),
             Select(order, TerminalTasks(m)))
  }

  lemma {:induction false} SelectExact(order: seq<TaskId>, s: set<TaskId>)
    ensures forall t :: t in Select(order, s) <==> t in order && t in s
    ensures NoDuplicates(order) ==> NoDuplicates(Select(order, s))
  {
    if order != [] {
      var init, last := order[..|order| - 1], order[|order| - 1];
      assert order == init + [last];
      SelectExact(init, s);
    }
  }

  lemma SelectMore(order: seq<TaskId>, s: set<TaskId>, i: nat)
    requires i < |order|
    ensures Select(order[..i + 1], s) == Select(order[..i], s) + if order[i] in s then [order[i]] else []
    ensures Select(order[..0], s) == []
  {
    assert order[..i + 1][..i] == order[..i];
  }

  /** The snapshot of an ordered plan lists exactly the executable tasks as ready, and every task that is
      not pending in exactly one of the other three lists. Nothing is listed twice. */
  lemma SnapshotExact(order: seq<TaskId>, m: Records, runs: ChildRuns, t: TaskId)
    requires NoDuplicates(order) && Elements(order) == m.Keys && t in m
    ensures var snapshot := SnapshotOf(order, m, runs);
            && NoDuplicates(snapshot.ready) && NoDuplicates(snapshot.active)
            && NoDuplicates(snapshot.waiting) && NoDuplicates(snapshot.terminal)
            && (t in snapshot.ready <==> Executable(DepsIn(m), StatusesIn(m), t))
            && (t in snapshot.active <==> m[t].status == Running && !IsWaiting(runs, m[t]))
            && (t in snapshot.waiting <==> m[t].status in {Pending, Running} && IsWaiting(runs, m[t]))
            && (t in snapshot.terminal <==> m[t].status in TERMINAL)
  {
    hide NoDuplicates, IsWaiting, Select, Executable;
    assert t in Elements(order);
    SelectExact(order, ReadyTasks(m));
    SelectExact(order, ActiveTasks(m, runs));
    SelectExact(order, WaitingTasks(m, runs));
    SelectExact(order, TerminalTasks(m));
    match m[t].status { case _ => }
  }

  /** The plan's own predicates are those of the state machine. */
  lemma PlanPredicates(plan: ExecutionPlan)
    requires plan.Shaped()
    ensures forall t :: t in plan.tasks ==>
              (plan.tasks[t].IsExecutable(plan.tasks) <==>
               Executable(DepsIn(RecordsOf(plan)), StatusesIn(RecordsOf(plan)), t))
    ensures plan.IsAllCompleted() <==> AllCompleted(StatusesIn(RecordsOf(plan)))
    ensures plan.HasFailed() <==> HasFailed(StatusesIn(RecordsOf(plan)))
  {
    hide RecordsOf, StatusesIn, DepsIn, Executable;
    PlanOutcomes(plan);
    forall t | t in plan.tasks
      ensures plan.tasks[t].IsExecutable(plan.tasks) <==>
                Executable(DepsIn(RecordsOf(plan)), StatusesIn(RecordsOf(plan)), t)
    {
      ExecutableMeans(plan, RecordsOf(plan), t);
    }
  }

  lemma PlanOutcomes(plan: ExecutionPlan)
    ensures plan.IsAllCompleted() <==> AllCompleted(StatusesIn(RecordsOf(plan)))
    ensures plan.HasFailed() <==> HasFailed(StatusesIn(RecordsOf(plan)))
  {
    hide RecordsOf, StatusesIn;
    var s := StatusesIn(RecordsOf(plan));
    RecordsAre(plan);
    StatusesAre(RecordsOf(plan));
    if plan.HasFailed() {
      var t :| t in plan.tasks && plan.tasks[t].status in {Failed, Cancelled};
      assert s[t] in {Failed, Cancelled};
    }
    if HasFailed(s) {
      var t :| t in s && s[t] in {Failed, Cancelled};
      assert plan.tasks[t].status in {Failed, Cancelled};
    }
  }

  lemma ExecutableMeans(plan: ExecutionPlan, m: Records, t: TaskId)
    requires plan.Shaped() && t in plan.tasks && m == RecordsOf(plan)
    ensures plan.tasks[t].IsExecutable(plan.tasks) <==> Executable(DepsIn(m), StatusesIn(m), t)
  {
    hide RecordsOf;
    RecordsAre(plan);
  }

  method TakeSnapshot(plan: ExecutionPlan, runs: ChildRuns) returns (snapshot: Snapshot)
    requires plan.Valid()
    modifies plan`cachedOrder
    ensures plan.Valid() && snapshot == SnapshotOf(plan.cachedOrder, RecordsOf(plan), runs)
    ensures if old(plan.cachedOrder) != [] then plan.cachedOrder == old(plan.cachedOrder)
            else if Acyclic(Present(plan.Deps())) then Topological(plan.Deps(), plan.cachedOrder)
            else plan.cachedOrder == []
  {
    hide NoDuplicates, Acyclic, Topological, Select, ReadyTasks, ActiveTasks, WaitingTasks, TerminalTasks, RecordsOf,
         Present;
    ghost var m := RecordsOf(plan);
    var order := plan.ExecutionOrder();
    assert RecordsOf(plan) == m;
    assert forall i :: 0 <= i < |order| ==> order[i] in Elements(order);
    var ready := SnapshotReady(plan, order);
    var active, waiting, terminal := SnapshotOthers(plan, order, runs);
    snapshot := Snapshot(ready, active, waiting, terminal);
  }

  method SnapshotReady(plan: ExecutionPlan, order: seq<TaskId>) returns (ready: seq<TaskId>)
    requires forall i :: 0 <= i < |order| ==> order[i] in plan.tasks
    ensures ready == Select(order, ReadyTasks(RecordsOf(plan)))
  {
    hide Select, RecordsOf, StatusesIn, ReadyTasks;
    ghost var m := RecordsOf(plan);
    RecordsAre(plan);
    StatusesAre(m);
    var statuses := map t | t in plan.tasks :: plan.tasks[t].status;
    assert statuses == StatusesIn(m);
    ready := [];
    SelectNothing(order, ReadyTasks(m));
    for i := 0 to |order|
      invariant ready == Select(order[..i], ReadyTasks(m))
    {
      SelectMore(order, ReadyTasks(m), i);
      IsReady(m, order[i]);
      var task := plan.tasks[order[i]];
      if task.status == Pending && forall d :: d in task.dependencies ==> d in statuses && statuses[d] == Completed {
        ready := ready + [order[i]];
      }
    }
    assert order[..|order|] == order;
  }

  method SnapshotOthers(plan: ExecutionPlan, order: seq<TaskId>, runs: ChildRuns)
    returns (active: seq<TaskId>, waiting: seq<TaskId>, terminal: seq<TaskId>)
    requires forall i :: 0 <= i < |order| ==> order[i] in plan.tasks
    ensures active == Select(order, ActiveTasks(RecordsOf(plan), runs))
    ensures waiting == Select(order, WaitingTasks(RecordsOf(plan), runs))
    ensures terminal == Select(order, TerminalTasks(RecordsOf(plan)))
  {
    hide Select, RecordsOf, LoadChild;
    ghost var m := RecordsOf(plan);
    RecordsAre(plan);
    active, waiting, terminal := [], [], [];
    SelectNothing(order, ActiveTasks(m, runs));
    SelectNothing(order, WaitingTasks(m, runs));
    SelectNothing(order, TerminalTasks(m));
    for i := 0 to |order|
      invariant active == Select(order[..i], ActiveTasks(m, runs))
      invariant waiting == Select(order[..i], WaitingTasks(m, runs))
      invariant terminal == Select(order[..i], TerminalTasks(m))
    {
      SelectMore(order, ActiveTasks(m, runs), i);
      SelectMore(order, WaitingTasks(m, runs), i);
      SelectMore(order, TerminalTasks(m), i);
      var task := plan.tasks[order[i]];
      var child := LoadChild(task.childRunId, runs);
      if task.status in TERMINAL {
        terminal := terminal + [order[i]];
      } else if child.Some? && child.value.status in {WaitingApproval, Interrupted} {
        waiting := waiting + [order[i]];
      } else if task.status == Running {
        active := active + [order[i]];
      }
    }
    assert order[..|order|] == order;
  }

  lemma SelectNothing(order: seq<TaskId>, s: set<TaskId>)
    ensures Select(order[..0], s) == []
  {}

  lemma IsReady(m: Records, t: TaskId)
    requires t in m
    ensures t in ReadyTasks(m) <==>
            && m[t].status == Pending
            && forall d :: d in m[t].dependencies ==> d in StatusesIn(m) && StatusesIn(m)[d] == Completed
  {}

  // ---- One step ----

  /** What the run does next. */
  datatype Next = Finish | WaitForChildren | Replan | GiveUp | Launch(tasks: seq<TaskId>) | Stall

  /** Asking a plan with an order for its order does not change it. */
  lemma OrderStays(deps: Deps, before: seq<TaskId>, order: seq<TaskId>)
    requires Topological(deps, before) && if before != [] then order == before else Topological(deps, order)
    ensures order == before && NoDuplicates(order) && Elements(order) == deps.Keys
  {
    if order != [] { assert order[0] in Elements(order); }
  }

  method Launchable(plan: ExecutionPlan, runs: ChildRuns) returns (tasks: seq<TaskId>)
    requires plan.Shaped() && Topological(plan.Deps(), plan.cachedOrder)
    modifies plan`cachedOrder
    ensures plan.cachedOrder == old(plan.cachedOrder)
    ensures tasks == Select(plan.cachedOrder, LaunchableTasks(RecordsOf(plan), runs))
  {
    hide Select, RecordsOf, LaunchableTasks, Ordered, Acyclic, Present;
    ghost var m := RecordsOf(plan);
    RecordsAre(plan);
    TopologicalLists(plan.Deps(), plan.cachedOrder);
    TopologicalIsAcyclic(plan.Deps(), plan.cachedOrder);
    var order := plan.ExecutionOrder();
    assert RecordsOf(plan) == m;
    OrderStays(plan.Deps(), old(plan.cachedOrder), order);
    assert forall i :: 0 <= i < |order| ==> order[i] in Elements(order);
    tasks := LaunchableIn(plan, order, runs);
  }

  method LaunchableIn(plan: ExecutionPlan, order: seq<TaskId>, runs: ChildRuns) returns (tasks: seq<TaskId>)
    requires forall i :: 0 <= i < |order| ==> order[i] in plan.tasks
    ensures tasks == Select(order, LaunchableTasks(RecordsOf(plan), runs))
  {
    hide Select, RecordsOf, LoadChild;
    ghost var m := RecordsOf(plan);
    RecordsAre(plan);
    tasks := [];
    SelectNothing(order, LaunchableTasks(m, runs));
    for i := 0 to |order|
      invariant tasks == Select(order[..i], LaunchableTasks(m, runs))
    {
      SelectMore(order, LaunchableTasks(m, runs), i);
      var task := plan.tasks[order[i]];
      var child := LoadChild(task.childRunId, runs);
      if task.status == Running && task.childRunId.Some? && task.childRunId.value != ""
         && (child.None? || child.value.status == StillRunning) {
        tasks := tasks + [order[i]];
      }
    }
    assert order[..|order|] == order;
  }

  /** While nothing is unsuccessful and something is open, some task is running once the ready ones have
      started. */
  lemma SomethingRuns(order: seq<TaskId>, m: Records, now: real, ids: ChildRunIds) returns (t: TaskId)
    requires Topological(DepsIn(m), order) && Complete(DepsIn(m))
    requires (forall u :: u in m ==> m[u].status !in UNSUCCESSFUL) && !AllCompleted(StatusesIn(m))
    ensures var m' := After(StartReady(now, ids), m, Elements(Select(order, ReadyTasks(m))));
            t in m' && m'[t].status == Running
  {
    hide Topological, Complete, Select, StartedRecord, After;
    var s, ready := StatusesIn(m), Select(order, ReadyTasks(m));
    AfterKeeps(StartReady(now, ids), m, Elements(ready));
    StatusesAre(m);
    StatusesAre(After(StartReady(now, ids), m, Elements(ready)));
    if r :| r in m && m[r].status == Running {
      t := r;
    } else {
      forall u | u in s ensures s[u] != Running && !Blocked(DepsIn(m), s, u) {}
      NoDeadlock(DepsIn(m), order, s);
      t :| Executable(DepsIn(m), s, t);
      SelectExact(order, ReadyTasks(m));
      TopologicalLists(DepsIn(m), order);
      assert t in Elements(order);
      assert t in Elements(ready);
      StartedRuns(m[t], now, ids);
    }
  }

  /** The snapshot shows an active or waiting task exactly when some child run is open. */
  lemma OpenInSnapshot(order: seq<TaskId>, m: Records, runs: ChildRuns)
    requires NoDuplicates(order) && Elements(order) == m.Keys
    ensures var snapshot := SnapshotOf(order, m, runs);
            snapshot.active != [] || snapshot.waiting != [] <==> SomeOpenChild(m, runs)
  {
    hide NoDuplicates, SnapshotOf, Executable, IsWaiting;
    var snapshot := SnapshotOf(order, m, runs);
    forall t | t in m
      ensures m[t].status == Running || (m[t].status == Pending && IsWaiting(runs, m[t])) <==>
              t in snapshot.active || t in snapshot.waiting
    {
      SnapshotExact(order, m, runs, t);
    }
    SnapshotInside(order, m, runs);
    if snapshot.active != [] { assert snapshot.active[0] in m && snapshot.active[0] in snapshot.active; }
    if snapshot.waiting != [] { assert snapshot.waiting[0] in m && snapshot.waiting[0] in snapshot.waiting; }
  }

  lemma SnapshotInside(order: seq<TaskId>, m: Records, runs: ChildRuns)
    ensures var snapshot := SnapshotOf(order, m, runs);
            && (forall t :: t in snapshot.active ==> t in m) && (forall t :: t in snapshot.waiting ==> t in m)
            && (forall t :: t in snapshot.ready ==> t in ReadyTasks(m))
  {
    SelectExact(order, ReadyTasks(m));
    SelectExact(order, ActiveTasks(m, runs));
    SelectExact(order, WaitingTasks(m, runs));
    hide Select, ReadyTasks;
  }

  ghost predicate NoneBlocked(m: Records) {
    forall t :: t in m ==> !Blocked(DepsIn(m), StatusesIn(m), t)
  }

  /** After a failure: tasks that never started are released and the dependents of failed ones skipped. */
  method Barrier(plan: ExecutionPlan, runs: ChildRuns, now: real)
    requires plan.Shaped() && HasFailed(StatusesIn(RecordsOf(plan)))
    modifies plan.tasks.Values`status, plan.tasks.Values`endTime, plan.tasks.Values`error,
             plan.tasks.Values`executionState
    ensures Steps(old(RecordsOf(plan)), RecordsOf(plan)) && HasFailed(StatusesIn(RecordsOf(plan)))
    ensures NoneBlocked(RecordsOf(plan))
    ensures DoomedSkipped(After(ReleaseUnborn(runs), old(RecordsOf(plan)), plan.tasks.Keys), RecordsOf(plan), now)
  {
    hide Steps, NoDuplicates, HasFailed, DoomedSkipped, Doomed, RecordsOf, After, Elements, NoneBlocked;
    ghost var m := RecordsOf(plan);
    RecordsAre(plan);
    ReleaseUnstarted(plan, runs);
    ghost var m' := RecordsOf(plan);
    StillFailed(ReleaseUnborn(runs), m, m.Keys);
    var changed := SkipFailedDependents(plan, now);
    StepsTransitive(m, m', RecordsOf(plan));
    SameDeps(m', RecordsOf(plan));
    NothingBlocked(m', RecordsOf(plan), now);
  }

  lemma NothingBlocked(m: Records, m': Records, now: real)
    requires DoomedSkipped(m, m', now) && DepsIn(m') == DepsIn(m)
    ensures NoneBlocked(m')
  {
    hide Doomed, Blocked, SkippedAfter;
  }

  /** Some task is running, or waits for its child run to be approved or resumed. */
  ghost predicate SomeOpenChild(m: Records, runs: ChildRuns) {
    exists t :: t in m && (m[t].status == Running || (m[t].status == Pending && IsWaiting(runs, m[t])))
  }

  function AllReadyStarted(order: seq<TaskId>, m: Records, now: real, ids: ChildRunIds): Records {
    After(StartReady(now, ids), m, Elements(Select(order, ReadyTasks(m))))
  }

  /** What a step makes of the records once the child runs have been observed: nothing when everything is
      completed; after a failure unstarted tasks are released and doomed ones skipped; otherwise all ready
      tasks start. */
  ghost predicate Proceeded(order: seq<TaskId>, m: Records, m': Records, runs: ChildRuns, now: real, ids: ChildRunIds) {
    if AllCompleted(StatusesIn(m)) then m' == m
    else if HasFailed(StatusesIn(m)) then DoomedSkipped(After(ReleaseUnborn(runs), m, m.Keys), m', now)
    else m' == AllReadyStarted(order, m, now, ids)
  }

  /** What the run does next, by the records that the step leaves: after a failure nothing open is blocked,
      and the run waits for open child runs before it plans again or gives up; otherwise nothing executable
      is left unstarted, and exactly the running tasks whose child run is new or running are launched. */
  ghost predicate Decides(order: seq<TaskId>, m: Records, runs: ChildRuns, mayReplan: bool, next: Next) {
    if HasFailed(StatusesIn(m)) then
      && NoneBlocked(m)
      && next == if SomeOpenChild(m, runs) then WaitForChildren else if mayReplan then Replan else GiveUp
    else
      var launchable := Select(order, LaunchableTasks(m, runs));
      && ReadyTasks(m) == {}
      && next == if launchable != [] then Launch(launchable)
                 else if SomeOpenChild(m, runs) then WaitForChildren
                 else if AllCompleted(StatusesIn(m)) then Finish else Stall
  }

  /** The step once a task has failed: wait for what still runs, then replan or give up. */
  method AdvanceFailed(plan: ExecutionPlan, runs: ChildRuns, mayReplan: bool, now: real) returns (next: Next)
    requires plan.Shaped() && Topological(plan.Deps(), plan.cachedOrder) && HasFailed(StatusesIn(RecordsOf(plan)))
    modifies plan`cachedOrder, plan.tasks.Values`status, plan.tasks.Values`endTime, plan.tasks.Values`error,
             plan.tasks.Values`executionState
    ensures plan.Shaped() && plan.cachedOrder == old(plan.cachedOrder) && Steps(old(RecordsOf(plan)), RecordsOf(plan))
    ensures Decides(plan.cachedOrder, RecordsOf(plan), runs, mayReplan, next) && next != Stall
    ensures DoomedSkipped(After(ReleaseUnborn(runs), old(RecordsOf(plan)), plan.tasks.Keys), RecordsOf(plan), now)
  {
    hide Topological, Steps, NoDuplicates, HasFailed, DoomedSkipped, SnapshotOf, RecordsOf, After, Acyclic, Present,
         Elements,
         NoneBlocked, SomeOpenChild;
    Barrier(plan, runs, now);
    next := Decide(plan, runs, if mayReplan then Replan else GiveUp);
  }

  method Decide(plan: ExecutionPlan, runs: ChildRuns, otherwise: Next) returns (next: Next)
    requires plan.Shaped() && Topological(plan.Deps(), plan.cachedOrder)
    modifies plan`cachedOrder
    ensures plan.cachedOrder == old(plan.cachedOrder) && RecordsOf(plan) == old(RecordsOf(plan))
    ensures next == if SomeOpenChild(RecordsOf(plan), runs) then WaitForChildren else otherwise
  {
    hide NoDuplicates, SnapshotOf, RecordsOf, Acyclic, Present, Ordered, Elements, SomeOpenChild;
    ghost var m := RecordsOf(plan);
    RecordsAre(plan);
    TopologicalLists(plan.Deps(), plan.cachedOrder);
    TopologicalIsAcyclic(plan.Deps(), plan.cachedOrder);
    var snapshot := TakeSnapshot(plan, runs);
    assert RecordsOf(plan) == m;
    OrderStays(plan.Deps(), old(plan.cachedOrder), plan.cachedOrder);
    OpenInSnapshot(plan.cachedOrder, m, runs);
    return if snapshot.active != [] || snapshot.waiting != [] then WaitForChildren else otherwise;
  }

  lemma SameDeps(m: Records, m': Records)
    requires Steps(m, m')
    ensures DepsIn(m') == DepsIn(m)
  {}

  // ---- The step as a whole ----

  lemma StartedReady(order: seq<TaskId>, m: Records, now: real, ids: ChildRunIds)
    requires Elements(order) == m.Keys && !HasFailed(StatusesIn(m))
    ensures var p, ready := StartReady(now, ids), Elements(Select(order, ReadyTasks(m)));
            && MayPass(p, m, ready) && ReadyTasks(After(p, m, ready)) == {}
            && !HasFailed(StatusesIn(After(p, m, ready)))
  {
    hide Select, After, HasFailed, StartedRecord;
    var p, ready := StartReady(now, ids), Elements(Select(order, ReadyTasks(m)));
    SelectElements(order, ReadyTasks(m));
    assert ready == ReadyTasks(m);
    AfterKeeps(p, m, ready);
    NothingFails(p, m, ready);
    forall t | t in m ensures !Executable(DepsIn(m), StatusesIn(After(p, m, ready)), t) {
      StartedRuns(m[t], now, ids);
      if t !in ready && m[t].status == Pending {
        var d :| d in m[t].dependencies && !(d in m && m[d].status == Completed);
        if d in m { StartedRuns(m[d], now, ids); }
      }
    }
  }

  /** The plan starts with its first ready task. */
  function ReadyPhase(phase: Phase, m: Records, now: real): Phase {
    if ReadyTasks(m) == {} then phase else StartedPhase(phase, now)
  }

  function ProceededPhase(phase: Phase, m: Records, now: real): Phase {
    if AllCompleted(StatusesIn(m)) || HasFailed(StatusesIn(m)) then phase else ReadyPhase(phase, m, now)
  }

  /** A plan that is finished, given up or stalled is completed or failed. */
  function EndPhase(phase: Phase, next: Next, now: real): Phase {
    match next
    case Finish => phase.(status := PlanCompleted, endTime := now)
    case GiveUp | Stall => phase.(status := PlanFailed, endTime := now)
    case _ => phase
  }

  lemma ReadyIsListed(order: seq<TaskId>, m: Records)
    requires Elements(order) == m.Keys
    ensures Select(order, ReadyTasks(m)) == [] <==> ReadyTasks(m) == {}
  {
    hide Executable;
    SelectElements(order, ReadyTasks(m));
    var ready := Select(order, ReadyTasks(m));
    assert Elements(ready) == ReadyTasks(m);
    if ready != [] { assert ready[0] in Elements(ready); }
  }

  method StartAllReady(plan: ExecutionPlan, runs: ChildRuns, now: real, ids: ChildRunIds)
    requires plan.Shaped() && Topological(plan.Deps(), plan.cachedOrder) && !HasFailed(StatusesIn(RecordsOf(plan)))
    modifies plan`cachedOrder, plan`status, plan`startTime, plan.tasks.Values`status, plan.tasks.Values`attempt,
             plan.tasks.Values`startTime, plan.tasks.Values`childRunId, plan.tasks.Values`executionState
    ensures plan.cachedOrder == old(plan.cachedOrder)
    ensures RecordsOf(plan) == AllReadyStarted(plan.cachedOrder, old(RecordsOf(plan)), now, ids)
    ensures PhaseOf(plan) == ReadyPhase(old(PhaseOf(plan)), old(RecordsOf(plan)), now)
    ensures Steps(old(RecordsOf(plan)), RecordsOf(plan)) && ReadyTasks(RecordsOf(plan)) == {}
    ensures !HasFailed(StatusesIn(RecordsOf(plan)))
  {
    hide Ordered, Steps, NoDuplicates, HasFailed, RecordsOf, After, Acyclic, Present, Elements, Select, ReadyTasks,
         MayPass;
    ghost var m := RecordsOf(plan);
    RecordsAre(plan);
    TopologicalLists(plan.Deps(), plan.cachedOrder);
    TopologicalIsAcyclic(plan.Deps(), plan.cachedOrder);
    var snapshot := TakeSnapshot(plan, runs);
    assert RecordsOf(plan) == m;
    OrderStays(plan.Deps(), old(plan.cachedOrder), plan.cachedOrder);
    StartedReady(plan.cachedOrder, m, now, ids);
    ReadyIsListed(plan.cachedOrder, m);
    if snapshot.ready != [] {
      var scheduled := PersistReadyTasks(plan, snapshot.ready, now, ids);
    } else {
      PassSteps(StartReady(now, ids), m, snapshot.ready);
      AfterNone(StartReady(now, ids), m);
      NoKeysYet([]);
      assert [][..0] == snapshot.ready;
    }
  }

  ghost predicate NoneSkipped(m: Records) {
    forall t :: t in m ==> m[t].status != Skipped
  }

  lemma OpenMeansUnfinished(m: Records, runs: ChildRuns)
    requires SomeOpenChild(m, runs)
    ensures !AllCompleted(StatusesIn(m))
  {
    var t :| t in m && (m[t].status == Running || (m[t].status == Pending && IsWaiting(runs, m[t])));
    assert StatusesIn(m)[t] != Completed;
  }

  lemma LaunchableIsOpen(order: seq<TaskId>, m: Records, runs: ChildRuns)
    requires Select(order, LaunchableTasks(m, runs)) != []
    ensures SomeOpenChild(m, runs)
  {
    SelectExact(order, LaunchableTasks(m, runs));
    var t := Select(order, LaunchableTasks(m, runs))[0];
    assert t in Select(order, LaunchableTasks(m, runs));
  }

  lemma StartedIsOpen(order: seq<TaskId>, m: Records, runs: ChildRuns, now: real, ids: ChildRunIds)
    requires Topological(DepsIn(m), order) && Complete(DepsIn(m))
    requires !HasFailed(StatusesIn(m)) && !AllCompleted(StatusesIn(m)) && NoneSkipped(m)
    ensures SomeOpenChild(After(StartReady(now, ids), m, Elements(Select(order, ReadyTasks(m)))), runs)
  {
    hide Topological, Complete, After, Select;
    StatusesAre(m);
    forall u | u in m ensures m[u].status !in UNSUCCESSFUL { assert StatusesIn(m)[u] !in {Failed, Cancelled}; }
    var t := SomethingRuns(order, m, now, ids);
  }

  /** Launch child runs, wait for them, or end. */
  method LaunchOrWait(plan: ExecutionPlan, runs: ChildRuns) returns (next: Next)
    requires plan.Shaped() && Topological(plan.Deps(), plan.cachedOrder)
    modifies plan`cachedOrder
    ensures plan.cachedOrder == old(plan.cachedOrder) && RecordsOf(plan) == old(RecordsOf(plan))
    ensures var launchable := Select(plan.cachedOrder, LaunchableTasks(RecordsOf(plan), runs));
            next == if launchable != [] then Launch(launchable)
                    else if SomeOpenChild(RecordsOf(plan), runs) then WaitForChildren
                    else if AllCompleted(StatusesIn(RecordsOf(plan))) then Finish else Stall
  {
    hide Topological, NoDuplicates, HasFailed, RecordsOf, Elements, Select, LaunchableTasks, SomeOpenChild,
         AllCompleted;
    ghost var m := RecordsOf(plan);
    var launchable := Launchable(plan, runs);
    assert RecordsOf(plan) == m;
    if launchable != [] { return Launch(launchable); }
    PlanOutcomes(plan);
    next := Decide(plan, runs, if plan.IsAllCompleted() then Finish else Stall);
  }

  lemma FinishMeansCompleted(order: seq<TaskId>, m: Records, runs: ChildRuns)
    ensures Select(order, LaunchableTasks(m, runs)) != [] || SomeOpenChild(m, runs) ==>
              SomeOpenChild(m, runs) && !AllCompleted(StatusesIn(m))
  {
    hide Select, LaunchableTasks, SomeOpenChild, AllCompleted;
    if Select(order, LaunchableTasks(m, runs)) != [] { LaunchableIsOpen(order, m, runs); }
    if SomeOpenChild(m, runs) { OpenMeansUnfinished(m, runs); }
  }

  lemma UnfailedDecides(order: seq<TaskId>, m: Records, m': Records, runs: ChildRuns, now: real, ids: ChildRunIds,
                        next: Next)
    requires Topological(DepsIn(m), order) && !HasFailed(StatusesIn(m)) && !AllCompleted(StatusesIn(m))
    requires m' == AllReadyStarted(order, m, now, ids) && ReadyTasks(m') == {} && !HasFailed(StatusesIn(m'))
    requires var launchable := Select(order, LaunchableTasks(m', runs));
             next == if launchable != [] then Launch(launchable)
                     else if SomeOpenChild(m', runs) then WaitForChildren
                     else if AllCompleted(StatusesIn(m')) then Finish else Stall
    ensures forall mayReplan :: Decides(order, m', runs, mayReplan, next)
    ensures Complete(DepsIn(m)) && NoneSkipped(m) ==> next != Stall
  {
    hide Topological, HasFailed, After, Select, ReadyTasks, LaunchableTasks, SomeOpenChild, AllCompleted, Complete,
         NoneSkipped;
    if Complete(DepsIn(m)) && NoneSkipped(m) { StartedIsOpen(order, m, runs, now, ids); }
  }

  /** The step while nothing has failed: start everything that is ready, then launch, wait, or stall. */
  method AdvanceUnfailed(plan: ExecutionPlan, runs: ChildRuns, now: real, ids: ChildRunIds) returns (next: Next)
    requires plan.Shaped() && Topological(plan.Deps(), plan.cachedOrder)
    requires !HasFailed(StatusesIn(RecordsOf(plan))) && !AllCompleted(StatusesIn(RecordsOf(plan)))
    modifies plan`cachedOrder, plan`status, plan`startTime, plan.tasks.Values`status, plan.tasks.Values`attempt,
             plan.tasks.Values`startTime, plan.tasks.Values`childRunId, plan.tasks.Values`executionState
    ensures plan.cachedOrder == old(plan.cachedOrder)
    ensures RecordsOf(plan) == AllReadyStarted(plan.cachedOrder, old(RecordsOf(plan)), now, ids)
    ensures PhaseOf(plan) == ReadyPhase(old(PhaseOf(plan)), old(RecordsOf(plan)), now)
    ensures Steps(old(RecordsOf(plan)), RecordsOf(plan))
    ensures forall mayReplan :: Decides(plan.cachedOrder, RecordsOf(plan), runs, mayReplan, next)
    ensures Complete(plan.Deps()) && NoneSkipped(old(RecordsOf(plan))) ==> next != Stall
  {
    hide Topological, Steps, NoDuplicates, HasFailed, RecordsOf, PhaseOf, After, Elements, Select, ReadyTasks,
         LaunchableTasks, SomeOpenChild, AllCompleted, Complete, NoneSkipped, AllReadyStarted, ReadyPhase, Decides;
    ghost var m := RecordsOf(plan);
    RecordsAre(plan);
    StartAllReady(plan, runs, now, ids);
    next := LaunchOrWait(plan, runs);
    UnfailedDecides(plan.cachedOrder, m, RecordsOf(plan), runs, now, ids, next);
    SameDeps(m, RecordsOf(plan));
    RecordsAre(plan);
  }

  /** All about the step after the child runs have been observed: from the records `m` and phase of the plan to
      what it leaves and what comes next. */
  ghost predicate ProceedsTo(order: seq<TaskId>, m: Records, m': Records, phase: Phase, phase': Phase, runs: ChildRuns,
                             mayReplan: bool, now: real, ids: ChildRunIds, next: Next) {
    && Proceeded(order, m, m', runs, now, ids)
    && Decides(order, m', runs, mayReplan, next)
    && phase' == ProceededPhase(phase, m, now)
    && Steps(m, m')
    && (Complete(DepsIn(m)) && SkippedAfterFailure(StatusesIn(m)) ==> next != Stall)
  }

  method Proceed(plan: ExecutionPlan, runs: ChildRuns, mayReplan: bool, now: real, ids: ChildRunIds)
    returns (next: Next)
    requires plan.Shaped() && Topological(plan.Deps(), plan.cachedOrder)
    modifies plan`cachedOrder, plan`status, plan`startTime, plan.tasks.Values`status, plan.tasks.Values`attempt,
             plan.tasks.Values`startTime, plan.tasks.Values`endTime, plan.tasks.Values`error,
             plan.tasks.Values`childRunId, plan.tasks.Values`executionState
    ensures plan.cachedOrder == old(plan.cachedOrder)
    ensures ProceedsTo(plan.cachedOrder, old(RecordsOf(plan)), RecordsOf(plan), old(PhaseOf(plan)), PhaseOf(plan), runs,
                       mayReplan, now, ids, next)
  {
    hide Topological, NoDuplicates, HasFailed, RecordsOf, PhaseOf, After, Elements, AllCompleted, Complete, NoneSkipped,
         AllReadyStarted, DoomedSkipped, Decides, ReadyPhase, ProceedsTo, Steps;
    ghost var m, phase := RecordsOf(plan), PhaseOf(plan);
    RecordsAre(plan);
    PlanOutcomes(plan);
    if plan.IsAllCompleted() {
      CompletedProceeds(plan.cachedOrder, m, phase, runs, mayReplan, now, ids);
      next := Finish;
    } else if plan.HasFailed() {
      next := AdvanceFailed(plan, runs, mayReplan, now);
      FailedProceeds(plan.cachedOrder, m, RecordsOf(plan), phase, runs, mayReplan, now, ids, next);
    } else {
      next := AdvanceUnfailed(plan, runs, now, ids);
      UnfailedProceeds(plan.cachedOrder, m, RecordsOf(plan), phase, PhaseOf(plan), runs, mayReplan, now, ids, next);
    }
  }

  lemma CompletedProceeds(order: seq<TaskId>, m: Records, phase: Phase, runs: ChildRuns, mayReplan: bool, now: real,
                          ids: ChildRunIds)
    requires AllCompleted(StatusesIn(m))
    ensures ProceedsTo(order, m, m, phase, phase, runs, mayReplan, now, ids, Finish)
  {
    hide Select, Runs, Complete, SkippedAfterFailure, ReadyTasks;
    StepsNowhere(m);
    CompletedIsNotReady(m);
    FinishMeansCompleted(order, m, runs);
    FailedIsUnfinished(m);
  }

  lemma FailedProceeds(order: seq<TaskId>, m: Records, m': Records, phase: Phase, runs: ChildRuns, mayReplan: bool,
                       now: real, ids: ChildRunIds, next: Next)
    requires HasFailed(StatusesIn(m)) && DoomedSkipped(After(ReleaseUnborn(runs), m, m.Keys), m', now) && Steps(m, m')
    requires Decides(order, m', runs, mayReplan, next) && next != Stall
    ensures ProceedsTo(order, m, m', phase, phase, runs, mayReplan, now, ids, next)
  {
    hide HasFailed, DoomedSkipped, Decides, Steps, After, Complete, SkippedAfterFailure, AllCompleted;
    FailedIsUnfinished(m);
  }

  lemma UnfailedProceeds(order: seq<TaskId>, m: Records, m': Records, phase: Phase, phase': Phase, runs: ChildRuns,
                         mayReplan: bool, now: real, ids: ChildRunIds, next: Next)
    requires !HasFailed(StatusesIn(m)) && !AllCompleted(StatusesIn(m)) && m' == AllReadyStarted(order, m, now, ids)
    requires Steps(m, m') && phase' == ReadyPhase(phase, m, now)
    requires Decides(order, m', runs, mayReplan, next) && (Complete(DepsIn(m)) && NoneSkipped(m) ==> next != Stall)
    ensures ProceedsTo(order, m, m', phase, phase', runs, mayReplan, now, ids, next)
  {
    hide HasFailed, Decides, Steps, Complete, SkippedAfterFailure, AllCompleted, NoneSkipped, AllReadyStarted,
         ReadyPhase;
    FailedOrUnskipped(m);
  }

  /** `_complete_plan` and `_fail_plan` on the plan's own status. */
  method EndPlan(plan: ExecutionPlan, next: Next, now: real)
    modifies plan`status, plan`endTime
    ensures PhaseOf(plan) == EndPhase(old(PhaseOf(plan)), next, now)
  {
    match next {
      case Finish => plan.MarkCompleted(now);
      case GiveUp => plan.MarkFailed(now);
      case Stall => plan.MarkFailed(now);
      case _ =>
    }
  }

  /** All about a whole step: the child runs are observed, their tokens counted, and the plan proceeds. */
  ghost predicate AdvancesTo(order: seq<TaskId>, keys: seq<TaskId>, m: Records, m': Records, phase: Phase,
                             phase': Phase, runs: ChildRuns, mayReplan: bool, now: real, ids: ChildRunIds, next: Next,
                             spent: int) {
    var observed := After(Observe(runs, now), m, m.Keys);
    && Proceeded(order, observed, m', runs, now, ids)
    && Decides(order, m', runs, mayReplan, next)
    && phase' == EndPhase(ProceededPhase(phase, observed, now), next, now)
    && spent == TokensIn(runs, m, keys)
  }

  /** `_advance_step` on a plan with an order, from observing the child runs to what the run does next. Every
      change is a run of the scheduler; and with all dependencies present, and skipped tasks only after
      failures, the plan never stalls. */
  method Advance(plan: ExecutionPlan, runs: ChildRuns, mayReplan: bool, now: real, ids: ChildRunIds)
    returns (next: Next, spent: int)
    requires plan.Shaped() && Topological(plan.Deps(), plan.cachedOrder)
    modifies plan`cachedOrder, plan`status, plan`startTime, plan`endTime, plan.tasks.Values`status,
             plan.tasks.Values`attempt, plan.tasks.Values`startTime, plan.tasks.Values`endTime,
             plan.tasks.Values`result, plan.tasks.Values`error, plan.tasks.Values`childRunId,
             plan.tasks.Values`executionState
    ensures plan.cachedOrder == old(plan.cachedOrder)
    ensures AdvancesTo(plan.cachedOrder, plan.keys, old(RecordsOf(plan)), RecordsOf(plan), old(PhaseOf(plan)),
                       PhaseOf(plan), runs, mayReplan, now, ids, next, spent)
    ensures Steps(old(RecordsOf(plan)), RecordsOf(plan))
    ensures next == Finish <==> AllCompleted(StatusesIn(RecordsOf(plan)))
    ensures Complete(plan.Deps()) && SkippedAfterFailure(StatusesIn(old(RecordsOf(plan)))) ==> next != Stall
    ensures forall t :: t in plan.tasks ==>
              StepMakes(runs, old(RecordsOf(plan)), RecordsOf(plan), t, now, ids)
    ensures Chooses(RecordsOf(plan), runs, mayReplan, next)
    ensures PhaseMoves(old(RecordsOf(plan)), RecordsOf(plan), old(PhaseOf(plan)), PhaseOf(plan), next, now)
    ensures next == Finish <==> forall t :: t in plan.tasks ==>
              old(RecordsOf(plan))[t].status == Completed || ChildCompleted(runs, old(RecordsOf(plan))[t])
    ensures spent == CompletedTokens(runs, old(RecordsOf(plan)), plan.keys)
  {
    hide Topological, Steps, NoDuplicates, RecordsOf, PhaseOf, Elements, Complete, SkippedAfterFailure, AdvancesTo,
         StepMakes, Chooses, PhaseMoves, ChildCompleted, CompletedTokens, AllCompleted;
    ghost var m, phase := RecordsOf(plan), PhaseOf(plan);
    RecordsAre(plan);
    next, spent := AdvanceStep(plan, runs, mayReplan, now, ids);
    RecordsAre(plan);
    StepSpelledOut(plan.cachedOrder, plan.keys, m, RecordsOf(plan), phase, PhaseOf(plan), runs, mayReplan, now, ids,
                   next, spent);
  }

  method AdvanceStep(plan: ExecutionPlan, runs: ChildRuns, mayReplan: bool, now: real, ids: ChildRunIds)
    returns (next: Next, spent: int)
    requires plan.Shaped() && Topological(plan.Deps(), plan.cachedOrder)
    modifies plan`cachedOrder, plan`status, plan`startTime, plan`endTime, plan.tasks.Values`status,
             plan.tasks.Values`attempt, plan.tasks.Values`startTime, plan.tasks.Values`endTime,
             plan.tasks.Values`result, plan.tasks.Values`error, plan.tasks.Values`childRunId,
             plan.tasks.Values`executionState
    ensures plan.cachedOrder == old(plan.cachedOrder)
    ensures AdvancesTo(plan.cachedOrder, plan.keys, old(RecordsOf(plan)), RecordsOf(plan), old(PhaseOf(plan)),
                       PhaseOf(plan), runs, mayReplan, now, ids, next, spent)
    ensures Steps(old(RecordsOf(plan)), RecordsOf(plan))
    ensures next == Finish <==> AllCompleted(StatusesIn(RecordsOf(plan)))
    ensures Complete(plan.Deps()) && SkippedAfterFailure(StatusesIn(old(RecordsOf(plan)))) ==> next != Stall
  {
    hide Topological, Steps, NoDuplicates, RecordsOf, PhaseOf, After, Elements, Complete, SkippedAfterFailure,
         ProceedsTo, AdvancesTo, TokensIn, AllCompleted, EndPhase, TakesOver, CompletedTokens;
    ghost var m, phase := RecordsOf(plan), PhaseOf(plan);
    RecordsAre(plan);
    spent := ReconcileChildren(plan, runs, now);
    ghost var m' := RecordsOf(plan);
    SameDeps(m, m');
    RecordsAre(plan);
    next := Proceed(plan, runs, mayReplan, now, ids);
    ghost var phase' := PhaseOf(plan);
    EndPlan(plan, next, now);
    StepIsWhole(plan.cachedOrder, plan.keys, m, m', RecordsOf(plan), phase, phase', runs, mayReplan, now, ids, next);
    RecordsAre(plan);
  }

  lemma StepIsWhole(order: seq<TaskId>, keys: seq<TaskId>, m: Records, m': Records, m'': Records, phase: Phase,
                    phase': Phase, runs: ChildRuns, mayReplan: bool, now: real, ids: ChildRunIds, next: Next)
    requires m' == After(Observe(runs, now), m, m.Keys) && Steps(m, m')
    requires ProceedsTo(order, m', m'', phase, phase', runs, mayReplan, now, ids, next)
    ensures AdvancesTo(order, keys, m, m'', phase, EndPhase(phase', next, now), runs, mayReplan, now, ids, next,
                       TokensIn(runs, m, keys))
    ensures Steps(m, m'') && DepsIn(m'') == DepsIn(m)
    ensures next == Finish <==> AllCompleted(StatusesIn(m''))
    ensures Complete(DepsIn(m)) && SkippedAfterFailure(StatusesIn(m)) ==> next != Stall
  {
    hide Steps, After, Complete, SkippedAfterFailure, Proceeded, Decides, TokensIn, AllCompleted, EndPhase,
         ProceededPhase;
    StepsTransitive(m, m', m'');
    SameDeps(m, m'');
    SameDeps(m, m');
    if SkippedAfterFailure(StatusesIn(m)) { StepsKeepSkips(m, m'); }
    FinishExactly(order, m'', runs, mayReplan, next);
  }

  lemma FinishExactly(order: seq<TaskId>, m: Records, runs: ChildRuns, mayReplan: bool, next: Next)
    requires Decides(order, m, runs, mayReplan, next)
    ensures next == Finish <==> AllCompleted(StatusesIn(m))
  {
    hide Select, ReadyTasks, NoneBlocked, SomeOpenChild, AllCompleted, HasFailed, LaunchableTasks;
    FinishMeansCompleted(order, m, runs);
    FailedIsUnfinished(m);
  }

  lemma FailedOrUnskipped(m: Records)
    requires !HasFailed(StatusesIn(m))
    ensures SkippedAfterFailure(StatusesIn(m)) <==> NoneSkipped(m)
  {
    StatusesAre(m);
  }

  lemma CompletedIsNotReady(m: Records)
    requires AllCompleted(StatusesIn(m))
    ensures ReadyTasks(m) == {}
  {}

  lemma FailedIsUnfinished(m: Records)
    ensures HasFailed(StatusesIn(m)) ==> !AllCompleted(StatusesIn(m))
  {}

  /** Skipped tasks come with a failure after any steps, if they did before: so no later step stalls either. */
  lemma StepsKeepSkips(m: Records, m': Records)
    requires Steps(m, m') && SkippedAfterFailure(StatusesIn(m))
    ensures SkippedAfterFailure(StatusesIn(m'))
  {
    hide Enabled, Apply, SkippedAfterFailure;
    var states, actions :| IsRun(DepsIn(m), states, actions)
                           && states[0] == StatusesIn(m) && states[|actions|] == StatusesIn(m');
    RunKeepsFailure(DepsIn(m), states, actions, |actions|);
  }

  // ---- The step spelled out ----

  /** Some task has failed or was cancelled. */
  ghost predicate Failing(m: Records) {
    exists t :: t in m && (m[t].status == Failed || m[t].status == Cancelled)
  }

  /** What a step makes of a task. A running task takes over what its child run has come to. After a failure a
      task whose child run was never created goes back to pending, and a pending one with an unsuccessful
      dependency is skipped; otherwise a pending task starts when all its dependencies are completed. */
  ghost predicate StepMakes(runs: ChildRuns, m: Records, m': Records, t: TaskId, now: real, ids: ChildRunIds)
    requires t in m && t in m'
  {
    var r, r' := m[t], m'[t];
    var unborn := r.status == Running && r.childRunId.Some? && r.childRunId.value != "" && r.childRunId.value !in runs;
    if r.status != Pending && !unborn then TakesOver(runs, r, r', now)
    else if Failing(m') then
      var open := if unborn then r.(status := Pending, executionState := "") else r;
      if exists d :: d in r.dependencies && d in m' && m'[d].status in {Failed, Cancelled, Skipped}
      then r' == open.(status := Skipped, error := r'.error, endTime := now, executionState := "SKIPPED")
           && "dependency did not complete successfully: " <= r'.error
      else r' == open
    else if unborn then r' == r
    else if exists d :: d in r.dependencies && !(d in m' && m'[d].status == Completed) then r' == r
    else if r.childRunId.None? then
      r' == r.(status := Running, attempt := r.attempt + 1, startTime := now, executionState := "ASSIGNED",
               childRunId := Some(ids(r.id, r.attempt + 1)))
    else
      r' == r.(status := Running, startTime := if r.startTime == 0.0 then now else r.startTime,
               executionState := "ASSIGNED")
  }

  lemma DoomedMeans(m: Records, m': Records, now: real, t: TaskId)
    requires DoomedSkipped(m, m', now) && t in m && m[t].status == Pending
    ensures Doomed(DepsIn(m), StatusesIn(m), t) <==>
              exists d :: d in m[t].dependencies && d in m' && m'[d].status in {Failed, Cancelled, Skipped}
  {
    hide SkippedAfter, Blocked, SkippedRecord;
    var deps, s := DepsIn(m), StatusesIn(m);
    if Doomed(deps, s, t) {
      var n: nat :| DoomedWithin(deps, s, t, n);
      var d :| d in deps[t] && d in s && (s[d] in UNSUCCESSFUL || DoomedWithin(deps, s, d, n - 1));
      UnsuccessfulAfter(m, m', now, d);
    }
    if d :| d in m[t].dependencies && d in m' && m'[d].status in {Failed, Cancelled, Skipped} {
      UnsuccessfulAfter(m, m', now, d);
      if s[d] in UNSUCCESSFUL {
        assert DoomedWithin(deps, s, t, 1);
      } else {
        var n: nat :| DoomedWithin(deps, s, d, n);
        assert d in deps[t] && d in s;
        assert DoomedWithin(deps, s, t, n + 1);
      }
    }
  }

  lemma UnsuccessfulAfter(m: Records, m': Records, now: real, d: TaskId)
    requires DoomedSkipped(m, m', now) && d in m
    ensures m'[d].status in {Failed, Cancelled, Skipped} <==>
              m[d].status in {Failed, Cancelled, Skipped} || Doomed(DepsIn(m), StatusesIn(m), d)
    ensures m'[d].status in {Failed, Cancelled} <==> m[d].status in {Failed, Cancelled}
  {
    hide SkippedAfter, Blocked, SkippedRecord;
    var deps, s := DepsIn(m), StatusesIn(m);
    if Doomed(deps, s, d) {
      var n :| DoomedWithin(deps, s, d, n);
      var k: nat :| SkippedAfter(deps, s, d, k) && m'[d] == SkippedRecord(AfterRounds(deps, s, k), m[d], now);
      SkippedStatus(AfterRounds(deps, s, k), m[d], now);
    }
  }

  lemma FailingIs(m: Records)
    ensures Failing(m) <==> HasFailed(StatusesIn(m))
  {
    StatusesAre(m);
    hide StatusesIn;
    if t :| t in m && (m[t].status == Failed || m[t].status == Cancelled) {
      assert StatusesIn(m)[t] in {Failed, Cancelled};
    }
  }

  /** After the observation `o`, in each of the three cases. */
  lemma ProceededMakes(order: seq<TaskId>, m: Records, o: Records, m': Records, runs: ChildRuns, now: real,
                       ids: ChildRunIds, t: TaskId)
    requires Elements(order) == m.Keys && o == After(Observe(runs, now), m, m.Keys) && t in m
    requires Proceeded(order, o, m', runs, now, ids) && m'.Keys == m.Keys
    requires Failing(m') <==> Failing(o)
    ensures StepMakes(runs, m, m', t, now, ids)
  {
    hide Select, DoomedSkipped, After, TakesOver, Failing, StepMakes, AllCompleted, HasFailed, AllReadyStarted;
    AllTakeOver(runs, m, now);
    AfterKeeps(Observe(runs, now), m, m.Keys);
    FailingIs(o);
    ObservedStays(runs, m[t], o[t], now);
    if AllCompleted(StatusesIn(o)) {
      CompletedMakes(m, o, runs, now, ids, t);
    } else if HasFailed(StatusesIn(o)) {
      FailedMakes(m, o, m', runs, now, ids, t);
    } else {
      UnfailedMakes(order, m, o, m', runs, now, ids, t);
    }
  }

  /** Observation leaves pending tasks and those without a child run alone, and gives no pending task. */
  lemma ObservedStays(runs: ChildRuns, r: TaskRecord, o: TaskRecord, now: real)
    requires TakesOver(runs, r, o, now)
    ensures r.status == Pending ==> o == r
    ensures r.childRunId.Some? && r.childRunId.value !in runs ==> o == r
    ensures o.status == Pending ==> r.status == Pending
    ensures o.childRunId == r.childRunId
    ensures o.status == Running ==> r.status == Running
  {}

  lemma CompletedMakes(m: Records, o: Records, runs: ChildRuns, now: real, ids: ChildRunIds, t: TaskId)
    requires t in m && t in o && TakesOver(runs, m[t], o[t], now) && AllCompleted(StatusesIn(o))
    ensures StepMakes(runs, m, o, t, now, ids)
  {
    hide TakesOver, Failing;
    ObservedStays(runs, m[t], o[t], now);
    StatusesAre(o);
    assert StatusesIn(o)[t] == Completed;
  }

  /** Releasing concerns exactly the running tasks whose child run was never created. */
  lemma Released(runs: ChildRuns, o: Records, t: TaskId)
    requires t in o
    ensures var b := After(ReleaseUnborn(runs), o, o.Keys);
            t in b && b[t] == if o[t].status == Running && o[t].childRunId.Some? && o[t].childRunId.value != ""
                                 && o[t].childRunId.value !in runs
                              then o[t].(status := Pending, executionState := "") else o[t]
  {}

  lemma FailedMakes(m: Records, o: Records, m': Records, runs: ChildRuns, now: real, ids: ChildRunIds, t: TaskId)
    requires t in m && t in o && TakesOver(runs, m[t], o[t], now) && m'.Keys == o.Keys
    requires DoomedSkipped(After(ReleaseUnborn(runs), o, o.Keys), m', now) && Failing(m')
    ensures StepMakes(runs, m, m', t, now, ids)
  {
    hide TakesOver, Failing, After, DoomedSkipped;
    var b := After(ReleaseUnborn(runs), o, o.Keys);
    ObservedStays(runs, m[t], o[t], now);
    Released(runs, o, t);
    SkippedMakes(b, m', now, t);
  }

  /** A pending task with an unsuccessful dependency is skipped, and nothing else changes. */
  lemma SkippedMakes(b: Records, m': Records, now: real, t: TaskId)
    requires DoomedSkipped(b, m', now) && t in b
    ensures t in m' &&
            if b[t].status == Pending
               && exists d :: d in b[t].dependencies && d in m' && m'[d].status in {Failed, Cancelled, Skipped}
            then m'[t] == b[t].(status := Skipped, error := m'[t].error, endTime := now, executionState := "SKIPPED")
                 && "dependency did not complete successfully: " <= m'[t].error
            else m'[t] == b[t]
  {
    var deps, s := DepsIn(b), StatusesIn(b);
    if b[t].status == Pending { DoomedMeans(b, m', now, t); }
    hide Doomed, DoomedWithin, Blocked, SkippedAfter;
    if Doomed(deps, s, t) {
      DoomedIsPending(deps, s, t);
      var k: nat :| SkippedAfter(deps, s, t, k) && m'[t] == SkippedRecord(AfterRounds(deps, s, k), b[t], now);
    }
  }

  lemma DoomedIsPending(deps: Deps, s: Statuses, t: TaskId)
    requires Doomed(deps, s, t)
    ensures t in s && s[t] == Pending
  {}

  lemma UnfailedMakes(order: seq<TaskId>, m: Records, o: Records, m': Records, runs: ChildRuns, now: real,
                      ids: ChildRunIds, t: TaskId)
    requires t in m && t in o && TakesOver(runs, m[t], o[t], now) && Elements(order) == o.Keys
    requires m' == AllReadyStarted(order, o, now, ids) && !Failing(m')
    ensures StepMakes(runs, m, m', t, now, ids)
  {
    hide TakesOver, Failing, AllReadyStarted;
    ObservedStays(runs, m[t], o[t], now);
    StartedExactly(order, o, m', now, ids, t);
  }

  /** Exactly the pending tasks whose dependencies are all completed start. */
  lemma StartedExactly(order: seq<TaskId>, o: Records, m': Records, now: real, ids: ChildRunIds, t: TaskId)
    requires t in o && Elements(order) == o.Keys && m' == AllReadyStarted(order, o, now, ids)
    ensures t in m'
    ensures m'[t] == if o[t].status == Pending
                        && forall d :: d in o[t].dependencies ==> d in m' && m'[d].status == Completed
                     then StartedRecord(o[t], now, ids) else o[t]
    ensures t in ReadyTasks(o) <==> o[t].status == Pending && m'[t].status == Running
  {
    hide Select, StartedRecord;
    SelectElements(order, ReadyTasks(o));
    IsReady(o, t);
    StatusesAre(o);
    StartedRuns(o[t], now, ids);
    hide StatusesIn, ReadyTasks;
    forall d | d in o ensures d in m' && (m'[d].status == Completed <==> o[d].status == Completed) {
      StartedRuns(o[d], now, ids);
    }
  }

  /** Running, with a child run assigned that is new or still running. */
  ghost predicate ToLaunch(runs: ChildRuns, r: TaskRecord) {
    && r.status == Running && r.childRunId.Some? && r.childRunId.value != ""
    && (r.childRunId.value !in runs || runs[r.childRunId.value].status == StillRunning)
  }

  /** Running, or pending with a child run that waits for approval or was interrupted. */
  ghost predicate IsOpen(runs: ChildRuns, r: TaskRecord) {
    || r.status == Running
    || (r.status == Pending && r.childRunId.Some? && r.childRunId.value != "" && r.childRunId.value in runs
        && runs[r.childRunId.value].status in {WaitingApproval, Interrupted})
  }

  /** What comes next, by the tasks that the step leaves. */
  ghost predicate Chooses(m: Records, runs: ChildRuns, mayReplan: bool, next: Next) {
    var open := exists t :: t in m && IsOpen(runs, m[t]);
    var launches := !Failing(m) && exists t :: t in m && ToLaunch(runs, m[t]);
    var completed := forall t :: t in m ==> m[t].status == Completed;
    && (next == Finish <==> completed)
    && (next == Replan <==> Failing(m) && !open && mayReplan)
    && (next == GiveUp <==> Failing(m) && !open && !mayReplan)
    && (next.Launch? <==> launches)
    && (next.Launch? ==> forall t :: t in next.tasks <==> t in m && ToLaunch(runs, m[t]))
    && (next.Launch? ==> NoDuplicates(next.tasks))
    && (next == WaitForChildren <==> open && !launches)
    && (next == Stall <==> !Failing(m) && !open && !completed)
  }

  lemma ChoosesExactly(order: seq<TaskId>, m: Records, runs: ChildRuns, mayReplan: bool, next: Next)
    requires NoDuplicates(order) && Elements(order) == m.Keys && Decides(order, m, runs, mayReplan, next)
    ensures Chooses(m, runs, mayReplan, next)
  {
    hide Failing, ToLaunch, NoDuplicates, HasFailed, Select, IsWaiting, NoneBlocked, ReadyTasks;
    FailingIs(m);
    FailedIsUnfinished(m);
    LaunchesExactly(order, m, runs);
    OpenExactly(m, runs);
    FinishMeansCompleted(order, m, runs);
    StatusesAre(m);
    assert AllCompleted(StatusesIn(m)) <==> forall t :: t in m ==> m[t].status == Completed;
  }

  lemma OpenExactly(m: Records, runs: ChildRuns)
    ensures SomeOpenChild(m, runs) <==> exists t :: t in m && IsOpen(runs, m[t])
  {
    if t :| t in m && (m[t].status == Running || (m[t].status == Pending && IsWaiting(runs, m[t]))) {
      assert IsOpen(runs, m[t]);
    }
  }

  lemma LaunchesExactly(order: seq<TaskId>, m: Records, runs: ChildRuns)
    requires NoDuplicates(order) && Elements(order) == m.Keys
    ensures var launchable := Select(order, LaunchableTasks(m, runs));
            && (forall t :: t in launchable <==> t in m && ToLaunch(runs, m[t]))
            && (launchable != [] <==> exists t :: t in m && ToLaunch(runs, m[t]))
            && NoDuplicates(launchable)
  {
    var launchable := Select(order, LaunchableTasks(m, runs));
    SelectExact(order, LaunchableTasks(m, runs));
    hide Select, NoDuplicates;
    forall t ensures t in launchable <==> t in m && ToLaunch(runs, m[t]) {
      assert t in order <==> t in Elements(order);
    }
    if launchable != [] { assert launchable[0] in launchable; }
  }

  /** After the step everything is completed exactly when each task was completed before or was running with
      a child run that had completed. */
  lemma FinishedBefore(m: Records, m': Records, runs: ChildRuns, now: real, ids: ChildRunIds)
    requires m'.Keys == m.Keys && forall t :: t in m ==> StepMakes(runs, m, m', t, now, ids)
    ensures (forall t :: t in m' ==> m'[t].status == Completed) <==>
              forall t :: t in m ==> m[t].status == Completed || ChildCompleted(runs, m[t])
  {
    forall t | t in m
      ensures m'[t].status == Completed <==> m[t].status == Completed || ChildCompleted(runs, m[t])
    {
      assert StepMakes(runs, m, m', t, now, ids);
    }
  }

  /** Once the child runs are observed, the step makes no task fail and mends none. */
  lemma FailingStays(order: seq<TaskId>, o: Records, m': Records, runs: ChildRuns, now: real, ids: ChildRunIds)
    requires Elements(order) == o.Keys && Proceeded(order, o, m', runs, now, ids)
    ensures Failing(m') <==> Failing(o)
  {
    hide DoomedSkipped, After, Failing, HasFailed, AllCompleted, Select, ReadyTasks, MayPass;
    FailingIs(o);
    FailingIs(m');
    if !AllCompleted(StatusesIn(o)) {
      if HasFailed(StatusesIn(o)) {
        StillFailed(ReleaseUnborn(runs), o, o.Keys);
        FailingIs(After(ReleaseUnborn(runs), o, o.Keys));
        SkippingKeepsFailing(After(ReleaseUnborn(runs), o, o.Keys), m', now);
      } else {
        StartedReady(order, o, now, ids);
      }
    }
  }

  lemma SkippingKeepsFailing(b: Records, m': Records, now: real)
    requires DoomedSkipped(b, m', now) && Failing(b)
    ensures Failing(m')
  {
    var t :| t in b && (b[t].status == Failed || b[t].status == Cancelled);
    UnsuccessfulAfter(b, m', now, t);
  }

  /** The plan's phase after a step: it starts with its first task and ends when nothing more is to be done. */
  ghost predicate PhaseMoves(m: Records, m': Records, phase: Phase, phase': Phase, next: Next, now: real) {
    var starts := phase.status == PlanCreated
                  && exists t :: t in m && t in m' && m[t].status == Pending && m'[t].status == Running;
    var ends := next == Finish || next == GiveUp || next == Stall;
    && phase'.status == (if next == Finish then PlanCompleted
                         else if ends then PlanFailed else if starts then PlanRunning else phase.status)
    && phase'.startTime == (if starts then now else phase.startTime)
    && phase'.endTime == (if ends then now else phase.endTime)
  }

  lemma PhaseSpelledOut(order: seq<TaskId>, m: Records, o: Records, m': Records, phase: Phase, runs: ChildRuns,
                        now: real, ids: ChildRunIds, next: Next)
    requires Elements(order) == m.Keys == m'.Keys && o == After(Observe(runs, now), m, m.Keys)
    requires Proceeded(order, o, m', runs, now, ids)
    requires forall t :: t in m ==> StepMakes(runs, m, m', t, now, ids)
    ensures PhaseMoves(m, m', phase, EndPhase(ProceededPhase(phase, o, now), next, now), next, now)
  {
    hide After, StepMakes, Proceeded, Select, ReadyTasks, AllCompleted, HasFailed;
    AfterKeeps(Observe(runs, now), m, m.Keys);
    SomethingStarts(order, m, o, m', runs, now, ids);
    if AllCompleted(StatusesIn(o)) { CompletedIsNotReady(o); }
  }

  lemma SomethingStarts(order: seq<TaskId>, m: Records, o: Records, m': Records, runs: ChildRuns, now: real,
                        ids: ChildRunIds)
    requires Elements(order) == m.Keys == m'.Keys && o == After(Observe(runs, now), m, m.Keys)
    requires Proceeded(order, o, m', runs, now, ids)
    requires forall t :: t in m ==> StepMakes(runs, m, m', t, now, ids)
    ensures (exists t :: t in m && t in m' && m[t].status == Pending && m'[t].status == Running) <==>
              !HasFailed(StatusesIn(o)) && ReadyTasks(o) != {}
  {
    hide After, Select, ReadyTasks, HasFailed, AllReadyStarted, AllCompleted, Failing, TakesOver, DoomedSkipped,
         StepMakes;
    AfterKeeps(Observe(runs, now), m, m.Keys);
    AllTakeOver(runs, m, now);
    FailingStays(order, o, m', runs, now, ids);
    FailingIs(o);
    forall t | t in m ensures m[t].status == Pending <==> o[t].status == Pending {
      ObservedStays(runs, m[t], o[t], now);
    }
    if HasFailed(StatusesIn(o)) {
      forall t | t in m && m[t].status == Pending ensures m'[t].status != Running {
        NothingStarts(runs, m, m', t, now, ids);
      }
    } else if AllCompleted(StatusesIn(o)) {
      CompletedIsNotReady(o);
    } else {
      forall t | t in m ensures t in ReadyTasks(o) <==> m[t].status == Pending && m'[t].status == Running {
        StartedExactly(order, o, m', now, ids, t);
      }
      ReadyInside(o);
    }
  }

  lemma NothingStarts(runs: ChildRuns, m: Records, m': Records, t: TaskId, now: real, ids: ChildRunIds)
    requires t in m && t in m' && m[t].status == Pending && Failing(m') && StepMakes(runs, m, m', t, now, ids)
    ensures m'[t].status != Running
  {
    hide Failing, TakesOver;
  }

  lemma ReadyInside(m: Records)
    ensures ReadyTasks(m) <= m.Keys
  {}

  /** The whole step, task by task, and what comes next. */
  lemma StepSpelledOut(order: seq<TaskId>, keys: seq<TaskId>, m: Records, m': Records, phase: Phase, phase': Phase,
                       runs: ChildRuns, mayReplan: bool, now: real, ids: ChildRunIds, next: Next, spent: int)
    requires Topological(DepsIn(m), order) && m'.Keys == m.Keys
    requires AdvancesTo(order, keys, m, m', phase, phase', runs, mayReplan, now, ids, next, spent)
    ensures forall t :: t in m ==> StepMakes(runs, m, m', t, now, ids)
    ensures Chooses(m', runs, mayReplan, next)
    ensures PhaseMoves(m, m', phase, phase', next, now)
    ensures next == Finish <==> forall t :: t in m ==> m[t].status == Completed || ChildCompleted(runs, m[t])
    ensures spent == CompletedTokens(runs, m, keys)
  {
    hide Topological, Proceeded, Decides, NoDuplicates, StepMakes, PhaseMoves, After, TakesOver, ChildCompleted,
         CompletedTokens, TokensIn, EndPhase, ProceededPhase, Failing;
    var o := After(Observe(runs, now), m, m.Keys);
    AfterKeeps(Observe(runs, now), m, m.Keys);
    TopologicalLists(DepsIn(m), order);
    FailingStays(order, o, m', runs, now, ids);
    forall t | t in m { ProceededMakes(order, m, o, m', runs, now, ids, t); }
    ChoosesExactly(order, m', runs, mayReplan, next);
    PhaseSpelledOut(order, m, o, m', phase, runs, now, ids, next);
    FinishedBefore(m, m', runs, now, ids);
    TokensSpelledOut(runs, m, keys);
  }
}
