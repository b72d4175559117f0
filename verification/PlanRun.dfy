/** Runs of the plan scheduler over task states (`src/axiom/plan/models.py:62-92` and the steps of
    `src/axiom/runtime/plan_strategy.py`): what every run keeps, that it cannot stall, and that it ends. */
module PlanRun {
  import opened Ordering
  import opened PlanGraph
  import opened PlanModels

  type Statuses = map<TaskId, TaskStatus>

  const UNSUCCESSFUL := {Failed, Skipped, Cancelled}

  /** `is_executable` on the statuses of the plan's tasks. */
  predicate Executable(deps: Deps, s: Statuses, t: TaskId) {
    t in deps && t in s && s[t] == Pending && forall d :: d in deps[t] ==> d in s && s[d] == Completed
  }

  predicate HasFailed(s: Statuses) {
    exists t :: t in s && s[t] in {Failed, Cancelled}
  }

  predicate AllCompleted(s: Statuses) {
    forall t :: t in s ==> s[t] == Completed
  }

  /** A pending task that `_skip_failed_dependents` skips in one round. */
  predicate Blocked(deps: Deps, s: Statuses, t: TaskId) {
    t in deps && t in s && s[t] == Pending && exists d :: d in deps[t] && d in s && s[d] in UNSUCCESSFUL
  }

  function SkipRound(deps: Deps, s: Statuses): Statuses {
    map t | t in s :: if Blocked(deps, s, t) then Skipped else s[t]
  }

  // ---- The steps of the scheduler ----

  /** One change of the persisted plan: ready tasks start while nothing has failed; a child run that
      ends settles its task; after a failure tasks that never started are released and dependents skipped;
      cancelling the run settles everything that is still open. */
  datatype Action =
    | Start(task: TaskId)
    | Settle(task: TaskId, outcome: TaskStatus)
    | Release(task: TaskId)
    | Skip
    | CancelAll

  predicate Enabled(deps: Deps, s: Statuses, a: Action) {
    match a
    case Start(t) => !HasFailed(s) && Executable(deps, s, t)
    case Settle(t, outcome) => t in s && s[t] == Running && outcome in {Completed, Failed, Cancelled}
    case Release(t) => HasFailed(s) && t in s && s[t] == Running
    case Skip => HasFailed(s) && exists t :: t in s && Blocked(deps, s, t)
    case CancelAll => exists t :: t in s && s[t] in {Pending, Running}
  }

  function Apply(deps: Deps, s: Statuses, a: Action): Statuses {
    match a
    case Start(t) => s[t := Running]
    case Settle(t, outcome) => s[t := outcome]
    case Release(t) => s[t := Pending]
    case Skip => SkipRound(deps, s)
    case CancelAll => map t | t in s :: if s[t] in {Pending, Running} then Cancelled else s[t]
  }

  ghost predicate IsRun(deps: Deps, states: seq<Statuses>, actions: seq<Action>) {
    && |states| == |actions| + 1
    && forall i :: 0 <= i < |actions| ==>
         Enabled(deps, states[i], actions[i]) && states[i + 1] == Apply(deps, states[i], actions[i])
  }

  // ---- What every run keeps ----

  /** Whatever runs or has completed has all its dependencies completed, and tasks are skipped only
      after some task failed or was cancelled. */
  ghost predicate Sound(deps: Deps, s: Statuses) {
    && s.Keys == deps.Keys
    && (forall t, d :: t in s && s[t] in {Running, Completed} && d in deps[t] ==> d in s && s[d] == Completed)
    && SkippedAfterFailure(s)
  }

  ghost predicate SkippedAfterFailure(s: Statuses) {
    (exists t :: t in s && s[t] == Skipped) ==> HasFailed(s)
  }

  function Fresh(deps: Deps): Statuses {
    map t | t in deps :: Pending
  }

  lemma StepKeepsSound(deps: Deps, s: Statuses, a: Action)
    requires Sound(deps, s) && Enabled(deps, s, a)
    ensures Sound(deps, Apply(deps, s, a))
  {
    hide Apply, Enabled, HasFailed;
    StepKeepsOrder(deps, s, a);
    StepKeepsFailure(deps, s, a);
  }

  lemma StepKeepsOrder(deps: Deps, s: Statuses, a: Action)
    requires Sound(deps, s) && Enabled(deps, s, a)
    ensures var s' := Apply(deps, s, a);
            && s'.Keys == deps.Keys
            && forall t, d :: t in s' && s'[t] in {Running, Completed} && d in deps[t] ==> d in s' && s'[d] == Completed
  {
    hide HasFailed;
  }

  lemma StepKeepsFailure(deps: Deps, s: Statuses, a: Action)
    requires SkippedAfterFailure(s) && Enabled(deps, s, a)
    ensures SkippedAfterFailure(Apply(deps, s, a))
  {
    hide Executable;
    var s' := Apply(deps, s, a);
    match a {
      case Start(t) => assert s'[t] == Running;
      case Settle(t, _) =>
        if HasFailed(s) {
          var f :| f in s && s[f] in {Failed, Cancelled};
          assert s'[f] in {Failed, Cancelled};
        }
      case Release(t) =>
        var f :| f in s && s[f] in {Failed, Cancelled};
        assert s'[f] in {Failed, Cancelled};
      case Skip =>
        var f :| f in s && s[f] in {Failed, Cancelled};
        assert s'[f] in {Failed, Cancelled};
      case CancelAll =>
        if HasFailed(s) {
          var f :| f in s && s[f] in {Failed, Cancelled};
          assert s'[f] in {Failed, Cancelled};
        }
    }
  }

  lemma {:induction false} RunKeepsSound(deps: Deps, states: seq<Statuses>, actions: seq<Action>, i: nat)
    requires IsRun(deps, states, actions) && Sound(deps, states[0]) && i < |states|
    ensures Sound(deps, states[i])
  {
    if i > 0 {
      RunKeepsSound(deps, states, actions, i - 1);
      StepKeepsSound(deps, states[i - 1], actions[i - 1]);
    }
  }

  lemma {:induction false} RunKeepsFailure(deps: Deps, states: seq<Statuses>, actions: seq<Action>, i: nat)
    requires IsRun(deps, states, actions) && SkippedAfterFailure(states[0]) && i < |states|
    ensures SkippedAfterFailure(states[i])
  {
    if i > 0 {
      RunKeepsFailure(deps, states, actions, i - 1);
      StepKeepsFailure(deps, states[i - 1], actions[i - 1]);
    }
  }

  // ---- A run cannot stall ----

  /** Among open tasks, the first in dependency order is executable unless something blocks it. */
  lemma {:induction false} FirstOpenIsExecutable(deps: Deps, order: seq<TaskId>, s: Statuses, i: nat)
    returns (t: TaskId)
    requires Topological(deps, order) && s.Keys == deps.Keys
    requires Complete(deps)
    requires forall u :: u in s ==> s[u] != Running && !Blocked(deps, s, u)
    requires i < |order| && order[i] in s && s[order[i]] == Pending
    ensures Executable(deps, s, t)
    decreases i
  {
    t := order[i];
    if !Executable(deps, s, t) {
      var k := OpenDependency(deps, order, s, i);
      t := FirstOpenIsExecutable(deps, order, s, k);
    }
  }

  lemma OpenDependency(deps: Deps, order: seq<TaskId>, s: Statuses, i: nat) returns (k: nat)
    requires Topological(deps, order) && s.Keys == deps.Keys && Complete(deps)
    requires forall u :: u in s ==> s[u] != Running && !Blocked(deps, s, u)
    requires i < |order| && order[i] in s && s[order[i]] == Pending && !Executable(deps, s, order[i])
    ensures k < i && s[order[k]] == Pending
  {
    hide NoDuplicates, Present;
    var t := order[i];
    var d :| d in deps[t] && s[d] != Completed;
    assert d in order[..i];
    k :| 0 <= k < i && order[k] == d;
    assert !Blocked(deps, s, t);
    match s[d] { case _ => }
  }

  /** On a closed acyclic plan: when nothing runs and no open task is blocked by an unsuccessful one,
      either no task is open or some task is executable. In particular, when nothing has failed, been
      cancelled or been skipped, the plan is completed or can go on. */
  lemma NoDeadlock(deps: Deps, order: seq<TaskId>, s: Statuses)
    requires Topological(deps, order) && s.Keys == deps.Keys
    requires Complete(deps)
    requires forall u :: u in s ==> s[u] != Running && !Blocked(deps, s, u)
    ensures (forall u :: u in s ==> s[u] != Pending) || exists t :: Executable(deps, s, t)
    ensures (forall u :: u in s ==> s[u] !in UNSUCCESSFUL) && !AllCompleted(s) ==> exists t :: Executable(deps, s, t)
  {
    if u :| u in s && s[u] == Pending {
      assert u in Elements(order);
      var i :| 0 <= i < |order| && order[i] == u;
      var t := FirstOpenIsExecutable(deps, order, s, i);
    }
  }

  // ---- A run ends ----

  /** How many more steps the task may still take, before and after the first failure. */
  function Weight(failed: bool, status: TaskStatus): nat {
    match status
    case Pending => if failed then 1 else 4
    case Running => if failed then 2 else 3
    case _ => if failed then 0 else 2
  }

  function TotalWeight(failed: bool, s: Statuses, tasks: seq<TaskId>): nat {
    if tasks == [] then 0
    else TotalWeight(failed, s, tasks[1..]) + if tasks[0] in s then Weight(failed, s[tasks[0]]) else 0
  }

  function Measure(s: Statuses, tasks: seq<TaskId>): nat {
    TotalWeight(HasFailed(s), s, tasks)
  }

  lemma {:induction false} WeightsGoDown(before: bool, after: bool, s: Statuses, s': Statuses, tasks: seq<TaskId>)
    requires Elements(tasks) <= s.Keys && s'.Keys == s.Keys
    requires forall t :: t in tasks ==> Weight(after, s'[t]) <= Weight(before, s[t])
    ensures TotalWeight(after, s', tasks) <= TotalWeight(before, s, tasks)
    ensures (exists t :: t in tasks && Weight(after, s'[t]) < Weight(before, s[t])) ==>
              TotalWeight(after, s', tasks) < TotalWeight(before, s, tasks)
  {
    if tasks != [] {
      assert tasks[0] in Elements(tasks);
      assert Elements(tasks[1..]) <= Elements(tasks);
      WeightsGoDown(before, after, s, s', tasks[1..]);
    }
  }

  lemma FailurePersists(deps: Deps, s: Statuses, a: Action)
    requires Enabled(deps, s, a) && HasFailed(s)
    ensures HasFailed(Apply(deps, s, a))
  {
    var f :| f in s && s[f] in {Failed, Cancelled};
    assert Apply(deps, s, a)[f] in {Failed, Cancelled};
  }

  lemma StepCosts(deps: Deps, s: Statuses, a: Action)
    requires s.Keys == deps.Keys && Enabled(deps, s, a)
    ensures var s', before, after := Apply(deps, s, a), HasFailed(s), HasFailed(Apply(deps, s, a));
            && s'.Keys == s.Keys
            && (forall t :: t in s ==> Weight(after, s'[t]) <= Weight(before, s[t]))
            && (exists t :: t in s && Weight(after, s'[t]) < Weight(before, s[t]))
  {
    var s' := Apply(deps, s, a);
    if HasFailed(s) { FailurePersists(deps, s, a); }
    match a {
      case Start(t) => assert Weight(HasFailed(s'), s'[t]) < Weight(HasFailed(s), s[t]);
      case Settle(t, _) => assert Weight(HasFailed(s'), s'[t]) < Weight(HasFailed(s), s[t]);
      case Release(t) => assert Weight(HasFailed(s'), s'[t]) < Weight(HasFailed(s), s[t]);
      case Skip =>
        var t :| t in s && Blocked(deps, s, t);
        assert Weight(HasFailed(s'), s'[t]) < Weight(HasFailed(s), s[t]);
      case CancelAll =>
        var t :| t in s && s[t] in {Pending, Running};
        assert s'[t] == Cancelled;
        assert Weight(HasFailed(s'), s'[t]) < Weight(HasFailed(s), s[t]);
    }
  }

  lemma MeasureDecreases(deps: Deps, s: Statuses, a: Action, tasks: seq<TaskId>)
    requires s.Keys == deps.Keys && Enabled(deps, s, a) && Elements(tasks) == s.Keys
    ensures Measure(Apply(deps, s, a), tasks) < Measure(s, tasks)
  {
    hide HasFailed, Weight, TotalWeight, Apply, Enabled;
    StepCosts(deps, s, a);
    var s' := Apply(deps, s, a);
    assert forall t :: t in tasks ==> t in Elements(tasks);
    assert forall t :: t in s ==> t in Elements(tasks);
    WeightsGoDown(HasFailed(s), HasFailed(s'), s, s', tasks);
  }

  /** Every run makes fewer steps than its first state weighs: at most four for each task. */
  lemma {:induction false} RunIsBounded(deps: Deps, states: seq<Statuses>, actions: seq<Action>, tasks: seq<TaskId>,
                                        i: nat)
    requires IsRun(deps, states, actions) && Sound(deps, states[0]) && Elements(tasks) == deps.Keys
    requires i < |states|
    ensures i + Measure(states[i], tasks) <= Measure(states[0], tasks) <= 4 * |tasks|
  {
    if i == 0 {
      WeightAtMost(HasFailed(states[0]), states[0], tasks);
    } else {
      RunIsBounded(deps, states, actions, tasks, i - 1);
      RunKeepsSound(deps, states, actions, i - 1);
      MeasureDecreases(deps, states[i - 1], actions[i - 1], tasks);
    }
  }

  lemma {:induction false} WeightAtMost(failed: bool, s: Statuses, tasks: seq<TaskId>)
    ensures TotalWeight(failed, s, tasks) <= 4 * |tasks|
  {
    if tasks != [] { WeightAtMost(failed, s, tasks[1..]); }
  }

  /** Only cancelling is left to do. */
  ghost predicate Quiet(deps: Deps, s: Statuses) {
    forall a :: Enabled(deps, s, a) ==> a == CancelAll
  }

  /** A run of a closed acyclic plan can go on, without anybody cancelling it, until every task is
      completed; or, when some task failed, until nothing runs and no open task is blocked. */
  lemma UnfinishedRunGoesOn(deps: Deps, order: seq<TaskId>, states: seq<Statuses>, actions: seq<Action>)
    requires IsRun(deps, states, actions) && Sound(deps, states[0])
    requires Topological(deps, order) && Complete(deps) && Quiet(deps, states[|actions|])
    ensures var s := states[|actions|];
            if HasFailed(s) then forall t :: t in s ==> s[t] != Running && !Blocked(deps, s, t) else AllCompleted(s)
  {
    var s := states[|actions|];
    RunKeepsSound(deps, states, actions, |actions|);
    QuietMeansSettled(deps, order, s);
  }

  lemma QuietMeansSettled(deps: Deps, order: seq<TaskId>, s: Statuses)
    requires Sound(deps, s) && Topological(deps, order) && Complete(deps) && Quiet(deps, s)
    ensures if HasFailed(s) then forall t :: t in s ==> s[t] != Running && !Blocked(deps, s, t) else AllCompleted(s)
  {
    hide Topological, Complete, Blocked, Executable, Apply;
    forall t | t in s ensures s[t] != Running { assert !Enabled(deps, s, Settle(t, Completed)); }
    assert !Enabled(deps, s, Skip);
    if !HasFailed(s) {
      forall t ensures !Executable(deps, s, t) { assert !Enabled(deps, s, Start(t)); }
      forall t | t in s ensures s[t] !in UNSUCCESSFUL && !Blocked(deps, s, t) { NothingUnsuccessful(deps, s, t); }
      NoDeadlock(deps, order, s);
    }
  }

  lemma NothingUnsuccessful(deps: Deps, s: Statuses, t: TaskId)
    requires Sound(deps, s) && !HasFailed(s) && t in s
    ensures s[t] !in UNSUCCESSFUL && !Blocked(deps, s, t)
  {
    assert forall u :: u in s ==> s[u] !in UNSUCCESSFUL;
  }

  lemma FreshIsSound(deps: Deps)
    ensures Sound(deps, Fresh(deps)) && !HasFailed(Fresh(deps))
  {}
}
