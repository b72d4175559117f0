/** The scheduler steps of `src/axiom/runtime/plan_strategy.py` on the plan's task objects. Each is specified by what it
    makes of every task record, and proved to be a run of the state machine in `PlanRun`. */
module PlanStrategy {
  import opened Wrappers
  import opened Ordering
  import opened PlanGraph
  import opened PlanModels
  import opened PlanRun

  type Records = map<TaskId, TaskRecord>

  ghost function RecordsOf(plan: ExecutionPlan): Records
    reads plan`tasks, plan.tasks.Values
  {
    map t | t in plan.tasks :: plan.tasks[t].Record()
  }

  function StatusesIn(m: Records): Statuses {
    map t | t in m :: m[t].status
  }

  function DepsIn(m: Records): Deps {
    map t | t in m :: m[t].dependencies
  }

  lemma RecordsAre(plan: ExecutionPlan)
    ensures RecordsOf(plan).Keys == plan.tasks.Keys && DepsIn(RecordsOf(plan)) == plan.Deps()
    ensures forall t :: t in plan.tasks ==> RecordsOf(plan)[t] == plan.tasks[t].Record()
  {}

  // ---- Steps as runs of the state machine ----

  /** The scheduler can lead from `s` to `s'`. */
  ghost predicate Runs(deps: Deps, s: Statuses, s': Statuses) {
    exists states, actions :: IsRun(deps, states, actions) && states[0] == s && states[|actions|] == s'
  }

  lemma RunsNowhere(deps: Deps, s: Statuses)
    ensures Runs(deps, s, s)
  {
    assert IsRun(deps, [s], []);
  }

  lemma RunsOn(deps: Deps, s: Statuses, s': Statuses, a: Action)
    requires Runs(deps, s, s') && Enabled(deps, s', a)
    ensures Runs(deps, s, Apply(deps, s', a))
  {
    hide Enabled, Apply;
    var states, actions :| IsRun(deps, states, actions) && states[0] == s && states[|actions|] == s';
    var longer := states + [Apply(deps, s', a)];
    forall i | 0 <= i < |actions + [a]|
      ensures Enabled(deps, longer[i], (actions + [a])[i])
      ensures longer[i + 1] == Apply(deps, longer[i], (actions + [a])[i])
    {}
    assert IsRun(deps, longer, actions + [a]);
  }

  lemma RunsTransitive(deps: Deps, s: Statuses, s': Statuses, s'': Statuses)
    requires Runs(deps, s, s') && Runs(deps, s', s'')
    ensures Runs(deps, s, s'')
  {
    hide Enabled, Apply;
    var states, actions :| IsRun(deps, states, actions) && states[0] == s' && states[|actions|] == s'';
    RunsAlong(deps, s, states, actions, |actions|);
  }

  lemma {:induction false} RunsAlong(deps: Deps, s: Statuses, states: seq<Statuses>, actions: seq<Action>, i: nat)
    requires IsRun(deps, states, actions) && Runs(deps, s, states[0]) && i <= |actions|
    ensures Runs(deps, s, states[i])
  {
    hide Enabled, Apply, Runs;
    if i > 0 {
      RunsAlong(deps, s, states, actions, i - 1);
      RunsOn(deps, s, states[i - 1], actions[i - 1]);
    }
  }

  /** The dependencies stay, and the scheduler can lead from the statuses in `m` to those in `m'`. */
  ghost predicate Steps(m: Records, m': Records) {
    DepsIn(m') == DepsIn(m) && Runs(DepsIn(m), StatusesIn(m), StatusesIn(m'))
  }

  lemma StepsNowhere(m: Records)
    ensures Steps(m, m)
  {
    hide Runs;
    RunsNowhere(DepsIn(m), StatusesIn(m));
  }

  lemma StepsTransitive(m: Records, m': Records, m'': Records)
    requires Steps(m, m') && Steps(m', m'')
    ensures Steps(m, m'')
  {
    hide Runs;
    RunsTransitive(DepsIn(m), StatusesIn(m), StatusesIn(m'), StatusesIn(m''));
  }

  /** What every run keeps holds of whatever the scheduler's steps lead to. */
  lemma StepsKeepSound(m: Records, m': Records)
    requires Steps(m, m') && Sound(DepsIn(m), StatusesIn(m))
    ensures Sound(DepsIn(m'), StatusesIn(m'))
  {
    var deps, s, s' := DepsIn(m), StatusesIn(m), StatusesIn(m');
    var states, actions :| IsRun(deps, states, actions) && states[0] == s && states[|actions|] == s';
    RunKeepsSound(deps, states, actions, |actions|);
  }

  // ---- Child runs ----

  datatype RunStatus =
    | StillRunning | Interrupted | WaitingApproval | WaitingChild | RunCompleted | RunFailed | RunCancelled

  /** What the store holds of a child run. */
  datatype Child = Child(status: RunStatus, output: string, error: Option<string>, totalTokens: int)

  type ChildRuns = map<string, Child>

  function Value(status: RunStatus): string {
    match status
    case StillRunning => "RUNNING"
    case Interrupted => "INTERRUPTED"
    case WaitingApproval => "WAITING_APPROVAL"
    case WaitingChild => "WAITING_CHILD"
    case RunCompleted => "COMPLETED"
    case RunFailed => "FAILED"
    case RunCancelled => "CANCELLED"
  }

  function LowerValue(status: RunStatus): string {
    match status
    case StillRunning => "running"
    case Interrupted => "interrupted"
    case WaitingApproval => "waiting_approval"
    case WaitingChild => "waiting_child"
    case RunCompleted => "completed"
    case RunFailed => "failed"
    case RunCancelled => "cancelled"
  }

  /** A child run id that is neither absent nor empty. */
  predicate HasChildRun(r: TaskRecord) {
    r.childRunId.Some? && r.childRunId.value != ""
  }

  function LoadChild(id: Option<string>, runs: ChildRuns): Option<Child> {
    if id.Some? && id.value != "" && id.value in runs then Some(runs[id.value]) else None
  }

  function ChildOf(runs: ChildRuns, r: TaskRecord): Option<Child> {
    LoadChild(r.childRunId, runs)
  }

  predicate IsWaiting(runs: ChildRuns, r: TaskRecord) {
    var child := ChildOf(runs, r);
    child.Some? && child.value.status in {WaitingApproval, Interrupted}
  }

  // ---- What a step makes of a task ----

  function AfterRounds(deps: Deps, s: Statuses, n: nat): Statuses {
    if n == 0 then s else SkipRound(deps, AfterRounds(deps, s, n - 1))
  }

  /** At most `n` dependency steps through pending tasks lead from `t` to an unsuccessful task. */
  ghost predicate DoomedWithin(deps: Deps, s: Statuses, t: TaskId, n: nat)
    decreases n
  {
    && n > 0 && t in deps && t in s && s[t] == Pending
    && exists d :: d in deps[t] && d in s && (s[d] in UNSUCCESSFUL || DoomedWithin(deps, s, d, n - 1))
  }

  ghost predicate Doomed(deps: Deps, s: Statuses, t: TaskId) {
    exists n :: DoomedWithin(deps, s, t, n)
  }

  lemma {:induction false} RoundsSkipDoomed(deps: Deps, s: Statuses, n: nat)
    ensures AfterRounds(deps, s, n).Keys == s.Keys
    ensures forall t :: t in s ==>
              AfterRounds(deps, s, n)[t] == if DoomedWithin(deps, s, t, n) then Skipped else s[t]
  {
    if n > 0 {
      RoundsSkipDoomed(deps, s, n - 1);
      var r := AfterRounds(deps, s, n - 1);
      forall t | t in s ensures AfterRounds(deps, s, n)[t] == if DoomedWithin(deps, s, t, n) then Skipped else s[t] {
        DoomedMonotone(deps, s, t, n - 1);
      }
    }
  }

  lemma {:induction false} DoomedMonotone(deps: Deps, s: Statuses, t: TaskId, n: nat)
    ensures DoomedWithin(deps, s, t, n) ==> DoomedWithin(deps, s, t, n + 1)
    decreases n
  {
    if DoomedWithin(deps, s, t, n) {
      var d :| d in deps[t] && d in s && (s[d] in UNSUCCESSFUL || DoomedWithin(deps, s, d, n - 1));
      DoomedMonotone(deps, s, d, n - 1);
    }
  }

  /** Once a round changes nothing, exactly the doomed tasks have been skipped. */
  lemma FixpointSkipsDoomed(deps: Deps, s: Statuses, n: nat)
    requires SkipRound(deps, AfterRounds(deps, s, n)) == AfterRounds(deps, s, n)
    ensures forall t :: t in s ==> (DoomedWithin(deps, s, t, n) <==> Doomed(deps, s, t))
  {
    forall t, m | t in s && DoomedWithin(deps, s, t, m) ensures DoomedWithin(deps, s, t, n) {
      DoomedByFixpoint(deps, s, n, t, m);
    }
  }

  lemma {:induction false} DoomedByFixpoint(deps: Deps, s: Statuses, n: nat, t: TaskId, m: nat)
    requires SkipRound(deps, AfterRounds(deps, s, n)) == AfterRounds(deps, s, n)
    requires t in s && DoomedWithin(deps, s, t, m)
    ensures DoomedWithin(deps, s, t, n)
    decreases m
  {
    var d :| d in deps[t] && d in s && (s[d] in UNSUCCESSFUL || DoomedWithin(deps, s, d, m - 1));
    if s[d] !in UNSUCCESSFUL { DoomedByFixpoint(deps, s, n, d, m - 1); }
    RoundsSkipDoomed(deps, s, n);
    var r := AfterRounds(deps, s, n);
    assert r[d] in UNSUCCESSFUL;
    assert SkipRound(deps, r)[t] == r[t];
    if r[t] == Pending { assert Blocked(deps, r, t); }
  }

  /** The dependencies that a skipped task is told did not succeed. */
  function FailedDependencies(s: Statuses, dependencies: seq<TaskId>): seq<TaskId> {
    if dependencies == [] then []
    else
      var last := dependencies[|dependencies| - 1];
      FailedDependencies(s, dependencies[..|dependencies| - 1])
      + if last in s && s[last] in UNSUCCESSFUL then [last] else []
  }

  lemma {:induction false} FailedDependenciesExact(s: Statuses, ds: seq<TaskId>)
    ensures forall d :: d in FailedDependencies(s, ds) <==> d in ds && d in s && s[d] in UNSUCCESSFUL
    ensures FailedDependencies(s, ds) != [] <==> exists d :: d in ds && d in s && s[d] in UNSUCCESSFUL
  {
    if ds != [] {
      var init, last := ds[..|ds| - 1], ds[|ds| - 1];
      assert ds == init + [last];
      FailedDependenciesExact(s, init);
    }
  }

  function Join(xs: seq<string>): string {
    if xs == [] then ""
    else if |xs| == 1 then xs[0]
    else Join(xs[..|xs| - 1]) + ", " + xs[|xs| - 1]
  }

  function SkippedRecord(s: Statuses, r: TaskRecord, now: real): TaskRecord {
    r.(status := Skipped, endTime := now, executionState := "SKIPPED",
       error := "dependency did not complete successfully: " + Join(FailedDependencies(s, r.dependencies)))
  }

  /** The id of the child run of a task's attempt: a hash of run, plan version, task and attempt. */
  type ChildRunIds = (TaskId, int) -> string

  function StartedRecord(r: TaskRecord, now: real, ids: ChildRunIds): TaskRecord {
    if r.childRunId.None?
    then r.(status := Running, attempt := r.attempt + 1, startTime := now, executionState := "ASSIGNED",
            childRunId := Some(ids(r.id, r.attempt + 1)))
    else r.(status := Running, startTime := if r.startTime == 0.0 then now else r.startTime,
            executionState := "ASSIGNED")
  }

  /** A running task takes over the outcome of its child run. A child run waiting for a child run of its
      own counts as failed. */
  function ObservedRecord(runs: ChildRuns, r: TaskRecord, now: real): TaskRecord {
    var child := ChildOf(runs, r);
    if r.status != Running || child.None? || child.value.status == StillRunning then r
    else
      var state := Value(child.value.status);
      var message := if child.value.error.Some? then child.value.error.value else LowerValue(child.value.status);
      match child.value.status
      case WaitingApproval | Interrupted => r.(executionState := state)
      case RunCompleted =>
        r.(status := Completed, result := child.value.output, error := "", endTime := now, executionState := state)
      case RunCancelled => r.(status := Cancelled, error := message, endTime := now, executionState := state)
      case _ => r.(status := Failed, error := message, endTime := now, executionState := state)
  }

  /** What observing the child run of a task adds to the parent's tokens. */
  function TokensOf(runs: ChildRuns, r: TaskRecord): int {
    var child := ChildOf(runs, r);
    if r.status == Running && child.Some? && child.value.status == RunCompleted then child.value.totalTokens else 0
  }

  /** What observing the child runs makes of a task, child status by child status. */
  ghost predicate TakesOver(runs: ChildRuns, r: TaskRecord, r': TaskRecord, now: real) {
    if r.status == Running && r.childRunId.Some? && r.childRunId.value != "" && r.childRunId.value in runs then
      var child := runs[r.childRunId.value];
      match child.status
      case RunCompleted =>
        r' == r.(status := Completed, result := child.output, error := "", endTime := now,
                 executionState := "COMPLETED")
      case RunCancelled =>
        && r' == r.(status := Cancelled, error := r'.error, endTime := now, executionState := "CANCELLED")
        && r'.error == if child.error.Some? then child.error.value else "cancelled"
      case RunFailed =>
        && r' == r.(status := Failed, error := r'.error, endTime := now, executionState := "FAILED")
        && r'.error == if child.error.Some? then child.error.value else "failed"
      case WaitingChild =>
        && r' == r.(status := Failed, error := r'.error, endTime := now, executionState := "WAITING_CHILD")
        && r'.error == if child.error.Some? then child.error.value else "waiting_child"
      case WaitingApproval => r' == r.(executionState := "WAITING_APPROVAL")
      case Interrupted => r' == r.(executionState := "INTERRUPTED")
      case StillRunning => r' == r
    else r' == r
  }

  /** The task is running and its child run has completed. */
  predicate ChildCompleted(runs: ChildRuns, r: TaskRecord) {
    && r.status == Running && r.childRunId.Some? && r.childRunId.value != "" && r.childRunId.value in runs
    && runs[r.childRunId.value].status == RunCompleted
  }

  /** The tokens of the completed child runs of running tasks. */
  function CompletedTokens(runs: ChildRuns, m: Records, keys: seq<TaskId>): int {
    SumOver(t => if t in m && ChildCompleted(runs, m[t]) then runs[m[t].childRunId.value].totalTokens else 0, keys)
  }

  lemma ObservedTakesOver(runs: ChildRuns, r: TaskRecord, now: real)
    ensures TakesOver(runs, r, ObservedRecord(runs, r, now), now)
    ensures TokensOf(runs, r) == if ChildCompleted(runs, r) then runs[r.childRunId.value].totalTokens else 0
  {}

  lemma {:induction false} TokensSpelledOut(runs: ChildRuns, m: Records, keys: seq<TaskId>)
    ensures TokensIn(runs, m, keys) == CompletedTokens(runs, m, keys)
  {
    hide TokensOf, ChildCompleted;
    if keys != [] {
      var last := keys[|keys| - 1];
      TokensSpelledOut(runs, m, keys[..|keys| - 1]);
      if last in m { ObservedTakesOver(runs, m[last], 0.0); }
    }
  }

  /** What one pass over tasks of the plan does to each of them. */
  datatype Pass =
    | SkipBlocked(statuses: Statuses, now: real)
    | StartReady(now: real, ids: ChildRunIds)
    | Observe(runs: ChildRuns, now: real)
    | ReleaseUnborn(runs: ChildRuns)
    | CancelOpen(now: real)

  function Passed(p: Pass, r: TaskRecord): TaskRecord {
    match p
    case SkipBlocked(s, now) =>
      if r.status == Pending && FailedDependencies(s, r.dependencies) != [] then SkippedRecord(s, r, now) else r
    case StartReady(now, ids) => if r.status == Pending then StartedRecord(r, now, ids) else r
    case Observe(runs, now) => ObservedRecord(runs, r, now)
    case ReleaseUnborn(runs) =>
      if r.status == Running && HasChildRun(r) && ChildOf(runs, r).None?
      then r.(status := Pending, executionState := "") else r
    case CancelOpen(now) =>
      if r.status in {Pending, Running}
      then r.(status := Cancelled, error := "cancelled", endTime := now, executionState := "CANCELLED") else r
  }

  /** The records once the given tasks have had their turn. */
  function After(p: Pass, m: Records, tasks: set<TaskId>): Records {
    map t | t in m :: if t in tasks then Passed(p, m[t]) else m[t]
  }

  lemma AfterMore(p: Pass, m: Records, tasks: set<TaskId>, t: TaskId)
    requires t in m && t !in tasks
    ensures t in After(p, m, tasks) && After(p, m, tasks)[t] == m[t]
    ensures After(p, m, tasks + {t}) == After(p, m, tasks)[t := Passed(p, m[t])]
  {
    hide Passed;
  }

  lemma AfterNone(p: Pass, m: Records)
    ensures After(p, m, {}) == m
  {
    hide Passed;
  }

  lemma PassedKeeps(p: Pass, r: TaskRecord)
    ensures Passed(p, r).dependencies == r.dependencies && Passed(p, r).id == r.id
  {}

  lemma AfterKeeps(p: Pass, m: Records, tasks: set<TaskId>)
    ensures After(p, m, tasks).Keys == m.Keys && DepsIn(After(p, m, tasks)) == DepsIn(m)
    ensures StatusesIn(After(p, m, tasks)).Keys == m.Keys == StatusesIn(m).Keys == DepsIn(m).Keys
    ensures forall t :: t in m ==> StatusesIn(m)[t] == m[t].status
    ensures forall t :: t in m ==>
              StatusesIn(After(p, m, tasks))[t] == if t in tasks then Passed(p, m[t]).status else m[t].status
  {
    hide Passed;
    forall t | t in m ensures Passed(p, m[t]).dependencies == m[t].dependencies { PassedKeeps(p, m[t]); }
  }

  // ---- Passes are runs ----

  /** The step of the scheduler that the pass makes on task `t`. */
  function ActionOn(p: Pass, t: TaskId, status: TaskStatus): Action {
    match p
    case StartReady(_, _) => Start(t)
    case ReleaseUnborn(_) => Release(t)
    case _ => Settle(t, status)
  }

  predicate MayPass(p: Pass, m: Records, tasks: set<TaskId>) {
    match p
    case Observe(_, _) => true
    case ReleaseUnborn(_) => HasFailed(StatusesIn(m))
    case StartReady(_, _) =>
      !HasFailed(StatusesIn(m)) && forall t :: t in tasks ==> Executable(DepsIn(m), StatusesIn(m), t)
    case _ => false
  }

  lemma PassEnabled(p: Pass, m: Records, tasks: set<TaskId>, t: TaskId)
    requires MayPass(p, m, tasks + {t}) && t in m && t !in tasks && Passed(p, m[t]).status != m[t].status
    ensures Enabled(DepsIn(m), StatusesIn(After(p, m, tasks)), ActionOn(p, t, Passed(p, m[t]).status))
  {
    hide After, DepsIn, StatusesIn, HasFailed, Executable;
    AfterKeeps(p, m, tasks);
    if p.ReleaseUnborn? {
      StillFailed(p, m, tasks);
    } else if p.StartReady? {
      NothingFails(p, m, tasks);
      assert t in tasks + {t};
      StillExecutable(p, m, tasks, t);
    }
  }

  /** Starting other tasks leaves an executable task executable. */
  lemma StillExecutable(p: Pass, m: Records, tasks: set<TaskId>, t: TaskId)
    requires p.StartReady? && Executable(DepsIn(m), StatusesIn(m), t) && t !in tasks
    ensures Executable(DepsIn(m), StatusesIn(After(p, m, tasks)), t)
  {
    hide After, StartedRecord;
    AfterKeeps(p, m, tasks);
  }

  lemma StillFailed(p: Pass, m: Records, tasks: set<TaskId>)
    requires p.ReleaseUnborn? && HasFailed(StatusesIn(m))
    ensures HasFailed(StatusesIn(After(p, m, tasks)))
  {
    hide After;
    AfterKeeps(p, m, tasks);
    var f :| f in StatusesIn(m) && StatusesIn(m)[f] in {Failed, Cancelled};
    assert StatusesIn(After(p, m, tasks))[f] in {Failed, Cancelled};
  }

  lemma NothingFails(p: Pass, m: Records, tasks: set<TaskId>)
    requires p.StartReady? && !HasFailed(StatusesIn(m))
    ensures !HasFailed(StatusesIn(After(p, m, tasks)))
  {
    hide After, StartedRecord;
    AfterKeeps(p, m, tasks);
    forall t | t in m ensures StatusesIn(After(p, m, tasks))[t] !in {Failed, Cancelled} {
      assert StatusesIn(m)[t] !in {Failed, Cancelled};
      StartedRuns(m[t], p.now, p.ids);
    }
  }

  lemma StartedRuns(r: TaskRecord, now: real, ids: ChildRunIds)
    ensures StartedRecord(r, now, ids).status == Running
  {}

  lemma {:induction false} PassRuns(p: Pass, m: Records, tasks: seq<TaskId>)
    requires MayPass(p, m, Elements(tasks))
    ensures Runs(DepsIn(m), StatusesIn(m), StatusesIn(After(p, m, Elements(tasks))))
  {
    hide Runs, Enabled, Passed, Executable, DepsIn, StatusesIn;
    if tasks == [] {
      AfterNone(p, m);
      assert Elements(tasks) == {};
      RunsNowhere(DepsIn(m), StatusesIn(m));
    } else {
      var init, t := tasks[..|tasks| - 1], tasks[|tasks| - 1];
      assert tasks == init + [t] && Elements(tasks) == Elements(init) + {t};
      PassRuns(p, m, init);
      if t in m && t !in Elements(init) {
        PassRunsOn(p, m, Elements(init), t);
      } else {
        assert After(p, m, Elements(tasks)) == After(p, m, Elements(init));
      }
    }
  }

  lemma PassRunsOn(p: Pass, m: Records, tasks: set<TaskId>, t: TaskId)
    requires MayPass(p, m, tasks + {t}) && t in m && t !in tasks
    requires Runs(DepsIn(m), StatusesIn(m), StatusesIn(After(p, m, tasks)))
    ensures Runs(DepsIn(m), StatusesIn(m), StatusesIn(After(p, m, tasks + {t})))
  {
    hide Runs, Enabled, After, Passed, Apply, ActionOn, DepsIn, StatusesIn, MayPass;
    StatusesMore(p, m, tasks, t);
    MayPassIs(p, m, tasks + {t});
    var deps, s, s', status := DepsIn(m), StatusesIn(m), StatusesIn(After(p, m, tasks)), Passed(p, m[t]).status;
    if status != m[t].status {
      PassEnabled(p, m, tasks, t);
      StatusAfter(p, deps, s', m[t], t);
      RunsOn(deps, s, s', ActionOn(p, t, status));
    } else {
      assert s'[t := status] == s';
    }
  }

  lemma StatusesMore(p: Pass, m: Records, tasks: set<TaskId>, t: TaskId)
    requires t in m && t !in tasks
    ensures var s := StatusesIn(After(p, m, tasks));
            && t in s && s[t] == m[t].status
            && StatusesIn(After(p, m, tasks + {t})) == s[t := Passed(p, m[t]).status]
  {
    hide After, Passed, StatusesIn;
    AfterKeeps(p, m, tasks);
    AfterKeeps(p, m, tasks + {t});
  }

  lemma MayPassIs(p: Pass, m: Records, tasks: set<TaskId>)
    requires MayPass(p, m, tasks)
    ensures p.StartReady? || p.ReleaseUnborn? || p.Observe?
  {}

  lemma StatusAfter(p: Pass, deps: Deps, s: Statuses, r: TaskRecord, t: TaskId)
    requires Passed(p, r).status != r.status && (p.StartReady? || p.ReleaseUnborn? || p.Observe?)
    ensures Apply(deps, s, ActionOn(p, t, Passed(p, r).status)) == s[t := Passed(p, r).status]
  {}

  lemma PassSteps(p: Pass, m: Records, tasks: seq<TaskId>)
    requires MayPass(p, m, Elements(tasks))
    ensures Steps(m, After(p, m, Elements(tasks)))
  {
    hide Runs, MayPass, After;
    AfterKeeps(p, m, Elements(tasks));
    PassRuns(p, m, tasks);
  }

  // ---- Skipping the dependents of unsuccessful tasks ----

  /** One round of skipping. */
  function SkippedOnce(m: Records, now: real): Records {
    After(SkipBlocked(StatusesIn(m), now), m, m.Keys)
  }

  function SkippedRounds(m: Records, n: nat, now: real): Records {
    if n == 0 then m else SkippedOnce(SkippedRounds(m, n - 1, now), now)
  }

  lemma SkippedOnceIs(m: Records, now: real)
    ensures SkippedOnce(m, now).Keys == m.Keys && DepsIn(SkippedOnce(m, now)) == DepsIn(m)
    ensures StatusesIn(SkippedOnce(m, now)) == SkipRound(DepsIn(m), StatusesIn(m))
    ensures forall t :: t in m ==>
              SkippedOnce(m, now)[t] ==
              if Blocked(DepsIn(m), StatusesIn(m), t) then SkippedRecord(StatusesIn(m), m[t], now) else m[t]
  {
    var p := SkipBlocked(StatusesIn(m), now);
    AfterKeeps(p, m, m.Keys);
    forall t | t in m
      ensures Passed(p, m[t]) ==
              if Blocked(DepsIn(m), StatusesIn(m), t) then SkippedRecord(StatusesIn(m), m[t], now) else m[t]
    {
      FailedDependenciesExact(StatusesIn(m), m[t].dependencies);
    }
    hide Passed, SkippedRecord, Blocked;
    forall t | t in m ensures StatusesIn(SkippedOnce(m, now))[t] == SkipRound(DepsIn(m), StatusesIn(m))[t] {
      SkippedStatus(StatusesIn(m), m[t], now);
    }
  }

  lemma SkippedStatus(s: Statuses, r: TaskRecord, now: real)
    ensures SkippedRecord(s, r, now).status == Skipped
  {}

  /** `t` is skipped in the round after the first `k`. */
  ghost predicate SkippedAfter(deps: Deps, s: Statuses, t: TaskId, k: nat) {
    DoomedWithin(deps, s, t, k + 1) && !DoomedWithin(deps, s, t, k)
  }

  lemma {:induction false} RoundsAre(m: Records, n: nat, now: real)
    ensures SkippedRounds(m, n, now).Keys == m.Keys && DepsIn(SkippedRounds(m, n, now)) == DepsIn(m)
    ensures StatusesIn(SkippedRounds(m, n, now)) == AfterRounds(DepsIn(m), StatusesIn(m), n)
  {
    hide SkippedOnce, SkipRound;
    if n > 0 {
      RoundsAre(m, n - 1, now);
      SkippedOnceIs(SkippedRounds(m, n - 1, now), now);
    }
  }

  lemma RecordStep(m: Records, n: nat, now: real, t: TaskId)
    requires t in m && n > 0
    ensures t in SkippedRounds(m, n, now) && t in SkippedRounds(m, n - 1, now)
    ensures var deps, s, before := DepsIn(m), StatusesIn(m), SkippedRounds(m, n - 1, now)[t];
            SkippedRounds(m, n, now)[t] ==
            if SkippedAfter(deps, s, t, n - 1) then SkippedRecord(AfterRounds(deps, s, n - 1), before, now) else before
  {
    hide SkippedOnce, SkippedRecord, DoomedWithin, DepsIn, StatusesIn, AfterRounds, Blocked;
    RoundsAre(m, n - 1, now);
    SkippedOnceIs(SkippedRounds(m, n - 1, now), now);
    StatusesAre(m);
    BlockedIsPending(DepsIn(m), StatusesIn(m), t, n - 1);
  }

  lemma {:induction false} RoundsRecord(m: Records, n: nat, now: real, t: TaskId)
    requires t in m
    ensures t in SkippedRounds(m, n, now)
    ensures var deps, s, r := DepsIn(m), StatusesIn(m), SkippedRounds(m, n, now)[t];
            if DoomedWithin(deps, s, t, n)
            then exists k: nat :: SkippedAfter(deps, s, t, k) && r == SkippedRecord(AfterRounds(deps, s, k), m[t], now)
            else r == m[t]
  {
    hide SkippedOnce, SkippedRecord, DoomedWithin, DepsIn, StatusesIn, AfterRounds;
    if n == 0 {
      NotDoomedYet(DepsIn(m), StatusesIn(m), t);
    } else {
      RoundsRecord(m, n - 1, now, t);
      RecordStep(m, n, now, t);
      DoomedMonotone(DepsIn(m), StatusesIn(m), t, n - 1);
    }
  }

  lemma NotDoomedYet(deps: Deps, s: Statuses, t: TaskId)
    ensures !DoomedWithin(deps, s, t, 0)
  {}

  lemma BlockedIsPending(deps: Deps, s: Statuses, t: TaskId, n: nat)
    requires t in s
    ensures Blocked(deps, AfterRounds(deps, s, n), t) <==>
              DoomedWithin(deps, s, t, n + 1) && !DoomedWithin(deps, s, t, n)
  {
    RoundsSkipDoomed(deps, s, n);
    RoundsSkipDoomed(deps, s, n + 1);
    DoomedMonotone(deps, s, t, n);
    hide DoomedWithin;
  }

  /** The error text of a task skipped after `k` rounds names exactly the dependencies that were
      unsuccessful from the start or skipped in those rounds. */
  lemma NamedDependencies(deps: Deps, s: Statuses, k: nat, ds: seq<TaskId>, d: TaskId)
    ensures d in FailedDependencies(AfterRounds(deps, s, k), ds) <==>
            d in ds && d in s && (s[d] in UNSUCCESSFUL || DoomedWithin(deps, s, d, k))
  {
    RoundsSkipDoomed(deps, s, k);
    FailedDependenciesExact(AfterRounds(deps, s, k), ds);
  }

  /** Exactly the doomed tasks have been skipped, with the dependencies in the error text that had failed
      by then, and none that is still pending is blocked. */
  ghost predicate DoomedSkipped(m: Records, m': Records, now: real) {
    var deps, s := DepsIn(m), StatusesIn(m);
    && m'.Keys == m.Keys
    && (forall t :: t in m ==>
          if Doomed(deps, s, t)
          then exists k: nat :: SkippedAfter(deps, s, t, k)
                          && m'[t] == SkippedRecord(AfterRounds(deps, s, k), m[t], now)
          else m'[t] == m[t])
    && (forall t :: t in m ==> !Blocked(deps, StatusesIn(m'), t))
  }

  lemma RoundsSettle(m: Records, n: nat, now: real)
    requires var deps, s := DepsIn(m), StatusesIn(m);
             SkipRound(deps, AfterRounds(deps, s, n)) == AfterRounds(deps, s, n)
    ensures DoomedSkipped(m, SkippedRounds(m, n, now), now)
    ensures n == 0 ==> forall t :: t in m ==> !Doomed(DepsIn(m), StatusesIn(m), t)
  {
    hide DoomedWithin, Doomed, SkippedRecord, SkippedRounds, SkippedAfter;
    var deps, s, m' := DepsIn(m), StatusesIn(m), SkippedRounds(m, n, now);
    FixpointSkipsDoomed(deps, s, n);
    RoundsAre(m, n, now);
    forall t | t in m ensures !Blocked(deps, StatusesIn(m'), t) {
      assert SkipRound(deps, StatusesIn(m'))[t] == StatusesIn(m')[t];
    }
    forall t | t in m { RoundsRecord(m, n, now, t); }
    forall t | t in m && n == 0 ensures !Doomed(deps, s, t) { NotDoomedYet(deps, s, t); }
  }

  ghost predicate AnyBlocked(deps: Deps, s: Statuses) {
    exists t :: t in s && Blocked(deps, s, t)
  }

  /** A round is a step of the scheduler when it skips something, and changes nothing otherwise. */
  lemma RoundRuns(deps: Deps, s: Statuses)
    requires HasFailed(s)
    ensures Runs(deps, s, SkipRound(deps, s)) && HasFailed(SkipRound(deps, s))
  {
    hide Runs;
    RunsNowhere(deps, s);
    var f :| f in s && s[f] in {Failed, Cancelled};
    assert SkipRound(deps, s)[f] in {Failed, Cancelled};
    if t :| t in s && Blocked(deps, s, t) {
      RunsOn(deps, s, s, Skip);
    } else {
      assert SkipRound(deps, s) == s;
    }
  }

  lemma {:induction false} RoundsRun(deps: Deps, s: Statuses, n: nat)
    requires HasFailed(s)
    ensures Runs(deps, s, AfterRounds(deps, s, n)) && HasFailed(AfterRounds(deps, s, n))
  {
    hide Runs, SkipRound, HasFailed;
    if n == 0 {
      RunsNowhere(deps, s);
    } else {
      RoundsRun(deps, s, n - 1);
      RoundRuns(deps, AfterRounds(deps, s, n - 1));
      RunsTransitive(deps, s, AfterRounds(deps, s, n - 1), AfterRounds(deps, s, n));
    }
  }

  lemma RoundsStep(m: Records, n: nat, now: real)
    requires HasFailed(StatusesIn(m))
    ensures Steps(m, SkippedRounds(m, n, now)) && HasFailed(StatusesIn(SkippedRounds(m, n, now)))
  {
    hide Runs, HasFailed;
    RoundsAre(m, n, now);
    RoundsRun(DepsIn(m), StatusesIn(m), n);
  }

  lemma BlockedRoundShrinks(deps: Deps, s: Statuses)
    ensures AnyBlocked(deps, s) ==> PendingSet(SkipRound(deps, s)) < PendingSet(s)
    ensures !AnyBlocked(deps, s) ==> SkipRound(deps, s) == s
  {
    if t :| t in s && Blocked(deps, s, t) {
      assert t in PendingSet(s) && t !in PendingSet(SkipRound(deps, s));
    }
  }

  ghost function PendingSet(s: Statuses): set<TaskId> {
    set t | t in s && s[t] == Pending
  }

  method SkipIfBlocked(task: Task, statuses: Statuses, now: real) returns (skipped: bool)
    modifies task`status, task`endTime, task`error, task`executionState
    ensures skipped <==>
            && old(task.status) == Pending
            && exists d :: d in task.dependencies && d in statuses && statuses[d] in UNSUCCESSFUL
    ensures task.Record() == Passed(SkipBlocked(statuses, now), old(task.Record()))
    ensures if skipped then task.status == Skipped && task.endTime == now && task.executionState == "SKIPPED"
            else task.Record() == old(task.Record())
  {
    if task.status != Pending { return false; }
    var failed := FailedDependencies(statuses, task.dependencies);
    FailedDependenciesExact(statuses, task.dependencies);
    if failed == [] { return false; }
    task.MarkSkipped(now);
    task.error := "dependency did not complete successfully: " + Join(failed);
    task.executionState := "SKIPPED";
    return true;
  }

  method SkipOne(plan: ExecutionPlan, task: Task, statuses: Statuses, now: real) returns (skipped: bool)
    requires plan.Shaped() && task in plan.tasks.Values && task.id in statuses && statuses[task.id] == task.status
    modifies task`status, task`endTime, task`error, task`executionState
    ensures skipped <==> Blocked(old(DepsIn(RecordsOf(plan))), statuses, task.id)
    ensures RecordsOf(plan) == old(RecordsOf(plan))[task.id := Passed(SkipBlocked(statuses, now), old(task.Record()))]
  {
    hide NoDuplicates, Elements, Passed;
    skipped := SkipIfBlocked(task, statuses, now);
    assert forall u :: u in plan.tasks && u != task.id ==> plan.tasks[u] != task;
  }

  /** The turn of the task under key `i` in a round. */
  method SkipNext(plan: ExecutionPlan, ghost m: Records, i: nat, statuses: Statuses, now: real) returns (skipped: bool)
    requires plan.Shaped() && i < |plan.keys| && m.Keys == plan.tasks.Keys && statuses == StatusesIn(m)
    requires RecordsOf(plan) == After(SkipBlocked(statuses, now), m, Elements(plan.keys[..i]))
    modifies plan.tasks.Values`status, plan.tasks.Values`endTime, plan.tasks.Values`error,
             plan.tasks.Values`executionState
    ensures RecordsOf(plan) == After(SkipBlocked(statuses, now), m, Elements(plan.keys[..i + 1]))
    ensures skipped <==> Blocked(DepsIn(m), statuses, plan.keys[i])
  {
    hide NoDuplicates, Blocked, Passed, Elements, After, DepsIn, StatusesIn, RecordsOf;
    ghost var p := SkipBlocked(statuses, now);
    KeyIsNew(plan.keys, i);
    AfterMore(p, m, Elements(plan.keys[..i]), plan.keys[i]);
    AfterKeeps(p, m, Elements(plan.keys[..i]));
    RecordsAre(plan);
    skipped := SkipOne(plan, plan.tasks[plan.keys[i]], statuses, now);
  }

  /** One round of `_skip_failed_dependents`. */
  method SkipRoundOn(plan: ExecutionPlan, now: real) returns (changed: bool)
    requires plan.Shaped()
    modifies plan.tasks.Values`status, plan.tasks.Values`endTime, plan.tasks.Values`error,
             plan.tasks.Values`executionState
    ensures RecordsOf(plan) == SkippedOnce(old(RecordsOf(plan)), now)
    ensures changed <==> AnyBlocked(DepsIn(old(RecordsOf(plan))), StatusesIn(old(RecordsOf(plan))))
  {
    hide NoDuplicates, Blocked, Elements, BlockedAmong, After, DepsIn, StatusesIn, RecordsOf, AnyBlocked;
    ghost var m := RecordsOf(plan);
    RecordsAre(plan);
    StatusesAre(m);
    var statuses := map t | t in plan.tasks :: plan.tasks[t].status;
    assert statuses == StatusesIn(m);
    ghost var p := SkipBlocked(statuses, now);
    NoKeysYet(plan.keys);
    NothingBlockedYet(DepsIn(m), statuses);
    AfterNone(p, m);
    changed := false;
    for i := 0 to |plan.keys|
      invariant RecordsOf(plan) == After(p, m, Elements(plan.keys[..i]))
      invariant changed <==> BlockedAmong(DepsIn(m), statuses, Elements(plan.keys[..i]))
    {
      ElementsStep(plan.keys, i);
      BlockedAmongMore(DepsIn(m), statuses, Elements(plan.keys[..i]), plan.keys[i]);
      var skipped := SkipNext(plan, m, i, statuses, now);
      changed := changed || skipped;
    }
    assert plan.keys[..|plan.keys|] == plan.keys;
  }

  lemma StatusesAre(m: Records)
    ensures StatusesIn(m).Keys == m.Keys && forall t :: t in m ==> StatusesIn(m)[t] == m[t].status
  {}

  ghost predicate BlockedAmong(deps: Deps, s: Statuses, tasks: set<TaskId>) {
    exists t :: t in tasks && Blocked(deps, s, t)
  }

  lemma BlockedAmongMore(deps: Deps, s: Statuses, tasks: set<TaskId>, t: TaskId)
    ensures BlockedAmong(deps, s, tasks + {t}) <==> BlockedAmong(deps, s, tasks) || Blocked(deps, s, t)
  {
    hide Blocked;
  }

  lemma NoKeysYet(keys: seq<TaskId>)
    ensures Elements(keys[..0]) == {}
  {}

  lemma NothingBlockedYet(deps: Deps, s: Statuses)
    ensures !BlockedAmong(deps, s, {})
    ensures BlockedAmong(deps, s, s.Keys) <==> AnyBlocked(deps, s)
  {}

  lemma KeyIsNew(keys: seq<TaskId>, i: nat)
    requires NoDuplicates(keys) && i < |keys|
    ensures keys[i] in Elements(keys) && keys[i] !in Elements(keys[..i])
    ensures Elements(keys[..i + 1]) == Elements(keys[..i]) + {keys[i]}
  {
    ElementsStep(keys, i);
  }

  /** Rounds repeat until one changes nothing: exactly the doomed tasks end up skipped, and no task
      that is still pending depends on an unsuccessful one. */
  method SkipFailedDependents(plan: ExecutionPlan, now: real) returns (changed: bool)
    requires plan.Shaped()
    modifies plan.tasks.Values`status, plan.tasks.Values`endTime, plan.tasks.Values`error,
             plan.tasks.Values`executionState
    ensures DoomedSkipped(old(RecordsOf(plan)), RecordsOf(plan), now)
    ensures changed <==>
              exists t :: t in plan.tasks && Doomed(DepsIn(old(RecordsOf(plan))), StatusesIn(old(RecordsOf(plan))), t)
    ensures HasFailed(StatusesIn(old(RecordsOf(plan)))) ==>
              Steps(old(RecordsOf(plan)), RecordsOf(plan)) && HasFailed(StatusesIn(RecordsOf(plan)))
  {
    hide NoDuplicates, Blocked, Steps, Doomed, SkipRound, HasFailed, DoomedSkipped, AnyBlocked, RecordsOf, SkippedOnce,
         DepsIn, StatusesIn, Elements;
    RecordsAre(plan);
    ghost var m, n := RecordsOf(plan), 0;
    ghost var deps, s := DepsIn(m), StatusesIn(m);
    changed := false;
    while true
      invariant RecordsOf(plan) == SkippedRounds(m, n, now) && (changed <==> n > 0)
      invariant s == AfterRounds(deps, StatusesIn(m), n) && (n > 0 ==> AnyBlocked(deps, StatusesIn(m)))
      decreases PendingSet(s)
    {
      RoundsAre(m, n, now);
      BlockedRoundShrinks(deps, s);
      var roundChanged := SkipRoundOn(plan, now);
      if !roundChanged { break; }
      changed := true;
      n := n + 1;
      s := SkipRound(deps, s);
    }
    SkippedNothing(m, n, now);
    StatusesAre(m);
    RoundsSettle(m, n, now);
    if n > 0 { BlockedIsDoomed(deps, StatusesIn(m)); }
    if HasFailed(StatusesIn(m)) { RoundsStep(m, n, now); }
  }

  /** A round that changes no status changes nothing. */
  lemma SkippedNothing(m: Records, n: nat, now: real)
    requires !AnyBlocked(DepsIn(m), AfterRounds(DepsIn(m), StatusesIn(m), n))
    ensures SkippedOnce(SkippedRounds(m, n, now), now) == SkippedRounds(m, n, now)
  {
    hide SkippedOnce, Blocked, SkippedRecord, DepsIn, StatusesIn;
    var m' := SkippedRounds(m, n, now);
    RoundsAre(m, n, now);
    SkippedOnceIs(m', now);
    StatusesAre(m');
  }

  lemma BlockedIsDoomed(deps: Deps, s: Statuses)
    requires AnyBlocked(deps, s)
    ensures exists t :: t in s && Doomed(deps, s, t)
  {
    var t :| t in s && Blocked(deps, s, t);
    assert DoomedWithin(deps, s, t, 1);
  }

  // ---- Starting ready tasks ----

  /** The loop over the listed tasks. */
  method StartListed(plan: ExecutionPlan, ready: seq<TaskId>, now: real, ids: ChildRunIds)
    returns (scheduled: seq<TaskId>)
    requires plan.Shaped()
    modifies plan.tasks.Values`status, plan.tasks.Values`attempt, plan.tasks.Values`startTime,
             plan.tasks.Values`childRunId, plan.tasks.Values`executionState
    ensures RecordsOf(plan) == After(StartReady(now, ids), old(RecordsOf(plan)), Elements(ready))
    ensures forall t :: t in scheduled <==> t in ready && t in plan.tasks && old(plan.tasks[t].status) == Pending
    ensures MayPass(StartReady(now, ids), old(RecordsOf(plan)), Elements(ready)) ==>
              Steps(old(RecordsOf(plan)), RecordsOf(plan))
  {
    hide NoDuplicates, Steps, After, RecordsOf, MayPass, Passed;
    ghost var m, p := RecordsOf(plan), StartReady(now, ids);
    scheduled := [];
    RecordsAre(plan);
    AfterNone(p, m);
    assert Elements(ready[..0]) == {};
    for i := 0 to |ready|
      invariant RecordsOf(plan) == After(p, m, Elements(ready[..i]))
      invariant forall t :: t in scheduled <==> t in ready[..i] && t in plan.tasks && m[t].status == Pending
    {
      ElementsOneMore(ready, i);
      RecordsAre(plan);
      var t := ready[i];
      StartedAlready(p, m, Elements(ready[..i]), t);
      if t in plan.tasks && plan.tasks[t].status == Pending {
        AfterMore(p, m, Elements(ready[..i]), t);
        StartOne(plan, plan.tasks[t], now, ids);
        scheduled := scheduled + [t];
      }
    }
    assert ready[..|ready|] == ready;
    if MayPass(p, m, Elements(ready)) { PassSteps(p, m, ready); }
  }

  /** `_persist_ready_tasks`: every listed task that is pending starts; it counts as a new attempt unless a
      child run had been assigned before. Returns the started tasks in the given order. */
  method PersistReadyTasks(plan: ExecutionPlan, ready: seq<TaskId>, now: real, ids: ChildRunIds)
    returns (scheduled: seq<TaskId>)
    requires plan.Shaped()
    modifies plan`status, plan`startTime, plan.tasks.Values`status, plan.tasks.Values`attempt,
             plan.tasks.Values`startTime, plan.tasks.Values`childRunId, plan.tasks.Values`executionState
    ensures PhaseOf(plan) == StartedPhase(old(PhaseOf(plan)), now)
    ensures RecordsOf(plan) == After(StartReady(now, ids), old(RecordsOf(plan)), Elements(ready))
    ensures forall t :: t in scheduled <==> t in ready && t in plan.tasks && old(plan.tasks[t].status) == Pending
    ensures MayPass(StartReady(now, ids), old(RecordsOf(plan)), Elements(ready)) ==>
              Steps(old(RecordsOf(plan)), RecordsOf(plan))
  {
    hide NoDuplicates, Steps, After, RecordsOf, MayPass;
    ghost var m := RecordsOf(plan);
    if plan.status == PlanCreated { plan.MarkStarted(now); }
    assert RecordsOf(plan) == m;
    scheduled := StartListed(plan, ready, now, ids);
  }

  /** The plan's own status and times. */
  datatype Phase = Phase(status: PlanStatus, startTime: real, endTime: real)

  function PhaseOf(plan: ExecutionPlan): Phase
    reads plan`status, plan`startTime, plan`endTime
  {
    Phase(plan.status, plan.startTime, plan.endTime)
  }

  /** A plan is started once. */
  function StartedPhase(phase: Phase, now: real): Phase {
    if phase.status == PlanCreated then phase.(status := PlanRunning, startTime := now) else phase
  }

  lemma ElementsOneMore(xs: seq<TaskId>, i: nat)
    requires i < |xs|
    ensures Elements(xs[..i + 1]) == Elements(xs[..i]) + {xs[i]}
    ensures forall t :: t in xs[..i + 1] <==> t in xs[..i] || t == xs[i]
    ensures forall t :: t in xs[..i] <==> t in Elements(xs[..i])
  {
    assert xs[..i + 1] == xs[..i] + [xs[i]];
  }

  /** A task that is not pending any more, or no task at all, is passed over. */
  lemma StartedAlready(p: Pass, m: Records, tasks: set<TaskId>, t: TaskId)
    requires p.StartReady?
    ensures t in m && After(p, m, tasks)[t].status == Pending <==> t in m && t !in tasks && m[t].status == Pending
    ensures !(t in m && t !in tasks && m[t].status == Pending) ==> After(p, m, tasks + {t}) == After(p, m, tasks)
  {}

  method StartOne(plan: ExecutionPlan, task: Task, now: real, ids: ChildRunIds)
    requires plan.Shaped() && task in plan.tasks.Values && task.status == Pending
    modifies task`status, task`attempt, task`startTime, task`childRunId, task`executionState
    ensures RecordsOf(plan) == old(RecordsOf(plan))[task.id := Passed(StartReady(now, ids), old(task.Record()))]
  {
    hide NoDuplicates, Elements, StartedRecord;
    StartTask(task, now, ids);
    assert forall u :: u in plan.tasks && u != task.id ==> plan.tasks[u] != task;
  }

  method StartTask(task: Task, now: real, ids: ChildRunIds)
    modifies task`status, task`attempt, task`startTime, task`childRunId, task`executionState
    ensures task.Record() == StartedRecord(old(task.Record()), now, ids)
    ensures task.status == Running && task.executionState == "ASSIGNED"
    ensures old(task.childRunId).None? ==>
              task.attempt == old(task.attempt) + 1 && task.startTime == now
              && task.childRunId == Some(ids(task.id, task.attempt))
    ensures old(task.childRunId).Some? ==>
              task.attempt == old(task.attempt) && task.childRunId == old(task.childRunId)
              && task.startTime == if old(task.startTime) == 0.0 then now else old(task.startTime)
  {
    if task.childRunId.None? {
      task.MarkStarted(now);
      task.childRunId := Some(ids(task.id, task.attempt));
    } else {
      task.status := Running;
      if task.startTime == 0.0 { task.startTime := now; }
    }
    task.executionState := "ASSIGNED";
  }

  // ---- Observing child runs ----

  /** `_observe_child`: unless the parent run is finished, a running task takes over the outcome of its child
      run, once that is not running any more; the tokens of a completed child count for the parent. Returns
      whether the plan is to be saved. */
  method ObserveChild(plan: ExecutionPlan, t: TaskId, runs: ChildRuns, finished: bool, now: real)
    returns (observed: bool, spent: int)
    requires plan.Shaped()
    modifies plan.tasks.Values`status, plan.tasks.Values`result, plan.tasks.Values`error, plan.tasks.Values`endTime,
             plan.tasks.Values`executionState
    ensures RecordsOf(plan) ==
            if finished then old(RecordsOf(plan)) else After(Observe(runs, now), old(RecordsOf(plan)), {t})
    ensures observed <==> RecordsOf(plan) != old(RecordsOf(plan))
    ensures spent == if !finished && t in plan.tasks then TokensOf(runs, old(plan.tasks[t].Record())) else 0
    ensures Steps(old(RecordsOf(plan)), RecordsOf(plan))
    ensures forall u :: u in plan.tasks && (finished || u != t) ==> RecordsOf(plan)[u] == old(RecordsOf(plan))[u]
    ensures !finished && t in plan.tasks ==> TakesOver(runs, old(RecordsOf(plan))[t], RecordsOf(plan)[t], now)
    ensures spent == if !finished && t in plan.tasks && ChildCompleted(runs, old(RecordsOf(plan))[t])
                     then runs[old(plan.tasks[t].childRunId).value].totalTokens else 0
  {
    hide NoDuplicates, Steps, After, RecordsOf, ObservedRecord, TokensOf, TakesOver, ChildCompleted;
    ghost var m, p := RecordsOf(plan), Observe(runs, now);
    RecordsAre(plan);
    AfterNone(p, m);
    StepsNowhere(m);
    PassSteps(p, m, [t]);
    assert Elements([t]) == {t};
    if finished { return false, 0; }
    if t !in plan.tasks {
      NotThere(p, m, t);
      return false, 0;
    }
    AfterMore(p, m, {}, t);
    assert {} + {t} == {t};
    ObservedTakesOver(runs, m[t], now);
    observed, spent := ObserveOne(plan, plan.tasks[t], runs, now);
    assert m[t := m[t]] == m;
  }

  lemma NotThere(p: Pass, m: Records, t: TaskId)
    requires t !in m
    ensures After(p, m, {t}) == m
  {
    hide Passed;
  }

  method ObserveOne(plan: ExecutionPlan, task: Task, runs: ChildRuns, now: real) returns (observed: bool, spent: int)
    requires plan.Shaped() && task in plan.tasks.Values
    modifies task`status, task`result, task`error, task`endTime, task`executionState
    ensures RecordsOf(plan) == old(RecordsOf(plan))[task.id := ObservedRecord(runs, old(task.Record()), now)]
    ensures observed <==> ObservedRecord(runs, old(task.Record()), now) != old(task.Record())
    ensures spent == TokensOf(runs, old(task.Record()))
  {
    hide NoDuplicates, Elements, ObservedRecord, TokensOf;
    observed, spent := ObserveTask(task, runs, now);
    assert forall u :: u in plan.tasks && u != task.id ==> plan.tasks[u] != task;
  }

  method ObserveTask(task: Task, runs: ChildRuns, now: real) returns (observed: bool, spent: int)
    modifies task`status, task`result, task`error, task`endTime, task`executionState
    ensures task.Record() == ObservedRecord(runs, old(task.Record()), now)
    ensures observed <==> task.Record() != old(task.Record())
    ensures spent == TokensOf(runs, old(task.Record()))
  {
    hide LowerValue;
    spent := 0;
    var found := LoadChild(task.childRunId, runs);
    if task.status != Running || found.None? || found.value.status == StillRunning { return false, 0; }
    var child := found.value;
    if child.status in {WaitingApproval, Interrupted} {
      if task.executionState == Value(child.status) { return false, 0; }
    } else if child.status == RunCompleted {
      task.MarkCompleted(child.output, now);
      task.error := "";
      spent := child.totalTokens;
    } else {
      var error := if child.error.Some? then child.error.value else LowerValue(child.status);
      if child.status == RunCancelled { task.MarkCancelled(error, now); } else { task.MarkFailed(error, now); }
    }
    task.executionState := Value(child.status);
    return true, spent;
  }

  /** `_reconcile_children`: the tasks whose child run is not running any more are observed, each on the
      plan that the observers before it have left. The result does not depend on their order. */
  method ReconcileChildren(plan: ExecutionPlan, runs: ChildRuns, now: real) returns (spent: int)
    requires plan.Shaped()
    modifies plan.tasks.Values`status, plan.tasks.Values`result, plan.tasks.Values`error, plan.tasks.Values`endTime,
             plan.tasks.Values`executionState
    ensures RecordsOf(plan) == After(Observe(runs, now), old(RecordsOf(plan)), plan.tasks.Keys)
    ensures spent == TokensIn(runs, old(RecordsOf(plan)), plan.keys)
    ensures Steps(old(RecordsOf(plan)), RecordsOf(plan))
    ensures forall t :: t in plan.tasks ==> TakesOver(runs, old(RecordsOf(plan))[t], RecordsOf(plan)[t], now)
    ensures spent == CompletedTokens(runs, old(RecordsOf(plan)), plan.keys)
  {
    hide NoDuplicates, Steps, After, RecordsOf, ObservedRecord, Elements, TokensOf, TokensIn, TakesOver,
         CompletedTokens;
    ghost var m, p := RecordsOf(plan), Observe(runs, now);
    RecordsAre(plan);
    AllTakeOver(runs, m, now);
    TokensSpelledOut(runs, m, plan.keys);
    AfterNone(p, m);
    NoKeysYet(plan.keys);
    NoTokensYet(runs, m, plan.keys);
    spent := 0;
    for i := 0 to |plan.keys|
      invariant RecordsOf(plan) == After(p, m, Elements(plan.keys[..i]))
      invariant spent == TokensIn(runs, m, plan.keys[..i])
    {
      KeyIsNew(plan.keys, i);
      AfterMore(p, m, Elements(plan.keys[..i]), plan.keys[i]);
      TokensMore(runs, m, plan.keys, i);
      RecordsAre(plan);
      var observed, more := ObserveOne(plan, plan.tasks[plan.keys[i]], runs, now);
      spent := spent + more;
    }
    assert plan.keys[..|plan.keys|] == plan.keys;
    PassSteps(p, m, plan.keys);
  }

  lemma AllTakeOver(runs: ChildRuns, m: Records, now: real)
    ensures forall t :: t in m ==> TakesOver(runs, m[t], After(Observe(runs, now), m, m.Keys)[t], now)
  {
    hide TakesOver, ObservedRecord;
    forall t | t in m { ObservedTakesOver(runs, m[t], now); }
  }

  function TokensIn(runs: ChildRuns, m: Records, keys: seq<TaskId>): int {
    if keys == [] then 0
    else
      var last := keys[|keys| - 1];
      TokensIn(runs, m, keys[..|keys| - 1]) + if last in m then TokensOf(runs, m[last]) else 0
  }

  lemma NoTokensYet(runs: ChildRuns, m: Records, keys: seq<TaskId>)
    ensures TokensIn(runs, m, keys[..0]) == 0
  {}

  lemma TokensMore(runs: ChildRuns, m: Records, keys: seq<TaskId>, i: nat)
    requires i < |keys| && keys[i] in m
    ensures TokensIn(runs, m, keys[..i + 1]) == TokensIn(runs, m, keys[..i]) + TokensOf(runs, m[keys[i]])
  {
    assert keys[..i + 1][..i] == keys[..i];
  }

  // ---- Releasing and cancelling ----

  /** `_release_unstarted_tasks`: tasks whose child run was never created go back to pending. */
  method ReleaseUnstarted(plan: ExecutionPlan, runs: ChildRuns)
    requires plan.Shaped()
    modifies plan.tasks.Values`status, plan.tasks.Values`executionState
    ensures RecordsOf(plan) == After(ReleaseUnborn(runs), old(RecordsOf(plan)), plan.tasks.Keys)
    ensures HasFailed(StatusesIn(old(RecordsOf(plan)))) ==> Steps(old(RecordsOf(plan)), RecordsOf(plan))
  {
    hide NoDuplicates, Steps, After, RecordsOf, Passed, Elements, HasFailed;
    ghost var m, p := RecordsOf(plan), ReleaseUnborn(runs);
    RecordsAre(plan);
    AfterNone(p, m);
    NoKeysYet(plan.keys);
    for i := 0 to |plan.keys|
      invariant RecordsOf(plan) == After(p, m, Elements(plan.keys[..i]))
    {
      KeyIsNew(plan.keys, i);
      AfterMore(p, m, Elements(plan.keys[..i]), plan.keys[i]);
      RecordsAre(plan);
      ReleaseOne(plan, plan.tasks[plan.keys[i]], runs);
    }
    assert plan.keys[..|plan.keys|] == plan.keys;
    if HasFailed(StatusesIn(m)) { PassSteps(p, m, plan.keys); }
  }

  method ReleaseOne(plan: ExecutionPlan, task: Task, runs: ChildRuns)
    requires plan.Shaped() && task in plan.tasks.Values
    modifies task`status, task`executionState
    ensures RecordsOf(plan) == old(RecordsOf(plan))[task.id := Passed(ReleaseUnborn(runs), old(task.Record()))]
  {
    hide NoDuplicates, Elements, Passed;
    ReleaseTask(task, runs);
    assert forall u :: u in plan.tasks && u != task.id ==> plan.tasks[u] != task;
  }

  method ReleaseTask(task: Task, runs: ChildRuns)
    modifies task`status, task`executionState
    ensures task.Record() == Passed(ReleaseUnborn(runs), old(task.Record()))
    ensures task.Record() ==
            if old(task.status) == Running && task.childRunId.Some? && task.childRunId.value != ""
               && task.childRunId.value !in runs
            then old(task.Record()).(status := Pending, executionState := "") else old(task.Record())
  {
    if task.status == Running && task.childRunId.Some? && task.childRunId.value != ""
       && LoadChild(task.childRunId, runs).None? {
      task.status, task.executionState := Pending, "";
    }
  }

  /** `on_cancel`: everything that is still open is cancelled. */
  method OnCancel(plan: ExecutionPlan, now: real)
    requires plan.Shaped()
    modifies plan`status, plan`endTime, plan.tasks.Values`status, plan.tasks.Values`error, plan.tasks.Values`endTime,
             plan.tasks.Values`executionState
    ensures PhaseOf(plan) == old(PhaseOf(plan)).(status := PlanCancelled, endTime := now)
    ensures RecordsOf(plan) == After(CancelOpen(now), old(RecordsOf(plan)), plan.tasks.Keys)
    ensures Steps(old(RecordsOf(plan)), RecordsOf(plan))
  {
    hide NoDuplicates, Steps, After, RecordsOf, Passed, Elements;
    ghost var m, p := RecordsOf(plan), CancelOpen(now);
    RecordsAre(plan);
    AfterNone(p, m);
    NoKeysYet(plan.keys);
    for i := 0 to |plan.keys|
      invariant RecordsOf(plan) == After(p, m, Elements(plan.keys[..i]))
    {
      KeyIsNew(plan.keys, i);
      AfterMore(p, m, Elements(plan.keys[..i]), plan.keys[i]);
      RecordsAre(plan);
      CancelOne(plan, plan.tasks[plan.keys[i]], now);
    }
    assert plan.keys[..|plan.keys|] == plan.keys;
    CancelSteps(m, now);
    plan.status, plan.endTime := PlanCancelled, now;
  }

  method CancelOne(plan: ExecutionPlan, task: Task, now: real)
    requires plan.Shaped() && task in plan.tasks.Values
    modifies task`status, task`error, task`endTime, task`executionState
    ensures RecordsOf(plan) == old(RecordsOf(plan))[task.id := Passed(CancelOpen(now), old(task.Record()))]
  {
    hide NoDuplicates, Elements, Passed;
    CancelTask(task, now);
    assert forall u :: u in plan.tasks && u != task.id ==> plan.tasks[u] != task;
  }

  method CancelTask(task: Task, now: real)
    modifies task`status, task`error, task`endTime, task`executionState
    ensures task.Record() == Passed(CancelOpen(now), old(task.Record()))
    ensures task.Record() ==
            if old(task.status) == Pending || old(task.status) == Running
            then old(task.Record()).(status := Cancelled, error := "cancelled", endTime := now,
                                     executionState := "CANCELLED")
            else old(task.Record())
  {
    if task.status !in {Completed, Failed, Skipped, Cancelled} {
      assert task.status.Pending? || task.status.Running?;
      task.MarkCancelled("cancelled", now);
      task.executionState := "CANCELLED";
    }
  }

  lemma CancelSteps(m: Records, now: real)
    ensures Steps(m, After(CancelOpen(now), m, m.Keys))
  {
    hide Runs, After;
    var deps, s := DepsIn(m), StatusesIn(m);
    AfterKeeps(CancelOpen(now), m, m.Keys);
    assert StatusesIn(After(CancelOpen(now), m, m.Keys)) == Apply(deps, s, CancelAll);
    RunsNowhere(deps, s);
    if t :| t in s && s[t] in {Pending, Running} {
      RunsOn(deps, s, s, CancelAll);
    } else {
      assert Apply(deps, s, CancelAll) == s;
    }
  }

  /** Observing once more, with the same child runs, changes nothing and counts no token twice. */
  lemma ObservingAgain(runs: ChildRuns, m: Records, now: real, later: real, keys: seq<TaskId>)
    ensures var m' := After(Observe(runs, now), m, m.Keys);
            After(Observe(runs, later), m', m.Keys) == m' && TokensIn(runs, m', keys) == 0
  {
    forall t | t in m
      ensures ObservedRecord(runs, ObservedRecord(runs, m[t], now), later) == ObservedRecord(runs, m[t], now)
      ensures TokensOf(runs, ObservedRecord(runs, m[t], now)) == 0
    {}
    hide ObservedRecord, TokensOf;
    NoTokens(runs, After(Observe(runs, now), m, m.Keys), keys);
  }

  lemma {:induction false} NoTokens(runs: ChildRuns, m: Records, keys: seq<TaskId>)
    requires forall t :: t in m ==> TokensOf(runs, m[t]) == 0
    ensures TokensIn(runs, m, keys) == 0
  {
    hide TokensOf;
    if keys != [] { NoTokens(runs, m, keys[..|keys| - 1]); }
  }

  /** A released task that starts again is the same attempt with the same child run. */
  lemma RestartIsTheSameAttempt(runs: ChildRuns, r: TaskRecord, now: real, ids: ChildRunIds)
    requires r.status == Running && HasChildRun(r) && ChildOf(runs, r).None? && r.startTime != 0.0
    ensures Passed(StartReady(now, ids), Passed(ReleaseUnborn(runs), r)) == r.(executionState := "ASSIGNED")
  {}
}
