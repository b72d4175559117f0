/** Tasks and execution plans as the objects the scheduler mutates (`src/axiom/plan/models.py`). */
module PlanModels {
  import opened Wrappers
  import opened Ordering
  import opened Digraph
  import opened PlanGraph

  datatype TaskType = Planning | FileRead | FileWrite | Command | Analysis | Verification

  datatype TaskStatus = Pending | Running | Completed | Failed | Skipped | Cancelled

  datatype PlanStatus = PlanCreated | PlanRunning | PlanCompleted | PlanFailed | PlanCancelled

  datatype TaskRecord = TaskRecord(
    id: TaskId, description: string, taskType: TaskType, dependencies: seq<TaskId>, dependents: seq<TaskId>,
    status: TaskStatus, result: string, error: string, attempt: int, childRunId: Option<string>,
    reusedFrom: Option<string>, executionState: string, startTime: real, endTime: real)

  function AppendNew(xs: seq<TaskId>, x: TaskId): seq<TaskId> {
    if x in xs then xs else xs + [x]
  }

  /** The tasks of a plan as values: the keys in insertion order, and the record under each key. */
  datatype PlanState = PlanState(keys: seq<TaskId>, records: map<TaskId, TaskRecord>) {
    ghost predicate Valid() {
      && NoDuplicates(keys) && Elements(keys) == records.Keys
      && forall t :: t in records ==> records[t].id == t
    }

    ghost function Deps(): Deps {
      map t | t in records :: records[t].dependencies
    }
  }

  function AppendAll(xs: seq<TaskId>, ys: seq<TaskId>): seq<TaskId> {
    if ys == [] then xs else AppendNew(AppendAll(xs, ys[..|ys| - 1]), ys[|ys| - 1])
  }

  /** The keys whose records depend on `t`, in order. */
  function DependingOn(keys: seq<TaskId>, records: map<TaskId, TaskRecord>, t: TaskId): seq<TaskId> {
    if keys == [] then []
    else
      var init, last := keys[..|keys| - 1], keys[|keys| - 1];
      DependingOn(init, records, t) + if last in records && t in records[last].dependencies then [last] else []
  }

  function RegisteredBy(u: TaskRecord, id: TaskId, dependencies: seq<TaskId>): seq<TaskId> {
    if u.id in dependencies then AppendNew(u.dependents, id) else u.dependents
  }

  /** The record under `u` once its dependency on the new task `r` has been registered. */
  function Registered(u: TaskRecord, r: TaskRecord): TaskRecord {
    u.(dependents := RegisteredBy(u, r.id, r.dependencies))
  }

  function RegisteredAll(records: map<TaskId, TaskRecord>, r: TaskRecord): map<TaskId, TaskRecord> {
    map t | t in records :: Registered(records[t], r)
  }

  /** The record under `t` after `add_task(r)`. */
  function RecordAfter(p: PlanState, r: TaskRecord, t: TaskId): TaskRecord
    requires t == r.id || t in p.records
  {
    var stored := p.records[r.id := r];
    var u := Registered(stored[t], r);
    if t == r.id
    then u.(dependents := AppendAll(u.dependents, DependingOn(AppendNew(p.keys, r.id), stored, r.id)))
    else u
  }

  /** `add_task` on values. */
  function AddTaskTo(p: PlanState, r: TaskRecord): PlanState {
    PlanState(AppendNew(p.keys, r.id), map t | t in p.records.Keys + {r.id} :: RecordAfter(p, r, t))
  }

  class Task {
    const id: TaskId
    var description: string
    var taskType: TaskType
    var dependencies: seq<TaskId>
    var dependents: seq<TaskId>
    var status: TaskStatus
    var result: string
    var error: string
    var attempt: int
    var childRunId: Option<string>
    var reusedFrom: Option<string>
    var executionState: string
    var startTime: real
    var endTime: real

    constructor (r: TaskRecord)
      ensures Record() == r
    {
      id, description, taskType, dependencies, dependents :=
        r.id, r.description, r.taskType, r.dependencies, r.dependents;
      status, result, error, attempt := r.status, r.result, r.error, r.attempt;
      childRunId, reusedFrom, executionState := r.childRunId, r.reusedFrom, r.executionState;
      startTime, endTime := r.startTime, r.endTime;
    }

    function Record(): TaskRecord
      reads this
    {
      TaskRecord(id, description, taskType, dependencies, dependents, status, result, error, attempt, childRunId,
                 reusedFrom, executionState, startTime, endTime)
    }

    method AddDependency(taskId: TaskId)
      modifies this`dependencies
      ensures dependencies == AppendNew(old(dependencies), taskId)
    {
      if taskId !in dependencies { dependencies := dependencies + [taskId]; }
    }

    method AddDependent(taskId: TaskId)
      modifies this`dependents
      ensures dependents == AppendNew(old(dependents), taskId)
    {
      if taskId !in dependents { dependents := dependents + [taskId]; }
    }

    method MarkStarted(now: real)
      modifies this`status, this`attempt, this`startTime
      ensures Record() == old(Record()).(status := Running, attempt := old(attempt) + 1, startTime := now)
    {
      status, attempt, startTime := Running, attempt + 1, now;
    }

    method MarkCompleted(output: string, now: real)
      modifies this`status, this`result, this`endTime
      ensures Record() == old(Record()).(status := Completed, result := output, endTime := now)
    {
      status, result, endTime := Completed, output, now;
    }

    method MarkFailed(message: string, now: real)
      modifies this`status, this`error, this`endTime
      ensures Record() == old(Record()).(status := Failed, error := message, endTime := now)
    {
      status, error, endTime := Failed, message, now;
    }

    method MarkSkipped(now: real)
      modifies this`status, this`endTime
      ensures Record() == old(Record()).(status := Skipped, endTime := now)
    {
      status, endTime := Skipped, now;
    }

    method MarkCancelled(message: string, now: real)
      modifies this`status, this`error, this`endTime
      ensures Record() == old(Record()).(status := Cancelled, error := message, endTime := now)
    {
      status, error, endTime := Cancelled, message, now;
    }

    predicate IsExecutable(allTasks: map<TaskId, Task>)
      reads this, allTasks.Values
    {
      status == Pending && forall d :: d in dependencies ==> d in allTasks && allTasks[d].status == Completed
    }
  }

  /** The bookkeeping of the depth-first search in `compute_execution_order`. */
  class OrderSearch {
    var order: seq<TaskId>
    var visited: set<TaskId>
    var visiting: set<TaskId>

    constructor ()
      ensures order == [] && visited == {} && visiting == {}
    {
      order, visited, visiting := [], {}, {};
    }

    /** `path` lists the visits under way, each for a dependency of the one before. */
    ghost predicate Valid(deps: Deps, path: seq<TaskId>)
      reads this
    {
      SearchOk(deps, path, order, visited, visiting)
    }
  }

  ghost predicate SearchOk(deps: Deps, path: seq<TaskId>, order: seq<TaskId>, visited: set<TaskId>,
                           visiting: set<TaskId>) {
    && Ordered(deps, order) && visited == Elements(order)
    && visiting == Elements(path) && Elements(path) <= deps.Keys
    && visited !! visiting
    && (path != [] ==> IsPath(Present(deps), path))
  }

  lemma EnterVisit(deps: Deps, path: seq<TaskId>, order: seq<TaskId>, visited: set<TaskId>, visiting: set<TaskId>,
                   t: TaskId)
    requires SearchOk(deps, path, order, visited, visiting) && t in deps && t !in visiting && t !in visited
    requires path != [] ==> Edge(Present(deps), path[|path| - 1], t)
    ensures SearchOk(deps, path + [t], order, visited, visiting + {t})
  {
    assert Elements(path + [t]) == Elements(path) + {t};
  }

  lemma LeaveVisit(deps: Deps, path: seq<TaskId>, order: seq<TaskId>, visited: set<TaskId>, visiting: set<TaskId>,
                   t: TaskId)
    requires SearchOk(deps, path + [t], order, visited, visiting) && t !in path
    requires t in deps && forall d :: d in deps[t] && d in deps ==> d in visited
    ensures SearchOk(deps, path, order + [t], visited + {t}, visiting - {t})
  {
    assert Elements(path + [t]) == Elements(path) + {t};
    assert t in Elements(path + [t]);
    OrderedAppend(deps, order, t);
    assert Elements(order + [t]) == Elements(order) + {t};
    if path != [] {
      forall i | 0 <= i < |path| - 1 ensures Edge(Present(deps), path[i], path[i + 1]) {
        assert Edge(Present(deps), (path + [t])[i], (path + [t])[i + 1]);
      }
    }
  }

  class ExecutionPlan {
    const id: string
    var keys: seq<TaskId>  // the keys of `tasks` in insertion order
    var tasks: map<TaskId, Task>
    var cachedOrder: seq<TaskId>
    var status: PlanStatus
    var startTime: real
    var endTime: real

    constructor (id: string)
      ensures Valid() && keys == [] && tasks == map[] && cachedOrder == [] && this.id == id
      ensures status == PlanCreated && startTime == endTime == 0.0
    {
      this.id, keys, tasks, cachedOrder := id, [], map[], [];
      status, startTime, endTime := PlanCreated, 0.0, 0.0;
    }

    method MarkStarted(now: real)
      modifies this`status, this`startTime
      ensures status == PlanRunning && startTime == now
    {
      status, startTime := PlanRunning, now;
    }

    method MarkCompleted(now: real)
      modifies this`status, this`endTime
      ensures status == PlanCompleted && endTime == now
    {
      status, endTime := PlanCompleted, now;
    }

    method MarkFailed(now: real)
      modifies this`status, this`endTime
      ensures status == PlanFailed && endTime == now
    {
      status, endTime := PlanFailed, now;
    }

    ghost function Deps(): Deps
      reads this`tasks, tasks.Values`dependencies
    {
      map t | t in tasks :: tasks[t].dependencies
    }

    ghost predicate Shaped()
      reads this`tasks, this`keys
    {
      && NoDuplicates(keys) && Elements(keys) == tasks.Keys
      && forall t :: t in tasks ==> tasks[t].id == t
    }

    /** Well-shaped, and a remembered order lists the tasks of the plan. It need not be topological any
        more when a task has been given another dependency since. */
    ghost predicate Valid()
      reads this`tasks, this`keys, this`cachedOrder
    {
      Shaped() && (cachedOrder != [] ==> NoDuplicates(cachedOrder) && Elements(cachedOrder) == tasks.Keys)
    }

    function Snapshot(): PlanState
      reads this, tasks.Values
    {
      PlanState(keys, map t | t in tasks :: tasks[t].Record())
    }

    method AddTask(task: Task)
      requires Shaped()
      modifies this`keys, this`tasks, this`cachedOrder, tasks.Values`dependents, task`dependents
      ensures Valid() && cachedOrder == []
      ensures tasks == old(tasks)[task.id := task]
      ensures Snapshot() == AddTaskTo(old(Snapshot()), old(task.Record()))
    {
      hide NoDuplicates, DependingOn, AppendAll, Topological, AddTaskTo, RecordAfter, Elements;
      ghost var r, before := task.Record(), Snapshot();
      Store(task);
      assert tasks[task.id] == task;
      ghost var stored := Snapshot().records;
      RegisterWithDependencies(task, stored);
      ghost var registered := Snapshot().records;
      RegisterDependents(task, stored, registered);
      AddTaskToIs(before, r, Snapshot().records);
    }

    method Store(task: Task)
      requires Shaped()
      modifies this`keys, this`tasks, this`cachedOrder
      ensures Shaped() && cachedOrder == [] && tasks == old(tasks)[task.id := task]
      ensures keys == AppendNew(old(keys), task.id)
      ensures Snapshot().records == old(Snapshot()).records[task.id := task.Record()]
    {
      hide NoDuplicates, Elements, AppendNew;
      ghost var before := Snapshot().records;
      StoredShape(keys, task.id);
      keys := AppendNew(keys, task.id);
      tasks := tasks[task.id := task];
      cachedOrder := [];
      assert Snapshot().records == before[task.id := task.Record()];
    }

    method RegisterWithDependencies(task: Task, ghost stored: map<TaskId, TaskRecord>)
      requires Shaped() && task in tasks.Values && stored == Snapshot().records
      modifies tasks.Values`dependents
      ensures Snapshot().records == RegisteredAll(stored, stored[task.id])
    {
      hide NoDuplicates, Elements;
      RegisterEach(task, stored);
      assert Snapshot().records == RegisteredAll(stored, stored[task.id]);
    }

    method RegisterEach(task: Task, ghost stored: map<TaskId, TaskRecord>)
      requires Shaped() && task in tasks.Values && stored.Keys == tasks.Keys
      requires forall t :: t in tasks ==> stored[t].id == t && stored[t].dependents == tasks[t].dependents
      modifies tasks.Values`dependents
      ensures forall t :: t in tasks ==> tasks[t].dependents == RegisteredBy(stored[t], task.id, task.dependencies)
    {
      hide NoDuplicates, Elements, RegisteredBy, AppendNew;
      forall t | t in tasks ensures tasks[t].dependents == RegisteredBy(stored[t], task.id, task.dependencies[..0]) {
        RegisteredNone(stored[t], task.id, task.dependencies);
      }
      for i := 0 to |task.dependencies|
        invariant forall t :: t in tasks ==>
                    tasks[t].dependents == RegisteredBy(stored[t], task.id, task.dependencies[..i])
      {
        var d := task.dependencies[i];
        forall t | t in tasks
          ensures RegisteredBy(stored[t], task.id, task.dependencies[..i + 1]) ==
                  if t == d then AppendNew(tasks[t].dependents, task.id) else tasks[t].dependents
        {
          RegisteredMore(stored[t], task.id, task.dependencies, i);
        }
        if d in tasks { tasks[d].AddDependent(task.id); }
      }
      assert task.dependencies[..|task.dependencies|] == task.dependencies;
    }

    method RegisterDependents(task: Task, ghost stored: map<TaskId, TaskRecord>,
                              ghost registered: map<TaskId, TaskRecord>)
      requires Shaped() && task in tasks.Values && stored.Keys == tasks.Keys && registered == Snapshot().records
      requires forall t :: t in tasks ==> tasks[t].dependencies == stored[t].dependencies
      modifies task`dependents
      ensures task.id in registered
      ensures Snapshot().records == registered[task.id := registered[task.id].(dependents :=
                AppendAll(registered[task.id].dependents, DependingOn(keys, stored, task.id)))]
    {
      hide NoDuplicates, AppendAll, DependingOn, Elements;
      CollectDependents(task, stored);
      forall t | t in tasks && t != task.id ensures tasks[t].Record() == registered[t] {
        assert tasks[t] != task;
      }
    }

    method CollectDependents(task: Task, ghost stored: map<TaskId, TaskRecord>)
      requires Shaped() && stored.Keys == tasks.Keys
      requires forall t :: t in tasks ==> tasks[t].dependencies == stored[t].dependencies
      modifies task`dependents
      ensures task.dependents == AppendAll(old(task.dependents), DependingOn(keys, stored, task.id))
    {
      hide NoDuplicates, AppendAll, DependingOn;
      NothingToAppend(task.dependents, stored, task.id);
      for i := 0 to |keys|
        invariant task.dependents == AppendAll(old(task.dependents), DependingOn(keys[..i], stored, task.id))
      {
        assert keys[i] in Elements(keys);
        DependingOnStep(keys, stored, task.id, i);
        AppendAllStep(old(task.dependents), DependingOn(keys[..i], stored, task.id), keys[i]);
        var existing := tasks[keys[i]];
        if task.id in existing.dependencies { task.AddDependent(existing.id); }
      }
      assert keys[..|keys|] == keys;
    }

    predicate IsAllCompleted()
      reads this`tasks, tasks.Values`status
    {
      forall t :: t in tasks ==> tasks[t].status == Completed
    }

    predicate HasFailed()
      reads this`tasks, tasks.Values`status
    {
      exists t :: t in tasks && tasks[t].status in {Failed, Cancelled}
    }

    method Visit(task: Task, search: OrderSearch, ghost path: seq<TaskId>) returns (ok: bool)
      requires Shaped() && task in tasks.Values && search.Valid(Deps(), path)
      requires path != [] ==> Edge(Present(Deps()), path[|path| - 1], task.id)
      modifies search
      ensures !ok ==> !Acyclic(Present(Deps()))
      ensures ok ==> search.Valid(Deps(), path) && search.visiting == old(search.visiting)
                     && task.id in search.visited && old(search.visited) <= search.visited
      decreases tasks.Keys - search.visiting
    {
      hide Ordered, Topological, Acyclic, IsPath, Present, NoDuplicates;
      ghost var deps := Deps();
      assert task.id in tasks && tasks[task.id] == task;
      if task.id in search.visiting {
        ClosesCycle(deps, path, task.id);
        return false;
      }
      if task.id in search.visited { return true; }
      EnterVisit(deps, path, search.order, search.visited, search.visiting, task.id);
      search.visiting := search.visiting + {task.id};
      for i := 0 to |task.dependencies|
        invariant search.Valid(deps, path + [task.id]) && search.visiting == old(search.visiting) + {task.id}
        invariant old(search.visited) <= search.visited
        invariant forall j :: 0 <= j < i && task.dependencies[j] in deps ==> task.dependencies[j] in search.visited
      {
        var d := task.dependencies[i];
        if d in tasks {
          PresentEdge(deps, task.id, d);
          var visited := Visit(tasks[d], search, path + [task.id]);
          if !visited { return false; }
        }
      }
      LeaveVisit(deps, path, search.order, search.visited, search.visiting, task.id);
      search.visiting := search.visiting - {task.id};
      search.visited := search.visited + {task.id};
      search.order := search.order + [task.id];
      return true;
    }

    method ComputeExecutionOrder() returns (ok: bool)
      requires Shaped()
      modifies this`cachedOrder
      ensures ok <==> Acyclic(Present(Deps()))
      ensures ok ==> Valid() && Topological(Deps(), cachedOrder)
      ensures !ok ==> cachedOrder == old(cachedOrder)
    {
      hide Ordered, Acyclic, IsPath, Present, NoDuplicates;
      ghost var deps := Deps();
      var search := new OrderSearch();
      StartSearch(deps);
      for i := 0 to |keys|
        invariant search.Valid(deps, []) && Elements(keys[..i]) <= search.visited
        invariant fresh(search) && cachedOrder == old(cachedOrder)
      {
        ElementsStep(keys, i);
        if keys[i] !in search.visited {
          var visited := Visit(tasks[keys[i]], search, []);
          if !visited { return false; }
        }
      }
      assert keys[..|keys|] == keys;
      SearchedAll(deps, search.order, search.visited, search.visiting);
      cachedOrder := search.order;
      assert Deps() == deps;
      TopologicalIsAcyclic(deps, cachedOrder);
      TopologicalLists(deps, cachedOrder);
      return true;
    }

    method ExecutionOrder() returns (order: seq<TaskId>)
      requires Valid()
      modifies this`cachedOrder
      ensures Valid() && order == cachedOrder
      ensures if old(cachedOrder) != [] then order == old(cachedOrder)
              else if Acyclic(Present(Deps())) then Topological(Deps(), order)
              else order == []
    {
      hide Ordered, Acyclic, IsPath, Present, NoDuplicates;
      if cachedOrder == [] {
        var ok := ComputeExecutionOrder();
      }
      return cachedOrder;
    }

    /** Round `k` holds the tasks whose longest chain of dependencies has `k` steps and that, directly or
        indirectly, miss no dependency, in execution order; without an order there are no rounds. */
    method ExecutionBatches() returns (batches: seq<seq<Task>>)
      requires Valid()
      modifies this`cachedOrder
      ensures Valid() && (old(cachedOrder) != [] ==> cachedOrder == old(cachedOrder))
      ensures old(cachedOrder) == [] && Acyclic(Present(Deps())) ==> Topological(Deps(), cachedOrder)
      ensures if old(cachedOrder) == [] && !Acyclic(Present(Deps())) then batches == []
              else IsLevels(Deps(), cachedOrder, Ids(batches))
      ensures forall k, j :: 0 <= k < |batches| && 0 <= j < |batches[k]| ==>
                batches[k][j].id in tasks && tasks[batches[k][j].id] == batches[k][j]
    {
      hide Topological, Acyclic, IsPath, Present, NoDuplicates, Grounded, HasChain, LevelSet, Select, Ids, Elements,
           Matches;
      ghost var rounds;
      batches, rounds := CollectBatches();
      MatchingIds(tasks, batches, rounds);
      if old(cachedOrder) != [] || Acyclic(Present(Deps())) {
        if old(cachedOrder) == [] { TopologicalLists(Deps(), cachedOrder); }
        NoFurtherLevels(Deps(), cachedOrder, |rounds|);
      }
    }

    /** The loop, with the rounds as ids. It ends at an empty round or when no task is left. */
    method CollectBatches() returns (batches: seq<seq<Task>>, ghost rounds: seq<seq<TaskId>>)
      requires Valid()
      modifies this`cachedOrder
      ensures Valid() && Matches(tasks, batches, rounds)
      ensures if old(cachedOrder) != [] then cachedOrder == old(cachedOrder)
              else if Acyclic(Present(Deps())) then Topological(Deps(), cachedOrder) else rounds == []
      ensures forall k :: 0 <= k < |rounds| ==> rounds[k] == Select(cachedOrder, LevelSet(Deps(), k)) && rounds[k] != []
      ensures Select(cachedOrder, LevelSet(Deps(), |rounds|)) == [] || tasks.Keys <= ReadySet(Deps(), |rounds|)
    {
      hide Topological, Acyclic, IsPath, Present, NoDuplicates, Grounded, HasChain, ReadySet, LevelSet, Select,
           Elements;
      ghost var deps := Deps();
      var remaining, completed := tasks.Keys, {};
      batches, rounds := [], [];
      NothingReadyFirst(deps);
      if remaining == {} { EmptyPlan(deps); }
      while remaining != {}
        invariant Valid() && Deps() == deps
        invariant remaining == tasks.Keys - completed && completed == ReadySet(deps, |rounds|)
        invariant rounds == [] || cachedOrder != []
        invariant if old(cachedOrder) != [] || (rounds == [] && remaining != {}) then cachedOrder == old(cachedOrder)
                  else Topological(deps, cachedOrder)
        invariant Matches(tasks, batches, rounds)
        invariant forall k :: 0 <= k < |rounds| ==>
                    rounds[k] == Select(cachedOrder, LevelSet(deps, k)) && rounds[k] != []
        decreases remaining
      {
        var order := ExecutionOrder();
        assert Deps() == deps;
        var batchIds := NextBatch(order, remaining, completed, |rounds|);
        if batchIds == [] { break; }
        RoundAdvances(deps, order, |rounds|, batchIds);
        batches := batches + [TasksOf(tasks, batchIds)];
        rounds := rounds + [batchIds];
        completed := completed + Elements(batchIds);
        remaining := remaining - Elements(batchIds);
      }
      if Topological(deps, cachedOrder) { TopologicalIsAcyclic(deps, cachedOrder); }
    }

    method NextBatch(order: seq<TaskId>, remaining: set<TaskId>, completed: set<TaskId>, ghost n: nat)
      returns (batchIds: seq<TaskId>)
      requires Shaped() && (order == [] || Elements(order) == tasks.Keys)
      requires remaining == tasks.Keys - completed && completed == ReadySet(Deps(), n)
      ensures batchIds == Select(order, LevelSet(Deps(), n))
    {
      hide Ordered, Topological, Acyclic, IsPath, Present, NoDuplicates, Grounded, HasChain, ReadySet, LevelSet;
      batchIds := [];
      for i := 0 to |order|
        invariant batchIds == Select(order[..i], LevelSet(Deps(), n))
      {
        var t := order[i];
        assert t in Elements(order);
        JoinsRound(Deps(), t, n);
        assert order[..i + 1][..i] == order[..i];
        if t in remaining && forall d :: d in tasks[t].dependencies ==> d in completed {
          batchIds := batchIds + [t];
        }
      }
      assert order[..|order|] == order;
    }
  }

  lemma {:induction false} NobodyDepends(keys: seq<TaskId>, records: map<TaskId, TaskRecord>, t: TaskId)
    requires forall k :: k in keys && k in records ==> t !in records[k].dependencies
    ensures DependingOn(keys, records, t) == []
  {
    if keys != [] {
      assert keys[|keys| - 1] in keys;
      NobodyDepends(keys[..|keys| - 1], records, t);
    }
  }

  lemma AppendAllStep(xs: seq<TaskId>, ys: seq<TaskId>, y: TaskId)
    ensures AppendAll(xs, ys + [y]) == AppendNew(AppendAll(xs, ys), y)
    ensures AppendAll(xs, ys + []) == AppendAll(xs, ys)
  {
    assert (ys + [y])[..|ys|] == ys && ys + [] == ys;
  }

  lemma RegisteredNone(u: TaskRecord, id: TaskId, dependencies: seq<TaskId>)
    ensures RegisteredBy(u, id, dependencies[..0]) == u.dependents
  {}

  lemma RegisteredMore(u: TaskRecord, id: TaskId, dependencies: seq<TaskId>, i: nat)
    requires i < |dependencies|
    ensures RegisteredBy(u, id, dependencies[..i + 1]) ==
            if u.id == dependencies[i] then AppendNew(RegisteredBy(u, id, dependencies[..i]), id)
            else RegisteredBy(u, id, dependencies[..i])
  {
    assert dependencies[..i + 1] == dependencies[..i] + [dependencies[i]];
  }

  lemma DependingOnStep(keys: seq<TaskId>, records: map<TaskId, TaskRecord>, t: TaskId, i: nat)
    requires i < |keys|
    ensures DependingOn(keys[..i + 1], records, t) ==
            DependingOn(keys[..i], records, t)
            + if keys[i] in records && t in records[keys[i]].dependencies then [keys[i]] else []
  {
    assert keys[..i + 1][..i] == keys[..i];
  }

  lemma NothingToAppend(xs: seq<TaskId>, records: map<TaskId, TaskRecord>, t: TaskId)
    ensures AppendAll(xs, DependingOn([], records, t)) == xs
  {}

  lemma AddTaskToIs(p: PlanState, r: TaskRecord, after: map<TaskId, TaskRecord>)
    requires var stored := p.records[r.id := r];
             var registered := RegisteredAll(stored, r);
             after == registered[r.id := registered[r.id].(dependents :=
               AppendAll(registered[r.id].dependents, DependingOn(AppendNew(p.keys, r.id), stored, r.id)))]
    ensures PlanState(AppendNew(p.keys, r.id), after) == AddTaskTo(p, r)
  {}

  lemma StoredShape(keys: seq<TaskId>, t: TaskId)
    requires NoDuplicates(keys)
    ensures NoDuplicates(AppendNew(keys, t)) && Elements(AppendNew(keys, t)) == Elements(keys) + {t}
  {}

  lemma MatchingIds(tasks: map<TaskId, Task>, batches: seq<seq<Task>>, rounds: seq<seq<TaskId>>)
    requires Matches(tasks, batches, rounds) && forall t :: t in tasks ==> tasks[t].id == t
    ensures |batches| == |rounds| && Ids(batches) == rounds
    ensures forall k, j :: 0 <= k < |batches| && 0 <= j < |batches[k]| ==>
              batches[k][j].id in tasks && tasks[batches[k][j].id] == batches[k][j]
  {
    forall k | 0 <= k < |rounds| ensures Ids(batches)[k] == rounds[k] {
      assert forall j :: 0 <= j < |rounds[k]| ==> Ids(batches)[k][j] == batches[k][j].id;
    }
  }

  lemma TopologicalLists(deps: Deps, order: seq<TaskId>)
    requires Topological(deps, order)
    ensures NoDuplicates(order) && Elements(order) == deps.Keys
  {}

  lemma EmptyPlan(deps: Deps)
    requires deps == map[]
    ensures Topological(deps, [])
  {}

  function TasksOf(tasks: map<TaskId, Task>, ids: seq<TaskId>): (r: seq<Task>)
    requires Elements(ids) <= tasks.Keys
    ensures |r| == |ids| && forall i :: 0 <= i < |ids| ==> ids[i] in tasks && r[i] == tasks[ids[i]]
  {
    assert forall i :: 0 <= i < |ids| ==> ids[i] in Elements(ids);
    seq(|ids|, i requires 0 <= i < |ids| => tasks[ids[i]])
  }

  ghost predicate Matches(tasks: map<TaskId, Task>, batches: seq<seq<Task>>, rounds: seq<seq<TaskId>>) {
    && |batches| == |rounds|
    && (forall k :: 0 <= k < |rounds| ==> |batches[k]| == |rounds[k]|)
    && (forall k, j :: 0 <= k < |rounds| && 0 <= j < |rounds[k]| ==>
          rounds[k][j] in tasks && batches[k][j] == tasks[rounds[k][j]])
  }

  ghost function Ids(batches: seq<seq<Task>>): seq<seq<TaskId>> {
    seq(|batches|, k requires 0 <= k < |batches| =>
        seq(|batches[k]|, j requires 0 <= j < |batches[k]| => batches[k][j].id))
  }

  lemma StartSearch(deps: Deps)
    ensures SearchOk(deps, [], [], {}, {})
  {}

  lemma SearchedAll(deps: Deps, order: seq<TaskId>, visited: set<TaskId>, visiting: set<TaskId>)
    requires SearchOk(deps, [], order, visited, visiting) && deps.Keys <= visited
    ensures Topological(deps, order)
  {}

  lemma PresentEdge(deps: Deps, t: TaskId, d: TaskId)
    requires t in deps && d in deps[t] && d in deps
    ensures Edge(Present(deps), t, d)
  {}

  /** A dependency that is already being visited closes a cycle. */
  lemma ClosesCycle(deps: Deps, path: seq<TaskId>, t: TaskId)
    requires path != [] && IsPath(Present(deps), path) && t in path
    requires Edge(Present(deps), path[|path| - 1], t)
    ensures !Acyclic(Present(deps))
  {
    var i :| 0 <= i < |path| && path[i] == t;
    var cycle := path[i..] + [t];
    forall k | 0 <= k < |cycle| - 1 ensures Edge(Present(deps), cycle[k], cycle[k + 1]) {
      if i + k < |path| - 1 { assert Edge(Present(deps), path[i + k], path[i + k + 1]); }
    }
    assert IsCycle(Present(deps), cycle);
  }
}
