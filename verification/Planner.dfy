/** `Planner.parse_plan` (`src/axiom/plan/planner.py:111-152`): from the planner's task nodes to an
    execution plan without missing or cyclic dependencies. */
module Planner {
  import opened Numerals
  import opened Wrappers
  import opened Ordering
  import opened Digraph
  import opened PlanGraph
  import opened PlanModels

  /** A decoded element of the tasks array. `None` stands for an absent or falsy field, and for
      dependencies also for a value that is not a list. */
  datatype Node =
    | NotAnObject
    | Object(id: Option<string>, description: Option<string>, taskType: TaskType, dependencies: Option<seq<string>>)

  datatype PlanError = NoTasks | CyclicDependency

  // ---- Task ids ----

  /** The id given to the node at position `i` of the array, counting from one. */
  function TaskIdAt(i: nat): TaskId {
    "task_" + Digits(i + 1)
  }

  lemma TaskIdsDiffer(i: nat, j: nat)
    requires TaskIdAt(i) == TaskIdAt(j)
    ensures i == j
  {
    assert TaskIdAt(i)[5..] == Digits(i + 1) && TaskIdAt(j)[5..] == Digits(j + 1);
    DigitsInjective(i + 1, j + 1);
  }

  // ---- The dependencies the nodes describe ----

  function OriginalId(nodes: seq<Node>, i: nat): string
    requires i < |nodes| && nodes[i].Object?
  {
    match nodes[i].id case Some(id) => id case None => TaskIdAt(i)
  }

  /** Where several nodes carry the same id, the last one is meant. */
  function Mapping(nodes: seq<Node>, n: nat): map<string, TaskId>
    requires n <= |nodes|
  {
    if n == 0 then map[]
    else if nodes[n - 1].Object? then Mapping(nodes, n - 1)[OriginalId(nodes, n - 1) := TaskIdAt(n - 1)]
    else Mapping(nodes, n - 1)
  }

  /** The ids of the first `n` nodes that are objects. */
  function Keys(nodes: seq<Node>, n: nat): seq<TaskId>
    requires n <= |nodes|
  {
    if n == 0 then []
    else Keys(nodes, n - 1) + if nodes[n - 1].Object? then [TaskIdAt(n - 1)] else []
  }

  function Resolve(nodes: seq<Node>, raw: string): TaskId {
    var mapping := Mapping(nodes, |nodes|);
    if raw in mapping then mapping[raw] else raw
  }

  /** References to tasks of the plan, resolved, without repetition; other references are dropped. */
  function Resolved(nodes: seq<Node>, raws: seq<string>): seq<TaskId> {
    if raws == [] then []
    else
      var init, d := Resolved(nodes, raws[..|raws| - 1]), Resolve(nodes, raws[|raws| - 1]);
      if d in Keys(nodes, |nodes|) then AppendNew(init, d) else init
  }

  function RawDependencies(nodes: seq<Node>, i: nat): seq<string>
    requires i < |nodes|
  {
    if nodes[i].Object? && nodes[i].dependencies.Some? then nodes[i].dependencies.value else []
  }

  ghost function Position(nodes: seq<Node>, n: nat, t: TaskId): (i: nat)
    requires n <= |nodes| && t in Keys(nodes, n)
    ensures i < n && nodes[i].Object? && TaskIdAt(i) == t
  {
    if nodes[n - 1].Object? && TaskIdAt(n - 1) == t then n - 1 else Position(nodes, n - 1, t)
  }

  /** The dependency lists the nodes describe. */
  ghost function ParsedDeps(nodes: seq<Node>): Deps {
    map t | t in Keys(nodes, |nodes|) :: Resolved(nodes, RawDependencies(nodes, Position(nodes, |nodes|, t)))
  }

  lemma {:induction false} KeysExact(nodes: seq<Node>, n: nat, i: nat)
    requires n <= |nodes| && i < |nodes|
    ensures TaskIdAt(i) in Keys(nodes, n) <==> i < n && nodes[i].Object?
  {
    if n > 0 {
      KeysExact(nodes, n - 1, i);
      if nodes[n - 1].Object? && TaskIdAt(i) == TaskIdAt(n - 1) { TaskIdsDiffer(i, n - 1); }
    }
  }

  lemma ParsedDepsAt(nodes: seq<Node>, i: nat)
    requires i < |nodes| && nodes[i].Object?
    ensures TaskIdAt(i) in ParsedDeps(nodes)
    ensures ParsedDeps(nodes)[TaskIdAt(i)] == Resolved(nodes, RawDependencies(nodes, i))
  {
    KeysExact(nodes, |nodes|, i);
    TaskIdsDiffer(i, Position(nodes, |nodes|, TaskIdAt(i)));
  }

  lemma {:induction false} ResolvedInside(nodes: seq<Node>, raws: seq<string>)
    ensures forall d :: d in Resolved(nodes, raws) ==> d in Keys(nodes, |nodes|)
    ensures NoDuplicates(Resolved(nodes, raws))
  {
    if raws != [] { ResolvedInside(nodes, raws[..|raws| - 1]); }
  }

  /** Nothing the nodes describe depends on a task that is not in the plan. */
  lemma ParsedDepsComplete(nodes: seq<Node>)
    ensures Complete(ParsedDeps(nodes))
  {
    forall t, d | t in ParsedDeps(nodes) && d in ParsedDeps(nodes)[t] ensures d in ParsedDeps(nodes) {
      ResolvedInside(nodes, RawDependencies(nodes, Position(nodes, |nodes|, t)));
    }
  }

  // ---- Parsing ----

  /** `dependents` lists exactly the tasks that depend on the owner. */
  ghost predicate Mirrored(plan: ExecutionPlan)
    reads plan`tasks, plan.tasks.Values`dependencies, plan.tasks.Values`dependents
  {
    Mirrors(plan.Deps(), Dependents(plan))
  }

  ghost function Dependents(plan: ExecutionPlan): Deps
    reads plan`tasks, plan.tasks.Values`dependents
  {
    map t | t in plan.tasks :: plan.tasks[t].dependents
  }

  ghost predicate Mirrors(deps: Deps, dependents: Deps) {
    forall a, b :: a in dependents && b in deps ==> (b in dependents[a] <==> a in deps[b])
  }

  lemma MirrorsMore(deps: Deps, dependents: Deps, t: TaskId, d: TaskId)
    requires Mirrors(deps, dependents) && t in deps && d in dependents
    ensures Mirrors(deps[t := AppendNew(deps[t], d)], dependents[d := AppendNew(dependents[d], t)])
  {}

  function NewTask(nodes: seq<Node>, i: nat): TaskRecord
    requires i < |nodes| && nodes[i].Object?
  {
    var description := match nodes[i].description case Some(text) => text case None => OriginalId(nodes, i);
    TaskRecord(TaskIdAt(i), description, nodes[i].taskType, [], [], Pending, "", "", 0, None, None, "", 0.0, 0.0)
  }

  /** A task without its dependencies and dependents. */
  function Bare(r: TaskRecord): TaskRecord {
    r.(dependencies := [], dependents := [])
  }

  ghost function Bares(plan: ExecutionPlan): map<TaskId, TaskRecord>
    reads plan`tasks, plan.tasks.Values
  {
    map t | t in plan.tasks :: Bare(plan.tasks[t].Record())
  }

  /** The tasks the nodes describe, without their dependencies. */
  ghost function Described(nodes: seq<Node>): map<TaskId, TaskRecord> {
    map t | t in Keys(nodes, |nodes|) :: NewTask(nodes, Position(nodes, |nodes|, t))
  }

  /** The task made from node `i` has the node's text and type, and is new. */
  lemma DescribedAt(nodes: seq<Node>, i: nat)
    requires i < |nodes| && nodes[i].Object?
    ensures TaskIdAt(i) in Described(nodes) && Described(nodes)[TaskIdAt(i)] == NewTask(nodes, i)
  {
    hide NewTask, TaskIdAt;
    KeysExact(nodes, |nodes|, i);
    TaskIdsDiffer(i, Position(nodes, |nodes|, TaskIdAt(i)));
  }

  /** The plan after the first loop has seen `n` nodes. */
  ghost function Created(nodes: seq<Node>, n: nat): PlanState
    requires n <= |nodes|
  {
    if n == 0 then PlanState([], map[])
    else if nodes[n - 1].Object? then AddTaskTo(Created(nodes, n - 1), NewTask(nodes, n - 1))
    else Created(nodes, n - 1)
  }

  lemma {:induction false} CreatedIsBare(nodes: seq<Node>, n: nat)
    requires n <= |nodes|
    ensures Created(nodes, n).keys == Keys(nodes, n) && Created(nodes, n).records.Keys == Elements(Keys(nodes, n))
    ensures forall t :: t in Keys(nodes, n) ==> Created(nodes, n).records[t] == NewTask(nodes, Position(nodes, n, t))
  {
    hide AddTaskTo, NewTask, TaskIdAt;
    if n > 0 {
      CreatedIsBare(nodes, n - 1);
      if nodes[n - 1].Object? {
        var p, r := Created(nodes, n - 1), NewTask(nodes, n - 1);
        KeysExact(nodes, n - 1, n - 1);
        NewTaskIsBare(nodes, n - 1);
        forall t | t in p.records ensures p.records[t].dependencies == [] {
          assert t in Elements(Keys(nodes, n - 1));
          NewTaskIsBare(nodes, Position(nodes, n - 1, t));
        }
        AddBareTask(p, r);
        assert Elements(Keys(nodes, n)) == Elements(Keys(nodes, n - 1)) + {TaskIdAt(n - 1)};
      }
    }
  }

  lemma NewTaskIsBare(nodes: seq<Node>, i: nat)
    requires i < |nodes| && nodes[i].Object?
    ensures var r := NewTask(nodes, i); r.id == TaskIdAt(i) && r.dependencies == [] == r.dependents
  {}

  lemma AddBareTask(p: PlanState, r: TaskRecord)
    requires r.dependencies == [] && r.dependents == [] && forall t :: t in p.records ==>
               p.records[t].dependencies == []
    requires r.id !in p.keys
    ensures AddTaskTo(p, r) == PlanState(p.keys + [r.id], p.records[r.id := r])
  {
    var stored := p.records[r.id := r];
    NobodyDepends(AppendNew(p.keys, r.id), stored, r.id);
    forall t | t in stored ensures RecordAfter(p, r, t) == stored[t] {}
    assert AddTaskTo(p, r).records == stored;
  }

  /** The dependency lists once the first `n` nodes have been entered. */
  ghost function ParsedUpTo(nodes: seq<Node>, n: nat): Deps
    requires n <= |nodes|
  {
    map t | t in Keys(nodes, |nodes|) :: ParsedAt(nodes, n, t)
  }

  ghost function ParsedAt(nodes: seq<Node>, n: nat, t: TaskId): seq<TaskId>
    requires n <= |nodes| && t in Keys(nodes, |nodes|)
  {
    var i := Position(nodes, |nodes|, t);
    if i < n then Resolved(nodes, RawDependencies(nodes, i)) else []
  }

  lemma ParsedAtStep(nodes: seq<Node>, n: nat, t: TaskId)
    requires n < |nodes| && t in Keys(nodes, |nodes|)
    ensures ParsedAt(nodes, n + 1, t) ==
            if nodes[n].Object? && t == TaskIdAt(n) then Resolved(nodes, RawDependencies(nodes, n))
            else ParsedAt(nodes, n, t)
    ensures nodes[n].Object? && t == TaskIdAt(n) ==> ParsedAt(nodes, n, t) == []
    ensures RawDependencies(nodes, n) == [] ==> ParsedAt(nodes, n + 1, t) == ParsedAt(nodes, n, t)
  {
    hide Keys, Resolved, TaskIdAt;
    if t == TaskIdAt(n) { TaskIdsDiffer(n, Position(nodes, |nodes|, t)); }
    NothingResolved(nodes);
  }

  method CreateTasks(plan: ExecutionPlan, nodes: seq<Node>) returns (mapping: map<string, TaskId>)
    requires plan.Valid() && plan.tasks == map[] && plan.keys == []
    modifies plan
    ensures plan.Valid() && fresh(plan.tasks.Values)
    ensures plan.keys == Keys(nodes, |nodes|) && mapping == Mapping(nodes, |nodes|)
    ensures Mirrored(plan) && plan.Deps() == ParsedUpTo(nodes, 0) && Bares(plan) == Described(nodes)
  {
    hide NoDuplicates, Topological, AddTaskTo, Keys, ParsedUpTo, Mirrored, Mirrors, NewTask, TaskIdAt, OriginalId,
         Elements;
    mapping := map[];
    for i := 0 to |nodes|
      invariant plan.Valid() && forall t :: t in plan.tasks ==> fresh(plan.tasks[t])
      invariant plan.Snapshot() == Created(nodes, i) && mapping == Mapping(nodes, i)
    {
      if nodes[i].Object? {
        mapping := mapping[OriginalId(nodes, i) := TaskIdAt(i)];
        var task := new Task(NewTask(nodes, i));
        plan.AddTask(task);
      }
    }
    CreatedIsBare(nodes, |nodes|);
    CreatedMirrors(plan, nodes);
  }

  lemma CreatedMirrors(plan: ExecutionPlan, nodes: seq<Node>)
    requires plan.Snapshot() == Created(nodes, |nodes|)
    ensures Mirrored(plan) && plan.Deps() == ParsedUpTo(nodes, 0) && Bares(plan) == Described(nodes)
  {
    hide AddTaskTo, Keys, ParsedUpTo, Created, Described, Bares;
    CreatedDeps(nodes);
    CreatedBares(plan, nodes);
    assert forall t :: t in plan.tasks ==> plan.tasks[t].Record() == plan.Snapshot().records[t];
    assert plan.Deps() == plan.Snapshot().Deps();
  }

  lemma CreatedIsDescribed(nodes: seq<Node>)
    ensures Created(nodes, |nodes|).records.Keys == Described(nodes).Keys
    ensures forall t :: t in Created(nodes, |nodes|).records ==>
              Bare(Created(nodes, |nodes|).records[t]) == Described(nodes)[t]
  {
    hide Created, Keys;
    CreatedIsBare(nodes, |nodes|);
  }

  lemma CreatedBares(plan: ExecutionPlan, nodes: seq<Node>)
    requires plan.Snapshot() == Created(nodes, |nodes|)
    ensures Bares(plan) == Described(nodes)
  {
    hide Created, Described, Bare;
    CreatedIsDescribed(nodes);
    assert plan.Snapshot().records.Keys == plan.tasks.Keys;
    assert forall t :: t in plan.tasks ==> plan.Snapshot().records[t] == plan.tasks[t].Record();
  }

  method LinkOwn(plan: ExecutionPlan, task: Task, d: TaskId)
    requires plan.Shaped() && task in plan.tasks.Values
    modifies task`dependencies
    ensures Dependents(plan) == old(Dependents(plan)) && Bares(plan) == old(Bares(plan))
    ensures plan.Deps() == old(plan.Deps())[task.id := AppendNew(old(task.dependencies), d)]
  {
    hide NoDuplicates, Elements, AppendNew;
    assert forall u :: u in plan.tasks && u != task.id ==> plan.tasks[u] != task;
    task.AddDependency(d);
  }

  method LinkOther(plan: ExecutionPlan, task: Task, d: TaskId)
    requires plan.Shaped() && d in plan.tasks
    modifies plan.tasks.Values`dependents
    ensures plan.Deps() == old(plan.Deps()) && Bares(plan) == old(Bares(plan))
    ensures Dependents(plan) == old(Dependents(plan))[d := AppendNew(old(plan.tasks[d].dependents), task.id)]
  {
    hide NoDuplicates, Elements, AppendNew;
    assert forall u :: u in plan.tasks && u != d ==> plan.tasks[u] != plan.tasks[d];
    plan.tasks[d].AddDependent(task.id);
  }

  method Link(plan: ExecutionPlan, task: Task, d: TaskId)
    requires plan.Shaped() && Mirrored(plan) && task in plan.tasks.Values && d in plan.tasks
    modifies task`dependencies, plan.tasks.Values`dependents
    ensures Mirrored(plan) && Bares(plan) == old(Bares(plan))
    ensures plan.Deps() == old(plan.Deps())[task.id := AppendNew(old(task.dependencies), d)]
  {
    hide NoDuplicates, Elements, AppendNew, Mirrors, Bares;
    MirrorsMore(plan.Deps(), Dependents(plan), task.id, d);
    LinkOwn(plan, task, d);
    LinkOther(plan, task, d);
  }

  /** The dependencies of one node, entered on both sides. */
  method AddDependencies(plan: ExecutionPlan, nodes: seq<Node>, mapping: map<string, TaskId>, task: Task,
                         raws: seq<string>)
    requires plan.Shaped() && Mirrored(plan) && task in plan.tasks.Values && task.dependencies == []
    requires plan.keys == Keys(nodes, |nodes|) && mapping == Mapping(nodes, |nodes|)
    modifies plan.tasks.Values`dependencies, plan.tasks.Values`dependents
    ensures Mirrored(plan) && Bares(plan) == old(Bares(plan))
    ensures plan.Deps() == old(plan.Deps())[task.id := Resolved(nodes, raws)]
  {
    hide NoDuplicates, Keys, Mapping, Mirrored, Bares;
    for k := 0 to |raws|
      invariant Mirrored(plan) && task.dependencies == Resolved(nodes, raws[..k]) && Bares(plan) == old(Bares(plan))
      invariant plan.Deps() == old(plan.Deps())[task.id := Resolved(nodes, raws[..k])]
    {
      assert raws[..k + 1][..k] == raws[..k];
      var d := if raws[k] in mapping then mapping[raws[k]] else raws[k];
      assert d in Elements(plan.keys) <==> d in plan.tasks;
      if d in plan.tasks { Link(plan, task, d); }
      assert task.dependencies == plan.Deps()[task.id];
    }
    assert raws[..|raws|] == raws;
  }

  lemma ParsedStep(nodes: seq<Node>, n: nat)
    requires n < |nodes|
    ensures nodes[n].Object? ==>
              && TaskIdAt(n) in ParsedUpTo(nodes, n) && ParsedUpTo(nodes, n)[TaskIdAt(n)] == []
              && ParsedUpTo(nodes, n + 1) ==
                 ParsedUpTo(nodes, n)[TaskIdAt(n) := Resolved(nodes, RawDependencies(nodes, n))]
    ensures RawDependencies(nodes, n) == [] ==> ParsedUpTo(nodes, n + 1) == ParsedUpTo(nodes, n)
  {
    hide Keys, Resolved, TaskIdAt, ParsedAt, RawDependencies;
    KeysExact(nodes, |nodes|, n);
    forall t | t in Keys(nodes, |nodes|)
      ensures ParsedAt(nodes, n + 1, t) ==
              if nodes[n].Object? && t == TaskIdAt(n) then Resolved(nodes, RawDependencies(nodes, n))
              else ParsedAt(nodes, n, t)
      ensures nodes[n].Object? && t == TaskIdAt(n) ==> ParsedAt(nodes, n, t) == []
      ensures RawDependencies(nodes, n) == [] ==> ParsedAt(nodes, n + 1, t) == ParsedAt(nodes, n, t)
    {
      ParsedAtStep(nodes, n, t);
    }
  }

  lemma NothingResolved(nodes: seq<Node>)
    ensures Resolved(nodes, []) == []
  {}

  lemma ParsedAll(nodes: seq<Node>)
    ensures ParsedUpTo(nodes, |nodes|) == ParsedDeps(nodes)
  {
    hide Keys, Resolved, TaskIdAt;
  }

  lemma CreatedDeps(nodes: seq<Node>)
    ensures Created(nodes, |nodes|).Deps() == ParsedUpTo(nodes, 0)
    ensures forall t :: t in Created(nodes, |nodes|).records ==>
              Created(nodes, |nodes|).records[t].dependencies == [] == Created(nodes, |nodes|).records[t].dependents
  {
    CreatedIsBare(nodes, |nodes|);
  }

  method ParsePlan(planId: string, nodes: seq<Node>) returns (r: Result<ExecutionPlan, PlanError>)
    ensures r == Err(NoTasks) <==> nodes == []
    ensures r == Err(CyclicDependency) <==> nodes != [] && !Acyclic(Present(ParsedDeps(nodes)))
    ensures r.Ok? ==>
              var plan := r.value;
              && fresh(plan) && plan.Valid() && plan.keys == Keys(nodes, |nodes|)
              && plan.Deps() == ParsedDeps(nodes) && Bares(plan) == Described(nodes)
              && Complete(plan.Deps()) && Topological(plan.Deps(), plan.cachedOrder) && Mirrored(plan)
  {
    hide NoDuplicates, Topological, Acyclic, Complete, ParsedDeps, Present, Keys, Mirrored, Described, Bares, Elements;
    if nodes == [] { return Err(NoTasks); }
    var plan := new ExecutionPlan(planId);
    FillPlan(plan, nodes);
    ParsedDepsComplete(nodes);
    var ok := plan.ComputeExecutionOrder();
    if !ok { return Err(CyclicDependency); }
    return Ok(plan);
  }

  /** The two loops over the nodes: first the tasks, then their dependencies. */
  method FillPlan(plan: ExecutionPlan, nodes: seq<Node>)
    requires plan.Valid() && plan.tasks == map[] && plan.keys == []
    modifies plan
    ensures plan.Shaped() && Mirrored(plan) && fresh(plan.tasks.Values)
    ensures plan.keys == Keys(nodes, |nodes|) && plan.Deps() == ParsedDeps(nodes) && Bares(plan) == Described(nodes)
  {
    hide NoDuplicates, Topological, Created, Described, Bares, ParsedUpTo, ParsedDeps, Keys;
    var mapping := CreateTasks(plan, nodes);
    for i := 0 to |nodes|
      invariant fresh(plan.tasks.Values) && plan.Shaped() && Mirrored(plan)
      invariant plan.keys == Keys(nodes, |nodes|) && plan.Deps() == ParsedUpTo(nodes, i)
      invariant Bares(plan) == Described(nodes)
    {
      ParsedStep(nodes, i);
      if nodes[i].Object? && nodes[i].dependencies.Some? {
        AddDependencies(plan, nodes, mapping, plan.tasks[TaskIdAt(i)], nodes[i].dependencies.value);
      }
    }
    ParsedAll(nodes);
  }

  /** The rounds of an accepted plan hold every task of it exactly once. */
  lemma AcceptedPlanIsCovered(nodes: seq<Node>, order: seq<TaskId>, rounds: seq<seq<TaskId>>, t: TaskId)
    requires Topological(ParsedDeps(nodes), order) && IsLevels(ParsedDeps(nodes), order, rounds)
    requires t in Keys(nodes, |nodes|)
    ensures exists k :: 0 <= k < |rounds| && t in rounds[k] && LevelIs(ParsedDeps(nodes), t, k)
    ensures forall k, l :: 0 <= k < |rounds| && 0 <= l < |rounds| && t in rounds[k] && t in rounds[l] ==> k == l
  {
    hide IsLevels, Topological, LevelIs, Keys, Resolved, Grounded;
    ParsedDepsComplete(nodes);
    CompleteIsGrounded(ParsedDeps(nodes));
    RoundOfTask(ParsedDeps(nodes), order, rounds, t);
  }
}
