/** `to_dict` and `from_dict` of tasks, revisions and plans (`src/axiom/plan/models.py:94-166` and
    `:306-371`): which plans survive being stored and loaded, and what loading an old one changes. */
module PlanStore {
  import opened Wrappers
  import opened Ordering
  import opened Digraph
  import opened PlanGraph
  import opened PlanModels

  const PLAN_SCHEMA_VERSION := 2

  /** The keys of the stored documents. */
  datatype Key =
    | Id | Description | Type | Dependencies | Dependents | Status | Result | Error | Attempt | ChildRunId
    | ReusedFrom | ExecutionState | StartTime | EndTime | Version | PlanId | Summary | Reason | Tasks
    | CreatedAt | SchemaVersion | Goal | ReplanCount | History

  datatype Json =
    | Null
    | Int(i: int)
    | Real(r: real)
    | Str(s: string)
    | List(items: seq<Json>)
    | Obj(fields: map<Key, Json>)

  datatype PlanVersion = PlanVersion(version: int, planId: string, status: PlanStatus, summary: string,
                                     reason: string, tasks: seq<TaskRecord>, createdAt: real)

  datatype Plan = Plan(id: string, goal: string, state: PlanState, status: PlanStatus, schemaVersion: int,
                       version: int, replanCount: int, history: seq<PlanVersion>, summary: string,
                       createdAt: real, startTime: real, endTime: real)

  datatype LoadError = UnsupportedSchema | BadRecord | CyclicPlan

  // ---- Reading fields ----

  type Fields = map<Key, Json>

  function Get(m: Fields, key: Key): Json {
    if key in m then m[key] else Null
  }

  /** Python's truth value. */
  predicate Truthy(j: Json) {
    match j
    case Null => false
    case Int(i) => i != 0
    case Real(r) => r != 0.0
    case Str(s) => s != ""
    case List(items) => items != []
    case Obj(fields) => fields != map[]
  }

  /** `get(key) or default` */
  function Or(m: Fields, key: Key, default: Json): Json {
    if Truthy(Get(m, key)) then Get(m, key) else default
  }

  predicate IsText(m: Fields, key: Key) { Or(m, key, Str("")).Str? }
  function Text(m: Fields, key: Key): string requires IsText(m, key) { Or(m, key, Str("")).s }

  predicate IsInt(m: Fields, key: Key) { Or(m, key, Int(0)).Int? }
  function IntOr(m: Fields, key: Key, default: int): int
    requires IsInt(m, key)
  {
    Or(m, key, Int(default)).i
  }

  predicate IsReal(m: Fields, key: Key) { Or(m, key, Real(0.0)).Real? }
  function RealOr(m: Fields, key: Key, default: real): real
    requires IsReal(m, key)
  {
    Or(m, key, Real(default)).r
  }

  predicate IsOptionalText(m: Fields, key: Key) { Get(m, key).Null? || Get(m, key).Str? }
  function OptionalText(m: Fields, key: Key): Option<string>
    requires IsOptionalText(m, key)
  {
    if Get(m, key).Null? then None else Some(Get(m, key).s)
  }

  function OptionalJson(o: Option<string>): Json {
    match o case None => Null case Some(s) => Str(s)
  }

  predicate IsTexts(m: Fields, key: Key) {
    Get(m, key).List? ==> forall j :: j in Get(m, key).items ==> j.Str?
  }

  /** `_strings`: anything but a list reads as the empty list. */
  function Texts(m: Fields, key: Key): seq<string>
    requires IsTexts(m, key)
  {
    var j := Get(m, key);
    if j.List? then seq(|j.items|, i requires 0 <= i < |j.items| => assert j.items[i] in j.items; j.items[i].s) else []
  }

  function TextsJson(xs: seq<string>): Json {
    List(seq(|xs|, i requires 0 <= i < |xs| => Str(xs[i])))
  }

  // ---- Enumerations ----

  function TypeText(t: TaskType): string {
    match t
    case Planning => "PLANNING" case FileRead => "FILE_READ" case FileWrite => "FILE_WRITE"
    case Command => "COMMAND" case Analysis => "ANALYSIS" case Verification => "VERIFICATION"
  }

  function ParseType(s: string): Option<TaskType> {
    match s
    case "PLANNING" => Some(Planning) case "FILE_READ" => Some(FileRead) case "FILE_WRITE" => Some(FileWrite)
    case "COMMAND" => Some(Command) case "ANALYSIS" => Some(Analysis) case "" => Some(Analysis)
    case "VERIFICATION" => Some(Verification)
    case _ => None
  }

  function StatusText(s: TaskStatus): string {
    match s
    case Pending => "PENDING" case Running => "RUNNING" case Completed => "COMPLETED"
    case Failed => "FAILED" case Skipped => "SKIPPED" case Cancelled => "CANCELLED"
  }

  function ParseStatus(s: string): Option<TaskStatus> {
    match s
    case "PENDING" => Some(Pending) case "" => Some(Pending) case "RUNNING" => Some(Running)
    case "COMPLETED" => Some(Completed) case "FAILED" => Some(Failed) case "SKIPPED" => Some(Skipped)
    case "CANCELLED" => Some(Cancelled)
    case _ => None
  }

  function PlanStatusText(s: PlanStatus): string {
    match s
    case PlanCreated => "CREATED" case PlanRunning => "RUNNING" case PlanCompleted => "COMPLETED"
    case PlanFailed => "FAILED" case PlanCancelled => "CANCELLED"
  }

  function ParsePlanStatus(s: string): Option<PlanStatus> {
    match s
    case "CREATED" => Some(PlanCreated) case "" => Some(PlanCreated) case "RUNNING" => Some(PlanRunning)
    case "COMPLETED" => Some(PlanCompleted) case "FAILED" => Some(PlanFailed) case "CANCELLED" => Some(PlanCancelled)
    case _ => None
  }

  // ---- Tasks ----

  function TaskToJson(t: TaskRecord): Json {
    Obj(map[
      Key.Id := Str(t.id), Key.Description := Str(t.description), Key.Type := Str(TypeText(t.taskType)),
      Key.Dependencies := TextsJson(t.dependencies), Key.Dependents := TextsJson(t.dependents),
      Key.Status := Str(StatusText(t.status)), Key.Result := Str(t.result), Key.Error := Str(t.error),
      Key.Attempt := Int(t.attempt), Key.ChildRunId := OptionalJson(t.childRunId),
      Key.ReusedFrom := OptionalJson(t.reusedFrom), Key.ExecutionState := Str(t.executionState),
      Key.StartTime := Real(t.startTime), Key.EndTime := Real(t.endTime)])
  }

  function TaskFromJson(m: Fields): Option<TaskRecord> {
    if Get(m, Key.Id).Str? && IsText(m, Key.Description) && IsText(m, Key.Type) && ParseType(Text(m, Key.Type)).Some?
       && IsTexts(m, Key.Dependencies) && IsTexts(m, Key.Dependents)
       && IsText(m, Key.Status) && ParseStatus(Text(m, Key.Status)).Some?
       && IsText(m, Key.Result) && IsText(m, Key.Error) && IsInt(m, Key.Attempt)
       && IsOptionalText(m, Key.ChildRunId) && IsOptionalText(m, Key.ReusedFrom) && IsText(m, Key.ExecutionState)
       && IsReal(m, Key.StartTime) && IsReal(m, Key.EndTime)
    then Some(TaskRecord(
      Get(m, Key.Id).s, Text(m, Key.Description), ParseType(Text(m, Key.Type)).value,
      Texts(m, Key.Dependencies), Texts(m, Key.Dependents), ParseStatus(Text(m, Key.Status)).value,
      Text(m, Key.Result), Text(m, Key.Error), IntOr(m, Key.Attempt, 0),
      OptionalText(m, Key.ChildRunId), OptionalText(m, Key.ReusedFrom), Text(m, Key.ExecutionState),
      RealOr(m, Key.StartTime, 0.0), RealOr(m, Key.EndTime, 0.0)))
    else None
  }

  lemma TextsRoundTrip(m: Fields, key: Key, xs: seq<string>)
    requires Get(m, key) == TextsJson(xs)
    ensures IsTexts(m, key) && Texts(m, key) == xs
  {}

  lemma EnumsRoundTrip(t: TaskType, s: TaskStatus, p: PlanStatus)
    ensures ParseType(TypeText(t)) == Some(t) && TypeText(t) != ""
    ensures ParseStatus(StatusText(s)) == Some(s) && StatusText(s) != ""
    ensures ParsePlanStatus(PlanStatusText(p)) == Some(p) && PlanStatusText(p) != ""
  {}

  lemma TextReadsBack(m: Fields, key: Key)
    ensures Get(m, key).Str? ==> IsText(m, key) && Text(m, key) == Get(m, key).s
    ensures forall o :: Get(m, key) == OptionalJson(o) ==> IsOptionalText(m, key) && OptionalText(m, key) == o
  {}

  lemma IntReadsBack(m: Fields, key: Key, default: int)
    requires Get(m, key).Int? && (Get(m, key).i != 0 || default == 0)
    ensures IsInt(m, key) && IntOr(m, key, default) == Get(m, key).i
  {}

  lemma RealReadsBack(m: Fields, key: Key, default: real)
    requires Get(m, key).Real? && (Get(m, key).r != 0.0 || default == 0.0)
    ensures IsReal(m, key) && RealOr(m, key, default) == Get(m, key).r
  {}

  /** A task reads back as it was written. */
  lemma TaskRoundTrip(t: TaskRecord)
    ensures TaskToJson(t).Obj? && TaskFromJson(TaskToJson(t).fields) == Some(t)
  {
    TaskFields(t);
    TaskFieldsRead(t, TaskToJson(t).fields);
  }

  ghost predicate HoldsTask(m: Fields, t: TaskRecord) {
    HoldsPlace(m, t) && HoldsOutcome(m, t)
  }

  ghost predicate HoldsPlace(m: Fields, t: TaskRecord) {
    && Get(m, Key.Id) == Str(t.id) && Get(m, Key.Description) == Str(t.description)
    && Get(m, Key.Type) == Str(TypeText(t.taskType)) && Get(m, Key.Status) == Str(StatusText(t.status))
    && Get(m, Key.Dependencies) == TextsJson(t.dependencies) && Get(m, Key.Dependents) == TextsJson(t.dependents)
  }

  ghost predicate HoldsOutcome(m: Fields, t: TaskRecord) {
    && Get(m, Key.Result) == Str(t.result) && Get(m, Key.Error) == Str(t.error) && Get(m, Key.Attempt) == Int(t.attempt)
    && Get(m, Key.ChildRunId) == OptionalJson(t.childRunId) && Get(m, Key.ReusedFrom) == OptionalJson(t.reusedFrom)
    && Get(m, Key.ExecutionState) == Str(t.executionState)
    && Get(m, Key.StartTime) == Real(t.startTime) && Get(m, Key.EndTime) == Real(t.endTime)
  }

  lemma TaskFields(t: TaskRecord)
    ensures TaskToJson(t).Obj? && HoldsTask(TaskToJson(t).fields, t)
  {
    hide TypeText, StatusText, TextsJson, OptionalJson, HoldsPlace, HoldsOutcome;
    TaskPlace(t);
    TaskOutcome(t);
  }

  lemma TaskPlace(t: TaskRecord)
    ensures TaskToJson(t).Obj? && HoldsPlace(TaskToJson(t).fields, t)
  {
    hide TypeText, StatusText, TextsJson, OptionalJson;
  }

  lemma TaskOutcome(t: TaskRecord)
    ensures TaskToJson(t).Obj? && HoldsOutcome(TaskToJson(t).fields, t)
  {
    hide TypeText, StatusText, TextsJson, OptionalJson;
  }

  lemma TaskFieldsRead(t: TaskRecord, m: Fields)
    requires HoldsTask(m, t)
    ensures TaskFromJson(m) == Some(t)
  {
    hide TypeText, ParseType, StatusText, ParseStatus, Texts, IsTexts, TextsJson, Get, IsText, Text, Or, IsInt, IntOr,
         IsReal, RealOr, IsOptionalText, OptionalText, OptionalJson;
    EnumsRoundTrip(t.taskType, t.status, PlanCreated);
    TextsRoundTrip(m, Key.Dependencies, t.dependencies);
    TextsRoundTrip(m, Key.Dependents, t.dependents);
    forall key ensures Get(m, key).Str? ==> IsText(m, key) && Text(m, key) == Get(m, key).s { TextReadsBack(m, key); }
    TextReadsBack(m, Key.ChildRunId);
    TextReadsBack(m, Key.ReusedFrom);
    IntReadsBack(m, Key.Attempt, 0);
    RealReadsBack(m, Key.StartTime, 0.0);
    RealReadsBack(m, Key.EndTime, 0.0);
  }

  // ---- Revisions and plans ----

  function TasksToJson(ts: seq<TaskRecord>): Json {
    List(seq(|ts|, i requires 0 <= i < |ts| => TaskToJson(ts[i])))
  }

  /** Elements that are not objects are skipped. */
  function TasksFromJson(items: seq<Json>): Option<seq<TaskRecord>> {
    if items == [] then Some([])
    else
      var init, last := TasksFromJson(items[..|items| - 1]), items[|items| - 1];
      if init.None? || !last.Obj? then init
      else match TaskFromJson(last.fields) case None => None case Some(t) => Some(init.value + [t])
  }

  function TasksAt(m: Fields): Option<seq<TaskRecord>> {
    if Get(m, Key.Tasks).List? then TasksFromJson(Get(m, Key.Tasks).items) else Some([])
  }

  function VersionToJson(v: PlanVersion): Json {
    Obj(map[
      Key.Version := Int(v.version), Key.PlanId := Str(v.planId), Key.Status := Str(PlanStatusText(v.status)),
      Key.Summary := Str(v.summary), Key.Reason := Str(v.reason), Key.Tasks := TasksToJson(v.tasks),
      Key.CreatedAt := Real(v.createdAt)])
  }

  function VersionFromJson(m: Fields, now: real): Option<PlanVersion> {
    if IsInt(m, Key.Version) && IsText(m, Key.PlanId) && IsText(m, Key.Status)
       && ParsePlanStatus(Text(m, Key.Status)).Some?
       && IsText(m, Key.Summary) && IsText(m, Key.Reason) && TasksAt(m).Some? && IsReal(m, Key.CreatedAt)
    then Some(PlanVersion(IntOr(m, Key.Version, 1), Text(m, Key.PlanId), ParsePlanStatus(Text(m, Key.Status)).value,
                          Text(m, Key.Summary), Text(m, Key.Reason), TasksAt(m).value, RealOr(m, Key.CreatedAt, now)))
    else None
  }

  function HistoryToJson(vs: seq<PlanVersion>): Json {
    List(seq(|vs|, i requires 0 <= i < |vs| => VersionToJson(vs[i])))
  }

  function HistoryFromJson(items: seq<Json>, now: real): Option<seq<PlanVersion>> {
    if items == [] then Some([])
    else
      var init, last := HistoryFromJson(items[..|items| - 1], now), items[|items| - 1];
      if init.None? || !last.Obj? then init
      else match VersionFromJson(last.fields, now) case None => None case Some(v) => Some(init.value + [v])
  }

  function HistoryAt(m: Fields, now: real): Option<seq<PlanVersion>> {
    if Get(m, Key.History).List? then HistoryFromJson(Get(m, Key.History).items, now) else Some([])
  }

  function InOrder(p: PlanState): seq<TaskRecord>
    requires Elements(p.keys) <= p.records.Keys
  {
    assert forall i :: 0 <= i < |p.keys| ==> p.keys[i] in Elements(p.keys);
    seq(|p.keys|, i requires 0 <= i < |p.keys| => p.records[p.keys[i]])
  }

  function PlanToJson(p: Plan): Json
    requires Elements(p.state.keys) <= p.state.records.Keys
  {
    Obj(map[
      Key.SchemaVersion := Int(p.schemaVersion), Key.Id := Str(p.id), Key.Goal := Str(p.goal),
      Key.Version := Int(p.version), Key.ReplanCount := Int(p.replanCount), Key.Status := Str(PlanStatusText(p.status)),
      Key.Summary := Str(p.summary), Key.CreatedAt := Real(p.createdAt), Key.StartTime := Real(p.startTime),
      Key.EndTime := Real(p.endTime), Key.Tasks := TasksToJson(InOrder(p.state)),
      Key.History := HistoryToJson(p.history)])
  }

  /** Under schema 1 a running task had no child run to resume: its attempt is taken back. */
  function Migrate(schema: int, t: TaskRecord): TaskRecord {
    if schema == 1 && t.status == Running
    then t.(status := Pending, attempt := if t.attempt > 0 then t.attempt - 1 else 0,
            startTime := 0.0, endTime := 0.0, result := "", error := "")
    else t
  }

  /** The tasks read from a document, entered by `add_task` one after the other. */
  function Rebuilt(schema: int, ts: seq<TaskRecord>): PlanState {
    if ts == [] then PlanState([], map[])
    else AddTaskTo(Rebuilt(schema, ts[..|ts| - 1]), Migrate(schema, ts[|ts| - 1]))
  }

  ghost function PlanFromJson(m: Fields, now: real): Result<Plan, LoadError> {
    if !IsInt(m, Key.SchemaVersion) then Err(BadRecord)
    else
      var schema := IntOr(m, Key.SchemaVersion, 0);
      if schema !in {1, PLAN_SCHEMA_VERSION} then Err(UnsupportedSchema)
      else if Get(m, Key.Id).Str? && IsText(m, Key.Goal) && IsText(m, Key.Status)
              && ParsePlanStatus(Text(m, Key.Status)).Some?
              && IsInt(m, Key.Version) && IsInt(m, Key.ReplanCount) && IsText(m, Key.Summary)
              && IsReal(m, Key.CreatedAt) && IsReal(m, Key.StartTime) && IsReal(m, Key.EndTime)
              && TasksAt(m).Some? && HistoryAt(m, now).Some?
      then
        var state := Rebuilt(schema, TasksAt(m).value);
        if !Acyclic(Present(state.Deps())) then Err(CyclicPlan)
        else Ok(Plan(Get(m, Key.Id).s, Text(m, Key.Goal), state, ParsePlanStatus(Text(m, Key.Status)).value,
                     PLAN_SCHEMA_VERSION, IntOr(m, Key.Version, 1), IntOr(m, Key.ReplanCount, 0),
                     HistoryAt(m, now).value, Text(m, Key.Summary), RealOr(m, Key.CreatedAt, now),
                     RealOr(m, Key.StartTime, 0.0), RealOr(m, Key.EndTime, 0.0)))
      else Err(BadRecord)
  }

  // ---- `dependents` ----

  /** Every dependency between tasks of the plan is registered with the task depended on. */
  ghost predicate Registering(p: PlanState) {
    forall t, d :: t in p.records && d in p.records && d in p.records[t].dependencies ==> t in p.records[d].dependents
  }

  /** `dependents` lists exactly the tasks of the plan that depend on the owner. */
  ghost predicate Inverse(p: PlanState) {
    forall d, t :: d in p.records ==>
      (t in p.records[d].dependents <==> t in p.records && d in p.records[t].dependencies)
  }

  lemma {:induction false} AppendAllElements(xs: seq<TaskId>, ys: seq<TaskId>)
    ensures forall x :: x in AppendAll(xs, ys) <==> x in xs || x in ys
    ensures (forall y :: y in ys ==> y in xs) ==> AppendAll(xs, ys) == xs
  {
    if ys != [] {
      var init, last := ys[..|ys| - 1], ys[|ys| - 1];
      assert ys == init + [last];
      AppendAllElements(xs, init);
    }
  }

  lemma {:induction false} DependingOnExact(keys: seq<TaskId>, records: map<TaskId, TaskRecord>, t: TaskId, u: TaskId)
    ensures u in DependingOn(keys, records, t) <==> u in keys && u in records && t in records[u].dependencies
  {
    if keys != [] {
      var init, last := keys[..|keys| - 1], keys[|keys| - 1];
      assert keys == init + [last];
      DependingOnExact(init, records, t, u);
    }
  }

  /** What `add_task` does to the dependents of `d`, for a task with a new id. */
  lemma AddedDependents(p: PlanState, r: TaskRecord, d: TaskId, t: TaskId)
    requires p.Valid() && r.id !in p.records && (d in p.records || d == r.id)
    ensures var q := AddTaskTo(p, r);
            && q.Valid() && d in q.records
            && q.records[d].dependencies == (if d == r.id then r else p.records[d]).dependencies
            && (t in q.records[d].dependents <==>
                  || t in (if d == r.id then r else p.records[d]).dependents
                  || (t == r.id && d in r.dependencies)
                  || (d == r.id && t in p.records && d in p.records[t].dependencies))
  {
    hide DependingOn, AppendAll;
    var stored, keys := p.records[r.id := r], AppendNew(p.keys, r.id);
    StoredShape(p.keys, r.id);
    var u := Registered(stored[d], r);
    AppendAllElements(u.dependents, DependingOn(keys, stored, r.id));
    DependingOnExact(keys, stored, r.id, t);
    assert t in keys <==> t in Elements(keys);
  }

  /** Plans that are built task by task, from tasks that list no dependents yet, have exact dependents. */
  lemma AddKeepsInverse(p: PlanState, r: TaskRecord)
    requires p.Valid() && Inverse(p) && r.id !in p.records && r.dependents == []
    ensures Inverse(AddTaskTo(p, r)) && AddTaskTo(p, r).Valid()
  {
    hide AddTaskTo, Inverse;
    var q := AddTaskTo(p, r);
    AddedDependents(p, r, r.id, r.id);
    AddedKeys(p, r);
    forall d, t | d in q.records
      ensures t in q.records[d].dependents <==> t in q.records && d in q.records[t].dependencies
    {
      AddedDependents(p, r, d, t);
      if t in q.records { AddedDependents(p, r, t, t); }
      InverseAt(p, d, t);
    }
    InverseIs(q);
  }

  lemma InverseAt(p: PlanState, d: TaskId, t: TaskId)
    requires Inverse(p)
    ensures d in p.records ==> (t in p.records[d].dependents <==> t in p.records && d in p.records[t].dependencies)
  {}

  lemma InverseIs(p: PlanState)
    requires forall d, t :: d in p.records ==>
               (t in p.records[d].dependents <==> t in p.records && d in p.records[t].dependencies)
    ensures Inverse(p)
  {}

  lemma AddedKeys(p: PlanState, r: TaskRecord)
    ensures AddTaskTo(p, r).records.Keys == p.records.Keys + {r.id}
  {}

  lemma AddKeepsRegistering(p: PlanState, r: TaskRecord)
    requires p.Valid() && Registering(p) && r.id !in p.records
    ensures Registering(AddTaskTo(p, r)) && AddTaskTo(p, r).Valid()
  {
    hide AddTaskTo;
    var q := AddTaskTo(p, r);
    AddedDependents(p, r, r.id, r.id);
    AddedKeys(p, r);
    forall t, d | t in q.records && d in q.records && d in q.records[t].dependencies
      ensures t in q.records[d].dependents
    {
      AddedDependents(p, r, d, t);
      AddedDependents(p, r, t, t);
    }
  }

  ghost predicate DistinctIds(ts: seq<TaskRecord>) {
    forall i, j :: 0 <= i < j < |ts| ==> ts[i].id != ts[j].id
  }

  lemma {:induction false} RebuiltKeys(schema: int, ts: seq<TaskRecord>)
    requires DistinctIds(ts)
    ensures var q := Rebuilt(schema, ts);
            && q.Valid() && Registering(q) && q.keys == seq(|ts|, i requires 0 <= i < |ts| => ts[i].id)
    ensures schema == 2 && (forall t :: t in ts ==> t.dependents == []) ==> Inverse(Rebuilt(schema, ts))
  {
    if ts != [] {
      var init, last := ts[..|ts| - 1], ts[|ts| - 1];
      RebuiltKeys(schema, init);
      var p, r := Rebuilt(schema, init), Migrate(schema, last);
      assert r.id !in p.records by {
        forall i | 0 <= i < |init| ensures p.keys[i] != r.id { assert ts[i].id != last.id; }
      }
      hide AddTaskTo, Registering, Inverse;
      AddKeepsRegistering(p, r);
      AddedOrder(p, r);
      if schema == 2 && forall t :: t in ts ==> t.dependents == [] {
        assert forall t :: t in init ==> t in ts;
        assert last in ts;
        AddKeepsInverse(p, r);
      }
    }
  }

  lemma AddedOrder(p: PlanState, r: TaskRecord)
    requires p.Valid() && r.id !in p.records
    ensures AddTaskTo(p, r).keys == p.keys + [r.id]
  {
    assert r.id !in Elements(p.keys);
  }

  // ---- The round trip ----

  /** The first `k` tasks of a plan, as they are after loading under the given schema. */
  ghost function Prefix(schema: int, p: PlanState, k: nat): PlanState
    requires p.Valid() && k <= |p.keys|
  {
    PlanState(p.keys[..k], map t | t in Elements(p.keys[..k]) && t in p.records :: Migrate(schema, p.records[t]))
  }

  lemma PrefixStep(schema: int, p: PlanState, k: nat)
    requires p.Valid() && k < |p.keys|
    ensures var id := p.keys[k];
            && id in p.records && id !in p.keys[..k]
            && Prefix(schema, p, k + 1).keys == AppendNew(Prefix(schema, p, k).keys, id)
            && Prefix(schema, p, k + 1).records == Prefix(schema, p, k).records[id := Migrate(schema, p.records[id])]
    ensures forall u :: u in Prefix(schema, p, k + 1).records ==>
              && u in p.records && Prefix(schema, p, k + 1).records[u] == Migrate(schema, p.records[u])
              && Prefix(schema, p, k + 1).records[u].id == u
  {
    ElementsStep(p.keys, k);
    assert p.keys[..k + 1] == p.keys[..k] + [p.keys[k]];
    assert forall u :: u in Elements(p.keys[..k]) ==> u in Elements(p.keys);
  }

  /** Entering a task whose dependencies are registered already changes nothing else. */
  lemma AddNothingNew(schema: int, p: PlanState, k: nat)
    requires p.Valid() && Registering(p) && k < |p.keys|
    ensures p.keys[k] in p.records
    ensures AddTaskTo(Prefix(schema, p, k), Migrate(schema, p.records[p.keys[k]])) == Prefix(schema, p, k + 1)
  {
    hide DependingOn, AppendAll, Prefix, Registering, Registered, Migrate, NoDuplicates, Elements;
    PrefixStep(schema, p, k);
    var id := p.keys[k];
    var q, r, next := Prefix(schema, p, k), Migrate(schema, p.records[id]), Prefix(schema, p, k + 1);
    assert r.id == id;
    forall t | t in next.records ensures RecordAfter(q, r, t) == next.records[t] {
      RegisteredAlready(schema, p, next.keys, next.records, r, t);
    }
    assert AddTaskTo(q, r).records == next.records;
  }

  lemma RegisteredAlready(schema: int, p: PlanState, keys: seq<TaskId>, stored: map<TaskId, TaskRecord>, r: TaskRecord,
                          t: TaskId)
    requires Registering(p) && t in stored && r.id in stored && stored[r.id] == r && stored.Keys <= p.records.Keys
    requires forall u :: u in stored ==> stored[u] == Migrate(schema, p.records[u]) && stored[u].id == u
    ensures Registered(stored[t], r) == stored[t]
    ensures AppendAll(r.dependents, DependingOn(keys, stored, r.id)) == r.dependents
  {
    AppendAllElements(r.dependents, DependingOn(keys, stored, r.id));
    forall u | u in DependingOn(keys, stored, r.id) ensures u in r.dependents {
      DependingOnExact(keys, stored, r.id, u);
    }
  }

  lemma NothingRebuilt(schema: int, p: PlanState)
    requires p.Valid()
    ensures Prefix(schema, p, 0) == Rebuilt(schema, [])
  {}

  lemma {:induction false} RebuiltPrefix(schema: int, p: PlanState, k: nat)
    requires p.Valid() && Registering(p) && k <= |p.keys|
    ensures Rebuilt(schema, InOrder(p)[..k]) == Prefix(schema, p, k)
  {
    hide AddTaskTo, Prefix, Registering, Migrate;
    NothingRebuilt(schema, p);
    if k > 0 {
      RebuiltPrefix(schema, p, k - 1);
      AddNothingNew(schema, p, k - 1);
      assert InOrder(p)[..k][..k - 1] == InOrder(p)[..k - 1];
      assert InOrder(p)[..k][k - 1] == p.records[p.keys[k - 1]];
    }
  }

  /** The whole plan, with running tasks reset under schema 1. */
  ghost function Migrated(schema: int, p: PlanState): PlanState {
    PlanState(p.keys, map t | t in p.records :: Migrate(schema, p.records[t]))
  }

  /** The stored tasks are rebuilt, order and dependents included, exactly when dependents are registered. */
  lemma RebuildExact(schema: int, p: PlanState)
    requires p.Valid()
    ensures Rebuilt(schema, InOrder(p)) == Migrated(schema, p) <==> Registering(p)
  {
    hide Registering, Rebuilt, Migrate, DistinctIds;
    InOrderDistinct(p);
    RebuiltKeys(schema, InOrder(p));
    if Registering(p) {
      RebuiltPrefix(schema, p, |p.keys|);
      assert InOrder(p)[..|p.keys|] == InOrder(p) && p.keys[..|p.keys|] == p.keys;
    }
    if Rebuilt(schema, InOrder(p)) == Migrated(schema, p) { RegisteringMigrated(schema, p); }
  }

  lemma InOrderDistinct(p: PlanState)
    requires p.Valid()
    ensures DistinctIds(InOrder(p))
  {
    forall i, j | 0 <= i < j < |p.keys| ensures InOrder(p)[i].id != InOrder(p)[j].id {
      assert p.keys[i] in Elements(p.keys) && p.keys[j] in Elements(p.keys);
    }
  }

  lemma RegisteringMigrated(schema: int, p: PlanState)
    requires Registering(Migrated(schema, p))
    ensures Registering(p)
  {
    var q := Migrated(schema, p);
    forall t, d | t in p.records && d in p.records && d in p.records[t].dependencies
      ensures t in p.records[d].dependents
    {
      assert t in q.records && d in q.records && d in q.records[t].dependencies;
      assert t in q.records[d].dependents;
    }
  }

  lemma {:induction false} TasksRoundTrip(ts: seq<TaskRecord>)
    ensures TasksToJson(ts).List? && TasksFromJson(TasksToJson(ts).items) == Some(ts)
  {
    hide TaskToJson, TaskFromJson;
    if ts != [] {
      var init, last := ts[..|ts| - 1], ts[|ts| - 1];
      TasksRoundTrip(init);
      TaskRoundTrip(last);
      assert TasksToJson(ts).items[..|ts| - 1] == TasksToJson(init).items;
      assert init + [last] == ts;
    }
  }

  /** A revision as it is read back: `or` replaces a zero version and a zero creation time. */
  function LoadedVersion(v: PlanVersion, now: real): PlanVersion {
    v.(version := if v.version == 0 then 1 else v.version, createdAt := if v.createdAt == 0.0 then now else v.createdAt)
  }

  function LoadedHistory(vs: seq<PlanVersion>, now: real): seq<PlanVersion> {
    seq(|vs|, i requires 0 <= i < |vs| => LoadedVersion(vs[i], now))
  }

  lemma VersionRoundTrip(v: PlanVersion, now: real)
    requires now != 0.0
    ensures VersionToJson(v).Obj? && VersionFromJson(VersionToJson(v).fields, now) == Some(LoadedVersion(v, now))
  {
    hide TasksToJson, TasksFromJson, PlanStatusText, ParsePlanStatus;
    EnumsRoundTrip(Analysis, Pending, v.status);
    TasksRoundTrip(v.tasks);
  }

  lemma {:induction false} HistoryRoundTrip(vs: seq<PlanVersion>, now: real)
    requires now != 0.0
    ensures HistoryToJson(vs).List? && HistoryFromJson(HistoryToJson(vs).items, now) == Some(LoadedHistory(vs, now))
  {
    hide VersionToJson, VersionFromJson, LoadedVersion;
    if vs != [] {
      var init, last := vs[..|vs| - 1], vs[|vs| - 1];
      HistoryRoundTrip(init, now);
      VersionRoundTrip(last, now);
      assert HistoryToJson(vs).items[..|vs| - 1] == HistoryToJson(init).items;
      assert HistoryToJson(vs).items[|vs| - 1] == VersionToJson(last);
      assert HistoryFromJson(HistoryToJson(vs).items, now) ==
             Some(LoadedHistory(init, now) + [LoadedVersion(last, now)]);
      assert LoadedHistory(init, now) + [LoadedVersion(last, now)] == LoadedHistory(vs, now);
    } else {
      assert HistoryToJson(vs).items == [] && LoadedHistory(vs, now) == [];
    }
  }

  ghost predicate HoldsPlan(m: Fields, p: Plan)
    requires Elements(p.state.keys) <= p.state.records.Keys
  {
    && Get(m, Key.SchemaVersion) == Int(p.schemaVersion) && Get(m, Key.Id) == Str(p.id)
    && Get(m, Key.Goal) == Str(p.goal)
    && Get(m, Key.Version) == Int(p.version) && Get(m, Key.ReplanCount) == Int(p.replanCount)
    && Get(m, Key.Status) == Str(PlanStatusText(p.status)) && Get(m, Key.Summary) == Str(p.summary)
    && Get(m, Key.CreatedAt) == Real(p.createdAt) && Get(m, Key.StartTime) == Real(p.startTime)
    && Get(m, Key.EndTime) == Real(p.endTime)
    && Get(m, Key.Tasks) == TasksToJson(InOrder(p.state)) && Get(m, Key.History) == HistoryToJson(p.history)
  }

  lemma PlanFields(p: Plan)
    requires Elements(p.state.keys) <= p.state.records.Keys
    ensures PlanToJson(p).Obj? && HoldsPlan(PlanToJson(p).fields, p)
  {
    hide TasksToJson, HistoryToJson, PlanStatusText, InOrder, Elements;
  }

  /** What a stored plan reads back as. */
  ghost function Loaded(p: Plan, now: real): Plan
    requires Elements(p.state.keys) <= p.state.records.Keys
  {
    p.(state := Rebuilt(p.schemaVersion, InOrder(p.state)), schemaVersion := PLAN_SCHEMA_VERSION,
       version := if p.version == 0 then 1 else p.version, history := LoadedHistory(p.history, now),
       createdAt := if p.createdAt == 0.0 then now else p.createdAt)
  }

  lemma LoadStored(p: Plan, now: real)
    requires Elements(p.state.keys) <= p.state.records.Keys && now != 0.0
    ensures PlanToJson(p).Obj?
    ensures PlanFromJson(PlanToJson(p).fields, now) ==
            if p.schemaVersion !in {1, PLAN_SCHEMA_VERSION} then Err(UnsupportedSchema)
            else if Acyclic(Present(Loaded(p, now).state.Deps())) then Ok(Loaded(p, now)) else Err(CyclicPlan)
  {
    PlanFields(p);
    PlanFieldsRead(p, PlanToJson(p).fields, now);
  }

  lemma PlanFieldsRead(p: Plan, m: Fields, now: real)
    requires Elements(p.state.keys) <= p.state.records.Keys && HoldsPlan(m, p) && now != 0.0
    ensures PlanFromJson(m, now) ==
            if p.schemaVersion !in {1, PLAN_SCHEMA_VERSION} then Err(UnsupportedSchema)
            else if Acyclic(Present(Loaded(p, now).state.Deps())) then Ok(Loaded(p, now)) else Err(CyclicPlan)
  {
    hide PlanStatusText, ParsePlanStatus, TasksToJson, TasksFromJson, HistoryToJson, HistoryFromJson, LoadedHistory,
         Get, InOrder, Elements, Rebuilt, Acyclic, Present, PlanState.Deps;
    EnumsRoundTrip(Analysis, Pending, p.status);
    TasksRoundTrip(InOrder(p.state));
    HistoryRoundTrip(p.history, now);
  }

  /** What `or` and the duplicate-free registration in `add_task` leave alone. */
  ghost predicate Storable(p: Plan) {
    && p.schemaVersion == PLAN_SCHEMA_VERSION && p.version != 0 && p.createdAt != 0.0
    && (forall v :: v in p.history ==> v.version != 0 && v.createdAt != 0.0)
    && Registering(p.state)
    && Acyclic(Present(p.state.Deps()))
  }

  /** A plan survives storing and loading unchanged, task order and history included, if and only if
      it is storable. */
  lemma PlanRoundTrip(p: Plan, now: real)
    requires p.state.Valid() && now != 0.0
    ensures PlanToJson(p).Obj?
    ensures PlanFromJson(PlanToJson(p).fields, now) == Ok(p) <==> Storable(p)
  {
    hide PlanToJson, PlanFromJson, Rebuilt, Registering, Acyclic, Present, InOrder;
    LoadStored(p, now);
    if p.schemaVersion == PLAN_SCHEMA_VERSION {
      RebuildExact(2, p.state);
      assert Migrated(2, p.state) == p.state;
      HistoryUnchanged(p.history, now);
    }
  }

  lemma HistoryUnchanged(vs: seq<PlanVersion>, now: real)
    requires now != 0.0
    ensures LoadedHistory(vs, now) == vs <==> forall v :: v in vs ==> v.version != 0 && v.createdAt != 0.0
  {
    if LoadedHistory(vs, now) == vs {
      forall i | 0 <= i < |vs| ensures vs[i].version != 0 && vs[i].createdAt != 0.0 {
        assert LoadedHistory(vs, now)[i] == LoadedVersion(vs[i], now);
      }
    }
  }

  /** Loading a schema 1 plan with registered dependents changes its running tasks and no others. */
  lemma LoadingSchemaOne(p: Plan, now: real)
    requires p.state.Valid() && now != 0.0 && p.schemaVersion == 1
    requires p.version != 0 && p.createdAt != 0.0 && Registering(p.state) && Acyclic(Present(p.state.Deps()))
    requires forall v :: v in p.history ==> v.version != 0 && v.createdAt != 0.0
    ensures PlanToJson(p).Obj?
    ensures var r := PlanFromJson(PlanToJson(p).fields, now);
            && r.Ok? && r.value == p.(state := r.value.state, schemaVersion := PLAN_SCHEMA_VERSION)
            && r.value.state.keys == p.state.keys && r.value.state.records.Keys == p.state.records.Keys
            && forall t :: t in p.state.records ==>
                 var was, loaded := p.state.records[t], r.value.state.records[t];
                 loaded == if was.status == Running
                       then was.(status := Pending, attempt := if was.attempt > 0 then was.attempt - 1 else 0,
                                 startTime := 0.0, endTime := 0.0, result := "", error := "")
                       else was
  {
    hide PlanToJson, PlanFromJson, Rebuilt, Registering, Acyclic, Present, InOrder;
    LoadStored(p, now);
    RebuildExact(1, p.state);
    assert Migrated(1, p.state).Deps() == p.state.Deps();
    HistoryUnchanged(p.history, now);
  }

  // ---- A plan that cannot be loaded again ----

  function Waiting(id: TaskId, on: TaskId): TaskRecord {
    TaskRecord(id, "", Analysis, [on], [on], Pending, "", "", 0, None, None, "", 0.0, 0.0)
  }

  /** Two tasks that depend on each other, as adding them one after the other leaves them. */
  function Deadlocked(): PlanState {
    PlanState(["a", "b"], map["a" := Waiting("a", "b"), "b" := Waiting("b", "a")])
  }

  function DeadlockedPlan(): Plan {
    Plan("plan_1", "", Deadlocked(), PlanCreated, PLAN_SCHEMA_VERSION, 1, 0, [], "", 1.0, 0.0, 0.0)
  }

  /** Such a plan is stored, and refused when it is read back. */
  lemma DeadlockedIsRefused(now: real)
    requires now != 0.0
    ensures DeadlockedPlan().state.Valid() && !Storable(DeadlockedPlan())
    ensures PlanToJson(DeadlockedPlan()).Obj?
    ensures PlanFromJson(PlanToJson(DeadlockedPlan()).fields, now) == Err(CyclicPlan)
  {
    hide PlanToJson, PlanFromJson, Rebuilt, Acyclic, Present, InOrder;
    var p := DeadlockedPlan();
    DeadlockedIsCyclic();
    LoadStored(p, now);
    RebuildExact(2, p.state);
    assert Migrated(2, p.state) == p.state;
  }

  lemma DeadlockedIsCyclic()
    ensures Deadlocked().Valid() && Registering(Deadlocked()) && !Acyclic(Present(Deadlocked().Deps()))
  {
    var p := Deadlocked();
    var g := Present(p.Deps());
    assert "a"[0] != "b"[0];
    assert Elements(p.keys) == {"a", "b"};
    assert p.Deps()["a"] == ["b"] && p.Deps()["b"] == ["a"];
    assert "b" in ["b"] && "a" in ["a"];
    assert Edge(g, "a", "b") && Edge(g, "b", "a");
    var cycle := ["a", "b", "a"];
    assert IsCycle(g, cycle);
  }
}
