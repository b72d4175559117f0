# Verified models of the agent runtime's algorithms

This project models the algorithmic core of a coding-agent runtime and proves what it is for: the
call-graph analyses, execution plans and their scheduler, live context compaction, the fact and summary
memory, badcase promotion, the trace tree, context packing and the two stream decoders. Code that
changes things step by step is modelled by classes and loops, each proved against a specification
function or predicate; what the system promises is then proved about that specification, over all inputs
and all runs. Besides, the main methods state their results in terms of their inputs alone, with the code's
numbers and names spelled out, so that method and specification function cannot be wrong together.

| file | models |
|---|---|
| `Digraph`, `CallGraph`, `TarjanInvariant`, `Tarjan` | recursive components of a call graph, found by Tarjan's search |
| `CallPaths`, `CallEdges` | bounded enumeration of call paths; building the edges from references |
| `PlanGraph`, `PlanModels`, `Planner` | plans, their execution order and batches; parsing a plan |
| `PlanRun`, `PlanStrategy`, `PlanAdvance` | the scheduler as a state machine, its steps on the plan's objects, and a whole step of the strategy |
| `PlanStore` | storing and loading plans, with the migration from schema 1 |
| `Messages`, `ContextUnits`, `ContextBudget`, `ContextRun` | context compaction, one request and whole runs |
| `Segments`, `Conversation` | token-bounded segmentation of messages and of conversation turns |
| `SummaryPasses`, `SummaryRuns`, `SummaryCoverage`, `SummaryConditions`, `ThreadMemory` | summary passes over a thread, failing ones included; when a pass writes a summary, and what |
| `Facts`, `FactLineage`, `FactStore` | saved and retracted facts against a plain map; their lineage and counts |
| `BadCases`, `BadCaseRuns` | badcase review and promotion with crashes between the writes |
| `SpanForest`, `SpanTree` | the cycle-tolerant span forest and its flattening |
| `CodeContext`, `CodePacking` | deduplication, ranking and packing of context items |
| `Sse`, `ToolDeltas`, `TurnIds` | decoding a streamed response; assembling streamed tool calls; the ids they get |
| `Ordering`, `Text`, `Numerals`, `Wrappers` | Python's string order and stable sort, its string splitting and stripping, decimal numerals, option and result types |

`dafny verify dfyconfig.toml` checks everything.

## What turned out not to hold

The code is modelled as it is. Where a promise fails, the exact condition is proved:

- A stored plan reads back unchanged if and only if it is `Storable`: schema 2, nonzero versions and
  creation times, no cycle, and every dependency registered as a dependent (`PlanStore.PlanRoundTrip`). Two
  tasks that depend on each other make a plan that cannot be loaded again (`PlanStore.DeadlockedIsRefused`).
- `docs/memory-map-reduce-summary.md` says that after a failed pass the old active summary stays active and
  the next pass maps only later records. The active row does stay, but it is found only while fewer than 100
  summary rows follow it (`SummaryPasses.ActiveExact`). A pass maps only turns after the covered events if and
  only if it finds the summary or no covered turn lies among the newest 1000 records and before the reserve
  (`SummaryRuns.MapsOnlyLaterExactly`). Over whole runs the mapped ranges stay disjoint exactly as long as every
  completing pass meets that condition (`SummaryRuns.RunsStayDisjoint`), and the versions count the passes
  exactly as long as every completing pass finds the summary (`SummaryRuns.RunsStayGood`). 100 failing passes
  are an instance in which both end (`SummaryCoverage.FailuresForget`, `SummaryCoverage.StartingOverRepeats`).
- No turn is passed over if and only if no completing pass leaves a turn behind that starts before the newest
  1000 records (`SummaryCoverage.EveryTurnOnce`).
- `docs/evaluation.md` calls promotion idempotent. Retrying or repeating a promotion succeeds if and only if
  the dataset path ends in `.json`, because the first write does not check the suffix and every later load
  does (`BadCaseRuns.RetryCompletes`, `BadCaseRuns.PromoteAgain`); a first promotion to `regression.txt`
  cannot be retried after a crash (`BadCaseRuns.SuffixIsNotChecked`).
- An approved badcase can be promoted into an existing dataset if and only if the dataset can be read and
  every case in it under the badcase's case id came from that badcase (`BadCaseRuns.PromotesExactly`). So
  two badcases whose ids share the sixteen characters used in the case id cannot go to one dataset
  (`BadCaseRuns.SharedPrefixCollides`).
- A turn keeps the raw conversation within the tool protocol if and only if its call ids are nonempty,
  different and not issued before (`ContextRun.TurnKeepsProtocol`). A stream that names a call without
  giving it an id makes a call whose id depends on the index alone (`TurnIds.DefaultIdIsGiven`), so two
  such turns with one index break the protocol (`TurnIds.DefaultIdsCollide`, `TurnIds.TwoTurnsWithoutIds`).
- An event stream with CRLF line ends has no blank line of two newlines: the lines of all its events come
  out as one event, so it is decoded as meant if and only if it has at most one (`Sse.CrLfIsOneEvent`).
- The packed context stays within its token limit if and only if the reserve for query and metadata does
  (`CodePacking.PackedIsWithin`), which a limit of one token shows (`CodePacking.ReserveExceedsTinyLimit`).

## Model

| member | source | states |
|---|---|---|
| `Tarjan.FindRecursiveComponents` | src/axiom/rag/call_graph.py:179-233 | The result lists exactly the strongly connected components with several symbols or a self call, each once and in order, with its sorted symbols, its kind and exactly the ids of the edges inside it |
| `Tarjan.ComponentSearch.StrongConnect` | src/axiom/rag/call_graph.py:194-228 | A visit keeps the search invariant, settles every component it completes, never renumbers a symbol, and leaves the lowlink that tells whether its symbol can still reach an earlier one on the stack |
| `Tarjan.ComponentSearch.Explore` | src/axiom/rag/call_graph.py:201-206 | Looking at one neighbour extends the explored set by it and keeps the lowlink exact, whether the neighbour is new, on the stack or finished |
| `Tarjan.ComponentSearch.PopComponent` | src/axiom/rag/call_graph.py:207-228 | When the lowlink equals the index, what is popped is a whole strongly connected component and is recorded if it is recursive |
| `Tarjan.ComponentSearch.Report` | src/axiom/rag/call_graph.py:216-227 | A popped component is reported exactly when it has several members or calls itself |
| `Tarjan.ComponentEdgeIds` | src/axiom/rag/call_graph.py:236-246 | The collected ids are, as a multiset, exactly those of the edges with both ends inside |
| `Tarjan.BuildGraph` | src/axiom/rag/call_graph.py:180-185 | The adjacency is the graph of the edges and the lookup holds the ids of each edge pair |
| `Tarjan.EdgeOrderIsIrrelevant` | src/axiom/rag/call_graph.py:179-233 | Permuting the edge list does not change the result |
| `TarjanInvariant.TopIsScc` | src/axiom/rag/call_graph.py:207-215 | The stack from a symbol that reaches nothing earlier upwards is a strongly connected component |
| `TarjanInvariant.PopComponent` | src/axiom/rag/call_graph.py:207-215 | Popping it keeps the invariant of the remaining search |
| `CallPaths.TraceCallPaths` | src/axiom/rag/call_graph.py:131-176 | "incoming" traces callers and every other text callees; a depth within 0..10 and a bound within 1..1000 count as given, others as the nearest end; each path follows input edges from the root, from caller to callee or the other way, with only the last symbol repeated, and its flag says whether it is; untruncated, exactly these paths are returned, sorted by symbols and edge ids; truncated, as many as the bound, and with unique edge ids those listed first |
| `CallPaths.InOrderIsAllWalks` | src/axiom/rag/call_graph.py:153-174 | The visiting order, all steps from a symbol before what they lead to, lists exactly the walks |
| `CallPaths.InOrderTraces` | src/axiom/rag/call_graph.py:153-174 | The visited paths are exactly the sequences of input edges that lead from the root on within the depth, and with unique edge ids none is visited twice |
| `CallPaths.KeptAreListedFirst` | src/axiom/rag/call_graph.py:153-174 | A truncated search keeps the paths listed first: a path before those that go on from it; where two part, one that ends there before one that goes on, of two that end there the one along the later edge, of two that go on the one along the sooner edge |
| `CallPaths.AllWalksExact` | src/axiom/rag/call_graph.py:149-170 | With unique edge ids each walk whose symbols before the last are distinct occurs exactly once, with the cycle flag set exactly when its last symbol repeats |
| `CallPaths.BuildAdjacency` | src/axiom/rag/call_graph.py:249-263 | Every source symbol has its own edges in sorted order |
| `CallEdges.BuildCallEdges` | src/axiom/rag/call_graph.py:51-105 | Every edge comes from a reference of kind call or constructor_call that is resolved with a confidence of at least 0.90 between two defined symbols, leads from its enclosing to its resolved symbol, has the digest of its id, both symbols and its kind as id and its other fields from it, and no later such reference by file, line and id has that id; every such reference has an edge with its id; ids are distinct, edges sorted by file, line, caller and id; each of the five counters is the number of references that fail its test and pass all earlier ones |
| `CallEdges.CountsAddUp` | src/axiom/rag/call_graph.py:62-81 | Every reference is either accepted or counted in exactly one skip counter |
| `CallEdges.LatestIsUnique` | src/axiom/rag/call_graph.py:88-100 | An edge id determines the edge |
| `CallEdges.TiesKeepOrder` | src/axiom/rag/call_graph.py:57-61 | References that file, line and id do not tell apart are looked at in input order |
| `PlanModels.ExecutionPlan.ComputeExecutionOrder` | src/axiom/plan/models.py:208-232 | It succeeds exactly when the dependency graph on present tasks has no cycle; then the order lists all tasks once, dependencies first; otherwise the remembered order is untouched |
| `PlanModels.ExecutionPlan.Visit` | src/axiom/plan/models.py:213-226 | A visit that fails has found a cycle; one that succeeds has ordered the task behind its present dependencies |
| `PlanModels.ExecutionPlan.ExecutionOrder` | src/axiom/plan/models.py:234-237 | A remembered order is returned as it is, even when a later dependency has made it stale; otherwise the order is topological, or empty on a cyclic plan |
| `PlanModels.ExecutionPlan.ExecutionBatches` | src/axiom/plan/models.py:239-256 | With an order, remembered or computed, batch k holds exactly the tasks whose longest dependency chain has length k and that miss no dependency, in that order, and no level is left out; a cyclic plan without a remembered order has no batches |
| `PlanModels.ExecutionPlan.AddTask` | src/axiom/plan/models.py:185-194 | Adding a task registers it with its dependencies and with the tasks that depend on it, and forgets the order |
| `PlanModels.Task.MarkStarted` | src/axiom/plan/models.py:62-65 | Starting changes status, attempt and start time and nothing else |
| `PlanModels.Task.MarkCancelled` | src/axiom/plan/models.py:81-84 | Cancelling changes status, error and end time and nothing else |
| `PlanGraph.TopologicalIsAcyclic` | src/axiom/plan/models.py:208-232 | A topological order rules out cycles |
| `PlanGraph.RoundOfTask` | src/axiom/plan/models.py:239-256 | Every task that misses no dependency, even indirectly, is in exactly one batch, that of its level |
| `PlanGraph.RoundsAreMinimal` | src/axiom/plan/models.py:239-256 | No schedule that keeps dependencies strictly earlier uses fewer rounds |
| `PlanGraph.CompleteIsGrounded` | src/axiom/plan/models.py:245-252 | In a plan without missing dependencies every task gets a batch |
| `Planner.ParsePlan` | src/axiom/plan/planner.py:111-152 | Exactly the empty and the cyclic descriptions are refused; an accepted plan has the described tasks, with the nodes' texts and types and otherwise new, and the described dependencies, misses none, and its dependents mirror its dependencies |
| `Planner.FillPlan` | src/axiom/plan/planner.py:121-147 | The two loops produce the resolved dependency lists, without repetition and without unknown tasks |
| `Planner.ParsedDepsComplete` | src/axiom/plan/planner.py:139-147 | Nothing a parsed plan depends on is missing from it |
| `Planner.ParsedDepsAt` | src/axiom/plan/planner.py:135-147 | The task made from a node depends on exactly the resolved references of that node |
| `Planner.DescribedAt` | src/axiom/plan/planner.py:121-134 | The task made from a node has the node's text and type and is new |
| `Planner.AcceptedPlanIsCovered` | src/axiom/plan/planner.py:148-152 | The batches of an accepted plan hold every task exactly once |
| `PlanRun.RunKeepsSound` | src/axiom/plan/models.py:86-92 | Along every run a running or completed task has all dependencies completed, and tasks are skipped only after a failure or cancellation |
| `PlanRun.NoDeadlock` | src/axiom/plan/models.py:205-206 | On a closed acyclic plan with nothing running and nothing blocked by an unsuccessful task, some task is executable unless none is open; so without failures an unfinished plan can go on |
| `PlanRun.RunIsBounded` | src/axiom/plan/models.py:62-92 | A run takes at most four steps per task |
| `PlanRun.UnfinishedRunGoesOn` | src/axiom/plan/models.py:264-270 | When a run of a closed acyclic plan can only be cancelled any more, every task is completed or, after a failure, nothing runs and no open task is blocked |
| `PlanRun.RunKeepsFailure` | src/axiom/plan/models.py:267-270 | Along every run, from whatever state, skipped tasks come with a failure if they did at first |
| `PlanRun.FreshIsSound` | src/axiom/plan/models.py:45 | A plan whose tasks are all pending satisfies the scheduler's invariant |
| `PlanRun.FailurePersists` | src/axiom/plan/models.py:267-270 | Once a task has failed or been cancelled the plan stays failed |
| `PlanStrategy.SkipFailedDependents` | src/axiom/runtime/plan_strategy.py:802-829 | Exactly the pending tasks that depend, through pending tasks, on an unsuccessful one end up skipped, each with the error text of the round that skipped it, no other record changes, none that is still pending is blocked, the flag says whether any was skipped, and after a failure the change is a run of the scheduler |
| `PlanStrategy.SkipRoundOn` | src/axiom/runtime/plan_strategy.py:806-828 | One round changes exactly the blocked tasks, to skipped with the failed dependencies in the error text, and reports whether there was any |
| `PlanStrategy.NamedDependencies` | src/axiom/runtime/plan_strategy.py:816-821 | The error text of a task names exactly its dependencies that were unsuccessful from the start or skipped in earlier rounds |
| `PlanStrategy.PersistReadyTasks` | src/axiom/runtime/plan_strategy.py:581-617 | A created plan starts; exactly the listed pending tasks are started, in all their fields, and returned; when all listed tasks are executable and nothing has failed, that is a run of the scheduler |
| `PlanStrategy.StartTask` | src/axiom/runtime/plan_strategy.py:595-607 | A start counts as a new attempt with a new child run only when no child run was assigned before; otherwise the first start time stays |
| `PlanStrategy.ObserveChild` | src/axiom/runtime/plan_strategy.py:687-735 | Unless the parent is finished, a running task takes over what its child run has come to: completed gives completed with its output, no error and its tokens counted; cancelled gives cancelled; failed or waiting for a child of its own gives failed, both with its error or its status in lower case; all three with the end time; waiting for approval or interrupted only changes the execution state; a running or absent child and any other task change nothing, and the flag says whether the plan changed |
| `PlanStrategy.ReconcileChildren` | src/axiom/runtime/plan_strategy.py:651-671 | Every running task takes over what its child run has come to, in the same way and whatever the order of the observers; the tokens of exactly the completed child runs of running tasks are counted; and that is a run of the scheduler |
| `PlanStrategy.ObservingAgain` | src/axiom/runtime/plan_strategy.py:693-735 | Observing the same child runs again, as after a checkpoint conflict, changes nothing and counts no token twice |
| `PlanStrategy.ReleaseUnstarted` | src/axiom/runtime/plan_strategy.py:780-800 | Exactly the running tasks whose child run was never created go back to pending, with an empty execution state |
| `PlanStrategy.RestartIsTheSameAttempt` | src/axiom/runtime/plan_strategy.py:595-607 | Starting a released task again restores it: same attempt, child run and start time |
| `PlanStrategy.OnCancel` | src/axiom/runtime/plan_strategy.py:274-289 | Every open task is cancelled, with error, end time and execution state, no other record changes, and the plan is cancelled with its end time |
| `PlanStrategy.StepsKeepSound` | src/axiom/runtime/plan_strategy.py:581-829 | Whatever these steps lead to keeps the scheduler's invariant |
| `PlanAdvance.TakeSnapshot` | src/axiom/runtime/plan_strategy.py:56-87 | The four lists hold, in execution order, the executable, active, waiting and terminal tasks |
| `PlanAdvance.SnapshotExact` | src/axiom/runtime/plan_strategy.py:62-87 | On an ordered plan the ready list is exactly the executable tasks, and every task that is not pending is in exactly one of the other lists, once |
| `PlanAdvance.PlanPredicates` | src/axiom/plan/models.py:86-92 | The plan's own predicates for executable, completed and failed agree with those of the state machine |
| `PlanAdvance.Barrier` | src/axiom/runtime/plan_strategy.py:189-197 | After a failure: unstarted tasks are released, then what the failure dooms is skipped, and nothing open stays blocked |
| `PlanAdvance.StartedReady` | src/axiom/runtime/plan_strategy.py:213-220 | Once the snapshot's ready tasks have started, no task is executable |
| `PlanAdvance.SomethingRuns` | src/axiom/runtime/plan_strategy.py:265-271 | On an unfinished plan with all dependencies and nothing unsuccessful, something runs once the ready tasks have started |
| `PlanAdvance.Advance` | src/axiom/runtime/plan_strategy.py:175-272 | The whole step, task by task: running tasks take over their child runs' outcomes; after a failure tasks whose child run was never created go back to pending and pending ones with an unsuccessful dependency are skipped; otherwise exactly the pending tasks with all dependencies completed start. It finishes exactly when each task was completed before or running with a completed child run; it launches exactly the running tasks whose child run is new or running, unless something failed; it waits exactly when something is open and nothing is launched, and plans again or gives up only after a failure with nothing open; the plan's status and times follow; every change is a run of the scheduler, and no plan with all dependencies present stalls |
| `PlanAdvance.StepSpelledOut` | src/axiom/runtime/plan_strategy.py:175-272 | What the step makes of each task, what comes next, when it finishes and which tokens it counts, all in terms of the tasks and child runs before it |
| `PlanAdvance.FinishedBefore` | src/axiom/runtime/plan_strategy.py:175-186 | After a step everything is completed exactly when each task was completed before or was running with a completed child run |
| `PlanAdvance.StepsKeepSkips` | src/axiom/runtime/plan_strategy.py:265-271 | The condition under which a plan never stalls is kept by every step |
| `PlanStore.TaskRoundTrip` | src/axiom/plan/models.py:94-129 | A task reads back as it was written |
| `PlanStore.PlanRoundTrip` | src/axiom/plan/models.py:306-363 | A plan reads back unchanged, task order and history included, if and only if it is storable |
| `PlanStore.DeadlockedIsRefused` | src/axiom/plan/models.py:361-362 | Two tasks that depend on each other make a plan that is stored and then refused |
| `PlanStore.LoadingSchemaOne` | src/axiom/plan/models.py:344-355 | Loading a schema 1 plan resets its running tasks and changes no other |
| `PlanStore.RebuildExact` | src/axiom/plan/models.py:339-355 | Re-adding the stored tasks rebuilds the plan exactly when every present dependency is registered as a dependent |
| `PlanStore.AddKeepsInverse` | src/axiom/plan/models.py:185-194 | Plans built task by task keep dependents the exact inverse of dependencies |
| `PlanStore.HistoryRoundTrip` | src/axiom/plan/models.py:142-166 | Revisions read back, with zero versions and creation times replaced |
| `PlanStore.LoadStored` | src/axiom/plan/models.py:323-363 | What loading a stored plan gives: the rebuilt plan, or the error for an unsupported schema or a cycle |
| `Messages.ProtocolValid` | src/axiom/evaluation/context_retention.py:402-416 | The two-dictionary loop decides the protocol: unique nonempty call ids, each answered at most once and only after it was issued |
| `Messages.DropSettled` | src/axiom/evaluation/context_retention.py:402-416 | Replacing a prefix whose calls are all answered inside it by one plain message keeps the protocol |
| `Messages.SettledExtends` | src/axiom/evaluation/context_retention.py:402-416 | A settled prefix stays settled when messages are appended under the protocol |
| `Messages.SameShapeSameProtocol` | src/axiom/evaluation/context_retention.py:402-416 | The protocol depends only on roles and ids |
| `ContextUnits.MessageUnits` | src/axiom/context.py:706-735 | The loop cuts the messages into the units from the start on: a call with its results, or a single message |
| `ContextUnits.EligiblePrefixEnd` | src/axiom/context.py:475-501 | The loop returns the end of the eligible prefix that `EligibleIsWhole` characterises |
| `ContextUnits.EligibleIsWhole` | src/axiom/context.py:475-501 | What may be dropped consists of whole units, none recent, newest, pending or required, and reaches as far as such units go |
| `ContextUnits.EligibleExactly` | src/axiom/context.py:475-501 | The end moves if and only if a unit starts at the covered position and need not stay, being neither recent, nor with the newest user message, nor waiting for results, nor required; then it moves to the first unit behind that must stay |
| `ContextUnits.WholeUnitsSettle` | src/axiom/context.py:706-735 | Dropping whole unpinned units answers every call it drops |
| `ContextUnits.WholeUnitsLeave` | src/axiom/context.py:475-501 | No recent, required or newest user message is dropped |
| `ContextBudget.NormalPolicies` | src/axiom/context.py:90-134 | Normalizing is idempotent; a normal policy has a positive hard limit that leaves room for the reserved output in the window, and compacts no later than the usable input is full |
| `ContextBudget.RequiredMessageIndexes` | src/axiom/context.py:275-293 | The newest user message, the objective's message and every message of a pending unit |
| `ContextBudget.RequiredExactly` | src/axiom/context.py:275-293 | Required are exactly the newest user message, the newest one that says the objective, and the messages of units that wait for results |
| `ContextBudget.ProjectOversizedHistoricalTools` | src/axiom/context.py:553-577 | Exactly the long tool results outside the recent reserve are shortened, and counted |
| `ContextBudget.Fit` | src/axiom/context.py:362-461 | A request compacts if and only if compaction is enabled, the estimate of the projected list reaches the high watermark, and the unit at the covered position need not stay; then its summary covers everything up to the first unit that must stay; messages, estimates, trigger, counts and summary are determined in both cases, and it fails exactly when the estimate of what would be sent exceeds the hard limit |
| `ContextBudget.FittedIsUnique` | src/axiom/context.py:362-461 | These conditions determine the whole result |
| `ContextBudget.NormalizedExactly` | src/axiom/context.py:90-118 | Exactly the policies with a reserve below the window, ordered ratios up to one, a recent reserve, a limit within the usable input and at least 200 tool characters are accepted; an absent window is 64000 |
| `ContextBudget.EligibleRange` | src/axiom/context.py:475-501 | The new end lies between the covered prefix and the recent messages |
| `ContextRun.RequestIsOk` | src/axiom/context.py:362-461 | A returned list is within the model window together with the reserved output; each newly dropped stretch excludes recent, required and newest user messages; everything else is sent |
| `ContextRun.RequestKeeps` | src/axiom/context.py:475-501 | No request newly drops one of the last messages of the reserve, the newest user message, the newest one that says the objective, or a message of a call without all its results |
| `ContextRun.RunKeepsGood` | src/axiom/agent/query.py:54-75 | In every run of appended messages and reused summaries the covered prefix never shrinks, is settled and stays before the recent and newest user messages |
| `ContextRun.SentKeepsProtocol` | src/axiom/agent/query.py:63-87 | If the raw conversation satisfies the tool protocol, so does every list sent to the model |
| `ContextRun.SentKeepsNewest` | src/axiom/agent/query.py:63-87 | Every request carries the newest user message and the last messages unchanged, right behind the summary |
| `ContextRun.SentKeepsObjective` | src/axiom/agent/query.py:63-87 | In a run with one objective every request carries the newest message that says it, unchanged, right behind the summary or later |
| `ContextRun.TurnKeepsProtocol` | src/axiom/agent/query.py:111-144 | A turn, its calls and one result for any of them, keeps the raw conversation within the protocol if and only if its call ids are nonempty, different and new |
| `Segments.Segment` | src/axiom/memory/summarizer.py:178-208 | The loop computes the greedy segmentation |
| `Segments.FillIsPartition` | src/axiom/memory/summarizer.py:196-208 | The segments join to the input, and each is a single item or within the limit |
| `Segments.SegmentsAreFewest` | src/axiom/memory/summarizer.py:196-208 | No other contiguous partition into allowed segments has fewer |
| `Conversation.SegmentMessages` | src/axiom/memory/summarizer.py:122-175 | The two loops build the turns of the records and group them greedily, with the fallbacks for a zero event id |
| `Conversation.TurnsExact` | src/axiom/memory/summarizer.py:127-143 | The turns are exactly the user messages directly followed, up to other records, by a reply; an unanswered user message is in none |
| `Conversation.TurnsIncrease` | src/axiom/memory/summarizer.py:127-143 | With growing event ids the turns follow each other without overlap |
| `Conversation.GroupedKeepsTurns` | src/axiom/memory/summarizer.py:145-175 | No turn is lost, added or moved by the grouping |
| `Conversation.GroupedIsFill` | src/axiom/memory/summarizer.py:150-174 | With positive ids the segments are those of the greedy loop, each ranging from its first event to its last |
| `Conversation.GroupedRanges` | src/axiom/memory/summarizer.py:150-174 | The ranges of the segments are disjoint, increasing and made of whole turns |
| `SummaryPasses.ActiveExact` | src/axiom/memory/store.py:338-399 | The active summary is found exactly when fewer than 100 rows were written after it |
| `SummaryPasses.BestExactly` | src/axiom/memory/store.py:338-399 | Of the active reduce rows among the newest 100 the one with the greatest version is found, then with the greatest end, then the last one |
| `SummaryPasses.EligibleStretch` | src/axiom/memory/service.py:539-565 | The selected records are one stretch after the covered events, without the reserved newest ones |
| `SummaryPasses.CompletedRows` | src/axiom/memory/store.py:273-336 | A completed pass leaves its reduce row as the one active row, behind its map rows |
| `SummaryRuns.RunsStayGood` | src/axiom/memory/service.py:392-503 | In a run of saved messages and passes, failing ones included, the active summary starts with the first mapped segment and its version counts the completed passes at every point, if and only if every completing pass finds the active summary |
| `SummaryRuns.MapsOnlyLaterExactly` | src/axiom/memory/service.py:392-425 | A pass maps only turns after the covered events if and only if it finds the active summary or no covered turn lies among the newest 1000 records and before the reserve |
| `SummaryRuns.RunsStayDisjoint` | src/axiom/memory/service.py:392-503 | In a run, failing passes included, the map segments of completed passes have disjoint increasing ranges of whole turns, no turn mapped twice, and one active summary that ends with them, at every point, if and only if every completing pass goes on in that sense |
| `SummaryRuns.CompletedKeepsDisjoint` | src/axiom/memory/service.py:425-489 | A completed pass keeps the segments disjoint if and only if it goes on; then it reaches further than the last one and never the reserved newest records |
| `SummaryRuns.CompletedKeepsGood` | src/axiom/memory/service.py:455-489 | A completed pass keeps start and version of the summary right if and only if it finds the active one |
| `SummaryRuns.AbortedKeepsGood` | src/axiom/memory/service.py:425-465 | A failing pass changes neither the coverage nor the active summary |
| `SummaryRuns.CoverageOnlyGrows` | src/axiom/memory/service.py:459-489 | In every run mapped segments stay; and the active summary's end never moves back if and only if every completing pass finds the summary or takes a turn that ends there or later |
| `SummaryRuns.EndStaysExactly` | src/axiom/memory/service.py:455-489 | A completed pass does not move the active summary's end back if and only if it finds the summary or some turn among the newest 1000 records and before the reserve ends there or later |
| `SummaryRuns.UnfailingRunsSee` | src/axiom/memory/store.py:338-360 | Without failing passes every pass finds the active summary, which is the newest row |
| `SummaryCoverage.EveryTurnOnce` | src/axiom/memory/service.py:392-503 | While completing passes go on, a turn has been mapped exactly when it ends by the active summary's end, and only once, at every point of the run, if and only if no completing pass leaves behind a turn that starts before the newest 1000 records |
| `SummaryCoverage.PlannedExactly` | src/axiom/memory/service.py:399-425 | A pass that goes on maps exactly the turns between the former and the new end that start among the newest 1000 records |
| `SummaryCoverage.CompletedKeepsExact` | src/axiom/memory/service.py:392-503 | A completed pass keeps the coverage exact if and only if it leaves no such turn behind |
| `SummaryCoverage.InReachMissesNothing` | src/axiom/memory/service.py:539-565 | In particular when at most 1000 records come after the covered events |
| `SummaryCoverage.FailuresForget` | src/axiom/memory/store.py:338-360 | 100 passes that fail after their first map row hide the active summary |
| `SummaryCoverage.UnseenStartsOver` | src/axiom/memory/service.py:396-402 | A pass that does not find the summary plans as if nothing had been summarized |
| `SummaryCoverage.StartingOverRepeats` | src/axiom/memory/service.py:392-503 | After those failures a completing pass maps every mapped turn among the newest 1000 records again, and the segments are not disjoint any more |
| `ThreadMemory.Memory.SummarizeThread` | src/axiom/memory/service.py:392-503 | A disabled policy changes nothing. With growing event ids and one active row, an unfailing call writes a summary if and only if the policy is enabled, at most 1000 records are counted and reach the threshold within 2..200, the open ones among the newest 1000 less the reserve within 0..20 reach the minimum within 2..100, and an exchange of user message and reply lies in them; it then maps exactly those exchanges in segments of at most the chunk size within 50..4000, writes a row for each and one active reduce row that takes over start and version, and deactivates the former; otherwise nothing changes; a failing call writes the map rows before the failure |
| `SummaryConditions.SummarizesExactly` | src/axiom/memory/service.py:392-503 | On every such thread a pass writes the summary if the thread has to be summarized and no call of the summarizer fails, the map rows before a failing call otherwise, and nothing if the thread has not to be summarized |
| `SummaryConditions.PlansExactly` | src/axiom/memory/service.py:392-425 | A pass has something to map if and only if the policy is enabled, thread and open records are long enough, and an exchange is due; it maps exactly the due exchanges |
| `SummaryConditions.PassWrites` | src/axiom/memory/service.py:425-489 | A completed pass writes one map row per segment and a reduce row that follows the active row among the newest 100 |
| `ThreadMemory.Memory.SaveConversation` | src/axiom/memory/service.py:186-210 | A message is saved if and only if no row has its event, and then as the last row |
| `ThreadMemory.Memory.ConversationRecordsForSummary` | src/axiom/memory/service.py:539-565 | The selection of a pass |
| `ThreadMemory.Memory.FindActiveSummary` | src/axiom/memory/store.py:338-360 | The active reduce row of greatest version, then end, then place, among the 100 newest rows |
| `ThreadMemory.Memory.SaveActiveSummary` | src/axiom/memory/store.py:273-336 | The new row is added and every other active reduce row superseded by it |
| `Facts.SaveActsPlainly` | src/axiom/memory/store.py:60-199 | Saving acts on the active rows as assignment in a map from scope and key to value, up to case and white space |
| `Facts.RetractActsPlainly` | src/axiom/memory/store.py:201-250 | Retracting acts on them as removal |
| `Facts.SupportingRanges` | src/axiom/memory/store.py:673-689 | At most 20 ranges, the first kept, the new one present |
| `FactLineage.SaveKeepsLineage` | src/axiom/memory/store.py:85-199 | Supersession stays mirrored and versioned, evidence bounded, and no row changes its identity |
| `FactLineage.RetractKeepsLineage` | src/axiom/memory/store.py:215-250 | The same for retraction |
| `FactLineage.SaveIsCounted` | src/axiom/memory/store.py:113-131 | Each save adds one observation to its key and to no other |
| `FactLineage.SaveExactly` | src/axiom/memory/store.py:60-199 | A value seen again keeps its row, with the greater confidence, the newest event seen, one observation more, the widened event span and the new range; a new value becomes an active row that supersedes exactly the active rows of the key, with the next version; no other row changes |
| `FactStore.RunsActPlainly` | src/axiom/memory/store.py:60-250 | After any run the active facts equal the plain map of the committed operations, with one active row per key |
| `FactStore.RunsKeepLineage` | src/axiom/memory/store.py:85-199 | After any run lineage holds and the observations of a key sum to its committed saves |
| `FactStore.RunsContinue` | src/axiom/memory/store.py:60-250 | An inactive row never becomes active again, and no row loses its identity, first evidence or successor |
| `FactStore.ChainsGrow` | src/axiom/memory/store.py:164-181 | Versions strictly increase along a supersession chain |
| `FactStore.Store.SaveFactValue` | src/axiom/memory/store.py:60-199 | The transaction rewrites the row of a value seen again or adds a new one that supersedes the active rows of its key, and changes nothing when the id is taken |
| `FactStore.Store.RetractFact` | src/axiom/memory/store.py:201-250 | Exactly the active rows of the scope under that id or key, and of the category if one is given, are retracted and counted |
| `Text.StripKeepsWords` | src/axiom/memory/store.py:655-656 | Stripping does not change the folded words that values are compared by |
| `Text.PaddingIsIgnored` | src/axiom/memory/store.py:655-656 | White space around a value does not matter to the comparison |
| `Text.StripExactly` | src/axiom/memory/store.py:655-656 | Stripping takes away exactly the white space at both ends |
| `Ordering.StrLeExact` | src/axiom/rag/call_graph.py:57-61 | Strings are ordered by their first difference, a prefix first |
| `Ordering.ListLeExact` | src/axiom/rag/call_graph.py:175 | Tuples of strings are ordered by their first difference, a prefix first |
| `Ordering.SortedIsStable` | src/axiom/rag/context.py:488 | Sorting keeps the order of elements that the key does not tell apart |
| `BadCaseRuns.RunsStayGood` | src/axiom/evaluation/badcases.py:202-273 | Over every run with crashes between the writes: a promoted record's dataset holds its case, promotion is terminal, and datasets only grow at the end |
| `BadCases.OneCasePerBadcase` | src/axiom/evaluation/badcases.py:640-660 | A dataset holds at most one case of a badcase |
| `BadCases.AppendIsGood` | src/axiom/evaluation/badcases.py:640-661 | The first write of a promotion leaves a dataset that can be loaded, holds the case and extends the old one |
| `BadCases.CaseForExactly` | src/axiom/evaluation/badcases.py:609-639 | The case carries the badcase's own task and, unless overridden, its expectation and its scorers; with neither, a failed run status or an expected answer given now makes a scorer; without any scorer, task or scorer kind there is none, and the error says which |
| `BadCaseRuns.PromoteRecords` | src/axiom/evaluation/badcases.py:586-662 | A promotion changes no record but its own, and that only from APPROVED to PROMOTED |
| `BadCaseRuns.RetryCompletes` | src/axiom/evaluation/badcases.py:640-662 | Retrying after a crash completes without a second case, exactly when the path ends in .json |
| `BadCaseRuns.PromoteHeld` | src/axiom/evaluation/badcases.py:640-650 | So does promoting any time later while the record is approved |
| `BadCaseRuns.CrashedLeaves` | src/axiom/evaluation/badcases.py:660-661 | A crash between the writes leaves the case written and the record approved |
| `BadCaseRuns.PromoteAgain` | src/axiom/evaluation/badcases.py:599-604 | Repeating a promotion changes nothing, and elsewhere it is refused |
| `BadCaseRuns.PromotesExactly` | src/axiom/evaluation/badcases.py:586-662 | An approved record is promoted if and only if the dataset is new, or can be read and has no case of another origin under its case id; otherwise nothing changes and the error says which |
| `BadCaseRuns.PromotedCase` | src/axiom/evaluation/badcases.py:605-662 | A first promotion leaves the badcase's own earlier case alone or adds a case with its task at the end, and marks only its own record |
| `BadCaseRuns.SuffixIsNotChecked` | src/axiom/evaluation/badcases.py:640-661 | A first promotion to a path without the suffix succeeds, and cannot be retried after a crash |
| `BadCaseRuns.SharedPrefixCollides` | src/axiom/evaluation/badcases.py:598-648 | A second badcase with the same case id is refused and nothing changes |
| `BadCaseRuns.Evaluation.SaveRecord` | src/axiom/evaluation/badcases.py:202-209 | Saving an id again returns the stored record and changes nothing |
| `BadCaseRuns.Evaluation.UpdateReviewStatus` | src/axiom/evaluation/badcases.py:220-249 | Exactly PENDING to APPROVED or IGNORED, APPROVED to IGNORED and IGNORED to APPROVED change the status; repeating a status only changes the note, and only to a new text |
| `BadCaseRuns.Evaluation.Mark` | src/axiom/evaluation/badcases.py:251-273 | Exactly an approved record is promoted; a promoted one stays as it is, and is refused for another dataset or case |
| `BadCaseRuns.Evaluation.PromoteBadCase` | src/axiom/evaluation/badcases.py:586-662 | The method performs the two writes of the specification, up to the crash |
| `SpanTree.BuildSpanTree` | frontend/src/lib/trace-tree.ts:37-90 | The built objects are the forest: sorted children, sorted roots, then every span caught in a cycle as a childless root, with the stored depths |
| `SpanTree.WalkRoots` | frontend/src/lib/trace-tree.ts:73-80 | The walk visits exactly the spans whose parent chain ends, and sets their depths |
| `SpanTree.AdoptUnreached` | frontend/src/lib/trace-tree.ts:81-88 | The spans not reached become childless roots at depth zero, in input order |
| `SpanTree.FlattenSpanTree` | frontend/src/lib/trace-tree.ts:93-101 | Flattening the objects lists the forest's rows |
| `SpanForest.ForestListsAll` | frontend/src/lib/trace-tree.ts:29-36 | Every span is listed exactly once, at its stored depth: below its parent when its parent chain ends, at depth zero otherwise |
| `SpanForest.RootsExact` | frontend/src/lib/trace-tree.ts:51-64 | The roots are exactly the spans without a usable parent and those whose chain never ends, each once |
| `SpanForest.LevelsAreSorted` | frontend/src/lib/trace-tree.ts:66-69 | The children of each span, and the roots without usable parent, are in order of their start times |
| `SpanForest.ChildrenExact` | frontend/src/lib/trace-tree.ts:54-57 | The children of a span are exactly the spans it is parent of, one level deeper |
| `CodeContext.DedupeAndSort` | src/axiom/rag/context.py:475-488 | The result is in order of reason (search seed, definition, caller or callee, direct reference, path, other), seed rank, distance, place, symbol and chunk; no two items share a chunk, a range or a text of one file; every candidate is stood for by a result no worse that shares its chunk, then range, then text |
| `CodeContext.DedupedIsDistinct` | src/axiom/rag/context.py:475-512 | The result is sorted by rank and pairwise distinct in chunk, in range and in file and content |
| `CodeContext.DedupedRepresents` | src/axiom/rag/context.py:475-498 | Every candidate is replaced by a result, and no result that replaces it has a worse reason priority and seed rank |
| `CodeContext.ReplacedIsNoWorse` | src/axiom/rag/context.py:491-498 | Whatever result stands for a candidate is no worse than it |
| `CodeContext.DedupedIsMerged` | src/axiom/rag/context.py:491-498 | Each result is one candidate under the reason and seed rank of another |
| `CodeContext.BestOfTwo` | src/axiom/rag/context.py:491-498 | The better reason and rank of two items is kept, with the body of the better one, or of the other one if that is narrower |
| `CodePacking.Pack` | src/axiom/rag/context.py:191-208 | The loop packs item by item, reports what it used, and is truncated exactly when an item was left out |
| `CodePacking.PackContext` | src/axiom/rag/context.py:102-110 | A caller's limits within 1..48000 characters, 1..12000 tokens and 1..60 items count as given, others as the nearest end; what is reported is the reserve and the items' sums, within the limits, and nothing left out would fit unless the items are as many as allowed |
| `CodePacking.PackedIsWithin` | src/axiom/rag/context.py:192-208 | The limits hold; only the reserve alone can exceed the token limit, and then nothing is packed |
| `CodePacking.ReserveExceedsTinyLimit` | src/axiom/rag/context.py:192-195 | With a limit of one token nothing is packed and the reserve of 64 exceeds it |
| `CodePacking.PackedIsMaximal` | src/axiom/rag/context.py:196-208 | Unless the item limit was reached, no item left out could be added |
| `CodePacking.PackedKeepsOrder` | src/axiom/rag/context.py:196-208 | The packed items are in ranked order |
| `Sse.IterSse` | src/axiom/llm/openai_compatible.py:173-193 | However the response is cut into chunks, the events are those of the whole text |
| `Sse.RoundTrip` | src/axiom/llm/openai_compatible.py:177-193 | Encoded events of plain data lines are decoded exactly, in order |
| `Sse.ReadsDataLines` | src/axiom/llm/openai_compatible.py:177-184 | Of the lines of an event exactly the data lines are read, with or without a space behind the colon, and every other line is skipped |
| `Sse.CrLfIsOneEvent` | src/axiom/llm/openai_compatible.py:177-193 | A stream of plain events with CRLF line ends is decoded as one event with all their lines, so as meant if and only if it has at most one event |
| `ToolDeltas.ToolStates.MergeToolDelta` | src/axiom/agent/query.py:154-170 | One delta changes the call of its index and no other |
| `ToolDeltas.ToolStates.FinalizeToolCalls` | src/axiom/agent/query.py:173-179 | Exactly the calls with a name are returned, by strictly increasing index |
| `ToolDeltas.Assemble` | src/axiom/agent/query.py:97-111 | The calls of a turn are those of exactly the indexes for which a name was given, by increasing index, each with the last id and name and all arguments of its pieces |
| `ToolDeltas.CallsAreSeparate` | src/axiom/agent/query.py:154-170 | A call has the last id and name and all arguments given for its index, and is there exactly when a delta had that index |
| `ToolDeltas.InterleavingIsIrrelevant` | src/axiom/agent/query.py:154-179 | Streams that agree on every index finish as the same calls |
| `TurnIds.DefaultIdIsGiven` | src/axiom/agent/query.py:154-179 | A stream that names a call without an id finishes with a call whose id is made from the index alone |
| `TurnIds.DefaultIdsCollide` | src/axiom/agent/query.py:154-163 | Two turns with such a call at one index break the protocol |
| `TurnIds.TwoTurnsWithoutIds` | src/axiom/agent/query.py:154-163 | One delta without an id gives the call id tool_0 |

## Left out

- The durable runtime beyond the scheduler steps named above, tool execution, the code index and its search, HTTP, SQLite, JSON text, files and clocks: transactions are atomic steps on maps, times and fresh ids are inputs.
- Summary text, token estimates, tool projections, message fingerprints and extracted objectives: parameters of the model. A projection may exceed its limit in the code; nothing here depends on its length.
- `PlanStore.PlanRoundTrip`: documents are values with typed fields, so coercion of wrongly typed fields is not modelled; the operations on documents are functions on values, without update in place.
- `PlanStrategy.ObserveChild`: that the retries after checkpoint conflicts are bounded, spans, events and the progress detector that may end the run; all times of one step are one input.
- `PlanAdvance.Advance`: the stored child runs do not change within a step, and a plan loaded again is the plan just stored; the first plan, the migration of old plans, budgets, the running of the launched children and the reuse of completed tasks by a replacement plan are not part of the step.
- `PlanModels.ExecutionPlan.ComputeExecutionOrder`: Python's recursion limit is not modelled.
- `Tarjan.ComponentSearch.StrongConnect`: Python's recursion limit is not modelled.
- `FactStore.Store.SaveFactValue`: extra metadata passed by callers is not modelled, case folding is a parameter that works character by character, and rows of other kinds are only their ids.
- `SummaryRuns.RunsStayGood`: event ids are positive and saved in increasing order, as the event log numbers them; a thread's rows are those written by messages and passes.
- `BadCaseRuns.RunsStayGood`: dataset files change only by promotions, different path strings name different files, and ids are such that stripping does not change the case id, as hexadecimal ids are.
- `BadCaseRuns.Evaluation.UpdateReviewStatus`: the text bound of a note is a parameter.
- `CodeContext.DedupeAndSort`: which of several candidates supplies the body of a result beyond being one of them, because the preference for smaller ranges depends on the order of the candidates.
- `CodePacking.Pack`: the printed length of an item is a parameter.
- `Sse.RoundTrip`: the model's encoder writes only data lines; fields other than data, comments and the byte order mark of the standard are skipped by the code (`Sse.ReadsDataLines`).
- `ContextRun.SentKeepsProtocol`: only assistant messages carry tool calls, as the turn loop builds them.
- Fact extraction, memory context assembly, query resolution, scorers, reports, configuration and the user interfaces, which would add mostly single-branch members.
