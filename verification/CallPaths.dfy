/** Bounded enumeration of call paths (`src/axiom/rag/call_graph.py:131-176` and `:249-263`): a work
    stack of partial walks, proved to list every walk from the root up to the depth bound, once each. */
module CallPaths {
  import opened Ordering
  import opened CallGraph

  const HARD_MAX_DEPTH := 10
  const HARD_MAX_PATHS := 1000

  datatype Direction = Outgoing | Incoming

  datatype CallPath = CallPath(symbolIds: seq<SymbolId>, edgeIds: seq<string>, cycle: bool)

  datatype CallPathResult =
    CallPathResult(root: SymbolId, direction: Direction, maxDepth: nat, paths: seq<CallPath>, truncated: bool)

  type Adjacency = map<SymbolId, seq<CallEdge>>

  function DirectionOf(text: string): Direction {
    if text == "incoming" then Incoming else Outgoing
  }

  function Clamp(x: int, lower: int, upper: int): int {
    var atLeast := if x < lower then lower else x;
    if atLeast > upper then upper else atLeast
  }

  function Source(dir: Direction, e: CallEdge): SymbolId {
    if dir.Outgoing? then e.caller else e.callee
  }

  function Target(dir: Direction, e: CallEdge): SymbolId {
    if dir.Outgoing? then e.callee else e.caller
  }

  // ---- What a walk is ----

  ghost predicate UniqueIds(edges: seq<CallEdge>) {
    forall i, j :: 0 <= i < j < |edges| ==> edges[i].id != edges[j].id
  }

  /** `p` follows the edges `es` on from `start`; only its last symbol may have occurred before. */
  ghost predicate Follows(dir: Direction, start: CallPath, es: seq<CallEdge>, p: CallPath) {
    var n := |start.symbolIds|;
    && es != [] && n > 0
    && |p.symbolIds| == n + |es| && p.symbolIds[..n] == start.symbolIds
    && p.edgeIds == start.edgeIds + seq(|es|, i requires 0 <= i < |es| => es[i].id)
    && (forall i :: 0 <= i < |es| ==>
          Source(dir, es[i]) == p.symbolIds[n + i - 1] && Target(dir, es[i]) == p.symbolIds[n + i])
    && (forall i, j :: n <= j < |p.symbolIds| - 1 && 0 <= i < j ==> p.symbolIds[i] != p.symbolIds[j])
    && p.cycle == (p.symbolIds[|p.symbolIds| - 1] in p.symbolIds[..|p.symbolIds| - 1])
  }

  ghost predicate IsWalk(edges: seq<CallEdge>, dir: Direction, root: SymbolId, depth: nat, p: CallPath) {
    exists es :: |es| <= depth && Elements(es) <= Elements(edges) && Follows(dir, Start(root), es, p)
  }

  // ---- The walks as a multiset, in the shape the work stack produces them ----

  function Start(root: SymbolId): CallPath {
    CallPath([root], [], false)
  }

  function Step(dir: Direction, item: CallPath, e: CallEdge): CallPath {
    var next := Target(dir, e);
    CallPath(item.symbolIds + [next], item.edgeIds + [e.id], next in item.symbolIds)
  }

  function Neighbors(adj: Adjacency, item: CallPath): seq<CallEdge> {
    if item.symbolIds != [] && item.symbolIds[|item.symbolIds| - 1] in adj
    then adj[item.symbolIds[|item.symbolIds| - 1]] else []
  }

  /** All walks that go on from `item` by at most `room` edges. */
  ghost function Walks(adj: Adjacency, dir: Direction, item: CallPath, room: nat): multiset<CallPath>
    decreases room, 1, 0
  {
    if room == 0 then multiset{} else WalksVia(adj, dir, item, room, Neighbors(adj, item))
  }

  ghost function WalksVia(adj: Adjacency, dir: Direction, item: CallPath, room: nat,
                          es: seq<CallEdge>): multiset<CallPath>
    requires room > 0
    decreases room, 0, |es|
  {
    if es == [] then multiset{}
    else WalksVia(adj, dir, item, room, es[..|es| - 1]) + WalksFrom(adj, dir, item, room, es[|es| - 1])
  }

  ghost function WalksFrom(adj: Adjacency, dir: Direction, item: CallPath, room: nat, e: CallEdge): multiset<CallPath>
    requires room > 0
    decreases room - 1, 2, 0
  {
    var p := Step(dir, item, e);
    multiset{p} + if p.cycle then multiset{} else Walks(adj, dir, p, room - 1)
  }

  function Room(depth: nat, item: CallPath): nat {
    if |item.edgeIds| >= depth then 0 else depth - |item.edgeIds|
  }

  ghost function AllWalks(edges: seq<CallEdge>, dir: Direction, root: SymbolId, depth: nat): multiset<CallPath> {
    Walks(AdjacencyOf(edges, dir), dir, Start(root), depth)
  }

  // ---- The walks in the order in which they are visited ----

  function StepsBack(dir: Direction, item: CallPath, es: seq<CallEdge>): seq<CallPath> {
    if es == [] then [] else [Step(dir, item, es[|es| - 1])] + StepsBack(dir, item, es[..|es| - 1])
  }

  /** First all steps from `item`, the last edge's first; then what each of them leads to, the first edge's
      first. */
  ghost function Visit(adj: Adjacency, dir: Direction, item: CallPath, room: nat): seq<CallPath>
    decreases room, 1, 0
  {
    if room == 0 then []
    else StepsBack(dir, item, Neighbors(adj, item)) + Descend(adj, dir, item, room, Neighbors(adj, item))
  }

  ghost function Descend(adj: Adjacency, dir: Direction, item: CallPath, room: nat, es: seq<CallEdge>): seq<CallPath>
    requires room > 0
    decreases room, 0, |es|
  {
    if es == [] then []
    else Descend(adj, dir, item, room, es[..|es| - 1]) + DescendOne(adj, dir, Step(dir, item, es[|es| - 1]), room - 1)
  }

  ghost function DescendOne(adj: Adjacency, dir: Direction, p: CallPath, room: nat): seq<CallPath>
    decreases room, 2, 0
  {
    if p.cycle then [] else Visit(adj, dir, p, room)
  }

  /** What a work stack leads to: its top comes first. */
  ghost function Pending(adj: Adjacency, dir: Direction, depth: nat, stack: seq<CallPath>): seq<CallPath> {
    if stack == [] then []
    else
      var item := stack[|stack| - 1];
      Visit(adj, dir, item, Room(depth, item)) + Pending(adj, dir, depth, stack[..|stack| - 1])
  }

  ghost function InOrder(edges: seq<CallEdge>, dir: Direction, root: SymbolId, depth: nat): seq<CallPath> {
    Visit(AdjacencyOf(edges, dir), dir, Start(root), depth)
  }

  lemma VisitIsWalks(adj: Adjacency, dir: Direction, item: CallPath, room: nat)
    ensures multiset(Visit(adj, dir, item, room)) == Walks(adj, dir, item, room)
    decreases room, 1, 0
  {
    hide Neighbors;
    if room > 0 { DescendIsWalks(adj, dir, item, room, Neighbors(adj, item)); }
  }

  lemma DescendIsWalks(adj: Adjacency, dir: Direction, item: CallPath, room: nat, es: seq<CallEdge>)
    requires room > 0
    ensures multiset(StepsBack(dir, item, es)) + multiset(Descend(adj, dir, item, room, es)) ==
            WalksVia(adj, dir, item, room, es)
    decreases room, 0, |es|
  {
    hide Visit, Walks, WalksVia, WalksFrom, Step, StepsBack, Descend, DescendOne;
    UnfoldVia(adj, dir, item, room, es);
    if es != [] {
      var init, p := es[..|es| - 1], Step(dir, item, es[|es| - 1]);
      DescendIsWalks(adj, dir, item, room, init);
      DescendOneIsWalks(adj, dir, item, room, es[|es| - 1]);
      CountParts(p, StepsBack(dir, item, init), Descend(adj, dir, item, room, init), DescendOne(adj, dir, p, room - 1));
    }
  }

  lemma DescendOneIsWalks(adj: Adjacency, dir: Direction, item: CallPath, room: nat, e: CallEdge)
    requires room > 0
    ensures var p := Step(dir, item, e);
            WalksFrom(adj, dir, item, room, e) == multiset{p} + multiset(DescendOne(adj, dir, p, room - 1))
    decreases room - 1, 2, 0
  {
    hide Step, Visit, Walks;
    var p := Step(dir, item, e);
    if !p.cycle { VisitIsWalks(adj, dir, p, room - 1); }
  }

  lemma UnfoldVia(adj: Adjacency, dir: Direction, item: CallPath, room: nat, es: seq<CallEdge>)
    requires room > 0
    ensures if es == []
            then WalksVia(adj, dir, item, room, es) == multiset{}
                 && StepsBack(dir, item, es) == Descend(adj, dir, item, room, es) == []
            else
              var init, last := es[..|es| - 1], es[|es| - 1];
              var p := Step(dir, item, last);
              && WalksVia(adj, dir, item, room, es) ==
                 WalksVia(adj, dir, item, room, init) + WalksFrom(adj, dir, item, room, last)
              && StepsBack(dir, item, es) == [p] + StepsBack(dir, item, init)
              && Descend(adj, dir, item, room, es) ==
                 Descend(adj, dir, item, room, init) + DescendOne(adj, dir, p, room - 1)
  {
    hide Step, WalksFrom, DescendOne;
  }

  lemma CountParts(p: CallPath, back: seq<CallPath>, down: seq<CallPath>, one: seq<CallPath>)
    ensures multiset([p] + back) + multiset(down + one) ==
            (multiset(back) + multiset(down)) + (multiset{p} + multiset(one))
  {}

  /** The visited list holds exactly the walks. */
  lemma InOrderIsAllWalks(edges: seq<CallEdge>, dir: Direction, root: SymbolId, depth: nat)
    ensures multiset(InOrder(edges, dir, root, depth)) == AllWalks(edges, dir, root, depth)
  {
    hide AdjacencyOf;
    VisitIsWalks(AdjacencyOf(edges, dir), dir, Start(root), depth);
  }

  // ---- The adjacency lists ----

  function EdgesFrom(edges: seq<CallEdge>, dir: Direction, key: SymbolId): seq<CallEdge> {
    if edges == [] then []
    else
      var init := edges[..|edges| - 1];
      var last := edges[|edges| - 1];
      EdgesFrom(init, dir, key) + if Source(dir, last) == key then [last] else []
  }

  predicate EdgeLe(a: CallEdge, b: CallEdge) {
    if a.filePath != b.filePath then StrLe(a.filePath, b.filePath)
    else if a.startLine != b.startLine then a.startLine < b.startLine
    else ListLe([a.callee, a.id], [b.callee, b.id])
  }

  function Sources(edges: seq<CallEdge>, dir: Direction): set<SymbolId> {
    set e | e in edges :: Source(dir, e)
  }

  function AdjacencyOf(edges: seq<CallEdge>, dir: Direction): Adjacency {
    map key | key in Sources(edges, dir) :: Sorted(EdgeLe, EdgesFrom(edges, dir, key))
  }

  method BuildAdjacency(edges: seq<CallEdge>, dir: Direction) returns (result: Adjacency)
    ensures result == AdjacencyOf(edges, dir)
  {
    NoSources(dir);
    hide Sorted, EdgesFrom, EdgeLe, Sources;
    var lists: Adjacency := map[];
    for i := 0 to |edges|
      invariant lists.Keys == Sources(edges[..i], dir)
      invariant forall k :: k in lists ==> lists[k] == EdgesFrom(edges[..i], dir, k)
    {
      var key := Source(dir, edges[i]);
      EdgesFromStep(edges, dir, i);
      lists := lists[key := (if key in lists then lists[key] else []) + [edges[i]]];
    }
    assert edges[..|edges|] == edges;
    result := map k | k in lists :: Sorted(EdgeLe, lists[k]);
  }

  lemma NoSources(dir: Direction)
    ensures Sources([], dir) == {}
  {}

  lemma {:induction false} EdgesFromStep(edges: seq<CallEdge>, dir: Direction, i: nat)
    requires i < |edges|
    ensures Sources(edges[..i + 1], dir) == Sources(edges[..i], dir) + {Source(dir, edges[i])}
    ensures forall k :: EdgesFrom(edges[..i + 1], dir, k) ==
                        EdgesFrom(edges[..i], dir, k) + if Source(dir, edges[i]) == k then [edges[i]] else []
    ensures Source(dir, edges[i]) !in Sources(edges[..i], dir) ==>
              EdgesFrom(edges[..i], dir, Source(dir, edges[i])) == []
  {
    assert edges[..i + 1][..i] == edges[..i];
    assert edges[..i + 1] == edges[..i] + [edges[i]];
    if Source(dir, edges[i]) !in Sources(edges[..i], dir) {
      NoEdgesFrom(edges[..i], dir, Source(dir, edges[i]));
    }
  }

  lemma {:induction false} NoEdgesFrom(edges: seq<CallEdge>, dir: Direction, key: SymbolId)
    requires key !in Sources(edges, dir)
    ensures EdgesFrom(edges, dir, key) == []
  {
    if edges != [] {
      assert edges[|edges| - 1] in edges;
      NoEdgesFrom(edges[..|edges| - 1], dir, key);
    }
  }

  // ---- The search ----

  predicate PathLe(p: CallPath, q: CallPath) {
    if p.symbolIds == q.symbolIds then ListLe(p.edgeIds, q.edgeIds) else ListLe(p.symbolIds, q.symbolIds)
  }

  /** Truncated, the result is what was visited first; otherwise it is everything, sorted. */
  method TraceCallPaths(root: SymbolId, edges: seq<CallEdge>, direction: string, maxDepth: int, maxPaths: int)
    returns (result: CallPathResult)
    ensures result.root == root && result.direction == DirectionOf(direction)
    ensures result.maxDepth == Clamp(maxDepth, 0, HARD_MAX_DEPTH)
    ensures result.maxDepth == 0 ==> result.paths == [Start(root)] && !result.truncated
    ensures result.maxDepth > 0 ==>
              var all := InOrder(edges, result.direction, root, result.maxDepth);
              var bound := Clamp(maxPaths, 1, HARD_MAX_PATHS);
              && (result.truncated <==> |all| >= bound)
              && result.paths == if |all| >= bound then all[..bound] else Sorted(PathLe, all)
    ensures result.maxDepth > 0 && !result.truncated ==>
              && SortedBy(PathLe, result.paths)
              && multiset(result.paths) == AllWalks(edges, result.direction, root, result.maxDepth)
    ensures if direction == "incoming" then result.direction == Incoming else result.direction == Outgoing
    ensures 0 <= maxDepth <= 10 ==> result.maxDepth == maxDepth
    ensures maxDepth < 0 ==> result.maxDepth == 0
    ensures maxDepth > 10 ==> result.maxDepth == 10
    ensures var bound := if maxPaths < 1 then 1 else if maxPaths > 1000 then 1000 else maxPaths;
            maxDepth > 0 ==> if result.truncated then |result.paths| == bound else |result.paths| < bound
    ensures maxDepth > 0 ==> forall p :: p in result.paths ==>
              IsTrace(edges, direction == "incoming", root, result.maxDepth, p)
    ensures maxDepth > 0 && !result.truncated ==> forall p ::
              IsTrace(edges, direction == "incoming", root, result.maxDepth, p) ==> p in result.paths
    ensures maxDepth > 0 && UniqueIds(edges) ==> NoDuplicates(result.paths)
    ensures maxDepth > 0 && result.truncated && UniqueIds(edges) ==>
              && InListedOrder(edges, result.paths)
              && forall p, q :: p in result.paths && q !in result.paths
                                && IsTrace(edges, direction == "incoming", root, result.maxDepth, q) ==>
                   ListedFirst(edges, p, q)
    ensures maxDepth > 0 && !result.truncated ==> forall i, j :: 0 <= i < j < |result.paths| ==>
              var p, q := result.paths[i], result.paths[j];
              if p.symbolIds != q.symbolIds then ListLe(p.symbolIds, q.symbolIds) else ListLe(p.edgeIds, q.edgeIds)
    ensures maxDepth <= 0 ==> result.paths == [CallPath([root], [], false)]
  {
    hide InListedOrder, ListedFirst, ListLe;
    hide IsTrace, NoDuplicates, UniqueIds, InOrder, AllWalks, Sorted, PathLe, SortedBy;
    var dir := DirectionOf(direction);
    var boundedDepth := Clamp(maxDepth, 0, HARD_MAX_DEPTH);
    var boundedPaths := Clamp(maxPaths, 1, HARD_MAX_PATHS);
    if boundedDepth == 0 {
      return CallPathResult(root, dir, boundedDepth, [Start(root)], false);
    }
    var paths, truncated := Search(root, edges, dir, boundedDepth, boundedPaths);
    if !truncated {
      SortedIsPermutation(PathLe, paths);
      PathLeIsOrder();
      SortedIsSorted(PathLe, paths);
      InOrderIsAllWalks(edges, dir, root, boundedDepth);
      paths := Sorted(PathLe, paths);
      PathsSorted(paths);
    } else if UniqueIds(edges) {
      KeptAreListedFirst(edges, dir, root, boundedDepth, boundedPaths);
    }
    ResultTraces(edges, dir, root, boundedDepth, boundedPaths, paths);
    result := CallPathResult(root, dir, boundedDepth, paths, truncated);
  }

  lemma PathsSorted(paths: seq<CallPath>)
    requires SortedBy(PathLe, paths)
    ensures forall i, j :: 0 <= i < j < |paths| ==>
              var p, q := paths[i], paths[j];
              if p.symbolIds != q.symbolIds then ListLe(p.symbolIds, q.symbolIds) else ListLe(p.edgeIds, q.edgeIds)
  {}

  /** The search with its work stack, given up once `bound` paths are listed. */
  method Search(root: SymbolId, edges: seq<CallEdge>, dir: Direction, depth: nat, bound: nat)
    returns (paths: seq<CallPath>, truncated: bool)
    requires bound > 0
    ensures var all := InOrder(edges, dir, root, depth);
            && (truncated <==> |all| >= bound)
            && paths == if |all| >= bound then all[..bound] else all
  {
    hide AdjacencyOf, Pending, InOrder, Step, Rest, Room;
    var adjacency := BuildAdjacency(edges, dir);
    ghost var all := InOrder(edges, dir, root, depth);
    paths := [];
    var stack := [Start(root)];
    PendingStart(edges, dir, root, depth);
    while stack != []
      invariant forall p :: p in stack ==> p.symbolIds != []
      invariant |paths| < bound
      invariant paths + Pending(adjacency, dir, depth, stack) == all
      decreases |all| - |paths|, |stack|
    {
      var item := stack[|stack| - 1];
      var current := item.symbolIds[|item.symbolIds| - 1];
      PendingPop(adjacency, dir, depth, stack);
      stack := stack[..|stack| - 1];
      if |item.edgeIds| >= depth { continue; }
      ghost var room := Room(depth, item);
      var neighbors := if current in adjacency then adjacency[current] else [];
      var k := |neighbors|;
      ghost var paths0, stack0 := paths, stack;
      assert neighbors[..k] == neighbors;
      while k > 0
        invariant 0 <= k <= |neighbors|
        invariant forall p :: p in stack ==> p.symbolIds != []
        invariant |paths| < bound && |paths| == |paths0| + |neighbors| - k
        invariant k == |neighbors| ==> stack == stack0
        invariant paths + Rest(adjacency, dir, depth, item, neighbors[..k], stack) == all
      {
        k := k - 1;
        RestStep(adjacency, dir, depth, item, neighbors, k, stack);
        var next := Step(dir, item, neighbors[k]);
        ghost var rest := Rest(adjacency, dir, depth, item, neighbors[..k],
                               if next.cycle then stack else stack + [next]);
        Regroup(paths, next, rest);
        paths := paths + [next];
        if |paths| >= bound {
          assert paths == all[..bound];
          return paths, true;
        }
        if !next.cycle {
          stack := stack + [next];
        }
      }
      assert neighbors[..0] == [];
      RestNothing(adjacency, dir, depth, item, stack);
    }
    PendingNothing(adjacency, dir, depth);
    assert paths + [] == paths;
    return paths, false;
  }

  lemma Regroup(paths: seq<CallPath>, next: CallPath, rest: seq<CallPath>)
    ensures paths + ([next] + rest) == (paths + [next]) + rest
  {}

  /** What is still to be listed while the steps along `es` are. */
  ghost function Rest(adj: Adjacency, dir: Direction, depth: nat, item: CallPath, es: seq<CallEdge>,
                      stack: seq<CallPath>): seq<CallPath>
    requires |item.edgeIds| < depth
  {
    StepsBack(dir, item, es) + (Descend(adj, dir, item, Room(depth, item), es) + Pending(adj, dir, depth, stack))
  }

  lemma PendingStart(edges: seq<CallEdge>, dir: Direction, root: SymbolId, depth: nat)
    ensures [] + Pending(AdjacencyOf(edges, dir), dir, depth, [Start(root)]) == InOrder(edges, dir, root, depth)
  {
    hide AdjacencyOf, Visit;
    assert [Start(root)][..0] == [];
    assert Room(depth, Start(root)) == depth;
  }

  lemma PendingNothing(adj: Adjacency, dir: Direction, depth: nat)
    ensures Pending(adj, dir, depth, []) == []
  {}

  lemma RestNothing(adj: Adjacency, dir: Direction, depth: nat, item: CallPath, stack: seq<CallPath>)
    requires |item.edgeIds| < depth
    ensures Rest(adj, dir, depth, item, [], stack) == Pending(adj, dir, depth, stack)
  {
    hide Pending;
  }

  lemma PendingPop(adj: Adjacency, dir: Direction, depth: nat, stack: seq<CallPath>)
    requires stack != []
    ensures var item := stack[|stack| - 1];
            var rest := stack[..|stack| - 1];
            Pending(adj, dir, depth, stack) ==
              if |item.edgeIds| >= depth then Pending(adj, dir, depth, rest)
              else Rest(adj, dir, depth, item, Neighbors(adj, item), rest)
  {
    hide StepsBack, Descend, Neighbors;
  }

  /** Listing one step more. */
  lemma RestStep(adj: Adjacency, dir: Direction, depth: nat, item: CallPath, es: seq<CallEdge>, k: nat,
                 stack: seq<CallPath>)
    requires |item.edgeIds| < depth && k < |es|
    ensures var next := Step(dir, item, es[k]);
            && next.symbolIds != []
            && Rest(adj, dir, depth, item, es[..k + 1], stack) ==
               [next] + Rest(adj, dir, depth, item, es[..k], if next.cycle then stack else stack + [next])
  {
    hide Visit;
    var next, room := Step(dir, item, es[k]), Room(depth, item);
    assert es[..k + 1][..k] == es[..k];
    assert (stack + [next])[..|stack|] == stack;
    StepRoom(dir, item, es[k], depth);
    ghost var back, down, one, pending := StepsBack(dir, item, es[..k]), Descend(adj, dir, item, room, es[..k]),
                                          DescendOne(adj, dir, next, room - 1), Pending(adj, dir, depth, stack);
    FourParts(next, back, down, one, pending);
  }

  lemma StepRoom(dir: Direction, item: CallPath, e: CallEdge, depth: nat)
    requires |item.edgeIds| < depth
    ensures Room(depth, Step(dir, item, e)) == Room(depth, item) - 1
  {}

  lemma FourParts(next: CallPath, back: seq<CallPath>, down: seq<CallPath>, one: seq<CallPath>, pending: seq<CallPath>)
    ensures ([next] + back) + ((down + one) + pending) == [next] + (back + (down + (one + pending)))
    ensures [] + pending == pending
  {}

  lemma PathLeIsOrder()
    ensures TotalOrder(PathLe)
  {
    hide ListLe;
    forall p, q ensures PathLe(p, q) || PathLe(q, p) {
      ListLeTotal(p.edgeIds, q.edgeIds);
      ListLeTotal(p.symbolIds, q.symbolIds);
    }
    forall p, q, r | PathLe(p, q) && PathLe(q, r) ensures PathLe(p, r) {
      if p.symbolIds == q.symbolIds == r.symbolIds {
        ListLeTransitive(p.edgeIds, q.edgeIds, r.edgeIds);
      } else if p.symbolIds != q.symbolIds && q.symbolIds != r.symbolIds {
        ListLeTransitive(p.symbolIds, q.symbolIds, r.symbolIds);
        if p.symbolIds == r.symbolIds { ListLeAntisymmetric(p.symbolIds, q.symbolIds); }
      }
    }
  }

  // ---- The multiset is the set of walks ----

  ghost predicate Continues(edges: seq<CallEdge>, dir: Direction, item: CallPath, room: nat, p: CallPath) {
    exists es :: |es| <= room && Elements(es) <= Elements(edges) && Follows(dir, item, es, p)
  }

  lemma NeighborsExact(edges: seq<CallEdge>, dir: Direction, item: CallPath, e: CallEdge)
    requires item.symbolIds != []
    ensures e in Neighbors(AdjacencyOf(edges, dir), item)
            <==> e in edges && Source(dir, e) == item.symbolIds[|item.symbolIds| - 1]
  {
    var key := item.symbolIds[|item.symbolIds| - 1];
    EdgesFromExact(edges, dir, key, e);
    SortedIsPermutation(EdgeLe, EdgesFrom(edges, dir, key));
  }

  lemma {:induction false} EdgesFromExact(edges: seq<CallEdge>, dir: Direction, key: SymbolId, e: CallEdge)
    ensures e in EdgesFrom(edges, dir, key) <==> e in edges && Source(dir, e) == key
  {
    if edges != [] {
      EdgesFromExact(edges[..|edges| - 1], dir, key, e);
      assert edges == edges[..|edges| - 1] + [edges[|edges| - 1]];
    }
  }

  lemma {:induction false} ViaExact(adj: Adjacency, dir: Direction, item: CallPath, room: nat, es: seq<CallEdge>,
                                    p: CallPath)
    requires room > 0
    ensures p in WalksVia(adj, dir, item, room, es) <==> exists e :: e in es && p in WalksFrom(adj, dir, item, room, e)
  {
    hide WalksFrom;
    if es != [] {
      var init, last := es[..|es| - 1], es[|es| - 1];
      assert es == init + [last];
      ViaExact(adj, dir, item, room, init, p);
      assert p in WalksVia(adj, dir, item, room, es) <==>
             p in WalksVia(adj, dir, item, room, init) || p in WalksFrom(adj, dir, item, room, last);
    }
  }

  lemma FollowsOne(dir: Direction, item: CallPath, e: CallEdge)
    requires item.symbolIds != [] && Source(dir, e) == item.symbolIds[|item.symbolIds| - 1]
    ensures Follows(dir, item, [e], Step(dir, item, e))
  {
    var p := Step(dir, item, e);
    assert p.symbolIds[..|p.symbolIds| - 1] == item.symbolIds;
    assert p.edgeIds == item.edgeIds + seq(|[e]|, i requires 0 <= i < |[e]| => [e][i].id);
  }

  lemma IdsAfterStep(dir: Direction, item: CallPath, e: CallEdge, es: seq<CallEdge>)
    ensures Step(dir, item, e).edgeIds + seq(|es|, i requires 0 <= i < |es| => es[i].id)
            == item.edgeIds + seq(|[e] + es|, i requires 0 <= i < |[e] + es| => ([e] + es)[i].id)
  {}

  lemma FollowsTail(dir: Direction, item: CallPath, e: CallEdge, es: seq<CallEdge>, p: CallPath)
    requires es != [] && Follows(dir, item, [e] + es, p)
    ensures !Step(dir, item, e).cycle && Follows(dir, Step(dir, item, e), es, p)
  {
    var n, next, all := |item.symbolIds|, Step(dir, item, e), [e] + es;
    IdsAfterStep(dir, item, e, es);
    assert Target(dir, all[0]) == p.symbolIds[n];
    assert p.symbolIds[..n + 1] == p.symbolIds[..n] + [p.symbolIds[n]];
    forall i | 0 <= i < |es|
      ensures Source(dir, es[i]) == p.symbolIds[n + 1 + i - 1] && Target(dir, es[i]) == p.symbolIds[n + 1 + i]
    {
      assert es[i] == all[i + 1];
    }
    forall i | 0 <= i < n ensures item.symbolIds[i] != p.symbolIds[n] {
      assert item.symbolIds[i] == p.symbolIds[..n][i] == p.symbolIds[i];
    }
  }

  lemma FollowsCons(dir: Direction, item: CallPath, e: CallEdge, es: seq<CallEdge>, p: CallPath)
    requires item.symbolIds != [] && Source(dir, e) == item.symbolIds[|item.symbolIds| - 1]
    requires es != [] && !Step(dir, item, e).cycle && Follows(dir, Step(dir, item, e), es, p)
    ensures Follows(dir, item, [e] + es, p)
  {
    hide Source, Target;
    IdsAfterStep(dir, item, e, es);
    ConsLinks(dir, item, e, es, p);
    NewSymbolIsNew(dir, item, e, p);
  }

  lemma ConsLinks(dir: Direction, item: CallPath, e: CallEdge, es: seq<CallEdge>, p: CallPath)
    requires item.symbolIds != [] && Source(dir, e) == item.symbolIds[|item.symbolIds| - 1]
    requires es != [] && Follows(dir, Step(dir, item, e), es, p)
    ensures var n, all := |item.symbolIds|, [e] + es;
            && p.symbolIds[..n] == item.symbolIds
            && forall i :: 0 <= i < |all| ==>
                 Source(dir, all[i]) == p.symbolIds[n + i - 1] && Target(dir, all[i]) == p.symbolIds[n + i]
  {
    hide Source, Target;
    var n, all := |item.symbolIds|, [e] + es;
    assert p.symbolIds[..n] == p.symbolIds[..n + 1][..n] == item.symbolIds;
    assert p.symbolIds[n] == p.symbolIds[..n + 1][n] == Target(dir, e);
    assert p.symbolIds[n - 1] == p.symbolIds[..n][n - 1];
    forall i | 0 <= i < |all|
      ensures Source(dir, all[i]) == p.symbolIds[n + i - 1] && Target(dir, all[i]) == p.symbolIds[n + i]
    {
      if i > 0 { assert all[i] == es[i - 1]; }
    }
  }

  lemma NewSymbolIsNew(dir: Direction, item: CallPath, e: CallEdge, p: CallPath)
    requires item.symbolIds != [] && !Step(dir, item, e).cycle && |p.symbolIds| > |item.symbolIds|
    requires p.symbolIds[..|item.symbolIds| + 1] == Step(dir, item, e).symbolIds
    ensures forall i :: 0 <= i < |item.symbolIds| ==> p.symbolIds[i] != p.symbolIds[|item.symbolIds|]
  {
    var n := |item.symbolIds|;
    forall i | 0 <= i < n ensures p.symbolIds[i] != p.symbolIds[n] {
      assert p.symbolIds[i] == p.symbolIds[..n + 1][i] == item.symbolIds[i];
      assert p.symbolIds[n] == p.symbolIds[..n + 1][n];
    }
  }

  /** The walks produced from `item` are exactly its continuations along at most `room` edges. */
  lemma {:induction false} WalksExact(edges: seq<CallEdge>, dir: Direction, item: CallPath, room: nat, p: CallPath)
    requires item.symbolIds != []
    ensures p in Walks(AdjacencyOf(edges, dir), dir, item, room) <==> Continues(edges, dir, item, room, p)
    decreases room
  {
    hide AdjacencyOf, Follows, WalksVia, Neighbors;
    if room == 0 {
      if Continues(edges, dir, item, room, p) {
        var es :| |es| <= room && Elements(es) <= Elements(edges) && Follows(dir, item, es, p);
        FollowsNonempty(dir, item, es, p);
      }
    } else {
      var adj := AdjacencyOf(edges, dir);
      ViaExact(adj, dir, item, room, Neighbors(adj, item), p);
      if p in Walks(adj, dir, item, room) {
        var e :| e in Neighbors(adj, item) && p in WalksFrom(adj, dir, item, room, e);
        WalksFromSound(edges, dir, item, room, e, p);
      }
      if Continues(edges, dir, item, room, p) {
        var es :| |es| <= room && Elements(es) <= Elements(edges) && Follows(dir, item, es, p);
        WalksFromComplete(edges, dir, item, room, es, p);
      }
    }
  }

  lemma FollowsNonempty(dir: Direction, item: CallPath, es: seq<CallEdge>, p: CallPath)
    requires Follows(dir, item, es, p)
    ensures es != [] && Source(dir, es[0]) == item.symbolIds[|item.symbolIds| - 1]
    ensures |es| == 1 ==> p == Step(dir, item, es[0])
  {
    assert item.symbolIds[|item.symbolIds| - 1] == p.symbolIds[..|item.symbolIds|][|item.symbolIds| - 1];
    if |es| == 1 {
      var n := |item.symbolIds|;
      assert p.symbolIds == p.symbolIds[..n] + [p.symbolIds[n]];
      assert Target(dir, es[0]) == p.symbolIds[n];
      assert p.edgeIds == item.edgeIds + [es[0].id];
    }
  }

  lemma WalksFromSound(edges: seq<CallEdge>, dir: Direction, item: CallPath, room: nat, e: CallEdge, p: CallPath)
    requires item.symbolIds != [] && room > 0 && e in Neighbors(AdjacencyOf(edges, dir), item)
    requires p in WalksFrom(AdjacencyOf(edges, dir), dir, item, room, e)
    ensures Continues(edges, dir, item, room, p)
    decreases room, 0
  {
    hide AdjacencyOf, Follows, Walks, Neighbors;
    NeighborsExact(edges, dir, item, e);
    var next := Step(dir, item, e);
    if p == next {
      FollowsOne(dir, item, e);
      assert Elements([e]) <= Elements(edges);
    } else {
      WalksExact(edges, dir, next, room - 1, p);
      var es :| |es| <= room - 1 && Elements(es) <= Elements(edges) && Follows(dir, next, es, p);
      FollowsNonempty(dir, next, es, p);
      FollowsCons(dir, item, e, es, p);
      assert Elements([e] + es) == {e} + Elements(es);
    }
  }

  lemma WalksFromComplete(edges: seq<CallEdge>, dir: Direction, item: CallPath, room: nat, es: seq<CallEdge>,
                          p: CallPath)
    requires item.symbolIds != [] && room > 0
    requires |es| <= room && Elements(es) <= Elements(edges) && Follows(dir, item, es, p)
    ensures es != [] && es[0] in Neighbors(AdjacencyOf(edges, dir), item)
    ensures p in WalksFrom(AdjacencyOf(edges, dir), dir, item, room, es[0])
    decreases room, 0
  {
    hide AdjacencyOf, Follows, Walks, Neighbors, Step;
    FollowsNonempty(dir, item, es, p);
    var e, next := es[0], Step(dir, item, es[0]);
    assert e in Elements(es);
    NeighborsExact(edges, dir, item, e);
    if |es| > 1 {
      assert es == [e] + es[1..];
      FollowsTail(dir, item, e, es[1..], p);
      assert Elements(es[1..]) <= Elements(es);
      WalksExact(edges, dir, next, room - 1, p);
    }
  }

  // ---- With unique edge ids every walk is listed once ----

  ghost predicate DistinctEdges(es: seq<CallEdge>) {
    NoDuplicates(es) && forall x, y :: x in es && y in es && x.id == y.id ==> x == y
  }

  lemma {:induction false} EdgesFromDistinct(edges: seq<CallEdge>, dir: Direction, key: SymbolId)
    requires UniqueIds(edges)
    ensures DistinctEdges(EdgesFrom(edges, dir, key))
  {
    if edges != [] {
      var init, last := edges[..|edges| - 1], edges[|edges| - 1];
      assert forall i :: 0 <= i < |init| ==> init[i] == edges[i];
      EdgesFromDistinct(init, dir, key);
      forall x | x in EdgesFrom(init, dir, key) ensures x.id != last.id {
        EdgesFromExact(init, dir, key, x);
      }
    }
  }

  lemma NeighborsDistinct(edges: seq<CallEdge>, dir: Direction, item: CallPath)
    requires UniqueIds(edges)
    ensures DistinctEdges(Neighbors(AdjacencyOf(edges, dir), item))
  {
    if item.symbolIds != [] {
      var key := item.symbolIds[|item.symbolIds| - 1];
      EdgesFromDistinct(edges, dir, key);
      SortedIsPermutation(EdgeLe, EdgesFrom(edges, dir, key));
      NoDuplicatesPermutes(EdgesFrom(edges, dir, key), Sorted(EdgeLe, EdgesFrom(edges, dir, key)));
    }
  }

  lemma ContinuesLonger(edges: seq<CallEdge>, dir: Direction, item: CallPath, room: nat, p: CallPath)
    requires Continues(edges, dir, item, room, p)
    ensures |p.edgeIds| > |item.edgeIds| && p.edgeIds[..|item.edgeIds|] == item.edgeIds
  {
    var es :| |es| <= room && Elements(es) <= Elements(edges) && Follows(dir, item, es, p);
  }

  /** A walk that goes on along `e` carries the id of `e` next, so it is counted for no other edge. */
  lemma WalksFromOnce(edges: seq<CallEdge>, dir: Direction, item: CallPath, room: nat, e: CallEdge, p: CallPath)
    requires UniqueIds(edges) && item.symbolIds != [] && room > 0
    ensures var from := WalksFrom(AdjacencyOf(edges, dir), dir, item, room, e);
            && from[p] <= 1
            && (p in from ==> |p.edgeIds| > |item.edgeIds| && p.edgeIds[|item.edgeIds|] == e.id)
    decreases room - 1, 2, 0
  {
    hide AdjacencyOf, Follows, Walks, Continues;
    var next, adj := Step(dir, item, e), AdjacencyOf(edges, dir);
    WalksOnce(edges, dir, next, room - 1, p);
    WalksExact(edges, dir, next, room - 1, p);
    if p in Walks(adj, dir, next, room - 1) {
      ContinuesLonger(edges, dir, next, room - 1, p);
      assert p.edgeIds[|item.edgeIds|] == p.edgeIds[..|next.edgeIds|][|item.edgeIds|];
    }
  }

  lemma ViaOnce(edges: seq<CallEdge>, dir: Direction, item: CallPath, room: nat, es: seq<CallEdge>, p: CallPath)
    requires UniqueIds(edges) && item.symbolIds != [] && room > 0 && DistinctEdges(es)
    ensures WalksVia(AdjacencyOf(edges, dir), dir, item, room, es)[p] <= 1
    decreases room, 0, |es|
  {
    hide AdjacencyOf, WalksFrom;
    if es != [] {
      var adj, init, last := AdjacencyOf(edges, dir), es[..|es| - 1], es[|es| - 1];
      assert es == init + [last];
      ViaOnce(edges, dir, item, room, init, p);
      WalksFromOnce(edges, dir, item, room, last, p);
      ViaExact(adj, dir, item, room, init, p);
      if p in WalksVia(adj, dir, item, room, init) {
        var e :| e in init && p in WalksFrom(adj, dir, item, room, e);
        WalksFromOnce(edges, dir, item, room, e, p);
      }
    }
  }

  lemma WalksOnce(edges: seq<CallEdge>, dir: Direction, item: CallPath, room: nat, p: CallPath)
    requires UniqueIds(edges) && item.symbolIds != []
    ensures Walks(AdjacencyOf(edges, dir), dir, item, room)[p] <= 1
    decreases room, 1, 0
  {
    hide AdjacencyOf, Neighbors, WalksVia;
    if room > 0 {
      NeighborsDistinct(edges, dir, item);
      ViaOnce(edges, dir, item, room, Neighbors(AdjacencyOf(edges, dir), item), p);
    }
  }

  /** With unique edge ids, `AllWalks` holds every walk within the depth bound, once, and nothing else. */
  lemma AllWalksExact(edges: seq<CallEdge>, dir: Direction, root: SymbolId, depth: nat, p: CallPath)
    requires UniqueIds(edges)
    ensures AllWalks(edges, dir, root, depth)[p] == if IsWalk(edges, dir, root, depth, p) then 1 else 0
  {
    hide AdjacencyOf, Follows, Walks;
    WalksExact(edges, dir, Start(root), depth, p);
    WalksOnce(edges, dir, Start(root), depth, p);
  }

  // ---- The walks spelled out ----

  /** `e` leads from `a` to `b`: from caller to callee, or from callee to caller when tracing incoming calls. */
  predicate Leads(incoming: bool, e: CallEdge, a: SymbolId, b: SymbolId) {
    if incoming then e.callee == a && e.caller == b else e.caller == a && e.callee == b
  }

  ghost predicate SomeLeads(edges: seq<CallEdge>, incoming: bool, id: string, a: SymbolId, b: SymbolId) {
    exists e :: e in edges && e.id == id && Leads(incoming, e, a, b)
  }

  /** Edges of the input that lead from the root on, one after the other; only the last symbol may have
      occurred before, and then the path is a cycle. */
  ghost predicate IsTrace(edges: seq<CallEdge>, incoming: bool, root: SymbolId, depth: nat, p: CallPath) {
    var n := |p.edgeIds|;
    && 1 <= n <= depth && |p.symbolIds| == n + 1 && p.symbolIds[0] == root
    && (forall i :: 0 <= i < n ==>
          SomeLeads(edges, incoming, p.edgeIds[i], p.symbolIds[i], p.symbolIds[i + 1]))
    && (forall i, j :: 0 <= i < j < n ==> p.symbolIds[i] != p.symbolIds[j])
    && (p.cycle <==> exists i :: 0 <= i < n && p.symbolIds[i] == p.symbolIds[n])
  }

  /** The visited walks are exactly the traces, and with unique edge ids none comes twice. */
  lemma InOrderTraces(edges: seq<CallEdge>, dir: Direction, root: SymbolId, depth: nat)
    ensures var all := InOrder(edges, dir, root, depth);
            && (forall p :: p in all <==> IsTrace(edges, dir.Incoming?, root, depth, p))
            && (UniqueIds(edges) ==> NoDuplicates(all))
  {
    hide InOrder, AdjacencyOf, Walks, IsTrace, UniqueIds, Continues, NoDuplicates;
    var all := InOrder(edges, dir, root, depth);
    InOrderIsAllWalks(edges, dir, root, depth);
    forall p ensures p in all <==> IsTrace(edges, dir.Incoming?, root, depth, p) {
      WalksExact(edges, dir, Start(root), depth, p);
      assert p in all <==> p in multiset(all);
      WalkIsTrace(edges, dir, root, depth, p);
    }
    if UniqueIds(edges) {
      forall p ensures multiset(all)[p] <= 1 { AllWalksExact(edges, dir, root, depth, p); }
      CountedOnce(all);
    }
  }

  lemma CountedOnce(ps: seq<CallPath>)
    requires forall p :: multiset(ps)[p] <= 1
    ensures NoDuplicates(ps)
  {
    forall i, j | 0 <= i < j < |ps| ensures ps[i] != ps[j] {
      assert ps == ps[..j] + [ps[j]] + ps[j + 1..];
      assert ps[i] in ps[..j];
      assert multiset(ps)[ps[j]] <= 1;
    }
  }

  /** What is returned, cut off or sorted, are traces; nothing is missing from a list not cut off. */
  lemma ResultTraces(edges: seq<CallEdge>, dir: Direction, root: SymbolId, depth: nat, bound: nat, ps: seq<CallPath>)
    requires var all := InOrder(edges, dir, root, depth);
             ps == if |all| >= bound then all[..bound] else Sorted(PathLe, all)
    ensures |ps| <= bound
    ensures forall p :: p in ps ==> IsTrace(edges, dir.Incoming?, root, depth, p)
    ensures |ps| < bound ==> forall p :: IsTrace(edges, dir.Incoming?, root, depth, p) ==> p in ps
    ensures UniqueIds(edges) ==> NoDuplicates(ps)
  {
    hide InOrder, IsTrace, UniqueIds, PathLe;
    var all := InOrder(edges, dir, root, depth);
    InOrderTraces(edges, dir, root, depth);
    SortedIsPermutation(PathLe, all);
    if UniqueIds(edges) && |all| < bound { NoDuplicatesPermutes(all, ps); }
  }

  lemma WalkIsTrace(edges: seq<CallEdge>, dir: Direction, root: SymbolId, depth: nat, p: CallPath)
    ensures Continues(edges, dir, Start(root), depth, p) <==> IsTrace(edges, dir.Incoming?, root, depth, p)
  {
    hide Follows;
    if Continues(edges, dir, Start(root), depth, p) {
      var es :| |es| <= depth && Elements(es) <= Elements(edges) && Follows(dir, Start(root), es, p);
      FollowsIsTrace(edges, dir, root, depth, es, p);
    }
    if IsTrace(edges, dir.Incoming?, root, depth, p) {
      var es := TraceEdges(edges, dir.Incoming?, root, depth, p, |p.edgeIds|);
      TraceFollows(edges, dir, root, depth, es, p);
    }
  }

  lemma FollowsIsTrace(edges: seq<CallEdge>, dir: Direction, root: SymbolId, depth: nat, es: seq<CallEdge>, p: CallPath)
    requires |es| <= depth && Elements(es) <= Elements(edges) && Follows(dir, Start(root), es, p)
    ensures IsTrace(edges, dir.Incoming?, root, depth, p)
  {
    hide Leads, Follows;
    FollowsLeads(dir, root, es, p);
    CycleAtEnd(p.symbolIds, |es|);
    forall i | 0 <= i < |es|
      ensures SomeLeads(edges, dir.Incoming?, p.edgeIds[i], p.symbolIds[i], p.symbolIds[i + 1])
    {
      assert es[i] in Elements(es);
      assert Leads(dir.Incoming?, es[i], p.symbolIds[i], p.symbolIds[i + 1]);
    }
  }

  lemma CycleAtEnd(ids: seq<SymbolId>, n: nat)
    requires |ids| == n + 1
    ensures ids[n] in ids[..n] <==> exists i :: 0 <= i < n && ids[i] == ids[n]
  {}

  lemma FollowsLeads(dir: Direction, root: SymbolId, es: seq<CallEdge>, p: CallPath)
    requires Follows(dir, Start(root), es, p)
    ensures var n := |es|;
            && 1 <= n == |p.edgeIds| && |p.symbolIds| == n + 1 && p.symbolIds[0] == root
            && (forall i :: 0 <= i < n ==> p.edgeIds[i] == es[i].id)
            && (forall i :: 0 <= i < n ==> Leads(dir.Incoming?, es[i], p.symbolIds[i], p.symbolIds[i + 1]))
            && (forall i, j :: 0 <= i < j < n ==> p.symbolIds[i] != p.symbolIds[j])
            && (p.cycle <==> p.symbolIds[n] in p.symbolIds[..n])
  {
    assert p.symbolIds[0] == p.symbolIds[..1][0];
    forall i | 0 <= i < |es|
      ensures Leads(dir.Incoming?, es[i], p.symbolIds[i], p.symbolIds[i + 1])
    {
      assert Source(dir, es[i]) == p.symbolIds[1 + i - 1] && Target(dir, es[i]) == p.symbolIds[1 + i];
    }
  }

  /** The first `k` edges of a trace. */
  ghost function TraceEdges(edges: seq<CallEdge>, incoming: bool, root: SymbolId, depth: nat, p: CallPath,
                            k: nat): (es: seq<CallEdge>)
    requires IsTrace(edges, incoming, root, depth, p) && k <= |p.edgeIds|
    ensures |es| == k && forall i :: 0 <= i < k ==>
              es[i] in edges && es[i].id == p.edgeIds[i] && Leads(incoming, es[i], p.symbolIds[i], p.symbolIds[i + 1])
  {
    if k == 0 then []
    else
      assert SomeLeads(edges, incoming, p.edgeIds[k - 1], p.symbolIds[k - 1], p.symbolIds[k - 1 + 1]);
      var e :| e in edges && e.id == p.edgeIds[k - 1] && Leads(incoming, e, p.symbolIds[k - 1], p.symbolIds[k - 1 + 1]);
      TraceEdges(edges, incoming, root, depth, p, k - 1) + [e]
  }

  lemma TraceFollows(edges: seq<CallEdge>, dir: Direction, root: SymbolId, depth: nat, es: seq<CallEdge>, p: CallPath)
    requires IsTrace(edges, dir.Incoming?, root, depth, p) && |es| == |p.edgeIds|
    requires forall i :: 0 <= i < |es| ==>
               && es[i] in edges && es[i].id == p.edgeIds[i]
               && Leads(dir.Incoming?, es[i], p.symbolIds[i], p.symbolIds[i + 1])
    ensures Continues(edges, dir, Start(root), depth, p)
  {
    var n := |es|;
    assert Elements(es) <= Elements(edges);
    assert p.symbolIds[..1] == [root];
    assert p.edgeIds == [] + seq(n, i requires 0 <= i < n => es[i].id);
    forall i | 0 <= i < n
      ensures Source(dir, es[i]) == p.symbolIds[1 + i - 1] && Target(dir, es[i]) == p.symbolIds[1 + i]
    {
      assert Leads(dir.Incoming?, es[i], p.symbolIds[i], p.symbolIds[i + 1]);
    }
    assert p.symbolIds[n] in p.symbolIds[..n] <==> exists i :: 0 <= i < n && p.symbolIds[i] == p.symbolIds[n];
    assert Follows(dir, Start(root), es, p);
  }

  // ---- Which paths a truncated search keeps ----

  /** The neighbours of a symbol are looked at by file, line, callee and id. */
  ghost predicate Sooner(e: CallEdge, f: CallEdge) {
    if e.filePath != f.filePath then StrLe(e.filePath, f.filePath)
    else if e.startLine != f.startLine then e.startLine < f.startLine
    else if e.callee != f.callee then StrLe(e.callee, f.callee)
    else StrLe(e.id, f.id)
  }

  /** After `c` common edges `p` goes on along `e` and `q` along `f`. */
  ghost predicate Part(edges: seq<CallEdge>, p: CallPath, q: CallPath, c: nat, e: CallEdge, f: CallEdge) {
    && c < |p.edgeIds| && c < |q.edgeIds| && p.edgeIds[..c] == q.edgeIds[..c]
    && e in edges && f in edges && e.id == p.edgeIds[c] && f.id == q.edgeIds[c] && e.id != f.id
  }

  /** A path is listed before those that go on from it. Where two paths part, one that ends there comes first,
      the later edge first when both do; and of two that go on, the one along the sooner edge. */
  ghost predicate ListedFirst(edges: seq<CallEdge>, p: CallPath, q: CallPath) {
    || p.edgeIds < q.edgeIds
    || exists c: nat, e, f :: Part(edges, p, q, c, e, f)
         && if |p.edgeIds| == c + 1 then |q.edgeIds| > c + 1 || Sooner(f, e) else |q.edgeIds| > c + 1 && Sooner(e, f)
  }

  ghost predicate InListedOrder(edges: seq<CallEdge>, ps: seq<CallPath>) {
    forall i, j :: 0 <= i < j < |ps| ==> ListedFirst(edges, ps[i], ps[j])
  }

  lemma ListedJoin(edges: seq<CallEdge>, ps: seq<CallPath>, qs: seq<CallPath>)
    requires InListedOrder(edges, ps) && InListedOrder(edges, qs)
    requires forall p, q :: p in ps && q in qs ==> ListedFirst(edges, p, q)
    ensures InListedOrder(edges, ps + qs)
  {
    hide ListedFirst;
  }

  /** The neighbours are input edges from the item's end, sooner ones first, with different ids. */
  ghost predicate AreNeighbors(edges: seq<CallEdge>, es: seq<CallEdge>) {
    && (forall e :: e in es ==> e in edges)
    && (forall i, j :: 0 <= i < j < |es| ==> es[i].id != es[j].id && Sooner(es[i], es[j]))
  }

  lemma EdgeLeIsOrder()
    ensures TotalOrder(EdgeLe)
  {
    hide ListLe, StrLe;
    StrLeIsOrder();
    forall a: CallEdge, b: CallEdge ensures ListLe([a.callee, a.id], [b.callee, b.id])
                                            || ListLe([b.callee, b.id], [a.callee, a.id]) {
      ListLeTotal([a.callee, a.id], [b.callee, b.id]);
    }
    forall a: CallEdge, b: CallEdge, c: CallEdge
      | ListLe([a.callee, a.id], [b.callee, b.id]) && ListLe([b.callee, b.id], [c.callee, c.id])
      ensures ListLe([a.callee, a.id], [c.callee, c.id])
    {
      ListLeTransitive([a.callee, a.id], [b.callee, b.id], [c.callee, c.id]);
    }
  }

  lemma EdgeLeIsSooner(e: CallEdge, f: CallEdge)
    ensures EdgeLe(e, f) <==> Sooner(e, f)
  {
    hide StrLe, ListLe;
    PairsLe(e.callee, e.id, f.callee, f.id);
  }

  lemma PairsLe(a: string, b: string, c: string, d: string)
    ensures ListLe([a, b], [c, d]) <==> if a == c then StrLe(b, d) else StrLe(a, c)
  {
    assert [a, b][1..] == [b] && [c, d][1..] == [d] && [b][1..] == [] && [d][1..] == [];
    StrLeTotal(b, b);
    assert ListLe([b], [d]) <==> if b == d then ListLe([b][1..], [d][1..]) else StrLe(b, d);
    assert ListLe([a, b], [c, d]) <==> if a == c then ListLe([a, b][1..], [c, d][1..]) else StrLe(a, c);
    hide StrLe;
  }

  lemma NeighborsAre(edges: seq<CallEdge>, dir: Direction, item: CallPath)
    requires UniqueIds(edges) && item.symbolIds != []
    ensures AreNeighbors(edges, Neighbors(AdjacencyOf(edges, dir), item))
  {
    var es := Neighbors(AdjacencyOf(edges, dir), item);
    var key := item.symbolIds[|item.symbolIds| - 1];
    NeighborsDistinct(edges, dir, item);
    EdgeLeIsOrder();
    SortedIsSorted(EdgeLe, EdgesFrom(edges, dir, key));
    hide EdgeLe, Sooner;
    forall e | e in es ensures e in edges { NeighborsExact(edges, dir, item, e); }
    forall i, j | 0 <= i < j < |es| ensures es[i].id != es[j].id && Sooner(es[i], es[j]) {
      EdgeLeIsSooner(es[i], es[j]);
    }
  }

  /** `p` goes on from `item` along `e`, and further. */
  ghost predicate GoesOnAlong(item: CallPath, e: CallEdge, p: CallPath) {
    |p.edgeIds| > |item.edgeIds| + 1 && p.edgeIds[..|item.edgeIds| + 1] == item.edgeIds + [e.id]
  }

  lemma DescendOneGoesOn(edges: seq<CallEdge>, dir: Direction, item: CallPath, room: nat, e: CallEdge, p: CallPath)
    requires item.symbolIds != [] && p in DescendOne(AdjacencyOf(edges, dir), dir, Step(dir, item, e), room)
    ensures GoesOnAlong(item, e, p)
  {
    hide AdjacencyOf, Walks, Continues, Visit;
    var next, adj := Step(dir, item, e), AdjacencyOf(edges, dir);
    VisitIsWalks(adj, dir, next, room);
    assert p in multiset(Visit(adj, dir, next, room));
    WalksExact(edges, dir, next, room, p);
    ContinuesLonger(edges, dir, next, room, p);
  }

  lemma GoOnListed(edges: seq<CallEdge>, item: CallPath, e: CallEdge, p: CallPath, f: CallEdge, q: CallPath)
    requires e in edges && f in edges && e.id != f.id && Sooner(e, f)
    requires GoesOnAlong(item, e, p) && GoesOnAlong(item, f, q)
    ensures ListedFirst(edges, p, q)
  {
    var n := |item.edgeIds|;
    assert p.edgeIds[n] == p.edgeIds[..n + 1][n] && q.edgeIds[n] == q.edgeIds[..n + 1][n];
    assert p.edgeIds[..n] == p.edgeIds[..n + 1][..n] && q.edgeIds[..n] == q.edgeIds[..n + 1][..n];
    assert Part(edges, p, q, n, e, f);
  }

  lemma StepListed(edges: seq<CallEdge>, dir: Direction, item: CallPath, e: CallEdge, f: CallEdge, q: CallPath)
    requires e in edges && f in edges && (e == f || e.id != f.id) && GoesOnAlong(item, f, q)
    ensures ListedFirst(edges, Step(dir, item, e), q)
  {
    var n, p := |item.edgeIds|, Step(dir, item, e);
    if e == f {
      assert p.edgeIds == q.edgeIds[..n + 1];
    } else {
      assert p.edgeIds[..n] == item.edgeIds;
      assert q.edgeIds[n] == q.edgeIds[..n + 1][n] && q.edgeIds[..n] == q.edgeIds[..n + 1][..n];
      assert Part(edges, p, q, n, e, f);
    }
  }

  lemma {:induction false} StepsBackAre(dir: Direction, item: CallPath, es: seq<CallEdge>)
    ensures |StepsBack(dir, item, es)| == |es|
    ensures forall i :: 0 <= i < |es| ==> StepsBack(dir, item, es)[i] == Step(dir, item, es[|es| - 1 - i])
  {
    hide Step;
    if es != [] {
      var init := es[..|es| - 1];
      StepsBackAre(dir, item, init);
      forall i | 0 <= i < |es| ensures StepsBack(dir, item, es)[i] == Step(dir, item, es[|es| - 1 - i]) {
        if i > 0 { assert StepsBack(dir, item, es)[i] == StepsBack(dir, item, init)[i - 1]; }
      }
    }
  }

  lemma StepsListed(edges: seq<CallEdge>, dir: Direction, item: CallPath, es: seq<CallEdge>)
    requires AreNeighbors(edges, es)
    ensures InListedOrder(edges, StepsBack(dir, item, es))
  {
    StepsBackAre(dir, item, es);
    hide StepsBack, Sooner;
    var ps, n := StepsBack(dir, item, es), |item.edgeIds|;
    forall i, j | 0 <= i < j < |ps| ensures ListedFirst(edges, ps[i], ps[j]) {
      var e, f := es[|es| - 1 - i], es[|es| - 1 - j];
      assert Sooner(f, e) && e in es && f in es;
      assert ps[i].edgeIds == item.edgeIds + [e.id] && ps[j].edgeIds == item.edgeIds + [f.id];
      assert Part(edges, ps[i], ps[j], n, e, f);
    }
  }

  lemma DescendListed(edges: seq<CallEdge>, dir: Direction, item: CallPath, room: nat, es: seq<CallEdge>)
    requires UniqueIds(edges) && room > 0 && item.symbolIds != [] && AreNeighbors(edges, es)
    ensures var ps := Descend(AdjacencyOf(edges, dir), dir, item, room, es);
            && InListedOrder(edges, ps)
            && forall p :: p in ps ==> exists e :: e in es && GoesOnAlong(item, e, p)
    decreases room, 0, |es|
  {
    hide AdjacencyOf, Visit, Sooner, ListedFirst, UniqueIds, GoesOnAlong, DescendOne;
    if es != [] {
      var adj, init, last := AdjacencyOf(edges, dir), es[..|es| - 1], es[|es| - 1];
      assert es == init + [last];
      DescendListed(edges, dir, item, room, init);
      DescendOneListed(edges, dir, Step(dir, item, last), room - 1);
      var before, one := Descend(adj, dir, item, room, init), DescendOne(adj, dir, Step(dir, item, last), room - 1);
      forall q | q in one ensures GoesOnAlong(item, last, q) {
        DescendOneGoesOn(edges, dir, item, room - 1, last, q);
      }
      LastComesLast(edges, item, es, before, one);
      ListedJoin(edges, before, one);
    }
  }

  /** What goes on along the last edge comes after what goes on along the others. */
  lemma LastComesLast(edges: seq<CallEdge>, item: CallPath, es: seq<CallEdge>, ps: seq<CallPath>, qs: seq<CallPath>)
    requires es != [] && AreNeighbors(edges, es)
    requires forall p :: p in ps ==> exists e :: e in es[..|es| - 1] && GoesOnAlong(item, e, p)
    requires forall q :: q in qs ==> GoesOnAlong(item, es[|es| - 1], q)
    ensures forall p, q :: p in ps && q in qs ==> ListedFirst(edges, p, q)
  {
    hide Sooner, ListedFirst, GoesOnAlong;
    forall p, q | p in ps && q in qs ensures ListedFirst(edges, p, q) {
      var e :| e in es[..|es| - 1] && GoesOnAlong(item, e, p);
      var k :| 0 <= k < |es| - 1 && es[..|es| - 1][k] == e;
      assert es[k] == e;
      GoOnListed(edges, item, e, p, es[|es| - 1], q);
    }
  }

  lemma DescendOneListed(edges: seq<CallEdge>, dir: Direction, p: CallPath, room: nat)
    requires UniqueIds(edges) && p.symbolIds != []
    ensures InListedOrder(edges, DescendOne(AdjacencyOf(edges, dir), dir, p, room))
    decreases room, 2, 0
  {
    hide AdjacencyOf, Visit, UniqueIds;
    VisitListed(edges, dir, p, room);
  }

  lemma VisitListed(edges: seq<CallEdge>, dir: Direction, item: CallPath, room: nat)
    requires UniqueIds(edges) && item.symbolIds != []
    ensures InListedOrder(edges, Visit(AdjacencyOf(edges, dir), dir, item, room))
    decreases room, 1, 0
  {
    hide AdjacencyOf, Neighbors, Sooner, ListedFirst, UniqueIds, GoesOnAlong, Descend, StepsBack, Step;
    if room > 0 {
      var adj := AdjacencyOf(edges, dir);
      var es := Neighbors(adj, item);
      NeighborsAre(edges, dir, item);
      StepsListed(edges, dir, item, es);
      DescendListed(edges, dir, item, room, es);
      StepsBackAre(dir, item, es);
      var steps, further := StepsBack(dir, item, es), Descend(adj, dir, item, room, es);
      forall p, q | p in steps && q in further ensures ListedFirst(edges, p, q) {
        var i :| 0 <= i < |steps| && steps[i] == p;
        var f :| f in es && GoesOnAlong(item, f, q);
        var k :| 0 <= k < |es| && es[k] == f;
        StepListed(edges, dir, item, es[|es| - 1 - i], f, q);
      }
      ListedJoin(edges, steps, further);
    }
  }

  /** With unique ids a truncated result holds the paths that are listed first. */
  lemma KeptAreListedFirst(edges: seq<CallEdge>, dir: Direction, root: SymbolId, depth: nat, bound: nat)
    requires UniqueIds(edges) && bound <= |InOrder(edges, dir, root, depth)|
    ensures var paths := InOrder(edges, dir, root, depth)[..bound];
            && InListedOrder(edges, paths)
            && forall p, q :: p in paths && IsTrace(edges, dir.Incoming?, root, depth, q) && q !in paths ==>
                 ListedFirst(edges, p, q)
  {
    hide AdjacencyOf, Visit, UniqueIds, IsTrace, ListedFirst;
    var all := InOrder(edges, dir, root, depth);
    VisitListed(edges, dir, Start(root), depth);
    InOrderTraces(edges, dir, root, depth);
    assert all == all[..bound] + all[bound..];
    forall p, q | p in all[..bound] && q in all && q !in all[..bound] ensures ListedFirst(edges, p, q) {
      var i :| 0 <= i < bound && all[i] == p;
      assert q in all[bound..];
      var j :| 0 <= j < |all| - bound && all[bound..][j] == q;
      assert all[bound + j] == q;
    }
  }
}
