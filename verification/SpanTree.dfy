/** `buildSpanTree` and `flattenSpanTree` (`frontend/src/lib/trace-tree.ts:37-101`) on linked nodes,
    proved to build and list the forest of `SpanForest`. */
module SpanTree {
  import opened Wrappers
  import opened Ordering
  import opened SpanForest

  class SpanNode {
    const span: Span
    var depth: nat
    var children: seq<SpanNode>

    constructor (span: Span)
      ensures this.span == span && depth == 0 && children == []
    {
      this.span, depth, children := span, 0, [];
    }
  }

  datatype SpanRow = SpanRow(span: Span, depth: nat)

  // ---- Nodes and positions ----

  ghost function At(nodes: seq<SpanNode>, ps: seq<nat>): (r: seq<SpanNode>)
    requires forall p: nat :: p in ps ==> p < |nodes|
  {
    seq(|ps|, k requires 0 <= k < |ps| => assert ps[k] in ps; nodes[ps[k]])
  }

  /** One node for each span, all different. */
  ghost predicate Nodes(spans: seq<Span>, nodes: seq<SpanNode>) {
    && |nodes| == |spans| && NoDuplicates(nodes)
    && forall i :: 0 <= i < |spans| ==> nodes[i].span == spans[i]
  }

  predicate NodeLe(a: SpanNode, b: SpanNode) {
    NoLater(a.span.startedAt, b.span.startedAt)
  }

  lemma {:induction false} InsertAt(spans: seq<Span>, nodes: seq<SpanNode>, p: nat, ps: seq<nat>)
    requires Nodes(spans, nodes) && p < |nodes| && forall q: nat :: q in ps ==> q < |nodes|
    ensures forall q: nat :: q in Insert(Le(spans), p, ps) ==> q < |nodes|
    ensures Insert(NodeLe, nodes[p], At(nodes, ps)) == At(nodes, Insert(Le(spans), p, ps))
  {
    if ps != [] {
      assert ps[0] in ps && forall p :: p in ps[1..] ==> p in ps;
      assert At(nodes, ps)[1..] == At(nodes, ps[1..]);
      InsertAt(spans, nodes, p, ps[1..]);
    }
  }

  lemma {:induction false} SortedAt(spans: seq<Span>, nodes: seq<SpanNode>, ps: seq<nat>)
    requires Nodes(spans, nodes) && forall q: nat :: q in ps ==> q < |nodes|
    ensures forall q: nat :: q in Sorted(Le(spans), ps) ==> q < |nodes|
    ensures Sorted(NodeLe, At(nodes, ps)) == At(nodes, Sorted(Le(spans), ps))
  {
    if ps != [] {
      assert ps[0] in ps && forall p :: p in ps[1..] ==> p in ps;
      assert At(nodes, ps)[1..] == At(nodes, ps[1..]);
      SortedAt(spans, nodes, ps[1..]);
      InsertAt(spans, nodes, ps[0], Sorted(Le(spans), ps[1..]));
    }
  }

  // ---- Building ----

  lemma OwnerStep(spans: seq<Span>, i: nat)
    requires i < |spans|
    ensures forall id :: Owner(spans[..i + 1], id) ==
              if Owner(spans[..i], id).Some? then Owner(spans[..i], id)
              else if spans[i].spanId == id then Some(i) else None
    ensures forall k :: 0 <= k < i ==> (OwnsId(spans[..i + 1], k) <==> OwnsId(spans[..i], k))
    ensures OwnsId(spans[..i + 1], i) <==> Owner(spans[..i], spans[i].spanId).None?
  {
    assert spans[..i + 1][..i] == spans[..i];
  }

  /** The dictionary leads from each id to the node of its owner. */
  ghost predicate Indexed(spans: seq<Span>, nodes: seq<SpanNode>, byId: map<string, SpanNode>)
    requires |nodes| == |spans|
  {
    && (forall id :: id in byId <==> Owner(spans, id).Some?)
    && (forall id :: id in byId ==> byId[id] == nodes[Owner(spans, id).value])
  }

  ghost predicate Registers(spans: seq<Span>, nodes: seq<SpanNode>, registered: set<SpanNode>)
    requires |nodes| == |spans|
  {
    && (forall i :: 0 <= i < |nodes| ==> (nodes[i] in registered <==> OwnsId(spans, i)))
    && (forall n :: n in registered ==> n in nodes)
  }

  lemma IndexStep(spans: seq<Span>, nodes: seq<SpanNode>, i: nat, node: SpanNode, byId: map<string, SpanNode>,
                  registered: set<SpanNode>)
    requires i < |spans| && Nodes(spans[..i], nodes) && node !in nodes && node.span == spans[i]
    requires Indexed(spans[..i], nodes, byId) && Registers(spans[..i], nodes, registered)
    ensures Nodes(spans[..i + 1], nodes + [node])
    ensures var id := spans[i].spanId;
            && Indexed(spans[..i + 1], nodes + [node], if id in byId then byId else byId[id := node])
            && Registers(spans[..i + 1], nodes + [node], if id in byId then registered else registered + {node})
  {
    hide Owner, OwnsId;
    OwnerStep(spans, i);
  }

  /** The first loop: a node for each span, and the first node for each id. */
  method CreateNodes(spans: seq<Span>)
    returns (nodes: seq<SpanNode>, byId: map<string, SpanNode>, registered: set<SpanNode>)
    ensures Nodes(spans, nodes) && fresh(nodes)
    ensures forall i :: 0 <= i < |nodes| ==> nodes[i].children == [] && nodes[i].depth == 0
    ensures Indexed(spans, nodes, byId) && Registers(spans, nodes, registered)
  {
    hide Nodes, Indexed, Registers;
    nodes, byId, registered := [], map[], {};
    NoNodes();
    for i := 0 to |spans|
      invariant |nodes| == i && Nodes(spans[..i], nodes) && fresh(nodes)
      invariant forall k :: 0 <= k < i ==> nodes[k].children == [] && nodes[k].depth == 0
      invariant Indexed(spans[..i], nodes, byId) && Registers(spans[..i], nodes, registered)
    {
      var node := new SpanNode(spans[i]);
      IndexStep(spans, nodes, i, node, byId, registered);
      nodes := nodes + [node];
      if spans[i].spanId !in byId {
        byId := byId[spans[i].spanId := node];
        registered := registered + {node};
      }
    }
    assert spans[..|spans|] == spans;
  }

  lemma NoNodes()
    ensures Nodes([], []) && Indexed([], [], map[]) && Registers([], [], {})
  {}

  /** The second loop: each node joins its parent's children or the roots. */
  method Attach(spans: seq<Span>, nodes: seq<SpanNode>, byId: map<string, SpanNode>, registered: set<SpanNode>)
    returns (roots: seq<SpanNode>)
    requires |nodes| == |spans| && Nodes(spans, nodes) && Indexed(spans, nodes, byId)
    requires Registers(spans, nodes, registered)
    requires forall i :: 0 <= i < |nodes| ==> nodes[i].children == []
    modifies nodes`children
    ensures forall j :: 0 <= j < |nodes| ==> nodes[j].children == At(nodes, Listed(spans, Some(j), |spans|))
    ensures roots == At(nodes, Listed(spans, None, |spans|))
  {
    hide Nodes, Indexed, Registers, Parent, Owner, OwnsId, Listed, At;
    roots := [];
    NothingListed(spans, nodes);
    for i := 0 to |nodes|
      invariant forall j :: 0 <= j < |nodes| ==> nodes[j].children == At(nodes, Listed(spans, Some(j), i))
      invariant roots == At(nodes, Listed(spans, None, i))
    {
      var node := nodes[i];
      forall j | 0 <= j < |nodes| { ListedNext(spans, nodes, i, Some(j)); }
      ListedNext(spans, nodes, i, None);
      ParentNode(spans, nodes, byId, registered, i);
      var parentId := node.span.parentSpanId;
      if parentId.Some? && parentId.value != node.span.spanId && parentId.value in byId
         && byId[parentId.value] != node && node in registered {
        var parent := byId[parentId.value];
        parent.children := parent.children + [node];
      } else {
        roots := roots + [node];
      }
    }
  }

  lemma NothingListed(spans: seq<Span>, nodes: seq<SpanNode>)
    requires |nodes| == |spans|
    ensures forall parent :: At(nodes, Listed(spans, parent, 0)) == []
  {}

  lemma ListedNext(spans: seq<Span>, nodes: seq<SpanNode>, i: nat, parent: Option<nat>)
    requires i < |spans| == |nodes|
    ensures At(nodes, Listed(spans, parent, i + 1)) ==
            At(nodes, Listed(spans, parent, i)) + if Parent(spans, i) == parent then [nodes[i]] else []
  {}

  /** What the condition of the loop decides. */
  lemma ParentNode(spans: seq<Span>, nodes: seq<SpanNode>, byId: map<string, SpanNode>, registered: set<SpanNode>,
                   i: nat)
    requires Nodes(spans, nodes) && Indexed(spans, nodes, byId) && Registers(spans, nodes, registered)
    requires i < |nodes| == |spans|
    ensures nodes[i].span == spans[i] && NoDuplicates(nodes)
    ensures var p := spans[i].parentSpanId;
            var joins := p.Some? && p.value != spans[i].spanId && p.value in byId
                         && byId[p.value] != nodes[i] && nodes[i] in registered;
            && (joins <==> Parent(spans, i).Some?)
            && (joins ==> nodes[Parent(spans, i).value] == byId[p.value])
  {}

  /** Every node's children are the sorted children of its span. */
  ghost predicate Linked(spans: seq<Span>, nodes: seq<SpanNode>)
    reads nodes
  {
    |nodes| == |spans| && forall j :: 0 <= j < |nodes| ==> nodes[j].children == At(nodes, Children(spans, j))
  }

  lemma SortedLevel(spans: seq<Span>, nodes: seq<SpanNode>, parent: Option<nat>)
    requires Nodes(spans, nodes)
    ensures forall q: nat :: q in Sorted(Le(spans), Listed(spans, parent, |spans|)) ==> q < |nodes|
    ensures Sorted(NodeLe, At(nodes, Listed(spans, parent, |spans|)))
            == At(nodes, Sorted(Le(spans), Listed(spans, parent, |spans|)))
  {
    SortedAt(spans, nodes, Listed(spans, parent, |spans|));
  }

  /** `sortLevel` on the children of every node. */
  method SortChildren(spans: seq<Span>, nodes: seq<SpanNode>)
    requires |nodes| == |spans| && Nodes(spans, nodes)
    requires forall j :: 0 <= j < |nodes| ==> nodes[j].children == At(nodes, Listed(spans, Some(j), |spans|))
    modifies nodes`children
    ensures Linked(spans, nodes)
  {
    hide Listed, At, Sorted, Le;
    for i := 0 to |nodes|
      invariant forall j :: 0 <= j < i ==> nodes[j].children == At(nodes, Children(spans, j))
      invariant forall j :: i <= j < |nodes| ==> nodes[j].children == At(nodes, Listed(spans, Some(j), |spans|))
    {
      SortedLevel(spans, nodes, Some(i));
      nodes[i].children := Sorted(NodeLe, nodes[i].children);
    }
  }

  // ---- The reachability walk ----

  ghost predicate Marks(nodes: seq<SpanNode>, visited: set<SpanNode>, seen: set<nat>) {
    && (forall p :: p in seen ==> p < |nodes|)
    && (forall i :: 0 <= i < |nodes| ==> (nodes[i] in visited <==> i in seen))
  }

  /** Whatever was newly seen has its children seen as well. */
  ghost predicate ClosedSince(spans: seq<Span>, before: set<nat>, seen: set<nat>) {
    forall v :: v in seen && v !in before ==> forall c :: c in Children(spans, v) ==> c in seen
  }

  ghost predicate AllRooted(spans: seq<Span>, seen: set<nat>) {
    forall v :: v in seen ==> v < |spans| && Rooted(spans, v)
  }

  ghost predicate DepthsSet(spans: seq<Span>, nodes: seq<SpanNode>, seen: set<nat>)
    reads nodes
  {
    |nodes| == |spans| && forall v :: v in seen ==> v < |spans| && nodes[v].depth == Level(spans, v)
  }

  method Walk(spans: seq<Span>, nodes: seq<SpanNode>, ghost i: nat, node: SpanNode, depth: nat,
              visited: set<SpanNode>, ghost seen: set<nat>)
    returns (visited': set<SpanNode>, ghost seen': set<nat>)
    requires Nodes(spans, nodes) && Linked(spans, nodes) && i < |spans| && node == nodes[i]
    requires Rooted(spans, i) && depth == Depth(spans, i)
    requires Marks(nodes, visited, seen) && AllRooted(spans, seen) && DepthsSet(spans, nodes, seen)
    modifies nodes`depth
    ensures Marks(nodes, visited', seen') && AllRooted(spans, seen') && DepthsSet(spans, nodes, seen')
    ensures seen <= seen' && i in seen' && ClosedSince(spans, seen, seen')
    decreases AllPositions(|spans|) - seen
  {
    hide Nodes, Rooted, Depth, Children, Level, Marks, AllRooted, ClosedSince;
    ClosedNone(spans, seen);
    ClosedNone(spans, seen + {i});
    if node in visited {
      MarkedIsSeen(nodes, visited, seen, i);
      return visited, seen;
    }
    EnterNode(spans, nodes, visited, seen, i);
    visited' := visited + {node};
    seen' := seen + {i};
    node.depth := depth;
    DepthOfRooted(spans, nodes, seen, i);
    ghost var children := Children(spans, i);
    for k := 0 to |node.children|
      invariant Marks(nodes, visited', seen') && AllRooted(spans, seen') && DepthsSet(spans, nodes, seen')
      invariant seen + {i} <= seen' && ClosedSince(spans, seen + {i}, seen')
      invariant forall l :: 0 <= l < k ==> children[l] in seen'
    {
      assert children[k] in children;
      ChildRoom(spans, i, children[k]);
      ghost var before := seen';
      visited', seen' := Walk(spans, nodes, children[k], node.children[k], depth + 1, visited', seen');
      ClosedOn(spans, seen + {i}, before, seen');
    }
    ClosedNode(spans, seen, i, seen');
  }

  lemma ClosedNone(spans: seq<Span>, seen: set<nat>)
    ensures ClosedSince(spans, seen, seen)
  {}

  lemma ClosedOn(spans: seq<Span>, a: set<nat>, b: set<nat>, c: set<nat>)
    requires ClosedSince(spans, a, b) && ClosedSince(spans, b, c) && b <= c
    ensures ClosedSince(spans, a, c)
  {
    hide Children;
  }

  lemma ClosedNode(spans: seq<Span>, seen: set<nat>, i: nat, seen': set<nat>)
    requires i < |spans| && ClosedSince(spans, seen + {i}, seen') && forall l :: 0 <= l < |Children(spans, i)| ==>
               Children(spans, i)[l] in seen'
    ensures ClosedSince(spans, seen, seen')
  {
    hide Children;
  }

  ghost function AllPositions(n: nat): (r: set<nat>)
    ensures forall i: nat :: i in r <==> i < n
  {
    if n == 0 then {} else AllPositions(n - 1) + {n - 1}
  }

  lemma MarkedIsSeen(nodes: seq<SpanNode>, visited: set<SpanNode>, seen: set<nat>, i: nat)
    requires Marks(nodes, visited, seen) && i < |nodes|
    ensures nodes[i] in visited <==> i in seen
  {}

  lemma EnterNode(spans: seq<Span>, nodes: seq<SpanNode>, visited: set<SpanNode>, seen: set<nat>, i: nat)
    requires Nodes(spans, nodes) && Marks(nodes, visited, seen) && AllRooted(spans, seen)
    requires i < |spans| && Rooted(spans, i) && nodes[i] !in visited
    ensures i !in seen && i in AllPositions(|spans|)
    ensures forall v :: v in seen ==> v < |spans| && nodes[v] != nodes[i]
    ensures Marks(nodes, visited + {nodes[i]}, seen + {i}) && AllRooted(spans, seen + {i})
  {
    hide Rooted;
  }

  lemma DepthOfRooted(spans: seq<Span>, nodes: seq<SpanNode>, seen: set<nat>, i: nat)
    requires i < |spans| && Rooted(spans, i)
    ensures Level(spans, i) == Depth(spans, i)
  {}

  // ---- After the walk from the roots ----

  /** A closed set that holds the parentless spans holds every rooted one. */
  lemma {:induction false} RootedIsSeen(spans: seq<Span>, seen: set<nat>, i: nat)
    requires ClosedSince(spans, {}, seen) && i < |spans| && Rooted(spans, i)
    requires forall r: nat :: r in Listed(spans, None, |spans|) ==> r in seen
    ensures i in seen
    decreases Depth(spans, i)
  {
    RootedStep(spans, i);
    if Parent(spans, i).None? {
      ListedExact(spans, None, |spans|);
    } else {
      var p := Parent(spans, i).value;
      RootedIsSeen(spans, seen, p);
      ChildrenExact(spans, p);
    }
  }

  method WalkRoots(spans: seq<Span>, nodes: seq<SpanNode>, roots: seq<SpanNode>) returns (visited: set<SpanNode>)
    requires Nodes(spans, nodes) && Linked(spans, nodes)
    requires forall q: nat :: q in Sorted(Le(spans), Listed(spans, None, |spans|)) ==> q < |nodes|
    requires roots == At(nodes, Sorted(Le(spans), Listed(spans, None, |spans|)))
    modifies nodes`depth
    ensures Linked(spans, nodes)
    ensures forall i :: 0 <= i < |nodes| ==> (nodes[i] in visited <==> Rooted(spans, i))
    ensures forall i :: 0 <= i < |nodes| && Rooted(spans, i) ==> nodes[i].depth == Level(spans, i)
  {
    hide Nodes, Rooted, Depth, Children, Level, Listed, Sorted;
    visited := {};
    ghost var seen: set<nat> := {};
    ghost var tops: seq<nat> := Sorted(Le(spans), Listed(spans, None, |spans|));
    TopsAreRoots(spans);
    for k := 0 to |roots|
      invariant Marks(nodes, visited, seen) && AllRooted(spans, seen) && DepthsSet(spans, nodes, seen)
      invariant ClosedSince(spans, {}, seen) && forall l :: 0 <= l < k ==> tops[l] in seen
    {
      assert tops[k] in tops;
      visited, seen := Walk(spans, nodes, tops[k], roots[k], 0, visited, seen);
    }
    assert forall r: nat :: r in tops ==> r in seen;
    forall i: nat | i < |spans| ensures i in seen <==> Rooted(spans, i) {
      if Rooted(spans, i) { RootedIsSeen(spans, seen, i); }
    }
  }

  lemma TopsAreRoots(spans: seq<Span>)
    ensures var tops: seq<nat> := Sorted(Le(spans), Listed(spans, None, |spans|));
            && (forall r: nat :: r in tops <==> r in Listed(spans, None, |spans|))
            && (forall r: nat :: r in tops ==> r < |spans| && Rooted(spans, r) && Depth(spans, r) == 0)
  {
    hide Rooted, Depth, Listed, Sorted, Le, NoDuplicates;
    SortedIsPermutation(Le(spans), Listed(spans, None, |spans|));
    ListedExact(spans, None, |spans|);
    forall r: nat | r in Listed(spans, None, |spans|) ensures Rooted(spans, r) && Depth(spans, r) == 0 {
      RootedStep(spans, r);
    }
  }

  /** The built forest: every node has its span's place, and the roots come in order. */
  ghost predicate Built(spans: seq<Span>, nodes: seq<SpanNode>, roots: seq<SpanNode>)
    reads nodes
  {
    && Nodes(spans, nodes) && roots == At(nodes, Roots(spans))
    && forall i :: 0 <= i < |nodes| ==>
         nodes[i].children == At(nodes, Kids(spans, i)) && nodes[i].depth == Level(spans, i)
  }

  /** The last loop: whatever the walk did not reach becomes a root without children. */
  method AdoptUnreached(spans: seq<Span>, nodes: seq<SpanNode>, roots0: seq<SpanNode>, visited0: set<SpanNode>)
    returns (roots: seq<SpanNode>)
    requires Nodes(spans, nodes) && Linked(spans, nodes)
    requires forall i :: 0 <= i < |nodes| ==> (nodes[i] in visited0 <==> Rooted(spans, i))
    requires forall i :: 0 <= i < |nodes| && Rooted(spans, i) ==> nodes[i].depth == Level(spans, i)
    modifies nodes`depth, nodes`children
    ensures roots == roots0 + At(nodes, Adopted(spans, |spans|))
    ensures forall i :: 0 <= i < |nodes| ==>
              nodes[i].children == At(nodes, Kids(spans, i)) && nodes[i].depth == Level(spans, i)
  {
    hide Rooted, Depth, Children, Adopted, EndsAfter;
    roots := roots0;
    var visited := visited0;
    NothingAdopted(spans, nodes);
    for i := 0 to |nodes|
      invariant roots == roots0 + At(nodes, Adopted(spans, i))
      invariant forall j :: 0 <= j < |nodes| ==> (nodes[j] in visited <==> Rooted(spans, j) || j < i)
      invariant forall j :: 0 <= j < i ==>
                  nodes[j].children == At(nodes, Kids(spans, j)) && nodes[j].depth == Level(spans, j)
      invariant forall j :: i <= j < |nodes| ==> nodes[j].children == At(nodes, Children(spans, j))
      invariant forall j :: i <= j < |nodes| && Rooted(spans, j) ==> nodes[j].depth == Level(spans, j)
    {
      AdoptedNext(spans, nodes, i);
      if nodes[i] !in visited {
        nodes[i].depth := 0;
        nodes[i].children := [];
        roots := roots + [nodes[i]];
      }
      // the walk from a node without children marks just that node, at depth zero
      visited := visited + {nodes[i]};
    }
  }

  lemma NothingAdopted(spans: seq<Span>, nodes: seq<SpanNode>)
    requires |nodes| == |spans|
    ensures At(nodes, Adopted(spans, 0)) == []
  {}

  lemma AdoptedNext(spans: seq<Span>, nodes: seq<SpanNode>, i: nat)
    requires i < |spans| == |nodes|
    ensures At(nodes, Adopted(spans, i + 1)) ==
            At(nodes, Adopted(spans, i)) + if Rooted(spans, i) then [] else [nodes[i]]
    ensures !Rooted(spans, i) ==> At(nodes, Kids(spans, i)) == [] && Level(spans, i) == 0
    ensures Rooted(spans, i) ==> Kids(spans, i) == Children(spans, i)
  {
    hide Rooted;
  }

  method BuildSpanTree(spans: seq<Span>) returns (roots: seq<SpanNode>, ghost nodes: seq<SpanNode>)
    ensures Built(spans, nodes, roots) && fresh(nodes)
  {
    hide Rooted, Depth, Children, Adopted, EndsAfter, Listed, Sorted, Level, Kids, At, Linked;
    var all, byId, registered := CreateNodes(spans);
    roots := Attach(spans, all, byId, registered);
    SortedLevel(spans, all, None);
    roots := Sorted(NodeLe, roots);
    SortChildren(spans, all);
    var visited := WalkRoots(spans, all, roots);
    roots := AdoptUnreached(spans, all, roots, visited);
    RootsAt(spans, all);
    nodes := all;
  }

  lemma RootsAt(spans: seq<Span>, nodes: seq<SpanNode>)
    requires |nodes| == |spans|
    requires forall q: nat :: q in Sorted(Le(spans), Listed(spans, None, |spans|)) ==> q < |nodes|
    ensures At(nodes, Roots(spans)) ==
            At(nodes, Sorted(Le(spans), Listed(spans, None, |spans|))) + At(nodes, Adopted(spans, |spans|))
  {}

  // ---- Flattening ----

  /** The rows as they are shown, with spans in place of positions. */
  ghost function Shown(spans: seq<Span>, rows: seq<Row>): seq<SpanRow>
    requires forall r :: r in rows ==> r.position < |spans|
  {
    seq(|rows|, k requires 0 <= k < |rows| => assert rows[k] in rows; SpanRow(spans[rows[k].position], rows[k].depth))
  }

  lemma ShownJoin(spans: seq<Span>, xs: seq<Row>, ys: seq<Row>)
    requires forall r :: r in xs ==> r.position < |spans|
    requires forall r :: r in ys ==> r.position < |spans|
    ensures forall r :: r in xs + ys ==> r.position < |spans|
    ensures Shown(spans, xs + ys) == Shown(spans, xs) + Shown(spans, ys)
  {}

  method VisitNode(ghost spans: seq<Span>, ghost nodes: seq<SpanNode>, ghost i: nat, node: SpanNode, depth: nat)
    returns (rows: seq<SpanRow>)
    requires Nodes(spans, nodes) && i < |spans| && node == nodes[i]
    requires forall j :: 0 <= j < |nodes| ==> nodes[j].children == At(nodes, Kids(spans, j))
    ensures rows == Shown(spans, Flat(spans, i, depth))
    decreases Room(spans, i)
  {
    hide Rooted, Depth, Children, FlatAll, Flat;
    FlatStart(spans, i, depth);
    rows := [SpanRow(node.span, depth)];
    for k := 0 to |node.children|
      invariant rows == Shown(spans, FlatUpTo(spans, i, depth, k))
    {
      FlatNext(spans, i, depth, k);
      ghost var c := Kids(spans, i)[k];
      var more := VisitNode(spans, nodes, c, node.children[k], depth + 1);
      ShownJoin(spans, FlatUpTo(spans, i, depth, k), Flat(spans, c, depth + 1));
      rows := rows + more;
    }
    FlatEnd(spans, i, depth);
  }

  /** The rows of `i` with its first `k` children. */
  ghost function FlatUpTo(spans: seq<Span>, i: nat, depth: nat, k: nat): (rows: seq<Row>)
    requires i < |spans| && k <= |Kids(spans, i)|
    ensures forall r :: r in rows ==> r.position < |spans|
  {
    if k == 0 then [Row(i, depth)]
    else
      var c := Kids(spans, i)[k - 1];
      assert c in Kids(spans, i);
      FlatUpTo(spans, i, depth, k - 1) + Flat(spans, c, depth + 1)
  }

  lemma FlatStart(spans: seq<Span>, i: nat, depth: nat)
    requires i < |spans|
    ensures Shown(spans, FlatUpTo(spans, i, depth, 0)) == [SpanRow(spans[i], depth)]
  {}

  lemma FlatNext(spans: seq<Span>, i: nat, depth: nat, k: nat)
    requires i < |spans| && k < |Kids(spans, i)|
    ensures var c := Kids(spans, i)[k];
            && c < |spans| && Room(spans, c) < Room(spans, i)
            && FlatUpTo(spans, i, depth, k + 1) == FlatUpTo(spans, i, depth, k) + Flat(spans, c, depth + 1)
  {
    hide Depth, Children, Flat;
    assert Kids(spans, i)[k] in Kids(spans, i);
    ChildRoom(spans, i, Kids(spans, i)[k]);
  }

  lemma FlatEnd(spans: seq<Span>, i: nat, depth: nat)
    requires i < |spans|
    ensures FlatUpTo(spans, i, depth, |Kids(spans, i)|) == Flat(spans, i, depth)
  {
    hide Depth, Children, Rooted;
    if Rooted(spans, i) {
      FlatPrefix(spans, i, depth, |Kids(spans, i)|);
      assert Children(spans, i)[..|Kids(spans, i)|] == Children(spans, i);
    }
  }

  lemma {:induction false} FlatPrefix(spans: seq<Span>, i: nat, depth: nat, k: nat)
    requires i < |spans| && Rooted(spans, i) && k <= |Kids(spans, i)|
    ensures AllIn(Children(spans, i)[..k], Children(spans, i))
    ensures FlatUpTo(spans, i, depth, k) == [Row(i, depth)] + FlatAll(spans, i, Children(spans, i)[..k], depth + 1)
  {
    hide Depth, Children, Rooted, Flat;
    if k > 0 {
      FlatPrefix(spans, i, depth, k - 1);
      assert Children(spans, i)[..k][..k - 1] == Children(spans, i)[..k - 1];
    }
  }

  /** Depth-first rows of a built forest. */
  method FlattenSpanTree(ghost spans: seq<Span>, ghost nodes: seq<SpanNode>, roots: seq<SpanNode>)
    returns (rows: seq<SpanRow>)
    requires Built(spans, nodes, roots)
    ensures rows == Shown(spans, FlatRoots(spans, Roots(spans)))
  {
    hide Rooted, Depth, Children, Flat, Roots;
    rows := [];
    ghost var ps := Roots(spans);
    for k := 0 to |roots|
      invariant forall p :: p in ps[..k] ==> p < |spans|
      invariant rows == Shown(spans, FlatRoots(spans, ps[..k]))
    {
      assert ps[k] in ps && ps[..k + 1][..k] == ps[..k] && ps[..k + 1] == ps[..k] + [ps[k]];
      var more := VisitNode(spans, nodes, ps[k], roots[k], 0);
      ShownJoin(spans, FlatRoots(spans, ps[..k]), Flat(spans, ps[k], 0));
      rows := rows + more;
    }
    assert ps[..|roots|] == ps;
  }
}
