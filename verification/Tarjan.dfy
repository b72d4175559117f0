/** The search of `find_recursive_components` (`src/axiom/rag/call_graph.py:179-246`): Tarjan's
    algorithm over the call edges, proved to report exactly the recursive components. */
module Tarjan {
  import opened Ordering
  import opened Digraph
  import opened CallGraph
  import opened TarjanInvariant

  ghost predicate IsLookup(edges: seq<CallEdge>, lookup: EdgeLookup) {
    && (forall k :: k in lookup <==> exists e :: e in edges && (e.caller, e.callee) == k)
    && (forall k :: k in lookup ==> lookup[k] == IdsWithin(edges, {k}))
  }

  ghost predicate Covered(sccs: set<set<SymbolId>>, x: SymbolId) {
    exists c :: c in sccs && x in c
  }

  /** `r` reports one of the components in `sccs`, a recursive one. */
  ghost predicate Justified(edges: seq<CallEdge>, sccs: set<set<SymbolId>>, r: RecursiveComponent) {
    exists c :: c in sccs && IsRecursive(edges, c) && Reports(edges, c, r)
  }

  ghost predicate Reported(edges: seq<CallEdge>, components: seq<RecursiveComponent>, c: set<SymbolId>) {
    exists r :: r in components && Reports(edges, c, r)
  }

  /** Every component popped so far is recorded in `sccs`; the recursive ones are in `components`. */
  ghost predicate Recorded(edges: seq<CallEdge>, done: set<SymbolId>, sccs: set<set<SymbolId>>,
                           components: seq<RecursiveComponent>) {
    && (forall c :: c in sccs ==> IsScc(GraphOf(edges), c) && c <= done)
    && (forall x :: x in done ==> Covered(sccs, x))
    && (forall r :: r in components ==> Justified(edges, sccs, r))
    && (forall c :: c in sccs && IsRecursive(edges, c) ==> Reported(edges, components, c))
    && NoRepeats(components)
  }

  ghost predicate NoRepeats(components: seq<RecursiveComponent>) {
    forall k, l :: 0 <= k < l < |components| ==> components[k].symbolIds != components[l].symbolIds
  }

  ghost predicate Below(indices: map<SymbolId, nat>, bound: nat) {
    forall x :: x in indices ==> indices[x] < bound
  }

  class ComponentSearch {
    ghost const edges: seq<CallEdge>
    const adjacency: Graph
    const edgeLookup: EdgeLookup
    var index: nat
    var stack: seq<SymbolId>
    var onStack: set<SymbolId>
    var indices: map<SymbolId, nat>
    var lowlinks: map<SymbolId, nat>
    var components: seq<RecursiveComponent>
    ghost var sccs: set<set<SymbolId>>
    ghost var done: set<SymbolId>

    ghost function Snap(): Snapshot
      reads this
    {
      Snapshot(stack, indices, done)
    }

    ghost predicate Base()
      reads this
    {
      && adjacency == GraphOf(edges) && IsLookup(edges, edgeLookup)
      && onStack == Elements(stack)
      && Below(indices, index)
      && lowlinks.Keys == indices.Keys
      && Recorded(edges, done, sccs, components)
    }

    ghost predicate Valid(gray: set<SymbolId>)
      reads this
    {
      Base() && WellFormed(adjacency, Snap()) && Colored(adjacency, Snap(), gray)
    }

    constructor (ghost edges: seq<CallEdge>, adjacency: Graph, edgeLookup: EdgeLookup)
      requires adjacency == GraphOf(edges) && IsLookup(edges, edgeLookup)
      ensures Valid({}) && indices == map[] && this.edges == edges && this.adjacency == adjacency
    {
      this.edges, this.adjacency, this.edgeLookup := edges, adjacency, edgeLookup;
      index, stack, onStack, indices, lowlinks, components := 0, [], {}, map[], map[], [];
      sccs, done := {}, {};
    }

    method StrongConnect(node: SymbolId, ghost gray: set<SymbolId>)
      requires Valid(gray) && node in adjacency && node !in indices
      requires forall x :: x in gray ==> Reaches(adjacency, x, node)
      modifies this
      ensures Valid(gray)
      ensures node in lowlinks && Visited(adjacency, old(Snap()), Snap(), node, lowlinks[node])
      ensures indices[node] >= old(index)
      ensures Keeps(old(indices), indices, {}) && Keeps(old(lowlinks), lowlinks, {})
      decreases adjacency.Keys - indices.Keys, 0
    {
      hide WellFormed, Colored, Exploring, Visited, Recorded, IsLookup, GraphOf, Reaches, IsScc, Edge, Keeps;
      ghost var before, open := Snap(), adjacency.Keys - indices.Keys;
      assert node in open;
      StartExploring(adjacency, before, gray, node, index, Snapshot(stack + [node], indices[node := index], done));
      indices := indices[node := index];
      lowlinks := lowlinks[node := index];
      index := index + 1;
      stack := stack + [node];
      onStack := onStack + {node};
      assert adjacency.Keys - indices.Keys == open - {node};
      ghost var numbered, linked := indices, lowlinks;
      ExploreNeighbors(node, before, gray);
      KeepsAfterEntry(old(indices), numbered, indices, node, {});
      KeepsAfterEntry(old(lowlinks), linked, lowlinks, node, {node});
      ExploringRange(adjacency, before, Snap(), gray, node, lowlinks[node], adjacency[node]);
      if lowlinks[node] != indices[node] {
        FinishRetreat(adjacency, before, Snap(), gray, node, lowlinks[node]);
        return;
      }
      PopComponent(node, before, gray);
    }

    method ExploreNeighbors(node: SymbolId, ghost before: Snapshot, ghost gray: set<SymbolId>)
      requires Base() && node in lowlinks && indices[node] == lowlinks[node]
      requires Exploring(adjacency, before, Snap(), gray, node, lowlinks[node], {})
      modifies this
      ensures Base() && node in lowlinks && node in adjacency
      ensures Exploring(adjacency, before, Snap(), gray, node, lowlinks[node], adjacency[node])
      ensures Keeps(old(indices), indices, {}) && Keeps(old(lowlinks), lowlinks, {node})
      decreases adjacency.Keys - indices.Keys, 2
    {
      hide WellFormed, Colored, Exploring, Visited, Recorded, IsLookup, GraphOf, Reaches, IsScc, Keeps, Below;
      KeepsItself(indices, {});
      KeepsItself(lowlinks, {node});
      ExploringRange(adjacency, before, Snap(), gray, node, lowlinks[node], {});
      var neighbors := SortSet(adjacency[node]);
      var i := 0;
      assert Elements(neighbors[..0]) == {};
      while i < |neighbors|
        invariant i <= |neighbors|
        invariant Base() && node in lowlinks
        invariant Exploring(adjacency, before, Snap(), gray, node, lowlinks[node], Elements(neighbors[..i]))
        invariant Keeps(old(indices), indices, {}) && Keeps(old(lowlinks), lowlinks, {node})
      {
        ElementsStep(neighbors, i);
        ghost var numbered, linked := indices, lowlinks;
        KeepsKeys(old(indices), indices);
        Explore(node, neighbors[i], before, gray, Elements(neighbors[..i]));
        KeepsOn(old(indices), numbered, indices, {});
        KeepsOn(old(lowlinks), linked, lowlinks, {node});
        i := i + 1;
      }
      assert neighbors[..i] == neighbors;
    }

    method Explore(node: SymbolId, neighbor: SymbolId, ghost before: Snapshot, ghost gray: set<SymbolId>,
                   ghost seen: set<SymbolId>)
      requires Base() && node in lowlinks && Edge(adjacency, node, neighbor)
      requires Exploring(adjacency, before, Snap(), gray, node, lowlinks[node], seen)
      modifies this
      ensures Base() && node in lowlinks
      ensures Exploring(adjacency, before, Snap(), gray, node, lowlinks[node], seen + {neighbor})
      ensures Keeps(old(indices), indices, {}) && Keeps(old(lowlinks), lowlinks, {node})
      decreases adjacency.Keys - indices.Keys, 1
    {
      hide WellFormed, Colored, Exploring, Visited, Recorded, IsLookup, GraphOf, Reaches, IsScc, Edge, Closed, Extends;
      ghost var s, low := Snap(), lowlinks[node];
      ExploringRange(adjacency, before, s, gray, node, low, seen);
      if neighbor !in indices {
        ExploringCalls(adjacency, before, s, gray, node, low, seen, neighbor);
        StrongConnect(neighbor, gray + {node});
        ExploreCall(adjacency, before, s, Snap(), gray, node, low, seen, neighbor, lowlinks[neighbor]);
        var reached := lowlinks[neighbor];
        lowlinks := lowlinks[node := if reached < lowlinks[node] then reached else lowlinks[node]];
      } else {
        ExploreKnown(adjacency, before, s, gray, node, low, seen, neighbor);
        if neighbor in onStack {
          var reached := indices[neighbor];
          lowlinks := lowlinks[node := if reached < lowlinks[node] then reached else lowlinks[node]];
        }
      }
    }

    method PopComponent(node: SymbolId, ghost before: Snapshot, ghost gray: set<SymbolId>)
      requires Base() && node in adjacency && node in indices
      requires Exploring(adjacency, before, Snap(), gray, node, indices[node], adjacency[node])
      modifies this
      ensures Valid(gray)
      ensures indices == old(indices) && lowlinks == old(lowlinks) && index == old(index)
      ensures Visited(adjacency, before, Snap(), node, indices[node])
    {
      hide WellFormed, Colored, Exploring, Visited, Recorded, IsLookup, GraphOf, Reaches, IsScc, Extends, Below,
           Elements;
      ghost var s, p := Snap(), |before.stack|;
      BeforeIsBelow(adjacency, before, s, gray, node, indices[node], adjacency[node]);
      var members := PopMembers(node, p);
      ghost var t := Snapshot(stack, indices, done + Elements(members));
      FinishPop(adjacency, before, s, gray, node, t);
      Report(Elements(members));
      assert Snap() == t;
    }

    method PopMembers(node: SymbolId, ghost p: nat) returns (members: seq<SymbolId>)
      requires WellFormed(adjacency, Snap()) && onStack == Elements(stack)
      requires p < |stack| && stack[p] == node
      modifies this`stack, this`onStack
      ensures stack == old(stack)[..p] && onStack == Elements(stack)
      ensures Elements(members) == Elements(old(stack)[p..])
    {
      hide WellFormed, StrLe;
      ghost var s := Snap();
      assert s.stack[..|stack|] == s.stack && s.stack[|stack|..] == [];
      members := [];
      while true
        invariant p < |stack| <= |s.stack| && stack == s.stack[..|stack|]
        invariant onStack == Elements(stack)
        invariant Elements(members) == Elements(s.stack[|stack|..])
        decreases |stack|
      {
        PopOne(adjacency, s, p, |stack|);
        var member := stack[|stack| - 1];
        assert member == s.stack[|stack| - 1];
        stack := stack[..|stack| - 1];
        onStack := onStack - {member};
        members := members + [member];
        if member == node { break; }
      }
    }

    method ComponentOf(memberSet: set<SymbolId>, isDirect: bool) returns (component: RecursiveComponent)
      requires adjacency == GraphOf(edges) && IsLookup(edges, edgeLookup) && IsScc(adjacency, memberSet)
      requires isDirect <==> |memberSet| == 1
      ensures Reports(edges, memberSet, component) && component.symbolIds == SortSet(memberSet)
    {
      hide IsLookup, GraphOf, IsScc, StrLe;
      var componentEdges := ComponentEdgeIds(edges, memberSet, adjacency, edgeLookup);
      component := RecursiveComponent(SortSet(memberSet), Sorted(StrLe, componentEdges),
                                       if isDirect then "direct" else "mutual");
      SortedIsPermutation(StrLe, componentEdges);
      StrLeIsOrder();
      SortedIsSorted(StrLe, componentEdges);
    }

    method Report(memberSet: set<SymbolId>)
      requires adjacency == GraphOf(edges) && IsLookup(edges, edgeLookup)
      requires IsScc(adjacency, memberSet) && memberSet !! done
      requires Recorded(edges, done, sccs, components)
      modifies this`components, this`sccs, this`done
      ensures Recorded(edges, done, sccs, components) && done == old(done) + memberSet
    {
      hide Recorded, IsLookup, GraphOf, IsScc, IsRecursive, StrLe, Reports;
      var selfCall := exists a :: a in memberSet && (a, a) in edgeLookup;
      var isDirect := |memberSet| == 1 && selfCall;
      var isMutual := |memberSet| > 1;
      RecursiveTest(edges, edgeLookup, memberSet);
      if isDirect || isMutual {
        var component := ComponentOf(memberSet, isDirect);
        RecordRecursive(edges, done, sccs, components, memberSet, component);
        components := components + [component];
      } else {
        RecordTrivial(edges, done, sccs, components, memberSet);
      }
      sccs := sccs + {memberSet};
      done := done + memberSet;
    }
  }

  // ---- Numbers that are never changed ----

  /** Apart from `except`, every key keeps its value. */
  ghost predicate Keeps(m: map<SymbolId, nat>, m': map<SymbolId, nat>, except: set<SymbolId>) {
    forall x :: x in m && x !in except ==> x in m' && m'[x] == m[x]
  }

  lemma KeepsItself(m: map<SymbolId, nat>, except: set<SymbolId>)
    ensures Keeps(m, m, except)
  {}

  lemma KeepsOn(m: map<SymbolId, nat>, m1: map<SymbolId, nat>, m2: map<SymbolId, nat>, except: set<SymbolId>)
    requires Keeps(m, m1, except) && Keeps(m1, m2, except)
    ensures Keeps(m, m2, except)
  {}

  lemma KeepsKeys(m: map<SymbolId, nat>, m': map<SymbolId, nat>)
    requires Keeps(m, m', {})
    ensures m.Keys <= m'.Keys
  {}

  lemma KeepsAfterEntry(m: map<SymbolId, nat>, m1: map<SymbolId, nat>, m2: map<SymbolId, nat>, v: SymbolId,
                        except: set<SymbolId>)
    requires v !in m && v in m1 && m1 == m[v := m1[v]] && Keeps(m1, m2, except) && except <= {v}
    ensures Keeps(m, m2, {})
    ensures except == {} ==> v in m2 && m2[v] == m1[v]
  {}

  lemma RecursiveTest(edges: seq<CallEdge>, lookup: EdgeLookup, c: set<SymbolId>)
    requires IsLookup(edges, lookup) && IsScc(GraphOf(edges), c)
    ensures IsRecursive(edges, c) <==> |c| > 1 || (|c| == 1 && exists a :: a in c && (a, a) in lookup)
  {
    if |c| == 1 {
      var a :| a in c;
      assert c == {a} by { assert |c - {a}| == 0; }
      if (a, a) in lookup {
        var e :| e in edges && (e.caller, e.callee) == (a, a);
        assert a in Callees(edges, a);
      }
      if SelfCalling(edges, c) {
        assert a in Callees(edges, a);
        var e :| e in edges && e.caller == a && e.callee == a;
        assert (e.caller, e.callee) in lookup;
      }
    }
  }

  lemma CoverMore(done: set<SymbolId>, sccs: set<set<SymbolId>>, c: set<SymbolId>)
    requires forall x :: x in done ==> Covered(sccs, x)
    ensures forall x :: x in done + c ==> Covered(sccs + {c}, x)
  {
    forall x | x in done + c ensures Covered(sccs + {c}, x) {
      if x in done {
        var d :| d in sccs && x in d;
        assert d in sccs + {c};
      } else {
        assert c in sccs + {c};
      }
    }
  }

  lemma JustifyMore(edges: seq<CallEdge>, sccs: set<set<SymbolId>>, c: set<SymbolId>, r: RecursiveComponent)
    requires Justified(edges, sccs, r)
    ensures Justified(edges, sccs + {c}, r)
  {
    hide IsRecursive, Reports;
    var d :| d in sccs && IsRecursive(edges, d) && Reports(edges, d, r);
    assert d in sccs + {c};
  }

  lemma ReportMore(edges: seq<CallEdge>, components: seq<RecursiveComponent>, r: RecursiveComponent, c: set<SymbolId>)
    requires Reported(edges, components, c) || Reports(edges, c, r)
    ensures Reported(edges, components + [r], c)
  {
    hide Reports;
    if Reported(edges, components, c) {
      var q :| q in components && Reports(edges, c, q);
      assert q in components + [r];
    } else {
      assert r in components + [r];
    }
  }

  lemma RecordTrivial(edges: seq<CallEdge>, done: set<SymbolId>, sccs: set<set<SymbolId>>,
                      components: seq<RecursiveComponent>, c: set<SymbolId>)
    requires Recorded(edges, done, sccs, components) && IsScc(GraphOf(edges), c) && !IsRecursive(edges, c)
    ensures Recorded(edges, done + c, sccs + {c}, components)
  {
    hide IsScc, GraphOf, IsRecursive, Reports, Justified, Reported, Covered;
    CoverMore(done, sccs, c);
    forall r | r in components ensures Justified(edges, sccs + {c}, r) { JustifyMore(edges, sccs, c, r); }
  }

  /** A component disjoint from all earlier ones has not been reported yet. */
  lemma ReportIsNew(edges: seq<CallEdge>, done: set<SymbolId>, sccs: set<set<SymbolId>>,
                    q: RecursiveComponent, c: set<SymbolId>)
    requires (forall d :: d in sccs ==> d <= done) && c !! done && c != {}
    requires Justified(edges, sccs, q)
    ensures q.symbolIds != SortSet(c)
  {
    hide IsScc, GraphOf, IsRecursive;
    var d :| d in sccs && IsRecursive(edges, d) && Reports(edges, d, q);
    if SortSet(d) == SortSet(c) { SortSetInjective(d, c); }
  }

  lemma ReportAll(edges: seq<CallEdge>, sccs: set<set<SymbolId>>, components: seq<RecursiveComponent>,
                  c: set<SymbolId>, r: RecursiveComponent)
    requires forall d :: d in sccs && IsRecursive(edges, d) ==> Reported(edges, components, d)
    requires Reports(edges, c, r)
    ensures forall d :: d in sccs + {c} && IsRecursive(edges, d) ==> Reported(edges, components + [r], d)
  {
    hide IsRecursive, Reports, Reported;
    forall d | d in sccs + {c} && IsRecursive(edges, d) ensures Reported(edges, components + [r], d) {
      ReportMore(edges, components, r, d);
    }
  }

  lemma AllReportsNew(edges: seq<CallEdge>, done: set<SymbolId>, sccs: set<set<SymbolId>>,
                      components: seq<RecursiveComponent>, c: set<SymbolId>, r: RecursiveComponent)
    requires Recorded(edges, done, sccs, components) && c !! done && c != {} && r.symbolIds == SortSet(c)
    ensures NoRepeats(components + [r])
  {
    hide IsScc, GraphOf, IsRecursive, Justified;
    forall k | 0 <= k < |components| ensures components[k].symbolIds != SortSet(c) {
      ReportIsNew(edges, done, sccs, components[k], c);
    }
  }

  lemma {:induction false} RecordRecursive(edges: seq<CallEdge>, done: set<SymbolId>, sccs: set<set<SymbolId>>,
                        components: seq<RecursiveComponent>, c: set<SymbolId>, r: RecursiveComponent)
    requires Recorded(edges, done, sccs, components) && IsRecursive(edges, c) && c !! done
    requires Reports(edges, c, r) && r.symbolIds == SortSet(c) && IsScc(GraphOf(edges), c)
    ensures Recorded(edges, done + c, sccs + {c}, components + [r])
  {
    hide IsScc, GraphOf, IsRecursive, Reports, Justified, Reported, Covered, SortSet, NoRepeats;
    SccNonempty(GraphOf(edges), c);
    CoverMore(done, sccs, c);
    JustifyAll(edges, sccs, components, c, r);
    ReportAll(edges, sccs, components, c, r);
    AllReportsNew(edges, done, sccs, components, c, r);
  }

  lemma JustifyAll(edges: seq<CallEdge>, sccs: set<set<SymbolId>>, components: seq<RecursiveComponent>,
                   c: set<SymbolId>, r: RecursiveComponent)
    requires forall q :: q in components ==> Justified(edges, sccs, q)
    requires IsRecursive(edges, c) && Reports(edges, c, r)
    ensures forall q :: q in components + [r] ==> Justified(edges, sccs + {c}, q)
  {
    hide IsRecursive, Reports, Justified;
    forall q | q in components + [r] ensures Justified(edges, sccs + {c}, q) {
      if q in components { JustifyMore(edges, sccs, c, q); } else { JustifyLast(edges, sccs, c, r); }
    }
  }

  lemma JustifyLast(edges: seq<CallEdge>, sccs: set<set<SymbolId>>, c: set<SymbolId>, r: RecursiveComponent)
    requires IsRecursive(edges, c) && Reports(edges, c, r)
    ensures Justified(edges, sccs + {c}, r)
  {
    hide IsRecursive, Reports;
    assert c in sccs + {c};
  }

  lemma SccNonempty(g: Graph, c: set<SymbolId>)
    requires IsScc(g, c)
    ensures c != {}
  {}

  lemma LookupIds(edges: seq<CallEdge>, lookup: EdgeLookup, k: (SymbolId, SymbolId))
    requires IsLookup(edges, lookup)
    ensures IdsWithin(edges, {k}) == if k in lookup then lookup[k] else []
  {
    if k !in lookup {
      IdsWithinAgree(edges, {k}, {});
      IdsWithinNone(edges);
    }
  }

  /** `_component_edge_ids`: the ids of all edges with both ends among the members, in no particular order. */
  method ComponentEdgeIds(ghost edges: seq<CallEdge>, members: set<SymbolId>, adjacency: Graph, edgeLookup: EdgeLookup)
    returns (edgeIds: seq<string>)
    requires adjacency == GraphOf(edges) && IsLookup(edges, edgeLookup)
    ensures multiset(edgeIds) == multiset(IdsWithin(edges, Square(members)))
  {
    hide IsLookup, IdsWithin, StrLe;
    edgeIds := [];
    ghost var pairs: set<(SymbolId, SymbolId)> := {};
    IdsWithinNone(edges);
    var callers := members;
    while callers != {}
      invariant callers <= members
      invariant forall a, b :: (a, b) in pairs <==> a in members - callers && Edge(adjacency, a, b) && b in members
      invariant multiset(edgeIds) == multiset(IdsWithin(edges, pairs))
      decreases callers
    {
      var caller :| caller in callers;
      var callees := if caller in adjacency then adjacency[caller] else {};
      while callees != {}
        invariant callees <= if caller in adjacency then adjacency[caller] else {}
        invariant forall a, b :: (a, b) in pairs <==>
                    && Edge(adjacency, a, b) && b in members
                    && (a in members - callers || (a == caller && b !in callees))
        invariant multiset(edgeIds) == multiset(IdsWithin(edges, pairs))
        decreases callees
      {
        var callee :| callee in callees;
        if callee in members {
          LookupIds(edges, edgeLookup, (caller, callee));
          IdsWithinAdd(edges, pairs, (caller, callee));
          edgeIds := edgeIds + if (caller, callee) in edgeLookup then edgeLookup[(caller, callee)] else [];
          pairs := pairs + {(caller, callee)};
        }
        callees := callees - {callee};
      }
      callers := callers - {caller};
    }
    IdsWithinAgree(edges, pairs, Square(members));
  }

  // ---- The whole function ----

  /** Components are listed by kind, then by their symbols. */
  predicate ComponentLe(r: RecursiveComponent, s: RecursiveComponent) {
    if r.recursionKind == s.recursionKind then ListLe(r.symbolIds, s.symbolIds)
    else StrLe(r.recursionKind, s.recursionKind)
  }

  lemma ComponentLeIsOrder()
    ensures TotalOrder(ComponentLe)
  {
    forall r, s ensures ComponentLe(r, s) || ComponentLe(s, r) {
      StrLeTotal(r.recursionKind, s.recursionKind);
      ListLeTotal(r.symbolIds, s.symbolIds);
    }
    forall r, s, t | ComponentLe(r, s) && ComponentLe(s, t) ensures ComponentLe(r, t) {
      ComponentLeTransitive(r, s, t);
    }
  }

  lemma ComponentLeTransitive(r: RecursiveComponent, s: RecursiveComponent, t: RecursiveComponent)
    requires ComponentLe(r, s) && ComponentLe(s, t)
    ensures ComponentLe(r, t)
  {
    if r.recursionKind == s.recursionKind == t.recursionKind {
      ListLeTransitive(r.symbolIds, s.symbolIds, t.symbolIds);
    } else if r.recursionKind != s.recursionKind && s.recursionKind != t.recursionKind {
      StrLeTransitive(r.recursionKind, s.recursionKind, t.recursionKind);
      if r.recursionKind == t.recursionKind { StrLeAntisymmetric(r.recursionKind, s.recursionKind); }
    }
  }

  ghost predicate IsSomeReport(edges: seq<CallEdge>, r: RecursiveComponent) {
    exists c :: IsRecursive(edges, c) && Reports(edges, c, r)
  }

  /** The result lists every recursive component once, nothing else, in the order of `ComponentLe`. */
  ghost predicate ListsRecursion(edges: seq<CallEdge>, result: seq<RecursiveComponent>) {
    && (forall r :: r in result ==> IsSomeReport(edges, r))
    && (forall c :: IsRecursive(edges, c) ==> Reported(edges, result, c))
    && NoRepeats(result)
    && SortedBy(ComponentLe, result)
  }

  method FindRecursiveComponents(edges: seq<CallEdge>) returns (result: seq<RecursiveComponent>)
    ensures ListsRecursion(edges, result)
  {
    hide WellFormed, Colored, Recorded, IsLookup, Reaches, IsScc, ListsRecursion, StrLe, ListLe, GraphOf;
    var adjacency, edgeLookup := BuildGraph(edges);
    var search := new ComponentSearch(edges, adjacency, edgeLookup);
    var nodes := SortSet(adjacency.Keys);
    for i := 0 to |nodes|
      invariant search.Valid({}) && search.adjacency == adjacency && search.edges == edges
      invariant Elements(nodes[..i]) <= search.indices.Keys
      invariant fresh(search)
    {
      ElementsStep(nodes, i);
      if nodes[i] !in search.indices {
        search.StrongConnect(nodes[i], {});
      }
    }
    assert nodes[..|nodes|] == nodes;
    result := Sorted(ComponentLe, search.components);
    FinishedSearch(edges, adjacency, search.Snap(), search.sccs, search.components);
  }

  /** Once every symbol is indexed and no visit is open, all components have been popped. */
  lemma FinishedSearch(edges: seq<CallEdge>, g: Graph, s: Snapshot, sccs: set<set<SymbolId>>,
                       components: seq<RecursiveComponent>)
    requires g == GraphOf(edges) && WellFormed(g, s) && Colored(g, s, {}) && g.Keys <= s.indices.Keys
    requires Recorded(edges, s.done, sccs, components)
    ensures ListsRecursion(edges, Sorted(ComponentLe, components))
  {
    assert s.done == g.Keys by {
      if s.stack != [] {
        assert Returns(g, s, {}, 0);
        var i :| Witness(g, s, {}, i, 0);
      }
    }
    var result := Sorted(ComponentLe, components);
    SortedIsPermutation(ComponentLe, components);
    ComponentLeIsOrder();
    SortedIsSorted(ComponentLe, components);
    NoRepeatsPermutes(components, result);
    forall r | r in result ensures IsSomeReport(edges, r) {
      assert r in components && Justified(edges, sccs, r);
    }
    forall c | IsRecursive(edges, c) ensures Reported(edges, result, c) {
      assert IsScc(g, c);
      var x :| x in c;
      assert Covered(sccs, x);
      var d :| d in sccs && x in d;
      SccsMeetOnlyIfEqual(g, c, d, x);
      assert Reported(edges, components, c);
      var r :| r in components && Reports(edges, c, r);
      assert r in result;
    }
  }

  lemma NoRepeatsPermutes(xs: seq<RecursiveComponent>, ys: seq<RecursiveComponent>)
    requires NoRepeats(xs) && multiset(xs) == multiset(ys)
    ensures NoRepeats(ys)
  {
    assert NoDuplicates(xs);
    NoDuplicatesPermutes(xs, ys);
    forall k, l | 0 <= k < l < |ys| ensures ys[k].symbolIds != ys[l].symbolIds {
      assert ys[k] in multiset(xs) && ys[l] in multiset(xs);
      var i :| 0 <= i < |xs| && xs[i] == ys[k];
      var j :| 0 <= j < |xs| && xs[j] == ys[l];
      assert i < j || j < i;
    }
  }

  /** The two dictionaries filled from the edge list. */
  method BuildGraph(edges: seq<CallEdge>) returns (adjacency: Graph, edgeLookup: EdgeLookup)
    ensures adjacency == GraphOf(edges) && IsLookup(edges, edgeLookup)
  {
    adjacency, edgeLookup := map[], map[];
    for i := 0 to |edges|
      invariant adjacency == GraphOf(edges[..i]) && IsLookup(edges[..i], edgeLookup)
    {
      var edge := edges[i];
      assert edges[..i + 1] == edges[..i] + [edge];
      var pair := (edge.caller, edge.callee);
      LookupStep(edges[..i], edge, edgeLookup);
      GraphStep(edges[..i], edge);
      adjacency := adjacency[edge.caller :=
        (if edge.caller in adjacency then adjacency[edge.caller] else {}) + {edge.callee}];
      if edge.callee !in adjacency { adjacency := adjacency[edge.callee := {}]; }
      edgeLookup := edgeLookup[pair := (if pair in edgeLookup then edgeLookup[pair] else []) + [edge.id]];
    }
    assert edges[..|edges|] == edges;
  }

  lemma SymbolsStep(edges: seq<CallEdge>, e: CallEdge, v: SymbolId)
    ensures v in Symbols(edges + [e]) <==> v in Symbols(edges) || v == e.caller || v == e.callee
    ensures Callees(edges + [e], v) == Callees(edges, v) + if v == e.caller then {e.callee} else {}
    ensures v !in Symbols(edges) ==> Callees(edges, v) == {}
  {
    assert forall d :: d in edges + [e] <==> d in edges || d == e;
  }

  lemma GraphStep(edges: seq<CallEdge>, e: CallEdge)
    ensures GraphOf(edges + [e]) ==
            var g := GraphOf(edges);
            var h := g[e.caller := (if e.caller in g then g[e.caller] else {}) + {e.callee}];
            if e.callee in h then h else h[e.callee := {}]
  {
    hide Symbols, Callees;
    var g := GraphOf(edges);
    var h := g[e.caller := (if e.caller in g then g[e.caller] else {}) + {e.callee}];
    var k := if e.callee in h then h else h[e.callee := {}];
    forall v ensures v in GraphOf(edges + [e]) <==> v in k { SymbolsStep(edges, e, v); }
    forall v | v in k ensures GraphOf(edges + [e])[v] == k[v] { SymbolsStep(edges, e, v); }
  }

  lemma {:induction false} LookupStep(edges: seq<CallEdge>, e: CallEdge, lookup: EdgeLookup)
    requires IsLookup(edges, lookup)
    ensures IsLookup(edges + [e], lookup[(e.caller, e.callee) :=
              (if (e.caller, e.callee) in lookup then lookup[(e.caller, e.callee)] else []) + [e.id]])
  {
    hide IdsWithin;
    var pair, all := (e.caller, e.callee), edges + [e];
    LookupIds(edges, lookup, pair);
    var next := lookup[pair := (if pair in lookup then lookup[pair] else []) + [e.id]];
    forall k | k in next ensures next[k] == IdsWithin(all, {k}) {
      IdsWithinAppend(edges, e, {k});
    }
    forall k ensures k in next <==> exists d :: d in all && (d.caller, d.callee) == k {
      if k == pair { assert e in all; }
      if k in lookup {
        var d :| d in edges && (d.caller, d.callee) == k;
        assert d in all;
      }
    }
  }

  // ---- The result is determined by the edges, whatever their order ----

  lemma ReportIsDetermined(edges: seq<CallEdge>, c: set<SymbolId>, r: RecursiveComponent, s: RecursiveComponent)
    requires Reports(edges, c, r) && Reports(edges, c, s)
    ensures r == s
  {
    StrLeIsOrder();
    hide StrLe;
    SortedIsUnique(StrLe, r.edgeIds, s.edgeIds);
  }

  lemma {:induction false} IdsWithinPermutes(edges: seq<CallEdge>, others: seq<CallEdge>, p: set<(SymbolId, SymbolId)>)
    requires multiset(edges) == multiset(others)
    ensures multiset(IdsWithin(edges, p)) == multiset(IdsWithin(others, p))
  {
    if edges == [] {
      assert |others| == |multiset(others)| == 0;
    } else {
      var k := PickOut(edges, others);
      assert edges == [edges[0]] + edges[1..];
      IdsWithinPermutes(edges[1..], others[..k] + others[k + 1..], p);
      IdsWithinJoin([edges[0]], edges[1..], p);
      IdsWithinMoved(others, k, p);
    }
  }

  lemma PickOut(edges: seq<CallEdge>, others: seq<CallEdge>) returns (k: nat)
    requires multiset(edges) == multiset(others) && edges != []
    ensures k < |others| && others[k] == edges[0] && multiset(edges[1..]) == multiset(others[..k] + others[k + 1..])
  {
    assert edges[0] in multiset(others);
    k :| 0 <= k < |others| && others[k] == edges[0];
    assert others == others[..k] + ([others[k]] + others[k + 1..]);
    assert edges == [edges[0]] + edges[1..];
    assert multiset(others[..k] + others[k + 1..]) == multiset(others) - multiset{edges[0]};
  }

  lemma IdsWithinMoved(edges: seq<CallEdge>, k: nat, p: set<(SymbolId, SymbolId)>)
    requires k < |edges|
    ensures multiset(IdsWithin(edges, p)) ==
            multiset(IdsWithin([edges[k]], p)) + multiset(IdsWithin(edges[..k] + edges[k + 1..], p))
  {
    hide IdsWithin;
    assert edges == edges[..k] + ([edges[k]] + edges[k + 1..]);
    IdsWithinJoin(edges[..k], [edges[k]] + edges[k + 1..], p);
    IdsWithinJoin([edges[k]], edges[k + 1..], p);
    IdsWithinJoin(edges[..k], edges[k + 1..], p);
  }

  lemma {:induction false} IdsWithinJoin(xs: seq<CallEdge>, ys: seq<CallEdge>, p: set<(SymbolId, SymbolId)>)
    ensures IdsWithin(xs + ys, p) == IdsWithin(xs, p) + IdsWithin(ys, p)
  {
    if xs == [] {
      assert xs + ys == ys;
    } else {
      assert (xs + ys)[1..] == xs[1..] + ys;
      IdsWithinJoin(xs[1..], ys, p);
    }
  }

  lemma SameReports(edges: seq<CallEdge>, others: seq<CallEdge>)
    requires multiset(edges) == multiset(others)
    ensures GraphOf(edges) == GraphOf(others)
    ensures forall c :: IsRecursive(edges, c) <==> IsRecursive(others, c)
    ensures forall c, r :: Reports(edges, c, r) <==> Reports(others, c, r)
  {
    assert forall e :: e in edges <==> e in others by {
      assert forall e :: e in edges <==> e in multiset(edges);
      assert forall e :: e in others <==> e in multiset(others);
    }
    assert forall v :: Callees(edges, v) == Callees(others, v);
    assert Symbols(edges) == Symbols(others);
    assert GraphOf(edges) == GraphOf(others);
    hide GraphOf, IsScc;
    forall c, r ensures Reports(edges, c, r) <==> Reports(others, c, r) {
      IdsWithinPermutes(edges, others, Square(c));
    }
  }

  /** Reordering the edges does not change the reported components. */
  lemma EdgeOrderIsIrrelevant(edges: seq<CallEdge>, others: seq<CallEdge>,
                              xs: seq<RecursiveComponent>, ys: seq<RecursiveComponent>)
    requires multiset(edges) == multiset(others)
    requires ListsRecursion(edges, xs) && ListsRecursion(others, ys)
    ensures xs == ys
  {
    hide IsRecursive, Reports, GraphOf;
    SameReports(edges, others);
    EachListed(edges, others, xs, ys);
    EachListed(others, edges, ys, xs);
    assert NoDuplicates(xs) && NoDuplicates(ys);
    SameElementsSameMultiset(xs, ys);
    ComponentLeIsOrder();
    SortedComponentsUnique(xs, ys);
  }

  lemma EachListed(edges: seq<CallEdge>, others: seq<CallEdge>, xs: seq<RecursiveComponent>,
                   ys: seq<RecursiveComponent>)
    requires ListsRecursion(edges, xs) && ListsRecursion(others, ys)
    requires forall c :: IsRecursive(edges, c) <==> IsRecursive(others, c)
    requires forall c, r :: Reports(edges, c, r) <==> Reports(others, c, r)
    ensures forall r :: r in xs ==> r in ys
  {
    hide IsRecursive, Reports;
    forall r | r in xs ensures r in ys {
      assert IsSomeReport(edges, r);
      var c :| IsRecursive(edges, c) && Reports(edges, c, r);
      assert Reported(others, ys, c);
      var s :| s in ys && Reports(others, c, s);
      ReportIsDetermined(edges, c, r, s);
    }
  }

  lemma SameElementsSameMultiset(xs: seq<RecursiveComponent>, ys: seq<RecursiveComponent>)
    requires NoDuplicates(xs) && NoDuplicates(ys)
    requires forall r :: r in xs <==> r in ys
    ensures multiset(xs) == multiset(ys)
  {
    forall r ensures multiset(xs)[r] == multiset(ys)[r] {
      if r in xs {
        DistinctCounts(xs, r);
        DistinctCounts(ys, r);
      }
    }
  }

  /** `ComponentLe` compares only kind and symbols, which already tell listed components apart. */
  lemma SortedComponentsUnique(xs: seq<RecursiveComponent>, ys: seq<RecursiveComponent>)
    requires TotalOrder(ComponentLe) && NoRepeats(xs) && multiset(xs) == multiset(ys)
    requires SortedBy(ComponentLe, xs) && SortedBy(ComponentLe, ys)
    ensures xs == ys
  {
    forall i, j | 0 <= i < |xs| && 0 <= j < |xs| && ComponentLe(xs[i], xs[j]) && ComponentLe(xs[j], xs[i])
      ensures xs[i] == xs[j]
    {
      if xs[i].recursionKind != xs[j].recursionKind {
        StrLeAntisymmetric(xs[i].recursionKind, xs[j].recursionKind);
      }
      ListLeAntisymmetric(xs[i].symbolIds, xs[j].symbolIds);
      assert !(i < j) && !(j < i);
    }
    SortedIsUnique(ComponentLe, xs, ys);
  }
}
