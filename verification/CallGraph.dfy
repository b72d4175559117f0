/** Call edges, and the recursive components that Tarjan's search finds among them
    (`src/axiom/rag/call_graph.py`). */
module CallGraph {
  import opened Wrappers
  import opened Ordering
  import opened Digraph

  type SymbolId = string

  datatype CallEdge = CallEdge(
    id: string, referenceId: string, caller: SymbolId, callee: SymbolId, filePath: string,
    language: string, kind: string,
    startLine: int, endLine: int, confidence: real, reason: Option<string>)

  datatype RecursiveComponent =
    RecursiveComponent(symbolIds: seq<SymbolId>, edgeIds: seq<string>, recursionKind: string)

  type EdgeLookup = map<(SymbolId, SymbolId), seq<string>>

  // ---- What is to be found ----

  function Symbols(edges: seq<CallEdge>): set<SymbolId> {
    (set e | e in edges :: e.caller) + (set e | e in edges :: e.callee)
  }

  function Callees(edges: seq<CallEdge>, a: SymbolId): set<SymbolId> {
    set e | e in edges && e.caller == a :: e.callee
  }

  function GraphOf(edges: seq<CallEdge>): (g: Graph)
    ensures Closed(g)
  {
    map v | v in Symbols(edges) :: Callees(edges, v)
  }

  /** The ids of the edges whose ends form one of the given pairs, in input order. */
  function IdsWithin(edges: seq<CallEdge>, pairs: set<(SymbolId, SymbolId)>): seq<string> {
    if edges == [] then []
    else (if (edges[0].caller, edges[0].callee) in pairs then [edges[0].id] else [])
         + IdsWithin(edges[1..], pairs)
  }

  function Square(c: set<SymbolId>): set<(SymbolId, SymbolId)> {
    set a, b | a in c && b in c :: (a, b)
  }

  ghost predicate SelfCalling(edges: seq<CallEdge>, c: set<SymbolId>) {
    exists a :: c == {a} && a in Callees(edges, a)
  }

  /** A strongly connected component that is recursion: several symbols, or one calling itself. */
  ghost predicate IsRecursive(edges: seq<CallEdge>, c: set<SymbolId>) {
    IsScc(GraphOf(edges), c) && (|c| > 1 || SelfCalling(edges, c))
  }

  /** What must be reported for the component `c`. */
  ghost predicate Reports(edges: seq<CallEdge>, c: set<SymbolId>, r: RecursiveComponent) {
    && r.symbolIds == SortSet(c)
    && SortedBy(StrLe, r.edgeIds)
    && multiset(r.edgeIds) == multiset(IdsWithin(edges, Square(c)))
    && r.recursionKind == if |c| == 1 then "direct" else "mutual"
  }

  // ---- Facts about the edges within a set of pairs ----

  lemma {:induction false} IdsWithinAgree(edges: seq<CallEdge>, p: set<(SymbolId, SymbolId)>,
                                          q: set<(SymbolId, SymbolId)>)
    requires forall e :: e in edges ==> ((e.caller, e.callee) in p <==> (e.caller, e.callee) in q)
    ensures IdsWithin(edges, p) == IdsWithin(edges, q)
  {
    if edges != [] {
      assert edges[0] in edges;
      IdsWithinAgree(edges[1..], p, q);
    }
  }

  lemma {:induction false} IdsWithinAdd(edges: seq<CallEdge>, p: set<(SymbolId, SymbolId)>, k: (SymbolId, SymbolId))
    requires k !in p
    ensures multiset(IdsWithin(edges, p + {k})) == multiset(IdsWithin(edges, p)) + multiset(IdsWithin(edges, {k}))
  {
    if edges != [] {
      IdsWithinAdd(edges[1..], p, k);
    }
  }

  lemma {:induction false} IdsWithinNone(edges: seq<CallEdge>)
    ensures IdsWithin(edges, {}) == []
  {
    if edges != [] { IdsWithinNone(edges[1..]); }
  }

  lemma {:induction false} IdsWithinAppend(edges: seq<CallEdge>, e: CallEdge, p: set<(SymbolId, SymbolId)>)
    ensures IdsWithin(edges + [e], p) == IdsWithin(edges, p) + if (e.caller, e.callee) in p then [e.id] else []
  {
    if edges == [] {
      assert edges + [e] == [e];
    } else {
      assert (edges + [e])[1..] == edges[1..] + [e];
      IdsWithinAppend(edges[1..], e, p);
    }
  }
}
