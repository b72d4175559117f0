/** Directed graphs over string nodes, and the notions the call-graph and plan proofs are stated in. */
module Digraph {

  type Node = string
  type Graph = map<Node, set<Node>>

  /** Every edge leads to a node of the graph. */
  ghost predicate Closed(g: Graph) {
    forall v :: v in g ==> g[v] <= g.Keys
  }

  ghost predicate Edge(g: Graph, a: Node, b: Node) {
    a in g && b in g[a]
  }

  ghost predicate IsPath(g: Graph, p: seq<Node>) {
    && p != []
    && forall i :: 0 <= i < |p| - 1 ==> Edge(g, p[i], p[i + 1])
  }

  ghost predicate Reaches(g: Graph, a: Node, b: Node) {
    exists p :: IsPath(g, p) && p[0] == a && p[|p| - 1] == b
  }

  /** A walk of at least one edge that comes back to where it started. */
  ghost predicate IsCycle(g: Graph, p: seq<Node>) {
    IsPath(g, p) && |p| > 1 && p[0] == p[|p| - 1]
  }

  ghost predicate Acyclic(g: Graph) {
    !exists p :: IsCycle(g, p)
  }

  ghost predicate ClosedUnder(g: Graph, s: set<Node>) {
    forall v :: v in s && v in g ==> g[v] <= s
  }

  /** A maximal nonempty set of nodes that all reach each other. */
  ghost predicate IsScc(g: Graph, c: set<Node>) {
    && c != {} && c <= g.Keys
    && (forall a, b :: a in c && b in c ==> Reaches(g, a, b))
    && (forall a, b :: a in c && Reaches(g, a, b) && Reaches(g, b, a) ==> b in c)
  }

  lemma ReachesSelf(g: Graph, a: Node)
    ensures Reaches(g, a, a)
  {
    assert IsPath(g, [a]);
  }

  lemma EdgeReaches(g: Graph, a: Node, b: Node)
    requires Edge(g, a, b)
    ensures Reaches(g, a, b)
  {
    assert IsPath(g, [a, b]);
    assert [a, b][0] == a && [a, b][|[a, b]| - 1] == b;
  }

  lemma JoinPaths(g: Graph, p: seq<Node>, q: seq<Node>)
    requires IsPath(g, p) && IsPath(g, q) && p[|p| - 1] == q[0]
    ensures IsPath(g, p + q[1..])
    ensures (p + q[1..])[0] == p[0] && (p + q[1..])[|p + q[1..]| - 1] == q[|q| - 1]
  {
    var r := p + q[1..];
    forall i | 0 <= i < |r| - 1 ensures Edge(g, r[i], r[i + 1]) {
      if i < |p| - 1 {
        assert Edge(g, p[i], p[i + 1]);
      } else {
        assert Edge(g, q[i - (|p| - 1)], q[i - (|p| - 1) + 1]);
      }
    }
  }

  lemma ReachesTransitive(g: Graph, a: Node, b: Node, c: Node)
    requires Reaches(g, a, b) && Reaches(g, b, c)
    ensures Reaches(g, a, c)
  {
    var p :| IsPath(g, p) && p[0] == a && p[|p| - 1] == b;
    var q :| IsPath(g, q) && q[0] == b && q[|q| - 1] == c;
    JoinPaths(g, p, q);
  }

  lemma {:induction false} PathStaysInside(g: Graph, s: set<Node>, p: seq<Node>)
    requires ClosedUnder(g, s) && IsPath(g, p) && p[0] in s
    ensures p[|p| - 1] in s
  {
    if |p| > 1 {
      assert Edge(g, p[0], p[1]);
      forall i | 0 <= i < |p[1..]| - 1 ensures Edge(g, p[1..][i], p[1..][i + 1]) {
        assert Edge(g, p[i + 1], p[i + 2]);
      }
      PathStaysInside(g, s, p[1..]);
    }
  }

  lemma ReachesStaysInside(g: Graph, s: set<Node>, a: Node, b: Node)
    requires ClosedUnder(g, s) && a in s && Reaches(g, a, b)
    ensures b in s
  {
    var p :| IsPath(g, p) && p[0] == a && p[|p| - 1] == b;
    PathStaysInside(g, s, p);
  }

  /** Two strongly connected components that share a node are equal. */
  lemma SccsMeetOnlyIfEqual(g: Graph, c: set<Node>, d: set<Node>, x: Node)
    requires IsScc(g, c) && IsScc(g, d) && x in c && x in d
    ensures c == d
  {
    forall y ensures y in c <==> y in d {
      if y in c { assert Reaches(g, x, y) && Reaches(g, y, x); }
      if y in d { assert Reaches(g, x, y) && Reaches(g, y, x); }
    }
  }
}
