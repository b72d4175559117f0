/** What Tarjan's depth-first search keeps, stated on snapshots of its bookkeeping, and the lemmas that
    carry it over each of the search's steps. `gray` is the set of symbols whose visit has not returned. */
module TarjanInvariant {
  import opened Ordering
  import opened Digraph

  datatype Snapshot = Snapshot(stack: seq<Node>, indices: map<Node, nat>, done: set<Node>)

  ghost predicate WellFormed(g: Graph, s: Snapshot) {
    && Closed(g) && s.indices.Keys <= g.Keys
    && s.indices.Keys == Elements(s.stack) + s.done
    && Elements(s.stack) !! s.done
    && (forall i :: 0 <= i < |s.stack| ==> s.stack[i] in s.indices)
    && (forall i, j :: 0 <= i < j < |s.stack| ==> s.indices[s.stack[i]] < s.indices[s.stack[j]])
    && ClosedUnder(g, s.done)
  }

  ghost predicate Witness(g: Graph, s: Snapshot, gray: set<Node>, i: int, j: int) {
    0 <= i <= j < |s.stack| && s.stack[i] in gray && Reaches(g, s.stack[j], s.stack[i])
  }

  /** The symbol at position `j` reaches a gray one at or below it. */
  ghost predicate Returns(g: Graph, s: Snapshot, gray: set<Node>, j: int) {
    exists i :: Witness(g, s, gray, i, j)
  }

  ghost predicate Colored(g: Graph, s: Snapshot, gray: set<Node>) {
    && gray <= Elements(s.stack)
    && (forall x :: x in s.indices && x !in gray && x in g ==> g[x] <= s.indices.Keys)
    && (forall i, j :: 0 <= i <= j < |s.stack| && s.stack[i] in gray ==> Reaches(g, s.stack[i], s.stack[j]))
    && (forall j :: 0 <= j < |s.stack| ==> Returns(g, s, gray, j))
  }

  ghost predicate Extends(s: Snapshot, t: Snapshot) {
    && s.stack <= t.stack
    && s.indices.Keys <= t.indices.Keys
    && (forall x :: x in s.indices ==> t.indices[x] == s.indices[x])
    && s.done <= t.done
  }

  ghost predicate LowReached(g: Graph, s: Snapshot, v: Node, low: nat, k: int) {
    0 <= k < |s.stack| && s.stack[k] in s.indices && s.indices[s.stack[k]] == low && Reaches(g, v, s.stack[k])
  }

  /** `low` is the index of a stack symbol that `v` reaches, and bounds every edge that leads from the
      part of the stack above position `p`, or from `v` to one of `seen`, to the part below `p`. */
  ghost predicate LowBounds(g: Graph, s: Snapshot, p: nat, v: Node, low: nat, seen: set<Node>) {
    && p < |s.stack| && s.stack[p] == v && v in s.indices && low <= s.indices[v]
    && (exists k :: LowReached(g, s, v, low, k))
    && seen <= s.indices.Keys
    && (forall i, j :: 0 <= i < p < j < |s.stack| && Edge(g, s.stack[j], s.stack[i]) && s.stack[i] in s.indices
          ==> low <= s.indices[s.stack[i]])
    && (forall i :: 0 <= i < p && s.stack[i] in seen && s.stack[i] in s.indices ==> low <= s.indices[s.stack[i]])
  }

  /** What a finished visit of `v` leaves behind when the stack was `s.stack` before it. */
  ghost predicate Visited(g: Graph, s: Snapshot, t: Snapshot, v: Node, low: nat) {
    && Extends(s, t) && v in t.indices && v in g
    && ( || (t.stack == s.stack && low == t.indices[v])
         || (low < t.indices[v] && LowBounds(g, t, |s.stack|, v, low, g[v])))
  }

  lemma StackIndices(g: Graph, s: Snapshot, i: int, j: int)
    requires WellFormed(g, s) && 0 <= i < |s.stack| && 0 <= j < |s.stack|
    ensures i < j <==> s.indices[s.stack[i]] < s.indices[s.stack[j]]
    ensures i == j <==> s.stack[i] == s.stack[j]
  {}

  lemma PushWellFormed(g: Graph, s: Snapshot, v: Node, index: nat, t: Snapshot)
    requires WellFormed(g, s) && v in g && v !in s.indices && forall x :: x in s.indices ==> s.indices[x] < index
    requires t == Snapshot(s.stack + [v], s.indices[v := index], s.done)
    ensures WellFormed(g, t) && Extends(s, t) && Elements(t.stack) == Elements(s.stack) + {v}
  {
    hide ClosedUnder;
    assert Elements(t.stack) == Elements(s.stack) + {v};
  }

  lemma PushColored(g: Graph, s: Snapshot, gray: set<Node>, v: Node, index: nat, t: Snapshot)
    requires WellFormed(g, s) && Colored(g, s, gray) && v in g && v !in s.indices
    requires forall x :: x in gray ==> Reaches(g, x, v)
    requires t == Snapshot(s.stack + [v], s.indices[v := index], s.done) && Elements(t.stack) == Elements(s.stack) + {v}
    ensures Colored(g, t, gray + {v})
  {
    hide Reaches, ClosedUnder;
    ReachesSelf(g, v);
    forall j | 0 <= j < |t.stack| ensures Returns(g, t, gray + {v}, j) {
      if j < |s.stack| {
        assert Returns(g, s, gray, j);
        var i :| Witness(g, s, gray, i, j);
        assert Witness(g, t, gray + {v}, i, j);
      } else {
        assert Witness(g, t, gray + {v}, j, j);
      }
    }
    forall i, j | 0 <= i <= j < |t.stack| && t.stack[i] in gray + {v}
      ensures Reaches(g, t.stack[i], t.stack[j])
    {
      if j < |s.stack| { assert s.stack[i] in s.indices; }
    }
  }

  /** Pushing an undiscovered `v` that every gray symbol reaches. */
  lemma Push(g: Graph, s: Snapshot, gray: set<Node>, v: Node, index: nat, t: Snapshot)
    requires WellFormed(g, s) && Colored(g, s, gray)
    requires v in g && v !in s.indices
    requires forall x :: x in gray ==> Reaches(g, x, v)
    requires forall x :: x in s.indices ==> s.indices[x] < index
    requires t == Snapshot(s.stack + [v], s.indices[v := index], s.done)
    ensures WellFormed(g, t) && Colored(g, t, gray + {v}) && Extends(s, t)
    ensures LowBounds(g, t, |s.stack|, v, index, {})
  {
    hide Colored, Reaches, ClosedUnder;
    PushWellFormed(g, s, v, index, t);
    PushColored(g, s, gray, v, index, t);
    ReachesSelf(g, v);
    assert LowReached(g, t, v, index, |s.stack|);
  }

  /** Every gray symbol reaches the successors of the symbol being visited. */
  lemma GrayReaches(g: Graph, s: Snapshot, gray: set<Node>, p: nat, v: Node, w: Node)
    requires WellFormed(g, s) && Colored(g, s, gray + {v})
    requires p < |s.stack| && s.stack[p] == v && gray <= Elements(s.stack[..p]) && Edge(g, v, w)
    ensures forall x :: x in gray + {v} ==> Reaches(g, x, w)
  {
    EdgeReaches(g, v, w);
    forall x | x in gray + {v} ensures Reaches(g, x, w) {
      if x != v {
        assert x in s.stack[..p];
        var i :| 0 <= i < p && s.stack[i] == x;
        assert Reaches(g, s.stack[i], s.stack[p]);
        ReachesTransitive(g, x, v, w);
      }
    }
  }

  /** The successor `w` was visited by the call that led from `s` to `t`, and was popped by it. */
  lemma AfterPoppedCall(g: Graph, s: Snapshot, t: Snapshot, p: nat, v: Node, low: nat, seen: set<Node>, w: Node)
    requires WellFormed(g, s) && LowBounds(g, s, p, v, low, seen) && Edge(g, v, w)
    requires Extends(s, t) && t.stack == s.stack && w in t.indices && w !in s.indices
    ensures LowBounds(g, t, p, v, low, seen + {w})
  {
    var k :| LowReached(g, s, v, low, k);
    assert LowReached(g, t, v, low, k);
  }

  /** The successor `w` was visited by the call that led from `s` to `t`, and stayed on the stack. */
  lemma PushedCallReaches(g: Graph, s: Snapshot, t: Snapshot, v: Node, low: nat, w: Node, lowW: nat, k: int, m: int)
    requires Closed(g) && Extends(s, t) && Edge(g, v, w) && LowReached(g, s, v, low, k) && LowReached(g, t, w, lowW, m)
    ensures LowReached(g, t, v, low, k) && LowReached(g, t, v, lowW, m)
  {
    hide Reaches;
    EdgeReaches(g, v, w);
    ReachesTransitive(g, v, w, t.stack[m]);
  }

  lemma AfterPushedCall(g: Graph, s: Snapshot, t: Snapshot, p: nat, v: Node, low: nat, seen: set<Node>,
                        w: Node, lowW: nat)
    requires WellFormed(g, s) && LowBounds(g, s, p, v, low, seen) && Edge(g, v, w)
    requires Extends(s, t) && LowBounds(g, t, |s.stack|, w, lowW, g[w]) && w in g && w !in s.indices
    ensures LowBounds(g, t, p, v, if lowW < low then lowW else low, seen + {w})
  {
    hide LowReached, ClosedUnder;
    var k :| LowReached(g, s, v, low, k);
    var m :| LowReached(g, t, w, lowW, m);
    PushedCallReaches(g, s, t, v, low, w, lowW, k, m);
    var q := |s.stack|;
    forall i, j | 0 <= i < p < j < |t.stack| && Edge(g, t.stack[j], t.stack[i]) && t.stack[i] in t.indices
      ensures (if lowW < low then lowW else low) <= t.indices[t.stack[i]]
    {
      assert t.stack[i] == s.stack[i] && s.stack[i] in s.indices;
      if j < q {
        assert t.stack[j] == s.stack[j];
      } else if j == q {
        assert t.stack[i] in g[w];
      }
    }
  }

  lemma AfterCall(g: Graph, s: Snapshot, t: Snapshot, p: nat, v: Node, low: nat, seen: set<Node>,
                  w: Node, lowW: nat)
    requires WellFormed(g, s) && LowBounds(g, s, p, v, low, seen) && Edge(g, v, w)
    requires Visited(g, s, t, w, lowW)
    requires w !in s.indices && t.indices[w] > s.indices[v]
    ensures LowBounds(g, t, p, v, if lowW < low then lowW else low, seen + {w})
  {
    if t.stack == s.stack {
      assert lowW == t.indices[w];
      AfterPoppedCall(g, s, t, p, v, low, seen, w);
    } else {
      AfterPushedCall(g, s, t, p, v, low, seen, w, lowW);
    }
  }

  /** The successor `w` had been discovered before. */
  lemma AfterKnown(g: Graph, s: Snapshot, p: nat, v: Node, low: nat, seen: set<Node>, w: Node)
    requires WellFormed(g, s) && LowBounds(g, s, p, v, low, seen) && Edge(g, v, w) && w in s.indices
    ensures w in s.stack ==>
              LowBounds(g, s, p, v, if s.indices[w] < low then s.indices[w] else low, seen + {w})
    ensures w !in s.stack ==> LowBounds(g, s, p, v, low, seen + {w})
  {
    hide Reaches;
    if w in s.stack {
      var m :| 0 <= m < |s.stack| && s.stack[m] == w;
      EdgeReaches(g, v, w);
      assert LowReached(g, s, v, s.indices[w], m);
    }
  }

  /** `v` reaches a gray symbol strictly below itself. */
  lemma LowReturns(g: Graph, s: Snapshot, gray: set<Node>, p: nat, v: Node, low: nat) returns (m: int)
    requires WellFormed(g, s) && Colored(g, s, gray + {v})
    requires p < |s.stack| && s.stack[p] == v && low < s.indices[v] && exists k :: LowReached(g, s, v, low, k)
    ensures 0 <= m < p && s.stack[m] in gray && Reaches(g, v, s.stack[m])
  {
    var k :| LowReached(g, s, v, low, k);
    StackIndices(g, s, k, p);
    assert Returns(g, s, gray + {v}, k);
    m :| Witness(g, s, gray + {v}, m, k);
    StackIndices(g, s, m, p);
    ReachesTransitive(g, v, s.stack[k], s.stack[m]);
  }

  /** `v` reaches below itself: it turns black and stays on the stack. */
  lemma Retreat(g: Graph, s: Snapshot, gray: set<Node>, p: nat, v: Node, low: nat)
    requires WellFormed(g, s) && Colored(g, s, gray + {v}) && v in g && LowBounds(g, s, p, v, low, g[v])
    requires gray <= Elements(s.stack[..p]) && low < s.indices[v]
    ensures Colored(g, s, gray)
  {
    var m := LowReturns(g, s, gray, p, v, low);
    forall j | 0 <= j < |s.stack| ensures Returns(g, s, gray, j) {
      ReturnsBelow(g, s, gray, p, v, m, j);
    }
  }

  lemma ReturnsBelow(g: Graph, s: Snapshot, gray: set<Node>, p: nat, v: Node, m: int, j: int)
    requires WellFormed(g, s) && p < |s.stack| && s.stack[p] == v && 0 <= j < |s.stack|
    requires 0 <= m < p && s.stack[m] in gray && Reaches(g, v, s.stack[m])
    requires Returns(g, s, gray + {v}, j)
    ensures Returns(g, s, gray, j)
  {
    var i :| Witness(g, s, gray + {v}, i, j);
    if s.stack[i] == v {
      StackIndices(g, s, i, p);
      ReachesTransitive(g, s.stack[j], v, s.stack[m]);
      assert Witness(g, s, gray, m, j);
    } else {
      assert Witness(g, s, gray, i, j);
    }
  }

  lemma StackSplits(g: Graph, s: Snapshot, p: nat)
    requires WellFormed(g, s) && p <= |s.stack|
    ensures Elements(s.stack) == Elements(s.stack[..p]) + Elements(s.stack[p..])
    ensures Elements(s.stack[..p]) !! Elements(s.stack[p..])
  {
    assert s.stack == s.stack[..p] + s.stack[p..];
  }

  lemma NoEdgeBelow(g: Graph, s: Snapshot, p: nat, v: Node, i: int, j: int)
    requires WellFormed(g, s) && v in g && v in s.indices && LowBounds(g, s, p, v, s.indices[v], g[v])
    requires 0 <= i < p <= j < |s.stack|
    ensures !Edge(g, s.stack[j], s.stack[i])
  {
    StackIndices(g, s, i, p);
  }

  /** When nothing above `v` leads below it, no edge leaves the top of the stack except to `done`. */
  lemma TopIsClosed(g: Graph, s: Snapshot, gray: set<Node>, p: nat, v: Node)
    requires WellFormed(g, s) && Colored(g, s, gray + {v}) && v in g
    requires LowBounds(g, s, p, v, s.indices[v], g[v]) && gray <= Elements(s.stack[..p])
    ensures ClosedUnder(g, Elements(s.stack[p..]) + s.done)
  {
    var top := Elements(s.stack[p..]);
    StackSplits(g, s, p);
    forall x, y | x in top && x in g && y in g[x] ensures y in top + s.done {
      var j :| p <= j < |s.stack| && s.stack[j] == x;
      assert y in s.indices;
      forall i | 0 <= i < p ensures s.stack[i] != y { NoEdgeBelow(g, s, p, v, i, j); }
    }
  }

  /** A symbol above `v` reaches no gray symbol but `v`, so it reaches `v`. */
  lemma TopReturns(g: Graph, s: Snapshot, gray: set<Node>, p: nat, v: Node, x: Node)
    requires WellFormed(g, s) && Colored(g, s, gray + {v}) && p < |s.stack| && s.stack[p] == v
    requires gray <= Elements(s.stack[..p]) && ClosedUnder(g, Elements(s.stack[p..]) + s.done)
    requires x in s.stack[p..]
    ensures Reaches(g, v, x) && Reaches(g, x, v) && x in g
  {
    StackSplits(g, s, p);
    var j :| p <= j < |s.stack| && s.stack[j] == x;
    assert s.stack[j] in s.indices;
    assert Returns(g, s, gray + {v}, j);
    var i :| Witness(g, s, gray + {v}, i, j);
    ReachesStaysInside(g, Elements(s.stack[p..]) + s.done, x, s.stack[i]);
  }

  /** The top of the stack from `v` on is then a whole strongly connected component. */
  lemma TopIsScc(g: Graph, s: Snapshot, gray: set<Node>, p: nat, v: Node)
    requires WellFormed(g, s) && Colored(g, s, gray + {v}) && v in g
    requires LowBounds(g, s, p, v, s.indices[v], g[v]) && gray <= Elements(s.stack[..p])
    ensures IsScc(g, Elements(s.stack[p..]))
  {
    var top := Elements(s.stack[p..]);
    TopIsClosed(g, s, gray, p, v);
    StackSplits(g, s, p);
    assert s.stack[p..][0] == v;
    forall x | x in top ensures Reaches(g, v, x) && Reaches(g, x, v) && x in g {
      TopReturns(g, s, gray, p, v, x);
    }
    forall a, b | a in top && b in top ensures Reaches(g, a, b) {
      ReachesTransitive(g, a, v, b);
    }
    forall a, b | a in top && Reaches(g, a, b) && Reaches(g, b, a) ensures b in top {
      ReachesStaysInside(g, top + s.done, a, b);
      if b in s.done { ReachesStaysInside(g, s.done, b, a); }
    }
  }

  /** Popping the component restores the invariant without `v`. */
  lemma PopComponent(g: Graph, s: Snapshot, gray: set<Node>, p: nat, v: Node, t: Snapshot)
    requires WellFormed(g, s) && Colored(g, s, gray + {v}) && v in g
    requires LowBounds(g, s, p, v, s.indices[v], g[v]) && gray <= Elements(s.stack[..p])
    requires t == Snapshot(s.stack[..p], s.indices, s.done + Elements(s.stack[p..]))
    ensures WellFormed(g, t) && Colored(g, t, gray)
  {
    PopWellFormed(g, s, gray, p, v, t);
    PopReturns(g, s, gray, p, v, t);
    assert g[v] <= s.indices.Keys;
    forall i, j | 0 <= i <= j < |t.stack| && t.stack[i] in gray ensures Reaches(g, t.stack[i], t.stack[j]) {
      assert Reaches(g, s.stack[i], s.stack[j]);
    }
  }

  lemma PopReturns(g: Graph, s: Snapshot, gray: set<Node>, p: nat, v: Node, t: Snapshot)
    requires WellFormed(g, s) && Colored(g, s, gray + {v}) && p < |s.stack| && s.stack[p] == v
    requires t == Snapshot(s.stack[..p], s.indices, s.done + Elements(s.stack[p..]))
    ensures forall j :: 0 <= j < p ==> Returns(g, t, gray, j)
  {
    forall j | 0 <= j < p ensures Returns(g, t, gray, j) {
      assert Returns(g, s, gray + {v}, j);
      var i :| Witness(g, s, gray + {v}, i, j);
      StackIndices(g, s, i, p);
      assert Witness(g, t, gray, i, j);
    }
  }

  lemma PopWellFormed(g: Graph, s: Snapshot, gray: set<Node>, p: nat, v: Node, t: Snapshot)
    requires WellFormed(g, s) && Colored(g, s, gray + {v}) && v in g
    requires LowBounds(g, s, p, v, s.indices[v], g[v]) && gray <= Elements(s.stack[..p])
    requires t == Snapshot(s.stack[..p], s.indices, s.done + Elements(s.stack[p..]))
    ensures WellFormed(g, t)
  {
    hide Colored, LowReached;
    TopIsClosed(g, s, gray, p, v);
    StackSplits(g, s, p);
    assert t.done == Elements(s.stack[p..]) + s.done;
  }

  lemma PopOne(g: Graph, s: Snapshot, p: nat, k: nat)
    requires WellFormed(g, s) && p < k <= |s.stack|
    ensures Elements(s.stack[..k]) - {s.stack[k - 1]} == Elements(s.stack[..k - 1])
    ensures Elements(s.stack[k - 1..]) == {s.stack[k - 1]} + Elements(s.stack[k..])
    ensures s.stack[k - 1] == s.stack[p] <==> k - 1 == p
  {
    assert s.stack[..k] == s.stack[..k - 1] + [s.stack[k - 1]];
    assert s.stack[k - 1..] == [s.stack[k - 1]] + s.stack[k..];
    StackIndices(g, s, p, k - 1);
    forall i | 0 <= i < k - 1 ensures s.stack[i] != s.stack[k - 1] { StackIndices(g, s, i, k - 1); }
  }

  // ---- The visit of one symbol, step by step ----

  /** The visit of `v` that began at `before` has looked at the successors in `seen`. */
  ghost predicate Exploring(g: Graph, before: Snapshot, s: Snapshot, gray: set<Node>, v: Node, low: nat,
                            seen: set<Node>) {
    && WellFormed(g, s) && Colored(g, s, gray + {v}) && Extends(before, s)
    && gray <= Elements(before.stack) && v in g && v !in before.indices
    && LowBounds(g, s, |before.stack|, v, low, seen)
  }

  lemma ExtendsTransitive(s: Snapshot, t: Snapshot, u: Snapshot)
    requires Extends(s, t) && Extends(t, u)
    ensures Extends(s, u)
  {}

  lemma BeforeIsBelow(g: Graph, before: Snapshot, s: Snapshot, gray: set<Node>, v: Node, low: nat, seen: set<Node>)
    requires Exploring(g, before, s, gray, v, low, seen)
    ensures s.stack[..|before.stack|] == before.stack && gray <= Elements(s.stack[..|before.stack|])
    ensures |before.stack| < |s.stack| && s.stack[|before.stack|] == v && v in s.indices && WellFormed(g, s)
  {}

  lemma ExploringRange(g: Graph, before: Snapshot, s: Snapshot, gray: set<Node>, v: Node, low: nat, seen: set<Node>)
    requires Exploring(g, before, s, gray, v, low, seen)
    ensures v in g && v in s.indices && low <= s.indices[v] && s.indices.Keys <= g.Keys
  {}

  lemma StartExploring(g: Graph, before: Snapshot, gray: set<Node>, v: Node, index: nat, t: Snapshot)
    requires WellFormed(g, before) && Colored(g, before, gray) && v in g && v !in before.indices
    requires forall x :: x in gray ==> Reaches(g, x, v)
    requires forall x :: x in before.indices ==> before.indices[x] < index
    requires t == Snapshot(before.stack + [v], before.indices[v := index], before.done)
    ensures Exploring(g, before, t, gray, v, index, {})
  {
    Push(g, before, gray, v, index, t);
  }

  /** The search may be called on an undiscovered successor. */
  lemma ExploringCalls(g: Graph, before: Snapshot, s: Snapshot, gray: set<Node>, v: Node, low: nat,
                       seen: set<Node>, w: Node)
    requires Exploring(g, before, s, gray, v, low, seen) && Edge(g, v, w)
    ensures WellFormed(g, s) && Colored(g, s, gray + {v}) && w in g
    ensures forall x :: x in gray + {v} ==> Reaches(g, x, w)
  {
    BeforeIsBelow(g, before, s, gray, v, low, seen);
    GrayReaches(g, s, gray, |before.stack|, v, w);
  }

  lemma ExploreKnown(g: Graph, before: Snapshot, s: Snapshot, gray: set<Node>, v: Node, low: nat,
                     seen: set<Node>, w: Node)
    requires Exploring(g, before, s, gray, v, low, seen) && Edge(g, v, w) && w in s.indices
    ensures w in s.stack ==>
              Exploring(g, before, s, gray, v, if s.indices[w] < low then s.indices[w] else low, seen + {w})
    ensures w !in s.stack ==> Exploring(g, before, s, gray, v, low, seen + {w})
  {
    AfterKnown(g, s, |before.stack|, v, low, seen, w);
  }

  lemma ExploreCall(g: Graph, before: Snapshot, s: Snapshot, t: Snapshot, gray: set<Node>, v: Node, low: nat,
                    seen: set<Node>, w: Node, lowW: nat)
    requires Exploring(g, before, s, gray, v, low, seen) && Edge(g, v, w) && w !in s.indices
    requires WellFormed(g, t) && Colored(g, t, gray + {v}) && Visited(g, s, t, w, lowW)
    requires v in s.indices && w in t.indices && t.indices[w] > s.indices[v]
    ensures Exploring(g, before, t, gray, v, if lowW < low then lowW else low, seen + {w})
  {
    AfterCall(g, s, t, |before.stack|, v, low, seen, w, lowW);
    ExtendsTransitive(before, s, t);
  }

  lemma FinishRetreat(g: Graph, before: Snapshot, s: Snapshot, gray: set<Node>, v: Node, low: nat)
    requires v in g && Exploring(g, before, s, gray, v, low, g[v])
    requires v in s.indices && low < s.indices[v]
    ensures WellFormed(g, s) && Colored(g, s, gray) && Visited(g, before, s, v, low)
  {
    BeforeIsBelow(g, before, s, gray, v, low, g[v]);
    Retreat(g, s, gray, |before.stack|, v, low);
  }

  lemma FinishPop(g: Graph, before: Snapshot, s: Snapshot, gray: set<Node>, v: Node, t: Snapshot)
    requires v in g && v in s.indices && Exploring(g, before, s, gray, v, s.indices[v], g[v])
    requires |before.stack| <= |s.stack|
    requires t == Snapshot(before.stack, s.indices, s.done + Elements(s.stack[|before.stack|..]))
    ensures WellFormed(g, t) && Colored(g, t, gray) && Visited(g, before, t, v, s.indices[v])
    ensures IsScc(g, Elements(s.stack[|before.stack|..]))
    ensures Elements(s.stack[|before.stack|..]) !! s.done
  {
    BeforeIsBelow(g, before, s, gray, v, s.indices[v], g[v]);
    PopComponent(g, s, gray, |before.stack|, v, t);
    TopIsScc(g, s, gray, |before.stack|, v);
    StackSplits(g, s, |before.stack|);
  }
}
