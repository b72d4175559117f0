/** The dependency graph of an execution plan and the facts about orders, chains and levels in it
    (`src/axiom/plan/models.py:208-256`). */
module PlanGraph {
  import opened Ordering
  import opened Digraph

  type TaskId = string

  /** The dependency list of every task of the plan; listed ids need not be tasks themselves. */
  type Deps = map<TaskId, seq<TaskId>>

  /** The edges from each task to the dependencies that are present in the plan. */
  function Present(deps: Deps): (g: Graph)
    ensures Closed(g)
  {
    map t | t in deps :: set d | d in deps[t] && d in deps
  }

  // ---- Orders ----

  /** `order` lists present tasks without repetition, each after its present dependencies. */
  ghost predicate Ordered(deps: Deps, order: seq<TaskId>) {
    && NoDuplicates(order) && Elements(order) <= deps.Keys
    && forall i, d :: 0 <= i < |order| && d in deps[order[i]] && d in deps ==> d in order[..i]
  }

  /** An order of the whole plan. */
  ghost predicate Topological(deps: Deps, order: seq<TaskId>) {
    Ordered(deps, order) && Elements(order) == deps.Keys
  }

  lemma OrderedAppend(deps: Deps, order: seq<TaskId>, t: TaskId)
    requires Ordered(deps, order) && t in deps && t !in order
    requires forall d :: d in deps[t] && d in deps ==> d in order
    ensures Ordered(deps, order + [t])
  {
    var next := order + [t];
    assert Elements(next) == Elements(order) + {t};
    forall i, d | 0 <= i < |next| && d in deps[next[i]] && d in deps ensures d in next[..i] {
      if i < |order| {
        assert next[..i] == order[..i];
      } else {
        assert next[..i] == order;
      }
    }
  }

  /** Along a path the position in a topological order only goes down. */
  lemma {:induction false} PathGoesDown(deps: Deps, order: seq<TaskId>, p: seq<TaskId>, i: nat, j: nat)
    requires Topological(deps, order) && IsPath(Present(deps), p) && |p| > 1
    requires i < |order| && order[i] == p[0] && j < |order| && order[j] == p[|p| - 1]
    ensures j < i
  {
    assert Edge(Present(deps), p[0], p[1]);
    assert p[1] in order[..i];
    var k :| 0 <= k < i && order[k] == p[1];
    if |p| > 2 {
      forall m | 0 <= m < |p[1..]| - 1 ensures Edge(Present(deps), p[1..][m], p[1..][m + 1]) {
        assert Edge(Present(deps), p[m + 1], p[m + 2]);
      }
      PathGoesDown(deps, order, p[1..], k, j);
    }
  }

  lemma TopologicalIsAcyclic(deps: Deps, order: seq<TaskId>)
    requires Topological(deps, order)
    ensures Acyclic(Present(deps))
  {
    forall p | IsCycle(Present(deps), p) ensures false {
      assert Edge(Present(deps), p[0], p[1]);
      assert p[0] in Elements(order);
      var i :| 0 <= i < |order| && order[i] == p[0];
      PathGoesDown(deps, order, p, i, i);
    }
  }

  // ---- Chains of dependencies ----

  /** A chain of `n` dependency steps between present tasks starts at `t`. */
  ghost predicate HasChain(deps: Deps, t: TaskId, n: nat)
    decreases n
  {
    t in deps && (n == 0 || exists d :: d in deps[t] && HasChain(deps, d, n - 1))
  }

  /** The longest chain from `t` has exactly `n` steps. */
  ghost predicate LevelIs(deps: Deps, t: TaskId, n: nat) {
    HasChain(deps, t, n) && !HasChain(deps, t, n + 1)
  }

  /** Nothing that `t` depends on, directly or through other tasks, is missing from the plan. */
  ghost predicate Grounded(deps: Deps, t: TaskId) {
    t in deps && forall u :: u in deps && Reaches(Present(deps), t, u) ==> forall d :: d in deps[u] ==> d in deps
  }

  lemma {:induction false} ChainShortens(deps: Deps, t: TaskId, n: nat, m: nat)
    requires HasChain(deps, t, n) && m <= n
    ensures HasChain(deps, t, m)
    decreases n
  {
    if m > 0 {
      var d :| d in deps[t] && HasChain(deps, d, n - 1);
      ChainShortens(deps, d, n - 1, m - 1);
    }
  }

  lemma GroundedStep(deps: Deps, t: TaskId)
    requires t in deps
    ensures Grounded(deps, t) <==> forall d :: d in deps[t] ==> Grounded(deps, d)
  {
    var g := Present(deps);
    ReachesSelf(g, t);
    if Grounded(deps, t) {
      forall d, u | d in deps[t] && u in deps && Reaches(g, d, u) ensures forall e :: e in deps[u] ==> e in deps {
        assert Edge(g, t, d);
        EdgeReaches(g, t, d);
        ReachesTransitive(g, t, d, u);
      }
    }
    if forall d :: d in deps[t] ==> Grounded(deps, d) {
      forall u | u in deps && Reaches(g, t, u) ensures forall e :: e in deps[u] ==> e in deps {
        var p :| IsPath(g, p) && p[0] == t && p[|p| - 1] == u;
        if |p| > 1 {
          assert Edge(g, p[0], p[1]);
          assert IsPath(g, p[1..]) by {
            forall i | 0 <= i < |p[1..]| - 1 ensures Edge(g, p[1..][i], p[1..][i + 1]) {
              assert Edge(g, p[i + 1], p[i + 2]);
            }
          }
          assert p[1..][0] == p[1] && p[1..][|p[1..]| - 1] == u;
          assert Reaches(g, p[1], u);
          assert Grounded(deps, p[1]);
        }
      }
    }
  }

  /** The tasks whose dependencies all have a longest chain shorter than `n` and miss nothing. */
  ghost predicate ReadyBy(deps: Deps, t: TaskId, n: nat) {
    Grounded(deps, t) && !HasChain(deps, t, n)
  }

  /** One more round completes exactly the tasks whose dependencies are all complete. */
  lemma ReadyStep(deps: Deps, t: TaskId, n: nat)
    requires t in deps
    ensures ReadyBy(deps, t, n + 1) <==> forall d :: d in deps[t] ==> ReadyBy(deps, d, n)
  {
    GroundedStep(deps, t);
  }

  lemma ReadyGrows(deps: Deps, t: TaskId, n: nat)
    requires ReadyBy(deps, t, n)
    ensures ReadyBy(deps, t, n + 1)
  {
    if HasChain(deps, t, n + 1) { ChainShortens(deps, t, n + 1, n); }
  }

  /** A chain from the task at position `i` of a topological order has at most `i` steps. */
  lemma {:induction false} ChainIsShort(deps: Deps, order: seq<TaskId>, i: nat, n: nat)
    requires Topological(deps, order) && i < |order| && HasChain(deps, order[i], n)
    ensures n <= i
    decreases n
  {
    if n > 0 {
      var d :| d in deps[order[i]] && HasChain(deps, d, n - 1);
      assert d in order[..i];
      var k :| 0 <= k < i && order[k] == d;
      ChainIsShort(deps, order, k, n - 1);
    }
  }

  /** Any assignment of rounds that puts dependencies strictly earlier needs at least the chain length. */
  lemma {:induction false} ChainNeedsRounds(deps: Deps, round: map<TaskId, nat>, t: TaskId, n: nat)
    requires round.Keys == deps.Keys && HasChain(deps, t, n)
    requires forall u, d :: u in deps && d in deps[u] && d in deps ==> round[d] < round[u]
    ensures round[t] >= n
    decreases n
  {
    if n > 0 {
      var d :| d in deps[t] && HasChain(deps, d, n - 1);
      ChainNeedsRounds(deps, round, d, n - 1);
    }
  }

  /** Every dependency is itself a task of the plan. */
  ghost predicate Complete(deps: Deps) {
    forall t, d :: t in deps && d in deps[t] ==> d in deps
  }

  /** In a plan without missing dependencies every task is grounded. */
  lemma CompleteIsGrounded(deps: Deps)
    requires Complete(deps)
    ensures forall t :: t in deps ==> Grounded(deps, t)
  {}

  // ---- Rounds ----

  ghost function ReadySet(deps: Deps, n: nat): set<TaskId> {
    set t | t in deps && ReadyBy(deps, t, n)
  }

  /** The tasks of level `n` that miss no dependency. */
  ghost function LevelSet(deps: Deps, n: nat): set<TaskId> {
    set t | t in deps && Grounded(deps, t) && LevelIs(deps, t, n)
  }

  function Select(order: seq<TaskId>, s: set<TaskId>): seq<TaskId> {
    if order == [] then []
    else Select(order[..|order| - 1], s) + if order[|order| - 1] in s then [order[|order| - 1]] else []
  }

  lemma {:induction false} SelectElements(order: seq<TaskId>, s: set<TaskId>)
    ensures Elements(Select(order, s)) == Elements(order) * s
  {
    if order != [] {
      var init, last := order[..|order| - 1], order[|order| - 1];
      SelectElements(init, s);
      assert order == init + [last];
      assert Elements(order) == Elements(init) + {last};
      var tail := if last in s then [last] else [];
      assert Elements(Select(init, s) + tail) == Elements(Select(init, s)) + Elements(tail);
    }
  }

  /** Round `k` lists the tasks of level `k` in execution order, and no level is left out. */
  ghost predicate IsLevels(deps: Deps, order: seq<TaskId>, rounds: seq<seq<TaskId>>) {
    && (forall k :: 0 <= k < |rounds| ==> rounds[k] == Select(order, LevelSet(deps, k)) && rounds[k] != [])
    && (forall k: nat :: LevelSet(deps, k) != {} ==> k < |rounds|)
  }

  /** A task joins a round exactly when it is still open and its dependencies are complete. */
  lemma JoinsRound(deps: Deps, t: TaskId, n: nat)
    requires t in deps
    ensures t in LevelSet(deps, n) <==>
            t !in ReadySet(deps, n) && forall d :: d in deps[t] ==> d in ReadySet(deps, n)
    ensures ReadySet(deps, n) + LevelSet(deps, n) == ReadySet(deps, n + 1)
  {
    hide HasChain, Reaches, Present;
    forall u | u in deps ensures u in ReadySet(deps, n + 1) <==> u in ReadySet(deps, n) + LevelSet(deps, n) {
      if ReadyBy(deps, u, n) { ReadyGrows(deps, u, n); }
    }
    ReadyStep(deps, t, n);
    if ReadyBy(deps, t, n) { ReadyGrows(deps, t, n); }
  }

  lemma NothingReadyFirst(deps: Deps)
    ensures ReadySet(deps, 0) == {}
  {}

  /** A task of the next level depends on one of this level. */
  lemma LevelBelow(deps: Deps, n: nat)
    requires LevelSet(deps, n + 1) != {}
    ensures LevelSet(deps, n) != {}
  {
    var t :| t in LevelSet(deps, n + 1);
    GroundedStep(deps, t);
    var d :| d in deps[t] && HasChain(deps, d, n);
    assert !HasChain(deps, t, n + 2) && !HasChain(deps, d, n + 1);
    assert d in LevelSet(deps, n);
  }

  lemma {:induction false} NoLevelsAbove(deps: Deps, n: nat, m: nat)
    requires LevelSet(deps, n) == {} && n <= m
    ensures LevelSet(deps, m) == {}
  {
    hide LevelSet;
    if n < m {
      NoLevelsAbove(deps, n, m - 1);
      if LevelSet(deps, m) != {} { LevelBelow(deps, m - 1); }
    }
  }

  /** Once a round is empty or no task is left, all levels have had their round. */
  lemma NoFurtherLevels(deps: Deps, order: seq<TaskId>, n: nat)
    requires (Elements(order) == deps.Keys && Select(order, LevelSet(deps, n)) == []) || deps.Keys <= ReadySet(deps, n)
    ensures forall k: nat :: LevelSet(deps, k) != {} ==> k < n
  {
    hide Grounded, HasChain, ReadySet, LevelIs;
    if t :| t in LevelSet(deps, n) {
      SelectElements(order, LevelSet(deps, n));
      assert t in deps.Keys * LevelSet(deps, n);
      JoinsRound(deps, t, n);
    }
    hide LevelSet;
    forall k: nat | n <= k ensures LevelSet(deps, k) == {} { NoLevelsAbove(deps, n, k); }
  }

  lemma RoundAdvances(deps: Deps, order: seq<TaskId>, n: nat, batch: seq<TaskId>)
    requires order == [] || Elements(order) == deps.Keys
    requires batch == Select(order, LevelSet(deps, n)) && batch != []
    ensures order != [] && Elements(batch) <= deps.Keys && Elements(batch) != {}
    ensures Elements(batch) !! ReadySet(deps, n) && ReadySet(deps, n) + Elements(batch) == ReadySet(deps, n + 1)
  {
    hide Grounded, HasChain;
    SelectElements(order, LevelSet(deps, n));
    assert LevelSet(deps, n) <= deps.Keys;
    assert batch[0] in Elements(batch);
    JoinsRound(deps, batch[0], n);
  }

  /** Each grounded task is in exactly one round, the one of its level. */
  lemma RoundOfTask(deps: Deps, order: seq<TaskId>, rounds: seq<seq<TaskId>>, t: TaskId)
    requires Topological(deps, order) && IsLevels(deps, order, rounds) && Grounded(deps, t)
    ensures exists k :: 0 <= k < |rounds| && t in rounds[k] && LevelIs(deps, t, k)
    ensures forall k, l :: 0 <= k < |rounds| && 0 <= l < |rounds| && t in rounds[k] && t in rounds[l] ==> k == l
  {
    forall k | 0 <= k < |rounds| ensures t in rounds[k] <==> LevelIs(deps, t, k) { InRound(deps, order, rounds, t, k); }
    var k := LevelOf(deps, order, t);
    assert t in LevelSet(deps, k);
    hide Grounded, HasChain, LevelIs, IsLevels, Topological, LevelSet;
    forall k, l | 0 <= k < |rounds| && 0 <= l < |rounds| && t in rounds[k] && t in rounds[l] ensures k == l {
      LevelIsUnique(deps, t, k, l);
    }
  }

  lemma InRound(deps: Deps, order: seq<TaskId>, rounds: seq<seq<TaskId>>, t: TaskId, k: nat)
    requires Topological(deps, order) && IsLevels(deps, order, rounds) && Grounded(deps, t) && k < |rounds|
    ensures t in rounds[k] <==> LevelIs(deps, t, k)
  {
    hide Grounded, HasChain, NoDuplicates, Ordered;
    SelectElements(order, LevelSet(deps, k));
    assert t in rounds[k] <==> t in Elements(rounds[k]);
    GroundedStepIn(deps, t);
  }

  lemma GroundedStepIn(deps: Deps, t: TaskId)
    requires Grounded(deps, t)
    ensures t in deps
  {}

  lemma LevelIsUnique(deps: Deps, t: TaskId, k: nat, l: nat)
    requires LevelIs(deps, t, k) && LevelIs(deps, t, l)
    ensures k == l
  {
    if k < l { ChainShortens(deps, t, l, k + 1); }
    if l < k { ChainShortens(deps, t, k, l + 1); }
  }

  /** In an acyclic plan every grounded task has a level. */
  lemma LevelOf(deps: Deps, order: seq<TaskId>, t: TaskId) returns (k: nat)
    requires Topological(deps, order) && Grounded(deps, t)
    ensures LevelIs(deps, t, k)
  {
    assert t in Elements(order);
    var i :| 0 <= i < |order| && order[i] == t;
    if HasChain(deps, t, i + 1) { ChainIsShort(deps, order, i, i + 1); }
    k := HighestChain(deps, t, i + 1);
  }

  lemma {:induction false} HighestChain(deps: Deps, t: TaskId, n: nat) returns (k: nat)
    requires Grounded(deps, t) && !HasChain(deps, t, n)
    ensures k < n && LevelIs(deps, t, k)
  {
    if n == 1 || HasChain(deps, t, n - 1) { k := n - 1; } else { k := HighestChain(deps, t, n - 1); }
  }

  /** No assignment of rounds that keeps dependencies strictly earlier manages with fewer rounds. */
  lemma RoundsAreMinimal(deps: Deps, order: seq<TaskId>, rounds: seq<seq<TaskId>>, round: map<TaskId, nat>, count: nat)
    requires IsLevels(deps, order, rounds)
    requires round.Keys == deps.Keys && forall t :: t in round ==> round[t] < count
    requires forall u, d :: u in deps && d in deps[u] && d in deps ==> round[d] < round[u]
    ensures |rounds| <= count
  {
    if rounds != [] {
      var k := |rounds| - 1;
      var t := rounds[k][0];
      SelectElements(order, LevelSet(deps, k));
      assert t in Elements(rounds[k]);
      ChainNeedsRounds(deps, round, t, k);
    }
  }
}
