/** The forest that a flat span list describes, by positions in the list
    (`frontend/src/lib/trace-tree.ts`): who is whose parent, which parent chains end, and what
    listing the forest depth-first gives. */
module SpanForest {
  import opened Wrappers
  import opened Ordering

  /** `startedAt` is the parsed start time; an unparseable one is `None` and sorts last. */
  datatype Span = Span(spanId: string, parentSpanId: Option<string>, startedAt: Option<int>, name: string)

  predicate NoLater(a: Option<int>, b: Option<int>) {
    b.None? || (a.Some? && a.value <= b.value)
  }

  /** The first span with the id owns it. */
  function Owner(spans: seq<Span>, id: string): (r: Option<nat>)
    ensures r.Some? ==> r.value < |spans| && spans[r.value].spanId == id
    ensures forall j :: 0 <= j < |spans| && spans[j].spanId == id ==> r.Some? && r.value <= j
  {
    if spans == [] then None
    else
      var earlier := Owner(spans[..|spans| - 1], id);
      if earlier.Some? then earlier
      else if spans[|spans| - 1].spanId == id then Some(|spans| - 1) else None
  }

  predicate OwnsId(spans: seq<Span>, i: nat)
    requires i < |spans|
  {
    Owner(spans, spans[i].spanId) == Some(i)
  }

  /** The parent of a span that owns its id: the owner of the parent id, unless that is the span itself. */
  function Parent(spans: seq<Span>, i: nat): (r: Option<nat>)
    requires i < |spans|
    ensures r.Some? ==> r.value < |spans|
  {
    match spans[i].parentSpanId
    case None => None
    case Some(p) => if p != spans[i].spanId && OwnsId(spans, i) then Owner(spans, p) else None
  }

  // ---- Parent chains ----

  /** The chain of parents of `i` ends after exactly `n` steps. */
  ghost predicate EndsAfter(spans: seq<Span>, i: nat, n: nat)
    requires i < |spans|
    decreases n
  {
    match Parent(spans, i)
    case None => n == 0
    case Some(p) => n > 0 && EndsAfter(spans, p, n - 1)
  }

  ghost predicate Rooted(spans: seq<Span>, i: nat)
    requires i < |spans|
  {
    exists n :: EndsAfter(spans, i, n)
  }

  lemma {:induction false} EndsOnce(spans: seq<Span>, i: nat, m: nat, n: nat)
    requires i < |spans| && EndsAfter(spans, i, m) && EndsAfter(spans, i, n)
    ensures m == n
    decreases m
  {
    match Parent(spans, i) {
      case None =>
      case Some(p) => EndsOnce(spans, p, m - 1, n - 1);
    }
  }

  ghost function Depth(spans: seq<Span>, i: nat): (n: nat)
    requires i < |spans| && Rooted(spans, i)
    ensures EndsAfter(spans, i, n)
  {
    var n :| EndsAfter(spans, i, n);
    n
  }

  lemma RootedStep(spans: seq<Span>, i: nat)
    requires i < |spans|
    ensures Parent(spans, i).None? ==> Rooted(spans, i) && Depth(spans, i) == 0
    ensures Parent(spans, i).Some? ==>
              var p := Parent(spans, i).value;
              && (Rooted(spans, i) <==> Rooted(spans, p))
              && (Rooted(spans, i) ==> Depth(spans, i) == Depth(spans, p) + 1)
  {
    match Parent(spans, i) {
      case None =>
        assert EndsAfter(spans, i, 0);
        EndsOnce(spans, i, 0, Depth(spans, i));
      case Some(p) =>
        if Rooted(spans, i) {
          assert EndsAfter(spans, p, Depth(spans, i) - 1);
          EndsOnce(spans, p, Depth(spans, i) - 1, Depth(spans, p));
        }
        if Rooted(spans, p) { assert EndsAfter(spans, i, Depth(spans, p) + 1); }
    }
  }

  /** The ancestor of `i` at `k` steps. */
  ghost function Up(spans: seq<Span>, i: nat, k: nat): (a: nat)
    requires i < |spans| && Rooted(spans, i) && k <= Depth(spans, i)
    ensures a < |spans| && Rooted(spans, a) && Depth(spans, a) == Depth(spans, i) - k
    decreases k
  {
    RootedStep(spans, i);
    if k == 0 then i else Up(spans, Parent(spans, i).value, k - 1)
  }

  /** `i` is `j` or lies below it. */
  ghost predicate Below(spans: seq<Span>, j: nat, i: nat)
    requires i < |spans| && j < |spans| && Rooted(spans, j)
  {
    Rooted(spans, i) && Depth(spans, j) <= Depth(spans, i) && Up(spans, i, Depth(spans, i) - Depth(spans, j)) == j
  }

  // ---- The forest ----

  function StartOf(spans: seq<Span>, i: nat): Option<int> {
    if i < |spans| then spans[i].startedAt else None
  }

  function Le(spans: seq<Span>): (nat, nat) -> bool {
    (i: nat, j: nat) => NoLater(StartOf(spans, i), StartOf(spans, j))
  }

  lemma LeIsOrder(spans: seq<Span>)
    ensures TotalOrder(Le(spans))
  {}

  /** The children of `j` in input order. */
  ghost function Listed(spans: seq<Span>, parent: Option<nat>, n: nat): (r: seq<nat>)
    requires n <= |spans|
    ensures forall p :: p in r ==> p < n
  {
    if n == 0 then [] else Listed(spans, parent, n - 1) + if Parent(spans, n - 1) == parent then [n - 1] else []
  }

  ghost function Children(spans: seq<Span>, j: nat): (r: seq<nat>)
    ensures forall p :: p in r ==> p < |spans|
  {
    SortedIsPermutation(Le(spans), Listed(spans, Some(j), |spans|));
    Sorted(Le(spans), Listed(spans, Some(j), |spans|))
  }

  /** Spans whose parent chain never ends become roots without children, in input order, behind the rest. */
  ghost function Adopted(spans: seq<Span>, n: nat): (r: seq<nat>)
    requires n <= |spans|
    ensures forall p :: p in r ==> p < n
  {
    if n == 0 then [] else Adopted(spans, n - 1) + if !Rooted(spans, n - 1) then [n - 1] else []
  }

  ghost function Roots(spans: seq<Span>): (r: seq<nat>)
    ensures forall p :: p in r ==> p < |spans|
  {
    SortedIsPermutation(Le(spans), Listed(spans, None, |spans|));
    Sorted(Le(spans), Listed(spans, None, |spans|)) + Adopted(spans, |spans|)
  }

  ghost function Kids(spans: seq<Span>, i: nat): (r: seq<nat>)
    requires i < |spans|
    ensures forall p :: p in r ==> p < |spans|
  {
    if Rooted(spans, i) then Children(spans, i) else []
  }

  ghost function Level(spans: seq<Span>, i: nat): nat
    requires i < |spans|
  {
    if Rooted(spans, i) then Depth(spans, i) else 0
  }

  lemma {:induction false} ListedExact(spans: seq<Span>, parent: Option<nat>, n: nat)
    requires n <= |spans|
    ensures NoDuplicates(Listed(spans, parent, n))
    ensures forall i: nat :: i in Listed(spans, parent, n) <==> i < n && Parent(spans, i) == parent
  {
    hide Parent;
    if n > 0 { ListedExact(spans, parent, n - 1); }
  }

  lemma {:induction false} AdoptedExact(spans: seq<Span>, n: nat)
    requires n <= |spans|
    ensures NoDuplicates(Adopted(spans, n))
    ensures forall i: nat :: i in Adopted(spans, n) <==> i < n && !Rooted(spans, i)
  {
    hide Rooted;
    if n > 0 { AdoptedExact(spans, n - 1); }
  }

  lemma ChildrenExact(spans: seq<Span>, j: nat)
    requires j < |spans|
    ensures NoDuplicates(Children(spans, j))
    ensures forall i: nat :: i in Children(spans, j) <==> i < |spans| && Parent(spans, i) == Some(j)
    ensures forall i :: i in Children(spans, j) && Rooted(spans, j) ==>
              Rooted(spans, i) && Depth(spans, i) == Depth(spans, j) + 1
  {
    var listed := Listed(spans, Some(j), |spans|);
    ListedExact(spans, Some(j), |spans|);
    SortedIsPermutation(Le(spans), listed);
    NoDuplicatesPermutes(listed, Children(spans, j));
    forall i | i in Children(spans, j) && Rooted(spans, j)
      ensures Rooted(spans, i) && Depth(spans, i) == Depth(spans, j) + 1
    {
      RootedStep(spans, i);
    }
  }

  // ---- Listing the forest ----

  /** Roots without usable parent and the children of each span are in order of their start times. */
  lemma LevelsAreSorted(spans: seq<Span>, parent: Option<nat>)
    ensures SortedBy(Le(spans), Sorted(Le(spans), Listed(spans, parent, |spans|)))
  {
    LeIsOrder(spans);
    SortedIsSorted(Le(spans), Listed(spans, parent, |spans|));
  }

  /** No rooted span is deeper than this. */
  ghost function MaxDepth(spans: seq<Span>, n: nat): (m: nat)
    requires n <= |spans|
    ensures forall i :: 0 <= i < n && Rooted(spans, i) ==> Depth(spans, i) <= m
  {
    if n == 0 then 0
    else
      var m := MaxDepth(spans, n - 1);
      if Rooted(spans, n - 1) && Depth(spans, n - 1) > m then Depth(spans, n - 1) else m
  }

  datatype Row = Row(position: nat, depth: nat)

  ghost function Room(spans: seq<Span>, i: nat): nat
    requires i < |spans|
  {
    if Rooted(spans, i) then MaxDepth(spans, |spans|) - Depth(spans, i) else 0
  }

  ghost predicate AllIn(ps: seq<nat>, s: seq<nat>) {
    forall p :: p in ps ==> p in s
  }

  /** The rows for span `i` and everything below it. */
  ghost function Flat(spans: seq<Span>, i: nat, depth: nat): (rows: seq<Row>)
    requires i < |spans|
    ensures forall r :: r in rows ==> r.position < |spans|
    decreases Room(spans, i), 1, 0
  {
    [Row(i, depth)] + if Rooted(spans, i) then FlatAll(spans, i, Children(spans, i), depth + 1) else []
  }

  ghost function FlatAll(spans: seq<Span>, parent: nat, ps: seq<nat>, depth: nat): (rows: seq<Row>)
    requires parent < |spans| && Rooted(spans, parent) && AllIn(ps, Children(spans, parent))
    ensures forall r :: r in rows ==> r.position < |spans|
    decreases Room(spans, parent), 0, |ps|
  {
    if ps == [] then []
    else
      var init, last := ps[..|ps| - 1], ps[|ps| - 1];
      ChildRoom(spans, parent, last);
      FlatAll(spans, parent, init, depth) + Flat(spans, last, depth)
  }

  lemma ChildRoom(spans: seq<Span>, parent: nat, c: nat)
    requires parent < |spans| && Rooted(spans, parent) && c in Children(spans, parent)
    ensures c < |spans| && Rooted(spans, c) && Depth(spans, c) == Depth(spans, parent) + 1
    ensures Room(spans, c) < Room(spans, parent)
  {
    ChildrenExact(spans, parent);
  }

  ghost function FlatRoots(spans: seq<Span>, ps: seq<nat>): (rows: seq<Row>)
    requires forall i :: i in ps ==> i < |spans|
    ensures forall r :: r in rows ==> r.position < |spans|
  {
    if ps == [] then []
    else
      var init, last := ps[..|ps| - 1], ps[|ps| - 1];
      assert last in ps && forall i :: i in init ==> i in ps;
      FlatRoots(spans, init) + Flat(spans, last, 0)
  }

  // ---- Every span is listed once ----

  lemma BelowSelf(spans: seq<Span>, i: nat)
    requires i < |spans| && Rooted(spans, i)
    ensures Below(spans, i, i)
  {}

  lemma {:induction false} UpUp(spans: seq<Span>, i: nat, k: nat, l: nat)
    requires i < |spans| && Rooted(spans, i) && k + l <= Depth(spans, i)
    ensures Up(spans, Up(spans, i, k), l) == Up(spans, i, k + l)
    decreases k
  {
    hide Rooted, Depth, EndsAfter, Parent;
    RootedStep(spans, i);
    if k > 0 { UpUp(spans, Parent(spans, i).value, k - 1, l); }
  }

  /** A span strictly below `j` lies below exactly one child of `j`. */
  lemma BelowChild(spans: seq<Span>, j: nat, i: nat) returns (c: nat)
    requires i < |spans| && j < |spans| && Rooted(spans, j) && Below(spans, j, i) && i != j
    ensures c in Children(spans, j) && c < |spans| && Rooted(spans, c) && Below(spans, c, i)
  {
    hide Rooted, Depth, EndsAfter, Parent, Children;
    var k := Depth(spans, i) - Depth(spans, j);
    assert k > 0;
    c := Up(spans, i, k - 1);
    UpUp(spans, i, k - 1, 1);
    RootedStep(spans, c);
    assert Up(spans, c, 1) == j;
    UpOne(spans, c);
    ChildrenExact(spans, j);
  }

  lemma UpOne(spans: seq<Span>, i: nat)
    requires i < |spans| && Rooted(spans, i) && Depth(spans, i) > 0
    ensures Parent(spans, i) == Some(Up(spans, i, 1))
  {
    hide Rooted, Depth, EndsAfter, Parent;
    RootedStep(spans, i);
    RootedStep(spans, Up(spans, i, 1));
  }

  lemma ChildBelow(spans: seq<Span>, j: nat, c: nat, i: nat)
    requires i < |spans| && j < |spans| && Rooted(spans, j) && c in Children(spans, j)
    ensures c < |spans| && Rooted(spans, c)
    ensures Below(spans, c, i) ==> Below(spans, j, i) && i != j
  {
    ChildrenExact(spans, j);
    RootedStep(spans, c);
    if Below(spans, c, i) {
      UpUp(spans, i, Depth(spans, i) - Depth(spans, c), 1);
    }
  }

  lemma BelowOneChild(spans: seq<Span>, j: nat, c: nat, d: nat, i: nat)
    requires i < |spans| && j < |spans| && Rooted(spans, j) && c in Children(spans, j) && d in Children(spans, j)
    requires c < |spans| && d < |spans| && Rooted(spans, c) && Rooted(spans, d) && Below(spans, c, i)
    requires Below(spans, d, i)
    ensures c == d
  {
    ChildrenExact(spans, j);
  }

  /** How often `i` is listed among the rows. */
  ghost function Times(rows: seq<Row>, i: nat): nat {
    if rows == [] then 0 else Times(rows[..|rows| - 1], i) + if rows[|rows| - 1].position == i then 1 else 0
  }

  lemma {:induction false} TimesJoin(xs: seq<Row>, ys: seq<Row>, i: nat)
    ensures Times(xs + ys, i) == Times(xs, i) + Times(ys, i)
  {
    if ys == [] {
      assert xs + ys == xs;
    } else {
      assert (xs + ys)[..|xs + ys| - 1] == xs + ys[..|ys| - 1];
      TimesJoin(xs, ys[..|ys| - 1], i);
    }
  }

  /** Every row shows its span at the depth the forest gives it. */
  ghost predicate Placed(spans: seq<Span>, rows: seq<Row>) {
    forall r :: r in rows ==> r.position < |spans| && r.depth == Level(spans, r.position)
  }

  ghost predicate BelowAny(spans: seq<Span>, ps: seq<nat>, i: nat)
    requires i < |spans|
  {
    exists c :: c in ps && c < |spans| && Rooted(spans, c) && Below(spans, c, i)
  }

  /** The rows below a rooted span list the spans below it, once each, at their depth. */
  lemma {:induction false} FlatTimes(spans: seq<Span>, j: nat, i: nat)
    requires j < |spans| && i < |spans| && Rooted(spans, j)
    ensures Times(Flat(spans, j, Depth(spans, j)), i) == if Below(spans, j, i) then 1 else 0
    ensures Placed(spans, Flat(spans, j, Depth(spans, j)))
    decreases Room(spans, j), 1, 0
  {
    hide Below, Rooted, Depth, Children, FlatAll, BelowAny, NoDuplicates;
    ChildrenExact(spans, j);
    FlatAllTimes(spans, j, Children(spans, j), i);
    RowsOf(spans, j, i);
    SelfOrChild(spans, j, i);
  }

  lemma RowsOf(spans: seq<Span>, j: nat, i: nat)
    requires j < |spans| && Rooted(spans, j)
    ensures Times(Flat(spans, j, Depth(spans, j)), i) ==
            (if i == j then 1 else 0) + Times(FlatAll(spans, j, Children(spans, j), Depth(spans, j) + 1), i)
    ensures Placed(spans, FlatAll(spans, j, Children(spans, j), Depth(spans, j) + 1)) ==>
              Placed(spans, Flat(spans, j, Depth(spans, j)))
  {
    hide Rooted, Depth, Children, FlatAll;
    var depth := Depth(spans, j);
    TimesJoin([Row(j, depth)], FlatAll(spans, j, Children(spans, j), depth + 1), i);
    assert [Row(j, depth)][..0] == [];
  }

  lemma SelfOrChild(spans: seq<Span>, j: nat, i: nat)
    requires j < |spans| && i < |spans| && Rooted(spans, j)
    ensures Below(spans, j, i) <==> i == j || BelowAny(spans, Children(spans, j), i)
    ensures !(i == j && BelowAny(spans, Children(spans, j), i))
  {
    hide Below, Rooted, Depth, Children;
    BelowSelf(spans, j);
    if BelowAny(spans, Children(spans, j), i) {
      var c :| c in Children(spans, j) && c < |spans| && Rooted(spans, c) && Below(spans, c, i);
      ChildBelow(spans, j, c, i);
    } else if i != j && Below(spans, j, i) {
      var c := BelowChild(spans, j, i);
    }
  }

  lemma {:induction false} FlatAllTimes(spans: seq<Span>, j: nat, ps: seq<nat>, i: nat)
    requires j < |spans| && i < |spans| && Rooted(spans, j) && NoDuplicates(ps) && AllIn(ps, Children(spans, j))
    ensures Times(FlatAll(spans, j, ps, Depth(spans, j) + 1), i) == if BelowAny(spans, ps, i) then 1 else 0
    ensures Placed(spans, FlatAll(spans, j, ps, Depth(spans, j) + 1))
    decreases Room(spans, j), 0, |ps|
  {
    hide Below, Flat, Rooted, Depth, Children, BelowAny, Level;
    if ps != [] {
      var init, last := ps[..|ps| - 1], ps[|ps| - 1];
      assert last in ps && (forall c :: c in init ==> c in ps) && last !in init;
      ChildRoom(spans, j, last);
      FlatAllTimes(spans, j, init, i);
      FlatTimes(spans, last, i);
      TimesJoin(FlatAll(spans, j, init, Depth(spans, j) + 1), Flat(spans, last, Depth(spans, j) + 1), i);
      OneOfThem(spans, j, init, last, i);
      assert ps == init + [last];
    } else {
      assert !BelowAny(spans, [], i) by { NoneBelow(spans, i); }
    }
  }

  lemma NoneBelow(spans: seq<Span>, i: nat)
    requires i < |spans|
    ensures !BelowAny(spans, [], i)
  {}

  lemma OneOfThem(spans: seq<Span>, j: nat, init: seq<nat>, last: nat, i: nat)
    requires j < |spans| && i < |spans| && Rooted(spans, j) && AllIn(init, Children(spans, j))
    requires last in Children(spans, j)
    requires last !in init && last < |spans| && Rooted(spans, last)
    ensures BelowAny(spans, init + [last], i) <==> BelowAny(spans, init, i) || Below(spans, last, i)
    ensures !(BelowAny(spans, init, i) && Below(spans, last, i))
  {
    hide Below, Rooted, Depth, Children;
    assert last in init + [last];
    if BelowAny(spans, init, i) {
      var c :| c in init && c < |spans| && Rooted(spans, c) && Below(spans, c, i);
      assert c in init + [last];
      if Below(spans, last, i) { BelowOneChild(spans, j, c, last, i); }
    }
  }

  /** The positions at depth zero: every span without parent, and every span whose chain never ends. */
  ghost predicate IsTop(spans: seq<Span>, i: nat) {
    i < |spans| && (Parent(spans, i).None? || !Rooted(spans, i))
  }

  ghost predicate TopAbove(spans: seq<Span>, ps: seq<nat>, i: nat)
    requires i < |spans|
  {
    exists c :: c in ps && IsTop(spans, c) && (c == i || (Rooted(spans, c) && Below(spans, c, i)))
  }

  ghost predicate AllTop(spans: seq<Span>, ps: seq<nat>) {
    forall c :: c in ps ==> c < |spans| && IsTop(spans, c)
  }

  lemma TopFlat(spans: seq<Span>, c: nat, i: nat)
    requires IsTop(spans, c) && i < |spans|
    ensures Times(Flat(spans, c, 0), i) == if c == i || (Rooted(spans, c) && Below(spans, c, i)) then 1 else 0
    ensures Placed(spans, Flat(spans, c, 0))
  {
    hide FlatAll, Below, Children, Depth;
    RootedStep(spans, c);
    if Rooted(spans, c) {
      FlatTimes(spans, c, i);
      BelowSelf(spans, c);
    } else {
      assert [Row(c, 0)][..0] == [];
    }
  }

  /** No two tops lie above the same span. */
  lemma TopsApart(spans: seq<Span>, c: nat, d: nat, i: nat)
    requires IsTop(spans, c) && IsTop(spans, d) && i < |spans|
    requires c == i || (Rooted(spans, c) && Below(spans, c, i))
    requires d == i || (Rooted(spans, d) && Below(spans, d, i))
    ensures c == d
  {
    hide Up, EndsAfter, Depth;
    RootedStep(spans, c);
    RootedStep(spans, d);
    if Rooted(spans, c) { BelowSelf(spans, c); }
    if Rooted(spans, d) { BelowSelf(spans, d); }
  }

  lemma {:induction false} FlatRootsTimes(spans: seq<Span>, ps: seq<nat>, i: nat)
    requires i < |spans| && NoDuplicates(ps) && AllTop(spans, ps)
    ensures Times(FlatRoots(spans, ps), i) == if TopAbove(spans, ps, i) then 1 else 0
    ensures Placed(spans, FlatRoots(spans, ps))
  {
    hide Below, Rooted, Flat, Level, IsTop, TopAbove, Times, Placed;
    if ps != [] {
      var init, last := ps[..|ps| - 1], ps[|ps| - 1];
      LastTop(spans, ps);
      assert ps == init + [last];
      FlatRootsTimes(spans, init, i);
      TopFlat(spans, last, i);
      TimesJoin(FlatRoots(spans, init), Flat(spans, last, 0), i);
      PlacedJoin(spans, FlatRoots(spans, init), Flat(spans, last, 0));
      OneTopAbove(spans, init, last, i);
    } else {
      NoTopAbove(spans, i);
      NoRows(spans, i);
    }
  }

  lemma LastTop(spans: seq<Span>, ps: seq<nat>)
    requires ps != [] && NoDuplicates(ps) && AllTop(spans, ps)
    ensures var init, last := ps[..|ps| - 1], ps[|ps| - 1];
            NoDuplicates(init) && last !in init && AllTop(spans, init) && last < |spans| && IsTop(spans, last)
  {
    hide IsTop;
    var init, last := ps[..|ps| - 1], ps[|ps| - 1];
    assert last in ps && forall c :: c in init ==> c in ps;
    forall k | 0 <= k < |init| ensures init[k] != last { assert init[k] == ps[k]; }
  }

  lemma PlacedJoin(spans: seq<Span>, xs: seq<Row>, ys: seq<Row>)
    requires Placed(spans, xs) && Placed(spans, ys)
    ensures Placed(spans, xs + ys)
  {}

  lemma NoRows(spans: seq<Span>, i: nat)
    ensures Times([], i) == 0 && Placed(spans, [])
  {}

  lemma NoTopAbove(spans: seq<Span>, i: nat)
    requires i < |spans|
    ensures !TopAbove(spans, [], i)
  {}

  lemma OneTopAbove(spans: seq<Span>, init: seq<nat>, last: nat, i: nat)
    requires i < |spans| && IsTop(spans, last) && last !in init
    ensures var above := last == i || (Rooted(spans, last) && Below(spans, last, i));
            && (TopAbove(spans, init + [last], i) <==> TopAbove(spans, init, i) || above)
            && !(TopAbove(spans, init, i) && above)
  {
    hide Below, Rooted;
    assert last in init + [last];
    if TopAbove(spans, init, i) {
      var c :| c in init && IsTop(spans, c) && (c == i || (Rooted(spans, c) && Below(spans, c, i)));
      assert c in init + [last];
      if last == i || (Rooted(spans, last) && Below(spans, last, i)) { TopsApart(spans, c, last, i); }
    }
  }

  lemma RootsExact(spans: seq<Span>)
    ensures NoDuplicates(Roots(spans))
    ensures forall i: nat :: i in Roots(spans) <==> IsTop(spans, i)
  {
    hide Rooted, EndsAfter, Sorted, Listed, Adopted;
    var listed, adopted := Listed(spans, None, |spans|), Adopted(spans, |spans|);
    ListedExact(spans, None, |spans|);
    AdoptedExact(spans, |spans|);
    SortedIsPermutation(Le(spans), listed);
    NoDuplicatesPermutes(listed, Sorted(Le(spans), listed));
    forall i: nat | i in adopted ensures i !in listed { RootedStep(spans, i); }
    var sorted := Sorted(Le(spans), listed);
    forall k, l | 0 <= k < l < |sorted + adopted| ensures (sorted + adopted)[k] != (sorted + adopted)[l] {
      if k < |sorted| <= l {
        assert sorted[k] in listed && adopted[l - |sorted|] in adopted;
      }
    }
  }

  /** Listing the forest depth-first shows every span exactly once, at its depth: a span whose parent
      chain ends below its root, any other at depth zero. */
  lemma ForestListsAll(spans: seq<Span>, i: nat)
    requires i < |spans|
    ensures Times(FlatRoots(spans, Roots(spans)), i) == 1
    ensures Placed(spans, FlatRoots(spans, Roots(spans)))
  {
    hide Rooted, EndsAfter, FlatRoots, Roots, Depth;
    RootsExact(spans);
    FlatRootsTimes(spans, Roots(spans), i);
    if Rooted(spans, i) {
      var c := Up(spans, i, Depth(spans, i));
      RootedStep(spans, c);
      assert Below(spans, c, i);
      assert IsTop(spans, c);
    } else {
      assert IsTop(spans, i);
    }
    assert TopAbove(spans, Roots(spans), i);
  }
}
