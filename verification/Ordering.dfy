/** Python's ordering of strings (by code point), its stable `sorted`, and the facts about both that
    the other modules rely on. */
module Ordering {

  ghost predicate TotalOrder<T(!new)>(le: (T, T) -> bool) {
    && (forall x, y :: le(x, y) || le(y, x))
    && (forall x, y, z :: le(x, y) && le(y, z) ==> le(x, z))
  }

  ghost predicate Antisymmetric<T(!new)>(le: (T, T) -> bool) {
    forall x, y :: le(x, y) && le(y, x) ==> x == y
  }

  ghost predicate SortedBy<T>(le: (T, T) -> bool, xs: seq<T>) {
    forall i, j :: 0 <= i < j < |xs| ==> le(xs[i], xs[j])
  }

  ghost predicate NoDuplicates<T>(xs: seq<T>) {
    forall i, j :: 0 <= i < j < |xs| ==> xs[i] != xs[j]
  }

  function Elements<T>(xs: seq<T>): set<T> {
    set x | x in xs
  }

  lemma ElementsStep<T>(xs: seq<T>, i: nat)
    requires i < |xs|
    ensures xs[i] in Elements(xs) && Elements(xs[..i + 1]) == Elements(xs[..i]) + {xs[i]}
  {
    assert xs[..i + 1] == xs[..i] + [xs[i]];
  }

  lemma {:induction false} DistinctCounts<T>(xs: seq<T>, x: T)
    requires NoDuplicates(xs) && x in xs
    ensures multiset(xs)[x] == 1
  {
    assert xs == [xs[0]] + xs[1..];
    assert NoDuplicates(xs[1..]) by { assert forall i :: 0 <= i < |xs| - 1 ==> xs[1..][i] == xs[i + 1]; }
    if x in xs[1..] {
      DistinctCounts(xs[1..], x);
    } else {
      assert multiset(xs[1..])[x] == 0;
    }
  }

  lemma NoDuplicatesPermutes<T>(xs: seq<T>, ys: seq<T>)
    requires NoDuplicates(xs) && multiset(xs) == multiset(ys)
    ensures NoDuplicates(ys)
  {
    forall k, l | 0 <= k < l < |ys| ensures ys[k] != ys[l] {
      if ys[k] == ys[l] {
        assert ys == ys[..l] + [ys[l]] + ys[l + 1..];
        assert ys[k] in ys[..l];
        assert multiset(ys)[ys[l]] >= 2;
        assert ys[l] in multiset(xs);
        DistinctCounts(xs, ys[l]);
      }
    }
  }

  // ---- Lexicographic order of strings ----

  predicate StrLe(a: string, b: string) {
    a == [] || (b != [] && (a[0] < b[0] || (a[0] == b[0] && StrLe(a[1..], b[1..]))))
  }

  lemma StrLeTotal(a: string, b: string)
    ensures StrLe(a, b) || StrLe(b, a)
  {}

  lemma {:induction false} StrLeAntisymmetric(a: string, b: string)
    requires StrLe(a, b) && StrLe(b, a)
    ensures a == b
  {
    if a != [] && b != [] {
      StrLeAntisymmetric(a[1..], b[1..]);
      assert a == [a[0]] + a[1..] && b == [b[0]] + b[1..];
    }
  }

  lemma StrLeTransitive(a: string, b: string, c: string)
    requires StrLe(a, b) && StrLe(b, c)
    ensures StrLe(a, c)
  {}

  lemma StrLeIsOrder()
    ensures TotalOrder(StrLe) && Antisymmetric(StrLe)
  {
    forall x, y ensures StrLe(x, y) || StrLe(y, x) { StrLeTotal(x, y); }
    forall x, y, z | StrLe(x, y) && StrLe(y, z) ensures StrLe(x, z) { StrLeTransitive(x, y, z); }
    forall x, y | StrLe(x, y) && StrLe(y, x) ensures x == y { StrLeAntisymmetric(x, y); }
  }

  // ---- Stable sorting ----

  /** Inserts `x` before the first element that is strictly greater, so equal keys keep their order. */
  function Insert<T>(le: (T, T) -> bool, x: T, xs: seq<T>): seq<T> {
    if xs == [] then [x]
    else if le(x, xs[0]) then [x] + xs
    else [xs[0]] + Insert(le, x, xs[1..])
  }

  function Sorted<T>(le: (T, T) -> bool, xs: seq<T>): seq<T> {
    if xs == [] then [] else Insert(le, xs[0], Sorted(le, xs[1..]))
  }

  lemma {:induction false} InsertKeepsElements<T>(le: (T, T) -> bool, x: T, xs: seq<T>)
    ensures multiset(Insert(le, x, xs)) == multiset{x} + multiset(xs)
  {
    if xs != [] && !le(x, xs[0]) {
      InsertKeepsElements(le, x, xs[1..]);
      assert xs == [xs[0]] + xs[1..];
    }
  }

  lemma {:induction false} SortedIsPermutation<T>(le: (T, T) -> bool, xs: seq<T>)
    ensures multiset(Sorted(le, xs)) == multiset(xs)
    ensures |Sorted(le, xs)| == |xs|
    ensures forall x :: x in Sorted(le, xs) <==> x in xs
  {
    if xs != [] {
      SortedIsPermutation(le, xs[1..]);
      InsertKeepsElements(le, xs[0], Sorted(le, xs[1..]));
      assert xs == [xs[0]] + xs[1..];
    }
    assert multiset(Sorted(le, xs)) == multiset(xs);
    assert |multiset(Sorted(le, xs))| == |Sorted(le, xs)| && |multiset(xs)| == |xs|;
    forall x ensures x in Sorted(le, xs) <==> x in xs {
      assert x in Sorted(le, xs) <==> x in multiset(Sorted(le, xs));
      assert x in xs <==> x in multiset(xs);
    }
  }

  lemma {:induction false} InsertKeepsSorted<T(!new)>(le: (T, T) -> bool, x: T, xs: seq<T>)
    requires TotalOrder(le) && SortedBy(le, xs)
    ensures SortedBy(le, Insert(le, x, xs))
  {
    if xs == [] {
    } else if le(x, xs[0]) {
      forall j | 0 <= j < |xs| ensures le(x, xs[j]) { assert le(xs[0], xs[0]); }
    } else {
      var tail := Insert(le, x, xs[1..]);
      InsertKeepsSorted(le, x, xs[1..]);
      InsertKeepsElements(le, x, xs[1..]);
      forall j | 0 <= j < |tail| ensures le(xs[0], tail[j]) {
        assert tail[j] in multiset(tail);
        assert tail[j] == x || tail[j] in xs[1..];
      }
    }
  }

  lemma {:induction false} SortedIsSorted<T(!new)>(le: (T, T) -> bool, xs: seq<T>)
    requires TotalOrder(le)
    ensures SortedBy(le, Sorted(le, xs))
  {
    if xs != [] {
      SortedIsSorted(le, xs[1..]);
      InsertKeepsSorted(le, xs[0], Sorted(le, xs[1..]));
    }
  }

  /** A sorted list is determined by its elements when the order tells them apart. */
  lemma {:induction false} SortedIsUnique<T(!new)>(le: (T, T) -> bool, xs: seq<T>, ys: seq<T>)
    requires TotalOrder(le) && (forall x, y :: x in xs && y in xs && le(x, y) && le(y, x) ==> x == y)
    requires SortedBy(le, xs) && SortedBy(le, ys) && multiset(xs) == multiset(ys)
    ensures xs == ys
  {
    hide TotalOrder, SortedBy;
    SameLength(xs, ys);
    if xs != [] {
      SameFirst(le, xs, ys);
      TailIsSorted(le, xs);
      TailIsSorted(le, ys);
      SortedIsUnique(le, xs[1..], ys[1..]);
      HeadAndTail(xs, ys);
    }
  }

  lemma HeadAndTail<T>(xs: seq<T>, ys: seq<T>)
    requires xs != [] && ys != [] && xs[0] == ys[0] && xs[1..] == ys[1..]
    ensures xs == ys
  {
    assert xs == [xs[0]] + xs[1..] && ys == [ys[0]] + ys[1..];
  }

  lemma SameLength<T>(xs: seq<T>, ys: seq<T>)
    requires multiset(xs) == multiset(ys)
    ensures |xs| == |ys|
  {
    assert |xs| == |multiset(xs)| == |multiset(ys)| == |ys|;
  }

  lemma SameFirst<T(!new)>(le: (T, T) -> bool, xs: seq<T>, ys: seq<T>)
    requires TotalOrder(le) && (forall x, y :: x in xs && y in xs && le(x, y) && le(y, x) ==> x == y)
    requires SortedBy(le, xs) && SortedBy(le, ys) && multiset(xs) == multiset(ys) && xs != [] && ys != []
    ensures xs[0] == ys[0]
  {
    assert xs[0] in multiset(ys) && ys[0] in multiset(xs);
    assert xs[0] in ys && ys[0] in xs;
    assert le(xs[0], xs[0]) && le(ys[0], ys[0]);
  }

  lemma TailIsSorted<T(!new)>(le: (T, T) -> bool, xs: seq<T>)
    requires xs != [] && SortedBy(le, xs)
    ensures SortedBy(le, xs[1..]) && multiset(xs[1..]) == multiset(xs) - multiset{xs[0]}
    ensures forall x :: x in xs[1..] ==> x in xs
  {
    assert xs == [xs[0]] + xs[1..];
  }

  // ---- Sorting a set of strings ----

  lemma {:induction false} LeastExists(s: set<string>)
    requires s != {}
    ensures exists m :: m in s && forall x :: x in s ==> StrLe(m, x)
  {
    var e :| e in s;
    var rest := s - {e};
    StrLeTotal(e, e);
    if rest == {} {
      assert s == {e};
    } else {
      LeastExists(rest);
      var m :| m in rest && forall x :: x in rest ==> StrLe(m, x);
      StrLeTotal(e, m);
      var least := if StrLe(e, m) then e else m;
      forall x | x in s ensures StrLe(least, x) {
        if x != e && least == e { StrLeTransitive(e, m, x); }
      }
    }
  }

  function Least(s: set<string>): (m: string)
    requires s != {}
    ensures m in s && forall x :: x in s ==> StrLe(m, x)
  {
    LeastExists(s);
    StrLeIsOrder();
    var m :| m in s && forall x :: x in s ==> StrLe(m, x);
    m
  }

  lemma LeastFirst(m: string, rest: seq<string>, s: set<string>)
    requires m in s && forall x :: x in s ==> StrLe(m, x)
    requires Elements(rest) == s - {m} && |rest| == |s - {m}|
    requires NoDuplicates(rest) && SortedBy(StrLe, rest)
    ensures Elements([m] + rest) == s && |[m] + rest| == |s|
    ensures NoDuplicates([m] + rest) && SortedBy(StrLe, [m] + rest)
  {
    hide StrLe;
    forall j | 0 <= j < |rest| ensures rest[j] != m && StrLe(m, rest[j]) {
      assert rest[j] in Elements(rest);
    }
    FirstElements(m, rest, s);
  }

  lemma FirstElements(m: string, rest: seq<string>, s: set<string>)
    requires m in s && Elements(rest) == s - {m} && |rest| == |s - {m}|
    ensures Elements([m] + rest) == s && |[m] + rest| == |s|
  {
    assert Elements([m] + rest) == {m} + Elements(rest);
    assert s == (s - {m}) + {m};
  }

  /** Python's `sorted` applied to a set of strings. */
  function SortSet(s: set<string>): (xs: seq<string>)
    ensures Elements(xs) == s && |xs| == |s|
    ensures NoDuplicates(xs) && SortedBy(StrLe, xs)
  {
    if s == {} then []
    else
      var m := Least(s);
      var rest := SortSet(s - {m});
      LeastFirst(m, rest, s);
      [m] + rest
  }

  lemma SortSetInjective(s: set<string>, t: set<string>)
    requires SortSet(s) == SortSet(t)
    ensures s == t
  {
    assert Elements(SortSet(s)) == s && Elements(SortSet(t)) == t;
  }

  // ---- Tuples of strings ----

  /** Python's order of tuples of strings: the first difference decides, a proper prefix comes first. */
  predicate ListLe(a: seq<string>, b: seq<string>) {
    a == [] || (b != [] && (if a[0] == b[0] then ListLe(a[1..], b[1..]) else StrLe(a[0], b[0])))
  }

  lemma {:induction false} ListLeTotal(a: seq<string>, b: seq<string>)
    ensures ListLe(a, b) || ListLe(b, a)
  {
    if a != [] && b != [] {
      StrLeTotal(a[0], b[0]);
      ListLeTotal(a[1..], b[1..]);
    }
  }

  lemma {:induction false} ListLeAntisymmetric(a: seq<string>, b: seq<string>)
    requires ListLe(a, b) && ListLe(b, a)
    ensures a == b
  {
    if a != [] && b != [] {
      if a[0] != b[0] { StrLeAntisymmetric(a[0], b[0]); }
      ListLeAntisymmetric(a[1..], b[1..]);
      assert a == [a[0]] + a[1..] && b == [b[0]] + b[1..];
    }
  }

  lemma {:induction false} ListLeTransitive(a: seq<string>, b: seq<string>, c: seq<string>)
    requires ListLe(a, b) && ListLe(b, c)
    ensures ListLe(a, c)
  {
    if a != [] {
      if a[0] == b[0] == c[0] {
        ListLeTransitive(a[1..], b[1..], c[1..]);
      } else {
        StrLeTotal(a[0], a[0]);
        if a[0] != b[0] && b[0] != c[0] { StrLeTransitive(a[0], b[0], c[0]); }
        if a[0] == c[0] { StrLeAntisymmetric(a[0], b[0]); }
      }
    }
  }

  // ---- What the two orders mean ----

  lemma {:induction false} StrLeFrom(a: string, b: string, k: nat)
    requires k <= |a| && k <= |b| && a[..k] == b[..k] && StrLe(a[k..], b[k..])
    ensures StrLe(a, b)
  {
    if k > 0 {
      assert a[..k][0] == b[..k][0];
      assert a[1..][..k - 1] == a[..k][1..] && b[1..][..k - 1] == b[..k][1..];
      assert a[1..][k - 1..] == a[k..] && b[1..][k - 1..] == b[k..];
      StrLeFrom(a[1..], b[1..], k - 1);
    } else {
      assert a[0..] == a && b[0..] == b;
    }
  }

  lemma {:induction false} StrLeSplits(a: string, b: string) returns (k: nat)
    requires StrLe(a, b) && !(a <= b)
    ensures k < |a| && k < |b| && a[..k] == b[..k] && a[k] < b[k]
  {
    if a[0] < b[0] {
      k := 0;
    } else {
      assert a == [a[0]] + a[1..] && b == [b[0]] + b[1..];
      k := StrLeSplits(a[1..], b[1..]);
      k := k + 1;
      assert a[..k] == [a[0]] + a[1..][..k - 1] && b[..k] == [b[0]] + b[1..][..k - 1];
    }
  }

  /** A string comes before another when it is a prefix of it or has the smaller character at their first
      difference. */
  lemma StrLeExact(a: string, b: string)
    ensures StrLe(a, b) <==> a <= b || exists k :: 0 <= k < |a| && k < |b| && a[..k] == b[..k] && a[k] < b[k]
  {
    if StrLe(a, b) && !(a <= b) { var k := StrLeSplits(a, b); }
    if a <= b {
      assert a[|a|..] == [];
      StrLeFrom(a, b, |a|);
    }
    if k :| 0 <= k < |a| && k < |b| && a[..k] == b[..k] && a[k] < b[k] { StrLeFrom(a, b, k); }
  }

  lemma {:induction false} ListLeFrom(a: seq<string>, b: seq<string>, k: nat)
    requires k <= |a| && k <= |b| && a[..k] == b[..k] && ListLe(a[k..], b[k..])
    ensures ListLe(a, b)
  {
    if k > 0 {
      assert a[..k][0] == b[..k][0];
      assert a[1..][..k - 1] == a[..k][1..] && b[1..][..k - 1] == b[..k][1..];
      assert a[1..][k - 1..] == a[k..] && b[1..][k - 1..] == b[k..];
      ListLeFrom(a[1..], b[1..], k - 1);
    } else {
      assert a[0..] == a && b[0..] == b;
    }
  }

  lemma {:induction false} ListLeSplits(a: seq<string>, b: seq<string>) returns (k: nat)
    requires ListLe(a, b) && !(a <= b)
    ensures k < |a| && k < |b| && a[..k] == b[..k] && a[k] != b[k] && StrLe(a[k], b[k])
  {
    if a[0] != b[0] {
      k := 0;
    } else {
      assert a == [a[0]] + a[1..] && b == [b[0]] + b[1..];
      k := ListLeSplits(a[1..], b[1..]);
      k := k + 1;
      assert a[..k] == [a[0]] + a[1..][..k - 1] && b[..k] == [b[0]] + b[1..][..k - 1];
    }
  }

  /** Tuples are compared at their first difference. */
  lemma ListLeExact(a: seq<string>, b: seq<string>)
    ensures ListLe(a, b) <==>
            a <= b || exists k :: 0 <= k < |a| && k < |b| && a[..k] == b[..k] && a[k] != b[k] && StrLe(a[k], b[k])
  {
    if ListLe(a, b) && !(a <= b) { var k := ListLeSplits(a, b); }
    if a <= b {
      assert a[|a|..] == [];
      ListLeFrom(a, b, |a|);
    }
    if k :| 0 <= k < |a| && k < |b| && a[..k] == b[..k] && a[k] != b[k] && StrLe(a[k], b[k]) { ListLeFrom(a, b, k); }
  }

  // ---- Sorting is stable ----

  function Sifted<T>(p: T -> bool, xs: seq<T>): seq<T> {
    if xs == [] then [] else (if p(xs[0]) then [xs[0]] else []) + Sifted(p, xs[1..])
  }

  lemma {:induction false} InsertIsStable<T(!new)>(le: (T, T) -> bool, same: T -> bool, x: T, xs: seq<T>)
    requires forall y :: y in xs && same(x) && same(y) ==> le(x, y)
    ensures Sifted(same, Insert(le, x, xs)) == (if same(x) then [x] else []) + Sifted(same, xs)
  {
    if xs != [] && !le(x, xs[0]) {
      var first, rest := xs[0], xs[1..];
      assert xs == [first] + rest;
      InsertIsStable(le, same, x, rest);
      assert Insert(le, x, xs) == [first] + Insert(le, x, rest);
      SiftedCons(same, first, Insert(le, x, rest));
      SiftedCons(same, first, rest);
      assert !same(x) || !same(first);
    } else {
      SiftedCons(same, x, xs);
    }
  }

  lemma SiftedCons<T>(p: T -> bool, x: T, xs: seq<T>)
    ensures Sifted(p, [x] + xs) == (if p(x) then [x] else []) + Sifted(p, xs)
  {
    assert ([x] + xs)[1..] == xs;
  }

  /** Elements that the order does not tell apart keep their order. */
  lemma {:induction false} SortedIsStable<T(!new)>(le: (T, T) -> bool, same: T -> bool, xs: seq<T>)
    requires forall x, y :: x in xs && y in xs && same(x) && same(y) ==> le(x, y)
    ensures Sifted(same, Sorted(le, xs)) == Sifted(same, xs)
  {
    if xs != [] {
      SortedIsStable(le, same, xs[1..]);
      SortedIsPermutation(le, xs[1..]);
      InsertIsStable(le, same, xs[0], Sorted(le, xs[1..]));
    }
  }

  // ---- Counting and adding up ----

  function SumOver<T>(f: T -> int, xs: seq<T>): int {
    if xs == [] then 0 else SumOver(f, xs[..|xs| - 1]) + f(xs[|xs| - 1])
  }

  function CountIf<T>(p: T -> bool, xs: seq<T>): nat {
    if xs == [] then 0 else CountIf(p, xs[..|xs| - 1]) + if p(xs[|xs| - 1]) then 1 else 0
  }

  lemma {:induction false} CountIfIsCard<T>(p: T -> bool, xs: seq<T>, places: set<int>)
    requires forall i :: i in places <==> 0 <= i < |xs| && p(xs[i])
    ensures CountIf(p, xs) == |places|
  {
    if xs == [] {
      assert forall i :: i !in places;
      assert places == {};
    } else {
      var init, last := xs[..|xs| - 1], |xs| - 1;
      CountIfIsCard(p, init, places - {last});
      assert p(xs[last]) ==> places == (places - {last}) + {last};
      assert !p(xs[last]) ==> places == places - {last};
    }
  }

  lemma {:induction false} CountIfJoin<T>(p: T -> bool, xs: seq<T>, ys: seq<T>)
    ensures CountIf(p, xs + ys) == CountIf(p, xs) + CountIf(p, ys)
  {
    if ys == [] {
      assert xs + ys == xs;
    } else {
      CountIfJoin(p, xs, ys[..|ys| - 1]);
      assert (xs + ys)[..|xs + ys| - 1] == xs + ys[..|ys| - 1];
    }
  }

  lemma RemoveOne<T>(init: seq<T>, x: T, before: seq<T>, after: seq<T>)
    requires multiset(init + [x]) == multiset(before + ([x] + after))
    ensures multiset(init) == multiset(before + after)
  {
    assert multiset(init) == multiset(init + [x]) - multiset{x};
    assert multiset(before + after) == multiset(before + ([x] + after)) - multiset{x};
  }

  lemma {:induction false} CountIfPermutes<T>(p: T -> bool, xs: seq<T>, ys: seq<T>)
    requires multiset(xs) == multiset(ys)
    ensures CountIf(p, xs) == CountIf(p, ys)
    decreases |xs|
  {
    SameLength(xs, ys);
    if xs != [] {
      var init, x := xs[..|xs| - 1], xs[|xs| - 1];
      assert xs == init + [x];
      assert x in multiset(ys);
      var k :| 0 <= k < |ys| && ys[k] == x;
      var before, after := ys[..k], ys[k + 1..];
      assert ys == before + ([x] + after);
      RemoveOne(init, x, before, after);
      CountIfPermutes(p, init, before + after);
      CountIfJoin(p, before, after);
      CountIfJoin(p, before, [x] + after);
      CountIfJoin(p, [x], after);
    }
  }
}
