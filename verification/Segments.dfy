/** Token-bounded segmentation (`segment_runtime_messages`, `src/axiom/memory/summarizer.py:178-208`):
    the loop fills a segment until the next item would exceed the limit. Items and their costs are
    parameters; `src/axiom/memory/context.py:20-23` is the cost the repository uses. */
module Segments {

  function Total<T>(cost: T -> nat, xs: seq<T>): nat {
    if xs == [] then 0 else Total(cost, xs[..|xs| - 1]) + cost(xs[|xs| - 1])
  }

  function Join<T>(xss: seq<seq<T>>): seq<T> {
    if xss == [] then [] else xss[0] + Join(xss[1..])
  }

  /** A segment is a single item or stays within the limit. */
  predicate Allowed<T>(cost: T -> nat, limit: nat, xs: seq<T>) {
    |xs| == 1 || (xs != [] && Total(cost, xs) <= limit)
  }

  ghost predicate IsPartition<T>(cost: T -> nat, limit: nat, xs: seq<T>, xss: seq<seq<T>>) {
    Join(xss) == xs && forall i :: 0 <= i < |xss| ==> Allowed(cost, limit, xss[i])
  }

  // ---- The loop ----

  /** Fills on from `current` with the items of `rest`. */
  function Fill<T>(cost: T -> nat, limit: nat, current: seq<T>, rest: seq<T>): seq<seq<T>>
    decreases |rest|
  {
    if rest == [] then (if current == [] then [] else [current])
    else if current != [] && Total(cost, current) + cost(rest[0]) > limit
    then [current] + Fill(cost, limit, [rest[0]], rest[1..])
    else Fill(cost, limit, current + [rest[0]], rest[1..])
  }

  method Segment<T>(items: seq<T>, cost: T -> nat, maxEstimatedTokens: int) returns (segments: seq<seq<T>>)
    ensures segments == Fill(cost, if maxEstimatedTokens < 1 then 1 else maxEstimatedTokens, [], items)
  {
    var limit: nat := if maxEstimatedTokens < 1 then 1 else maxEstimatedTokens;
    segments := [];
    var current: seq<T>, currentTokens := [], 0;
    for i := 0 to |items|
      invariant currentTokens == Total(cost, current)
      invariant segments + Fill(cost, limit, current, items[i..]) == Fill(cost, limit, [], items)
    {
      var tokens := cost(items[i]);
      assert items[i..][1..] == items[i + 1..];
      if current != [] && currentTokens + tokens > limit {
        segments := segments + [current];
        current, currentTokens := [], 0;
      }
      assert (current + [items[i]])[..|current|] == current;
      current, currentTokens := current + [items[i]], currentTokens + tokens;
    }
    if current != [] { segments := segments + [current]; }
  }

  // ---- What it returns ----

  lemma TotalAppend<T>(cost: T -> nat, xs: seq<T>, x: T)
    ensures Total(cost, xs + [x]) == Total(cost, xs) + cost(x)
  {
    assert (xs + [x])[..|xs|] == xs;
  }

  /** The segments are allowed and put together give the items back. */
  lemma {:induction false} FillIsPartition<T>(cost: T -> nat, limit: nat, current: seq<T>, rest: seq<T>)
    requires current == [] || Allowed(cost, limit, current)
    ensures IsPartition(cost, limit, current + rest, Fill(cost, limit, current, rest))
    decreases |rest|
  {
    if rest == [] {
      assert current + rest == current;
      if current != [] { assert [current][1..] == []; }
    } else {
      assert rest == [rest[0]] + rest[1..];
      TotalAppend(cost, current, rest[0]);
      if current != [] && Total(cost, current) + cost(rest[0]) > limit {
        FillIsPartition(cost, limit, [rest[0]], rest[1..]);
        var tail := Fill(cost, limit, [rest[0]], rest[1..]);
        assert ([current] + tail)[1..] == tail;
        assert [rest[0]] + rest[1..] == rest;
      } else {
        FillIsPartition(cost, limit, current + [rest[0]], rest[1..]);
        assert current + [rest[0]] + rest[1..] == current + rest;
      }
    }
  }

  lemma {:induction false} TotalDrop<T>(cost: T -> nat, xs: seq<T>, n: nat)
    requires n <= |xs|
    ensures Total(cost, xs[n..]) <= Total(cost, xs)
  {
    if n < |xs| {
      var init := xs[..|xs| - 1];
      TotalDrop(cost, init, n);
      assert xs[n..][..|xs| - n - 1] == init[n..];
    } else {
      assert xs[n..] == [];
    }
  }

  lemma {:induction false} TotalTake<T>(cost: T -> nat, xs: seq<T>, n: nat)
    requires n <= |xs|
    ensures Total(cost, xs[..n]) <= Total(cost, xs)
    decreases |xs|
  {
    if n < |xs| {
      TotalTake(cost, xs[..|xs| - 1], n);
      assert xs[..|xs| - 1][..n] == xs[..n];
    } else {
      assert xs[..n] == xs;
    }
  }

  /** A partition of a list can be cut down to a partition of any of its suffixes. */
  lemma {:induction false} CutPartition<T>(cost: T -> nat, limit: nat, xs: seq<T>, xss: seq<seq<T>>, n: nat)
    returns (yss: seq<seq<T>>)
    requires IsPartition(cost, limit, xs, xss) && n <= |xs|
    ensures IsPartition(cost, limit, xs[n..], yss) && |yss| <= |xss|
    decreases |xss|
  {
    if n == 0 {
      assert xs[0..] == xs;
      yss := xss;
    } else {
      assert xss != [];
      var first, rest := xss[0], xss[1..];
      assert xs == first + Join(rest);
      if n < |first| {
        yss := [first[n..]] + rest;
        assert yss[1..] == rest;
        assert xs[n..] == first[n..] + Join(rest);
        TotalDrop(cost, first, n);
      } else {
        assert IsPartition(cost, limit, Join(rest), rest);
        yss := CutPartition(cost, limit, Join(rest), rest, n - |first|);
        assert Join(rest)[n - |first|..] == xs[n..];
      }
    }
  }

  /** Greedy stays ahead: whatever segment is being filled, no other partition of the rest is shorter. */
  lemma {:induction false} FillIsShortest<T>(cost: T -> nat, limit: nat, current: seq<T>, rest: seq<T>,
                                             xss: seq<seq<T>>)
    requires current == [] || Allowed(cost, limit, current)
    requires IsPartition(cost, limit, current + rest, xss)
    ensures |Fill(cost, limit, current, rest)| <= |xss|
    decreases |rest|
  {
    if rest == [] {
      if current != [] { assert xss != []; }
    } else {
      assert rest == [rest[0]] + rest[1..];
      TotalAppend(cost, current, rest[0]);
      if current != [] && Total(cost, current) + cost(rest[0]) > limit {
        FirstFitsIn(cost, limit, current, rest, xss);
        var first, tail := xss[0], xss[1..];
        var n := |current| - |first|;
        assert IsPartition(cost, limit, Join(tail), tail);
        assert Join(tail)[n..] == [rest[0]] + rest[1..];
        var yss := CutPartition(cost, limit, Join(tail), tail, n);
        FillIsShortest(cost, limit, [rest[0]], rest[1..], yss);
      } else {
        assert current + [rest[0]] + rest[1..] == current + rest;
        FillIsShortest(cost, limit, current + [rest[0]], rest[1..], xss);
      }
    }
  }

  lemma LongerCosts<T>(cost: T -> nat, first: seq<T>, others: seq<T>, current: seq<T>, rest: seq<T>)
    requires first + others == current + rest && |first| > |current| && rest != []
    ensures Total(cost, first) >= Total(cost, current) + cost(rest[0])
  {
    assert (first + others)[..|current| + 1] == first[..|current| + 1];
    assert (current + rest)[..|current| + 1] == current + [rest[0]];
    TotalTake(cost, first, |current| + 1);
    TotalAppend(cost, current, rest[0]);
  }

  /** No allowed first segment reaches beyond a full one. */
  lemma FirstFitsIn<T>(cost: T -> nat, limit: nat, current: seq<T>, rest: seq<T>, xss: seq<seq<T>>)
    requires current != [] && rest != [] && Total(cost, current) + cost(rest[0]) > limit
    requires IsPartition(cost, limit, current + rest, xss)
    ensures xss != [] && |xss[0]| <= |current|
    ensures |Join(xss[1..])| >= |current| - |xss[0]|
    ensures Join(xss[1..])[|current| - |xss[0]|..] == rest
  {
    assert xss != [];
    var first, tail := xss[0], xss[1..];
    assert first + Join(tail) == current + rest;
    if |first| > |current| { LongerCosts(cost, first, Join(tail), current, rest); }
    assert Join(tail) == (current + rest)[|first|..];
  }

  /** The loop's segments partition the items, and no partition into allowed segments has fewer. */
  lemma SegmentsAreFewest<T>(cost: T -> nat, limit: nat, items: seq<T>, xss: seq<seq<T>>)
    requires IsPartition(cost, limit, items, xss)
    ensures IsPartition(cost, limit, items, Fill(cost, limit, [], items))
    ensures |Fill(cost, limit, [], items)| <= |xss|
  {
    assert [] + items == items;
    FillIsPartition(cost, limit, [], items);
    FillIsShortest(cost, limit, [], items, xss);
  }
}
