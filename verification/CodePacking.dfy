/** Packing the ranked context items into character, token and item limits
    (`src/axiom/rag/context.py:102-110` and `:191-227`). */
module CodePacking {
  import opened Ordering
  import opened CodeContext

  const HARD_MAX_CHARS: nat := 48_000
  const HARD_MAX_TOKENS: nat := 12_000
  const HARD_MAX_ITEMS: nat := 60
  const METADATA_RESERVE: nat := 256

  function Bounded(value: int, lower: nat, upper: nat): (r: nat)
    requires lower <= upper
    ensures lower <= r <= upper
  {
    if value < lower then lower else if value > upper then upper else value
  }

  datatype Limits = Limits(chars: nat, tokens: nat, items: nat)

  function LimitsFor(maxChars: int, maxTokens: int, maxItems: int): Limits {
    Limits(Bounded(maxChars, 1, HARD_MAX_CHARS), Bounded(maxTokens, 1, HARD_MAX_TOKENS),
           Bounded(maxItems, 1, HARD_MAX_ITEMS))
  }

  /** Set aside for the query and the result's metadata. */
  function ReservedChars(queryChars: nat, limits: Limits): nat {
    if METADATA_RESERVE + queryChars < limits.chars then METADATA_RESERVE + queryChars else limits.chars
  }

  /** The estimate for that many characters on one line. */
  function ReservedTokens(queryChars: nat, limits: Limits): nat {
    (ReservedChars(queryChars, limits) + 3) / 4
  }

  /** A packing task: what is reserved, the limits, and the printed length of an item. */
  datatype Task = Task(queryChars: nat, limits: Limits, length: Item -> nat)

  function UsedChars(task: Task, items: seq<Item>): nat {
    if items == [] then ReservedChars(task.queryChars, task.limits)
    else UsedChars(task, items[..|items| - 1]) + (task.length)(items[|items| - 1])
  }

  function UsedTokens(task: Task, items: seq<Item>): nat {
    if items == [] then ReservedTokens(task.queryChars, task.limits)
    else UsedTokens(task, items[..|items| - 1]) + items[|items| - 1].estimatedTokens
  }

  /** Whether the item can be added to the items. */
  predicate Fits(task: Task, items: seq<Item>, item: Item) {
    && UsedChars(task, items) + (task.length)(item) <= task.limits.chars
    && UsedTokens(task, items) + item.estimatedTokens <= task.limits.tokens
  }

  /** Item by item: each is taken if it still fits and the item limit is not reached. */
  function Packed(task: Task, ordered: seq<Item>): seq<Item> {
    if ordered == [] then []
    else
      var taken, last := Packed(task, ordered[..|ordered| - 1]), ordered[|ordered| - 1];
      if |taken| < task.limits.items && Fits(task, taken, last) then taken + [last] else taken
  }

  lemma {:induction false} FullStaysFull(task: Task, ordered: seq<Item>, n: nat)
    requires n <= |ordered| && |Packed(task, ordered[..n])| >= task.limits.items
    ensures Packed(task, ordered) == Packed(task, ordered[..n])
    decreases |ordered|
  {
    if n == |ordered| {
      assert ordered[..n] == ordered;
    } else {
      assert ordered[..|ordered| - 1][..n] == ordered[..n];
      FullStaysFull(task, ordered[..|ordered| - 1], n);
    }
  }

  lemma NothingUsed(task: Task)
    ensures Packed(task, []) == []
    ensures UsedChars(task, []) == ReservedChars(task.queryChars, task.limits)
    ensures UsedTokens(task, []) == ReservedTokens(task.queryChars, task.limits)
  {}

  /** The packing of one item more. */
  lemma PackOne(task: Task, ordered: seq<Item>, i: nat)
    requires i < |ordered|
    ensures var taken := Packed(task, ordered[..i]);
            Packed(task, ordered[..i + 1]) ==
            if |taken| < task.limits.items && Fits(task, taken, ordered[i]) then taken + [ordered[i]] else taken
  {
    assert ordered[..i + 1][..i] == ordered[..i];
  }

  lemma UseOne(task: Task, items: seq<Item>, item: Item)
    ensures UsedChars(task, items + [item]) == UsedChars(task, items) + (task.length)(item)
    ensures UsedTokens(task, items + [item]) == UsedTokens(task, items) + item.estimatedTokens
  {
    assert (items + [item])[..|items|] == items;
  }

  method Pack(ordered: seq<Item>, task: Task)
    returns (items: seq<Item>, usedChars: nat, usedTokens: nat, truncated: bool)
    ensures items == Packed(task, ordered)
    ensures usedChars == UsedChars(task, items) && usedTokens == UsedTokens(task, items)
    ensures truncated <==> |items| < |ordered|
  {
    hide Packed, UsedChars, UsedTokens;
    NothingUsed(task);
    items, truncated := [], false;
    usedChars, usedTokens := ReservedChars(task.queryChars, task.limits), ReservedTokens(task.queryChars, task.limits);
    for i := 0 to |ordered|
      invariant items == Packed(task, ordered[..i])
      invariant usedChars == UsedChars(task, items) && usedTokens == UsedTokens(task, items)
      invariant truncated <==> |items| < i
      invariant |items| <= i
    {
      PackOne(task, ordered, i);
      if |items| >= task.limits.items {
        FullStaysFull(task, ordered, i);
        truncated := true;
        break;
      }
      var item := ordered[i];
      var nextChars, nextTokens := usedChars + (task.length)(item), usedTokens + item.estimatedTokens;
      if nextChars > task.limits.chars || nextTokens > task.limits.tokens {
        truncated := true;
        continue;
      }
      UseOne(task, items, item);
      items := items + [item];
      usedChars, usedTokens := nextChars, nextTokens;
    }
    assert ordered[..|ordered|] == ordered;
  }

  /** The packing part of building a context, under the caller's limits brought into their bounds. */
  method PackContext(ordered: seq<Item>, queryChars: nat, maxChars: int, maxTokens: int, maxItems: int,
                     length: Item -> nat)
    returns (items: seq<Item>, usedChars: nat, usedTokens: nat, truncated: bool)
    ensures items == Packed(Task(queryChars, LimitsFor(maxChars, maxTokens, maxItems), length), ordered)
    ensures |items| <= HARD_MAX_ITEMS && usedChars <= HARD_MAX_CHARS && usedTokens <= HARD_MAX_TOKENS
    ensures truncated <==> |items| < |ordered|
    ensures IsPacked(ordered, queryChars, if maxChars < 1 then 1 else if maxChars > 48_000 then 48_000 else maxChars,
                     if maxTokens < 1 then 1 else if maxTokens > 12_000 then 12_000 else maxTokens,
                     if maxItems < 1 then 1 else if maxItems > 60 then 60 else maxItems,
                     length, items, usedChars, usedTokens)
  {
    PackedSpelledOut(ordered, Task(queryChars, LimitsFor(maxChars, maxTokens, maxItems), length));
    hide IsPacked;
    var task := Task(queryChars, LimitsFor(maxChars, maxTokens, maxItems), length);
    items, usedChars, usedTokens, truncated := Pack(ordered, task);
    PackedIsWithin(task, ordered);
  }

  // ---- What the packing keeps ----

  /** The limits hold; only the reserve alone can exceed the token limit, and then nothing is packed. */
  lemma {:induction false} PackedIsWithin(task: Task, ordered: seq<Item>)
    ensures var items := Packed(task, ordered);
            && |items| <= task.limits.items && UsedChars(task, items) <= task.limits.chars
            && (UsedTokens(task, items) <= task.limits.tokens <==>
                ReservedTokens(task.queryChars, task.limits) <= task.limits.tokens)
            && (UsedTokens(task, items) > task.limits.tokens ==> items == [])
  {
    if ordered != [] {
      var init, last := ordered[..|ordered| - 1], ordered[|ordered| - 1];
      PackedIsWithin(task, init);
      var taken := Packed(task, init);
      assert (taken + [last])[..|taken|] == taken;
    }
  }

  lemma {:induction false} PackedStep(task: Task, ordered: seq<Item>, n: nat)
    requires n <= |ordered|
    ensures Packed(task, ordered[..n]) <= Packed(task, ordered)
    ensures UsedChars(task, Packed(task, ordered[..n])) <= UsedChars(task, Packed(task, ordered))
    ensures UsedTokens(task, Packed(task, ordered[..n])) <= UsedTokens(task, Packed(task, ordered))
    decreases |ordered|
  {
    if n == |ordered| {
      assert ordered[..n] == ordered;
    } else {
      var init, last := ordered[..|ordered| - 1], ordered[|ordered| - 1];
      assert init[..n] == ordered[..n];
      PackedStep(task, init, n);
      var taken := Packed(task, init);
      assert (taken + [last])[..|taken|] == taken;
    }
  }

  /** The packing is maximal: unless the item limit was reached, no item left out could be added. */
  lemma PackedIsMaximal(task: Task, ordered: seq<Item>, item: Item)
    requires item in ordered && item !in Packed(task, ordered) && |Packed(task, ordered)| < task.limits.items
    ensures !Fits(task, Packed(task, ordered), item)
  {
    var n :| 0 <= n < |ordered| && ordered[n] == item;
    PackedStep(task, ordered, n);
    PackedStep(task, ordered, n + 1);
    PackOne(task, ordered, n);
    var taken := Packed(task, ordered[..n]);
    PrefixHolds(taken, item, Packed(task, ordered));
  }

  lemma PrefixHolds(xs: seq<Item>, x: Item, ys: seq<Item>)
    ensures xs + [x] <= ys ==> x in ys
  {
    if xs + [x] <= ys {
      assert ys[|xs|] == (xs + [x])[|xs|];
    }
  }

  /** The packed items are ranked items in the ranked order. */
  ghost predicate IsSubsequence(xs: seq<Item>, ys: seq<Item>) {
    if xs == [] then true
    else ys != [] && (IsSubsequence(xs, ys[..|ys| - 1])
                      || (xs[|xs| - 1] == ys[|ys| - 1] && IsSubsequence(xs[..|xs| - 1], ys[..|ys| - 1])))
  }

  lemma {:induction false} PackedKeepsOrder(task: Task, ordered: seq<Item>)
    ensures IsSubsequence(Packed(task, ordered), ordered)
  {
    if ordered != [] {
      var init, last := ordered[..|ordered| - 1], ordered[|ordered| - 1];
      PackedKeepsOrder(task, init);
      var taken := Packed(task, init);
      assert (taken + [last])[..|taken|] == taken;
    }
  }

  /** A caller's token limit below the reserve: nothing is packed, and the reported total exceeds it. */
  lemma ReserveExceedsTinyLimit(ordered: seq<Item>, length: Item -> nat)
    ensures var task := Task(0, LimitsFor(24_000, 1, 30), length);
            Packed(task, ordered) == [] && UsedTokens(task, Packed(task, ordered)) == 64 > task.limits.tokens
  {
    PackedIsWithin(Task(0, LimitsFor(24_000, 1, 30), length), ordered);
  }

  // ---- The packing spelled out ----

  /** What is reported and what is left out, under the limits that count: 256 characters and the query are set
      aside first, as far as the limit allows. */
  ghost predicate IsPacked(ordered: seq<Item>, queryChars: nat, chars: int, tokens: int, count: int,
                           length: Item -> nat, items: seq<Item>, usedChars: int, usedTokens: int) {
    var reserve := if 256 + queryChars < chars then 256 + queryChars else chars;
    && usedChars == reserve + SumOver(item => length(item), items)
    && usedTokens == (reserve + 3) / 4 + SumOver((item: Item) => item.estimatedTokens, items)
    && |items| <= count && usedChars <= chars && (items != [] ==> usedTokens <= tokens)
    && (forall item :: item in items ==> item in ordered)
    && (|items| < count ==> forall item :: item in ordered && item !in items ==>
          usedChars + length(item) > chars || usedTokens + item.estimatedTokens > tokens)
  }

  lemma {:induction false} UsedIsSum(task: Task, items: seq<Item>)
    ensures UsedChars(task, items) ==
            ReservedChars(task.queryChars, task.limits) + SumOver(item => (task.length)(item), items)
    ensures UsedTokens(task, items) ==
            ReservedTokens(task.queryChars, task.limits) + SumOver((item: Item) => item.estimatedTokens, items)
  {
    if items != [] { UsedIsSum(task, items[..|items| - 1]); }
  }

  lemma {:induction false} PackedInside(task: Task, ordered: seq<Item>)
    ensures forall item :: item in Packed(task, ordered) ==> item in ordered
  {
    if ordered != [] {
      var init, last := ordered[..|ordered| - 1], ordered[|ordered| - 1];
      assert ordered == init + [last];
      PackedInside(task, init);
    }
  }

  lemma PackedSpelledOut(ordered: seq<Item>, task: Task)
    ensures var items := Packed(task, ordered);
            IsPacked(ordered, task.queryChars, task.limits.chars, task.limits.tokens, task.limits.items, task.length,
                     items, UsedChars(task, items), UsedTokens(task, items))
  {
    hide Packed, UsedChars, UsedTokens;
    var items := Packed(task, ordered);
    PackedIsWithin(task, ordered);
    UsedIsSum(task, items);
    PackedInside(task, ordered);
    forall item | item in ordered && item !in items && |items| < task.limits.items
      ensures !Fits(task, items, item)
    {
      PackedIsMaximal(task, ordered, item);
    }
  }
}
