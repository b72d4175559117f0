/** Assembling streamed tool calls (`_merge_tool_delta` and `_finalize_tool_calls`,
    `src/axiom/agent/query.py:154-179`). */
module ToolDeltas {
  import opened Messages
  import opened Numerals
  import opened Ordering

  /** A piece of a tool call; absent parts are empty. */
  datatype Delta = Delta(index: int, id: string, name: string, arguments: string)

  /** The id a call has until one arrives. */
  function DefaultId(index: int): string {
    "tool_" + IntText(index)
  }

  /** The calls being assembled: a dictionary with its keys in insertion order. */
  class ToolStates {
    var indexes: seq<int>
    var calls: map<int, ToolCall>

    ghost predicate Valid()
      reads this
    {
      NoDuplicates(indexes) && Elements(indexes) == calls.Keys
    }

    constructor ()
      ensures Valid() && calls == map[]
    {
      indexes, calls := [], map[];
    }

    method MergeToolDelta(d: Delta)
      requires Valid()
      modifies this`indexes, this`calls
      ensures Valid() && calls == Merge(old(calls), d)
    {
      if d.index !in calls {
        assert d.index !in Elements(indexes);
        assert Elements(indexes + [d.index]) == Elements(indexes) + {d.index};
        indexes := indexes + [d.index];
        calls := calls[d.index := ToolCall(if d.id != "" then d.id else DefaultId(d.index), "", "")];
      }
      var state := calls[d.index];
      assert state.arguments + "" == state.arguments;
      if d.id != "" { state := state.(id := d.id); }
      if d.name != "" { state := state.(name := d.name); }
      if d.arguments != "" { state := state.(arguments := state.arguments + d.arguments); }
      calls := calls[d.index := state];
    }

    method FinalizeToolCalls() returns (result: seq<ToolCall>)
      requires Valid()
      ensures result == Finalized(calls)
      ensures exists at :: ListsNamed(calls, at, result)
    {
      FinalizedLists(calls);
      hide ListsNamed, Finalized;
      var order := Sorted(IntLe, indexes);
      SortedKeys(indexes, calls);
      result := [];
      for i := 0 to |order|
        invariant forall k :: k in order ==> k in calls
        invariant result == Named(calls, order[..i])
      {
        assert order[..i + 1][..i] == order[..i];
        assert order[i] in order;
        var state := calls[order[i]];
        if state.name != "" {
          result := result + [state];
        }
      }
      assert order[..|order|] == order;
    }
  }

  /** The whole stream of one turn. */
  method Assemble(deltas: seq<Delta>) returns (result: seq<ToolCall>)
    ensures result == Finalized(MergeAll(deltas))
    ensures exists at :: Assembles(deltas, at, result)
  {
    AssembledExactly(deltas);
    var states := new ToolStates();
    for i := 0 to |deltas|
      invariant states.Valid()
      invariant fresh(states)
      invariant states.calls == MergeAll(deltas[..i])
    {
      assert deltas[..i + 1][..i] == deltas[..i];
      states.MergeToolDelta(deltas[i]);
    }
    assert deltas[..|deltas|] == deltas;
    result := states.FinalizeToolCalls();
  }

  // ---- Specification ----

  function Updated(c: ToolCall, d: Delta): ToolCall {
    ToolCall(if d.id != "" then d.id else c.id, if d.name != "" then d.name else c.name, c.arguments + d.arguments)
  }

  function Merge(calls: map<int, ToolCall>, d: Delta): map<int, ToolCall> {
    calls[d.index := Updated(if d.index in calls then calls[d.index] else ToolCall(DefaultId(d.index), "", ""), d)]
  }

  function MergeAll(deltas: seq<Delta>): map<int, ToolCall> {
    if deltas == [] then map[] else Merge(MergeAll(deltas[..|deltas| - 1]), deltas[|deltas| - 1])
  }

  predicate IntLe(a: int, b: int) { a <= b }

  function Named(calls: map<int, ToolCall>, order: seq<int>): seq<ToolCall> {
    if order == [] then []
    else
      var last := order[|order| - 1];
      Named(calls, order[..|order| - 1]) + if last in calls && calls[last].name != "" then [calls[last]] else []
  }

  /** The one increasing list of the keys. */
  ghost predicate IsOrder(order: seq<int>, keys: set<int>) {
    (forall i, j :: 0 <= i < j < |order| ==> order[i] < order[j]) && Elements(order) == keys
  }

  /** The named calls by increasing index. */
  ghost function Finalized(calls: map<int, ToolCall>): seq<ToolCall> {
    OrderExists(calls.Keys);
    var order :| IsOrder(order, calls.Keys);
    Named(calls, order)
  }

  lemma {:induction false} OrderExists(keys: set<int>)
    ensures exists order :: IsOrder(order, keys)
  {
    if keys == {} {
      assert IsOrder([], keys);
    } else {
      var m := Greatest(keys);
      OrderExists(keys - {m});
      var order :| IsOrder(order, keys - {m});
      assert Elements(order + [m]) == Elements(order) + {m};
      assert forall i :: 0 <= i < |order| ==> order[i] in Elements(order);
      assert IsOrder(order + [m], keys);
    }
  }

  lemma Inhabited(keys: set<int>)
    ensures keys == {} || exists k: int :: k in keys
  {
    if forall k: int :: k !in keys {
      assert keys == {};
    }
  }

  lemma {:induction false} Greatest(keys: set<int>) returns (m: int)
    requires keys != {}
    ensures m in keys && forall k :: k in keys ==> k <= m
  {
    Inhabited(keys);
    var k: int :| k in keys;
    m := k;
    var rest := keys - {k};
    if rest != {} {
      var n := Greatest(rest);
      if n > k { m := n; }
    }
    assert forall j :: j in keys ==> j == k || j in rest;
  }

  lemma {:induction false} OrderIsUnique(xs: seq<int>, ys: seq<int>, keys: set<int>)
    requires IsOrder(xs, keys) && IsOrder(ys, keys)
    ensures xs == ys
  {
    if xs == [] || ys == [] {
      assert xs != [] ==> xs[0] in Elements(xs);
      assert ys != [] ==> ys[0] in Elements(ys);
    } else {
      var x, y := xs[|xs| - 1], ys[|ys| - 1];
      assert x in Elements(ys) && y in Elements(xs);
      assert x == y;
      LastOfOrder(xs, keys);
      LastOfOrder(ys, keys);
      OrderIsUnique(xs[..|xs| - 1], ys[..|ys| - 1], keys - {x});
    }
  }

  lemma LastOfOrder(xs: seq<int>, keys: set<int>)
    requires IsOrder(xs, keys) && xs != []
    ensures IsOrder(xs[..|xs| - 1], keys - {xs[|xs| - 1]})
  {
    var init, x := xs[..|xs| - 1], xs[|xs| - 1];
    forall k ensures k in Elements(init) <==> k in keys - {x} {
      assert k in Elements(xs) <==> k in Elements(init) || k == x by { assert xs == init + [x]; }
    }
  }

  lemma SortedKeys(indexes: seq<int>, calls: map<int, ToolCall>)
    requires NoDuplicates(indexes) && Elements(indexes) == calls.Keys
    ensures var order := Sorted(IntLe, indexes);
            && (forall i :: i in order ==> i in calls)
            && Named(calls, order) == Finalized(calls)
  {
    var order := Sorted(IntLe, indexes);
    SortedIsSorted(IntLe, indexes);
    SortedIsPermutation(IntLe, indexes);
    NoDuplicatesPermutes(indexes, order);
    forall k ensures k in order <==> k in calls {
      assert k in order <==> k in multiset(order);
      assert k in indexes <==> k in multiset(indexes);
      assert k in indexes <==> k in Elements(indexes);
    }
    assert IsOrder(order, calls.Keys);
    forall other | IsOrder(other, calls.Keys) ensures other == order { OrderIsUnique(other, order, calls.Keys); }
  }

  // ---- Each index on its own ----

  function Only(deltas: seq<Delta>, index: int): seq<Delta> {
    if deltas == [] then []
    else Only(deltas[..|deltas| - 1], index)
         + if deltas[|deltas| - 1].index == index then [deltas[|deltas| - 1]] else []
  }

  /** What one call's pieces say: the last id and name given, and all arguments in order. */
  function LastOr(default: string, parts: seq<string>): string {
    if parts == [] then default
    else if parts[|parts| - 1] != "" then parts[|parts| - 1]
    else LastOr(default, parts[..|parts| - 1])
  }

  function Joined(parts: seq<string>): string {
    if parts == [] then "" else Joined(parts[..|parts| - 1]) + parts[|parts| - 1]
  }

  function Ids(ds: seq<Delta>): seq<string> { seq(|ds|, i requires 0 <= i < |ds| => ds[i].id) }

  function Names(ds: seq<Delta>): seq<string> { seq(|ds|, i requires 0 <= i < |ds| => ds[i].name) }

  function Arguments(ds: seq<Delta>): seq<string> { seq(|ds|, i requires 0 <= i < |ds| => ds[i].arguments) }

  function CallOf(index: int, ds: seq<Delta>): ToolCall {
    ToolCall(LastOr(DefaultId(index), Ids(ds)), LastOr("", Names(ds)), Joined(Arguments(ds)))
  }

  lemma CallOfMore(index: int, ds: seq<Delta>, d: Delta)
    ensures CallOf(index, ds + [d]) == Updated(CallOf(index, ds), d)
    ensures ds == [] ==> CallOf(index, ds) == ToolCall(DefaultId(index), "", "")
  {
    assert Ids(ds + [d])[..|ds|] == Ids(ds);
    assert Names(ds + [d])[..|ds|] == Names(ds);
    assert Arguments(ds + [d])[..|ds|] == Arguments(ds);
  }

  /** A call is assembled from the pieces with its index alone. */
  lemma {:induction false} CallsAreSeparate(deltas: seq<Delta>, index: int)
    ensures var calls := MergeAll(deltas);
            && (index in calls <==> Only(deltas, index) != [])
            && (index in calls ==> calls[index] == CallOf(index, Only(deltas, index)))
  {
    if deltas != [] {
      var init, last := deltas[..|deltas| - 1], deltas[|deltas| - 1];
      CallsAreSeparate(init, index);
      var ds := Only(init, index);
      CallOfMore(index, ds, last);
      if last.index != index {
        assert Only(deltas, index) == ds;
      }
    }
  }

  /** Streams that agree on every index, however they interleave the indexes, finish as the same calls. */
  lemma InterleavingIsIrrelevant(ds: seq<Delta>, es: seq<Delta>)
    requires forall index :: Only(ds, index) == Only(es, index)
    ensures Finalized(MergeAll(ds)) == Finalized(MergeAll(es))
  {
    hide Only, Finalized, CallOf;
    forall index ensures index in MergeAll(ds) <==> index in MergeAll(es)
                 ensures index in MergeAll(ds) ==> MergeAll(ds)[index] == MergeAll(es)[index] {
      CallsAreSeparate(ds, index);
      CallsAreSeparate(es, index);
    }
    assert MergeAll(ds) == MergeAll(es);
  }

  // ---- The result spelled out ----

  /** `result` lists the calls under the indexes `at`: the indexes of all named calls, increasing. */
  ghost predicate ListsNamed(calls: map<int, ToolCall>, at: seq<int>, result: seq<ToolCall>) {
    && |at| == |result| && (forall i, j :: 0 <= i < j < |at| ==> at[i] < at[j])
    && (forall k :: k in at <==> k in calls && calls[k].name != "")
    && forall i :: 0 <= i < |at| ==> at[i] in calls && result[i] == calls[at[i]]
  }

  lemma {:induction false} NamedLists(calls: map<int, ToolCall>, order: seq<int>) returns (at: seq<int>)
    requires forall i, j :: 0 <= i < j < |order| ==> order[i] < order[j]
    ensures |at| == |Named(calls, order)| && forall i, j :: 0 <= i < j < |at| ==> at[i] < at[j]
    ensures forall k :: k in at <==> k in order && k in calls && calls[k].name != ""
    ensures forall i :: 0 <= i < |at| ==> at[i] in calls && Named(calls, order)[i] == calls[at[i]]
  {
    if order == [] {
      at := [];
    } else {
      var init, last := order[..|order| - 1], order[|order| - 1];
      assert order == init + [last];
      at := NamedLists(calls, init);
      assert forall i :: 0 <= i < |at| ==> at[i] in at;
      if last in calls && calls[last].name != "" { at := at + [last]; }
    }
  }

  lemma FinalizedLists(calls: map<int, ToolCall>)
    ensures exists at :: ListsNamed(calls, at, Finalized(calls))
  {
    OrderExists(calls.Keys);
    var order :| IsOrder(order, calls.Keys) && Finalized(calls) == Named(calls, order);
    var at := NamedLists(calls, order);
    forall k ensures k in order <==> k in calls { assert k in order <==> k in Elements(order); }
    assert ListsNamed(calls, at, Finalized(calls));
  }

  /** Of a whole stream: the indexes for which a name was given, increasing, each with the call that the pieces
      with its index make. */
  ghost predicate Assembles(deltas: seq<Delta>, at: seq<int>, result: seq<ToolCall>) {
    && |at| == |result| && (forall i, j :: 0 <= i < j < |at| ==> at[i] < at[j])
    && (forall k :: k in at <==> exists d :: d in deltas && d.index == k && d.name != "")
    && forall i :: 0 <= i < |at| ==> result[i] == CallOf(at[i], Only(deltas, at[i]))
  }

  lemma AssembledExactly(deltas: seq<Delta>)
    ensures exists at :: Assembles(deltas, at, Finalized(MergeAll(deltas)))
  {
    var calls := MergeAll(deltas);
    FinalizedLists(calls);
    hide Finalized, Only, MergeAll, LastOr, Names, Ids, Arguments;
    var at :| ListsNamed(calls, at, Finalized(calls));
    forall k ensures k in calls && calls[k].name != "" <==> exists d :: d in deltas && d.index == k && d.name != "" {
      CallsAreSeparate(deltas, k);
      OnlyExact(deltas, k);
      NamedIn(Only(deltas, k));
    }
    forall i | 0 <= i < |at| ensures Finalized(calls)[i] == CallOf(at[i], Only(deltas, at[i])) {
      CallsAreSeparate(deltas, at[i]);
    }
    assert Assembles(deltas, at, Finalized(calls));
  }

  lemma NamedIn(ds: seq<Delta>)
    ensures LastOr("", Names(ds)) != "" <==> exists d :: d in ds && d.name != ""
  {
    LastOrExact(Names(ds));
    if d :| d in ds && d.name != "" {
      var k :| 0 <= k < |ds| && ds[k] == d;
      assert Names(ds)[k] != "";
    }
  }

  lemma {:induction false} OnlyExact(deltas: seq<Delta>, index: int)
    ensures forall d :: d in Only(deltas, index) <==> d in deltas && d.index == index
  {
    if deltas != [] {
      var init, last := deltas[..|deltas| - 1], deltas[|deltas| - 1];
      assert deltas == init + [last];
      OnlyExact(init, index);
    }
  }

  lemma {:induction false} LastOrExact(parts: seq<string>)
    ensures LastOr("", parts) != "" <==> exists k :: 0 <= k < |parts| && parts[k] != ""
  {
    if parts != [] && parts[|parts| - 1] == "" {
      var init := parts[..|parts| - 1];
      LastOrExact(init);
      if k :| 0 <= k < |init| && init[k] != "" { assert parts[k] != ""; }
      if k :| 0 <= k < |parts| && parts[k] != "" { assert init[k] != ""; }
    }
  }
}
