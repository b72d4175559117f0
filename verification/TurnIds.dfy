/** The call ids that the turn loop gives when a provider sends none
    (`src/axiom/agent/query.py:97-117` and `:154-179`). */
module TurnIds {
  import opened Messages
  import opened Numerals
  import opened Ordering
  import opened ToolDeltas

  /** The stream names a call at the index and never gives it an id. */
  predicate NamedWithoutId(deltas: seq<Delta>, index: int) {
    var ds := Only(deltas, index);
    && (exists k :: 0 <= k < |ds| && ds[k].name != "")
    && forall k :: 0 <= k < |ds| ==> ds[k].id == ""
  }

  lemma {:induction false} LastOrSome(default: string, parts: seq<string>)
    ensures (forall k :: 0 <= k < |parts| ==> parts[k] == "") ==> LastOr(default, parts) == default
    ensures (exists k :: 0 <= k < |parts| && parts[k] != "") ==> LastOr(default, parts) != ""
  {
    if parts != [] {
      LastOrSome(default, parts[..|parts| - 1]);
    }
  }

  lemma {:induction false} NamedHolds(calls: map<int, ToolCall>, order: seq<int>, index: int)
    requires index in order && index in calls && calls[index].name != ""
    ensures calls[index] in Named(calls, order)
  {
    var last := order[|order| - 1];
    if last != index {
      assert order == order[..|order| - 1] + [last];
      NamedHolds(calls, order[..|order| - 1], index);
    }
  }

  /** A named call is among the finalized ones. */
  lemma NamedIsFinalized(calls: map<int, ToolCall>, index: int)
    requires index in calls && calls[index].name != ""
    ensures calls[index] in Finalized(calls)
  {
    OrderExists(calls.Keys);
    var order :| IsOrder(order, calls.Keys) && Finalized(calls) == Named(calls, order);
    assert index in Elements(order);
    NamedHolds(calls, order, index);
  }

  /** Such a stream finishes with a call whose id is made from the index alone. */
  lemma DefaultIdIsGiven(deltas: seq<Delta>, index: int)
    requires NamedWithoutId(deltas, index)
    ensures exists c :: c in Finalized(MergeAll(deltas)) && c.id == DefaultId(index)
  {
    hide Only, Finalized, MergeAll;
    var ds := Only(deltas, index);
    CallsAreSeparate(deltas, index);
    LastOrSome(DefaultId(index), Ids(ds));
    var k :| 0 <= k < |ds| && ds[k].name != "";
    assert Names(ds)[k] != "";
    LastOrSome("", Names(ds));
    NamedIsFinalized(MergeAll(deltas), index);
    assert MergeAll(deltas)[index].id == DefaultId(index);
  }

  /** Whenever two turns of a conversation are assembled from streams that name a call at one index
      without an id, the second gets the id of the first and the conversation breaks the protocol. */
  lemma DefaultIdsCollide(ms: seq<Message>, i: nat, j: nat, ds: seq<Delta>, es: seq<Delta>, index: int)
    requires i < j < |ms| && ms[i].toolCalls == Finalized(MergeAll(ds)) && ms[j].toolCalls == Finalized(MergeAll(es))
    requires NamedWithoutId(ds, index) && NamedWithoutId(es, index)
    ensures !Protocol(ms)
  {
    hide NamedWithoutId, Finalized, MergeAll;
    DefaultIdIsGiven(ds, index);
    DefaultIdIsGiven(es, index);
    var c :| c in ms[i].toolCalls && c.id == DefaultId(index);
    var d :| d in ms[j].toolCalls && d.id == DefaultId(index);
    var k :| 0 <= k < |ms[i].toolCalls| && ms[i].toolCalls[k] == c;
    var l :| 0 <= l < |ms[j].toolCalls| && ms[j].toolCalls[l] == d;
    assert Issues(ms, i, k, DefaultId(index)) && Issues(ms, j, l, DefaultId(index));
  }

  /** The smallest such conversation: one delta without an id in each of two turns. */
  lemma TwoTurnsWithoutIds()
    ensures var delta := Delta(0, "", "search", "{}");
            && Finalized(MergeAll([delta])) == [ToolCall("tool_0", "search", "{}")]
            && NamedWithoutId([delta], 0)
  {
    hide Finalized, MergeAll, Only;
    var delta := Delta(0, "", "search", "{}");
    OneDelta(delta);
    FinalizedOne(0, ToolCall("tool_0", "search", "{}"));
    assert [delta][0].name != "";
  }

  lemma OneDelta(delta: Delta)
    requires delta == Delta(0, "", "search", "{}")
    ensures MergeAll([delta]) == map[0 := ToolCall("tool_0", "search", "{}")] && Only([delta], 0) == [delta]
  {
    assert [delta][..0] == [];
    assert DefaultId(0) == "tool_0" by { assert Digits(0) == "0"; }
    assert "" + "{}" == "{}";
  }

  lemma FinalizedOne(index: int, c: ToolCall)
    requires c.name != ""
    ensures Finalized(map[index := c]) == [c]
  {
    var calls := map[index := c];
    OrderExists(calls.Keys);
    var order :| IsOrder(order, calls.Keys) && Finalized(calls) == Named(calls, order);
    OneKey(index, order);
    assert index in calls && calls[index] == c && [index][..0] == [];
    assert Named(calls, [index]) == Named(calls, []) + [c];
  }

  lemma OneKey(index: int, order: seq<int>)
    requires IsOrder(order, {index})
    ensures order == [index]
  {
    assert Elements([index]) == {index};
    OrderIsUnique(order, [index], {index});
  }
}
