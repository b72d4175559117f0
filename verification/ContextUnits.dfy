/** Protocol units of a message list and the prefix that compaction may drop
    (`_message_units` and `_eligible_prefix_end`, `src/axiom/context.py:475-501` and `:706-735`). */
module ContextUnits {
  import opened Wrappers
  import opened Messages

  /** A stretch of messages that compaction keeps or drops as a whole. */
  datatype Unit = Unit(start: nat, end: nat, pending: bool)

  function ToolRunEnd(ms: seq<Message>, i: nat): (end: nat)
    requires i <= |ms|
    ensures i <= end <= |ms|
    ensures forall k :: i <= k < end ==> ms[k].role == Tool
    decreases |ms| - i
  {
    if i < |ms| && ms[i].role == Tool then ToolRunEnd(ms, i + 1) else i
  }

  function CallIds(m: Message): set<string> {
    set c | c in m.toolCalls :: c.id
  }

  function ResultIds(ms: seq<Message>): set<string> {
    set m | m in ms :: OrEmpty(m.toolCallId)
  }

  /** An assistant message with calls goes together with the results right behind it, and is pending
      while one of its calls has none of them; any other message stands alone. */
  function UnitAt(ms: seq<Message>, i: nat): (u: Unit)
    requires i < |ms|
    ensures u.start == i < u.end <= |ms|
  {
    if ms[i].role == Assistant && ms[i].toolCalls != [] then
      var end := ToolRunEnd(ms, i + 1);
      Unit(i, end, !(CallIds(ms[i]) <= ResultIds(ms[i + 1..end])))
    else
      Unit(i, i + 1, ms[i].role == Tool)
  }

  function UnitsFrom(ms: seq<Message>, i: nat): seq<Unit>
    requires i <= |ms|
    decreases |ms| - i
  {
    if i == |ms| then [] else [UnitAt(ms, i)] + UnitsFrom(ms, UnitAt(ms, i).end)
  }

  method MessageUnits(ms: seq<Message>) returns (units: seq<Unit>)
    ensures units == UnitsFrom(ms, 0)
  {
    hide UnitsFrom, UnitAt;
    units := [];
    var index := 0;
    while index < |ms|
      invariant index <= |ms|
      invariant units + UnitsFrom(ms, index) == UnitsFrom(ms, 0)
    {
      UnitsStep(ms, index);
      ghost var next, rest := UnitAt(ms, index), UnitsFrom(ms, UnitAt(ms, index).end);
      assert units + ([next] + rest) == (units + [next]) + rest;
      var message := ms[index];
      if message.role == Assistant && message.toolCalls != [] {
        var unit := ToolCallUnit(ms, index);
        units := units + [unit];
        index := unit.end;
      } else {
        units := units + [Unit(index, index + 1, message.role == Tool)];
        index := index + 1;
      }
    }
    UnitsEnd(ms);
    assert units + [] == units;
  }

  lemma UnitsStep(ms: seq<Message>, i: nat)
    requires i < |ms|
    ensures UnitsFrom(ms, i) == [UnitAt(ms, i)] + UnitsFrom(ms, UnitAt(ms, i).end)
    ensures !(ms[i].role == Assistant && ms[i].toolCalls != []) ==> UnitAt(ms, i) == Unit(i, i + 1, ms[i].role == Tool)
  {}

  lemma UnitsEnd(ms: seq<Message>)
    ensures UnitsFrom(ms, |ms|) == []
  {}

  method ToolCallUnit(ms: seq<Message>, index: nat) returns (unit: Unit)
    requires index < |ms| && ms[index].role == Assistant && ms[index].toolCalls != []
    ensures unit == UnitAt(ms, index)
  {
    var required := CallIds(ms[index]);
    var found: set<string> := {};
    var end := index + 1;
    while end < |ms| && ms[end].role == Tool
      invariant index < end <= |ms| && ToolRunEnd(ms, index + 1) == ToolRunEnd(ms, end)
      invariant found == ResultIds(ms[index + 1..end])
    {
      assert ms[index + 1..end + 1] == ms[index + 1..end] + [ms[end]];
      found := found + {OrEmpty(ms[end].toolCallId)};
      end := end + 1;
    }
    assert required == (required - found) + (required * found);
    return Unit(index, end, required - found != {});
  }

  // ---- The eligible prefix ----

  function LatestUser(ms: seq<Message>): (r: Option<nat>)
    ensures r.Some? ==> r.value < |ms| && ms[r.value].role == User
    ensures forall k :: 0 <= k < |ms| && ms[k].role == User ==> r.Some? && k <= r.value
  {
    if ms == [] then None
    else if ms[|ms| - 1].role == User then Some(|ms| - 1)
    else LatestUser(ms[..|ms| - 1])
  }

  function RecentStart(ms: seq<Message>, reserve: nat): nat {
    if |ms| >= reserve then |ms| - reserve else 0
  }

  /** The unit is recent, holds the newest user message, waits for results, or holds a required message. */
  predicate Pinned(ms: seq<Message>, reserve: nat, required: set<nat>, u: Unit) {
    || u.end > RecentStart(ms, reserve)
    || (LatestUser(ms).Some? && u.start <= LatestUser(ms).value < u.end)
    || u.pending
    || exists k :: k in required && u.start <= k < u.end
  }

  /** Goes over the units that end behind `covered`, as long as they join on and are not pinned. */
  function Eligible(ms: seq<Message>, reserve: nat, required: set<nat>, covered: nat, units: seq<Unit>, end: nat): nat {
    if units == [] then end
    else if units[0].end <= covered then Eligible(ms, reserve, required, covered, units[1..], end)
    else if Pinned(ms, reserve, required, units[0]) || units[0].start != end then end
    else Eligible(ms, reserve, required, covered, units[1..], units[0].end)
  }

  function EligibleEnd(ms: seq<Message>, reserve: nat, required: set<nat>, covered: nat): nat {
    Eligible(ms, reserve, required, covered, UnitsFrom(ms, 0), covered)
  }

  method EligiblePrefixEnd(ms: seq<Message>, reserve: nat, required: set<nat>, covered: nat) returns (eligibleEnd: nat)
    ensures eligibleEnd == EligibleEnd(ms, reserve, required, covered)
  {
    var units := MessageUnits(ms);
    eligibleEnd := covered;
    var i := 0;
    while i < |units|
      invariant i <= |units|
      invariant Eligible(ms, reserve, required, covered, units[i..], eligibleEnd) ==
                EligibleEnd(ms, reserve, required, covered)
    {
      var unit := units[i];
      assert units[i..][1..] == units[i + 1..];
      i := i + 1;
      if unit.end <= covered { continue; }
      if Pinned(ms, reserve, required, unit) { break; }
      if unit.start != eligibleEnd { break; }
      eligibleEnd := unit.end;
    }
  }

  /** The stretch from `a` to `b` consists of whole units that are not pinned. */
  ghost predicate WholeUnits(ms: seq<Message>, reserve: nat, required: set<nat>, a: nat, b: nat)
    requires b <= |ms|
    decreases b - a
  {
    || a == b
    || (a < b && var u := UnitAt(ms, a);
               u.end <= b && !Pinned(ms, reserve, required, u) && WholeUnits(ms, reserve, required, u.end, b))
  }

  /** The newly eligible stretch is made of whole unpinned units, and the unit behind it, if it joins
      on, is pinned. */
  lemma {:induction false} EligibleIsWhole(ms: seq<Message>, reserve: nat, required: set<nat>, covered: nat, i: nat,
                                           end: nat)
    requires i <= |ms| && covered <= end <= |ms| && (end > covered ==> i == end)
    ensures var e := Eligible(ms, reserve, required, covered, UnitsFrom(ms, i), end);
            && end <= e <= |ms| && WholeUnits(ms, reserve, required, end, e)
            && (e > covered ==> e == |ms| || Pinned(ms, reserve, required, UnitAt(ms, e)))
    decreases |ms| - i
  {
    if i < |ms| {
      var u := UnitAt(ms, i);
      assert UnitsFrom(ms, i)[1..] == UnitsFrom(ms, u.end);
      if u.end <= covered {
        EligibleIsWhole(ms, reserve, required, covered, u.end, end);
      } else if !Pinned(ms, reserve, required, u) && u.start == end {
        EligibleIsWhole(ms, reserve, required, covered, u.end, u.end);
      }
    }
  }

  // ---- What the eligible prefix leaves alone ----

  /** Only assistant messages carry tool calls. */
  ghost predicate AssistantsCall(ms: seq<Message>) {
    forall i :: 0 <= i < |ms| && ms[i].toolCalls != [] ==> ms[i].role == Assistant
  }

  lemma {:induction false} WholeUnitsLeave(ms: seq<Message>, reserve: nat, required: set<nat>, a: nat, b: nat, k: nat)
    requires b <= |ms| && WholeUnits(ms, reserve, required, a, b) && a <= k < b
    ensures k < RecentStart(ms, reserve) && k !in required && LatestUser(ms) != Some(k)
    decreases b - a
  {
    var u := UnitAt(ms, a);
    if k >= u.end { WholeUnitsLeave(ms, reserve, required, u.end, b, k); }
  }

  /** Whole unpinned units are settled: behind a settled prefix they leave a settled prefix. */
  lemma {:induction false} WholeUnitsSettle(ms: seq<Message>, reserve: nat, required: set<nat>, a: nat, b: nat)
    requires b <= |ms| && WholeUnits(ms, reserve, required, a, b)
    requires AssistantsCall(ms) && Settled(ms, a)
    ensures Settled(ms, b)
    decreases b - a
  {
    if a < b {
      var u := UnitAt(ms, a);
      UnitSettles(ms, reserve, required, u);
      WholeUnitsSettle(ms, reserve, required, u.end, b);
    }
  }

  lemma UnitSettles(ms: seq<Message>, reserve: nat, required: set<nat>, u: Unit)
    requires u.start < |ms| && u == UnitAt(ms, u.start) && !u.pending
    requires AssistantsCall(ms) && Settled(ms, u.start)
    ensures Settled(ms, u.end)
  {
    forall i, j, id | i < u.end && Issues(ms, i, j, id) ensures Answered(ms, u.end, id) {
      if i < u.start {
        assert Answered(ms, u.start, id);
        var k :| k < u.start && Answers(ms, k, id);
        assert k < u.end && Answers(ms, k, id);
      } else {
        assert ms[i].role == Assistant;
        assert i == u.start;
        assert ms[i].toolCalls[j] in ms[i].toolCalls;
        assert id in CallIds(ms[i]);
        var results := ms[i + 1..u.end];
        assert id in ResultIds(results);
        var m :| m in results && OrEmpty(m.toolCallId) == id;
        var l :| 0 <= l < |results| && results[l] == m;
        assert Answers(ms, i + 1 + l, id);
      }
    }
  }

  // ---- Units and pinning spelled out ----

  /** Message `i` is a tool result with only tool results between it and the calling assistant message `a`. */
  ghost predicate Answering(ms: seq<Message>, a: nat, i: nat) {
    && a < i < |ms| && ms[a].role == Assistant && ms[a].toolCalls != []
    && forall k :: a < k <= i ==> ms[k].role == Tool
  }

  /** No unit reaches across the place before message `i`. */
  ghost predicate IsCut(ms: seq<Message>, i: nat) {
    i <= |ms| && forall a: nat :: !Answering(ms, a, i)
  }

  ghost predicate IsUnit(ms: seq<Message>, a: nat, b: nat) {
    a < b <= |ms| && IsCut(ms, a) && IsCut(ms, b) && forall k :: a < k < b ==> !IsCut(ms, k)
  }

  /** A lone tool result, or a call that none of the unit's results answers. */
  ghost predicate Unanswered(ms: seq<Message>, a: nat, b: nat)
    requires a < b <= |ms|
  {
    || ms[a].role == Tool
    || (ms[a].role == Assistant
        && exists c :: c in ms[a].toolCalls && forall k :: a < k < b ==> OrEmpty(ms[k].toolCallId) != c.id)
  }

  /** The unit reaches into the recent messages, holds the newest user message, waits for results, or holds a
      required message. */
  ghost predicate Stays(ms: seq<Message>, reserve: nat, required: set<nat>, a: nat, b: nat)
    requires a < b <= |ms|
  {
    || b + reserve > |ms|
    || (exists k :: a <= k < b && ms[k].role == User && forall l :: k < l < |ms| ==> ms[l].role != User)
    || Unanswered(ms, a, b)
    || exists k :: k in required && a <= k < b
  }

  lemma ToolRunIsCut(ms: seq<Message>, i: nat)
    requires i <= |ms| && ToolRunEnd(ms, i) < |ms|
    ensures ms[ToolRunEnd(ms, i)].role != Tool
    decreases |ms| - i
  {}

  /** From a cut on, the unit is the stretch to the next cut. */
  lemma UnitIsStretch(ms: seq<Message>, i: nat)
    requires i < |ms| && IsCut(ms, i)
    ensures IsUnit(ms, i, UnitAt(ms, i).end)
  {
    var end := UnitAt(ms, i).end;
    if ms[i].role == Assistant && ms[i].toolCalls != [] {
      if end < |ms| { ToolRunIsCut(ms, i + 1); }
      forall k | i < k < end ensures !IsCut(ms, k) { assert Answering(ms, i, k); }
      forall a: nat ensures !Answering(ms, a, end) {
        assert end < |ms| ==> ms[end].role != Tool;
      }
    } else {
      forall a: nat ensures !Answering(ms, a, end) {
        if Answering(ms, a, end) && a < i { assert Answering(ms, a, i); }
      }
    }
  }

  lemma UnitIsUnique(ms: seq<Message>, a: nat, b: nat)
    requires IsUnit(ms, a, b)
    ensures UnitAt(ms, a).end == b
  {
    UnitIsStretch(ms, a);
    assert IsCut(ms, UnitAt(ms, a).end);
  }

  lemma PendingSpelledOut(ms: seq<Message>, a: nat)
    requires a < |ms|
    ensures UnitAt(ms, a).pending <==> Unanswered(ms, a, UnitAt(ms, a).end)
  {
    var u := UnitAt(ms, a);
    if ms[a].role == Assistant && ms[a].toolCalls != [] {
      var results := ms[a + 1..u.end];
      forall id ensures id in ResultIds(results) <==> exists k :: a < k < u.end && OrEmpty(ms[k].toolCallId) == id {
        if id in ResultIds(results) {
          var m :| m in results && OrEmpty(m.toolCallId) == id;
          var k :| 0 <= k < |results| && results[k] == m;
          assert OrEmpty(ms[a + 1 + k].toolCallId) == id;
        }
        if k :| a < k < u.end && OrEmpty(ms[k].toolCallId) == id { assert results[k - a - 1] in results; }
      }
      if Unanswered(ms, a, u.end) {
        var c :| c in ms[a].toolCalls && forall k :: a < k < u.end ==> OrEmpty(ms[k].toolCallId) != c.id;
        assert c.id in CallIds(ms[a]);
      }
    }
  }

  lemma PinnedSpelledOut(ms: seq<Message>, reserve: nat, required: set<nat>, a: nat)
    requires a < |ms|
    ensures Pinned(ms, reserve, required, UnitAt(ms, a)) <==> Stays(ms, reserve, required, a, UnitAt(ms, a).end)
  {
    var u := UnitAt(ms, a);
    PendingSpelledOut(ms, a);
    hide UnitAt, Unanswered;
    if k :| a <= k < u.end && ms[k].role == User && forall l :: k < l < |ms| ==> ms[l].role != User {
      assert LatestUser(ms) == Some(k);
    }
  }

  /** What may be dropped next: the stretch from `covered` to `end` is made of units that need not stay, up to
      the end or to a unit that must stay. */
  ghost predicate IsEligibleEnd(ms: seq<Message>, reserve: nat, required: set<nat>, covered: nat, end: nat) {
    && covered < end <= |ms| && IsCut(ms, covered) && IsCut(ms, end)
    && NoneStays(ms, reserve, required, covered, end)
    && (forall b: nat :: IsUnit(ms, end, b) ==> Stays(ms, reserve, required, end, b))
  }

  /** No unit between the two places must stay. */
  ghost predicate NoneStays(ms: seq<Message>, reserve: nat, required: set<nat>, from: nat, to: nat) {
    forall a: nat, b: nat :: from <= a && b <= to && IsUnit(ms, a, b) ==> !Stays(ms, reserve, required, a, b)
  }

  lemma UnitSpelledOut(ms: seq<Message>, reserve: nat, required: set<nat>, a: nat)
    requires a < |ms| && IsCut(ms, a)
    ensures var u := UnitAt(ms, a);
            && IsUnit(ms, a, u.end) && (forall b: nat :: IsUnit(ms, a, b) ==> b == u.end)
            && (Pinned(ms, reserve, required, u) <==> Stays(ms, reserve, required, a, u.end))
  {
    UnitIsStretch(ms, a);
    PinnedSpelledOut(ms, reserve, required, a);
    forall b: nat | IsUnit(ms, a, b) { UnitIsUnique(ms, a, b); }
  }

  lemma NoneStaysJoins(ms: seq<Message>, reserve: nat, required: set<nat>, c: nat, end: nat, e: nat)
    requires IsUnit(ms, c, end) && !Stays(ms, reserve, required, c, end)
    requires NoneStays(ms, reserve, required, end, e)
    ensures NoneStays(ms, reserve, required, c, e)
  {
    hide Stays, IsCut;
    forall a: nat, b: nat | c <= a && b <= e && IsUnit(ms, a, b) ensures !Stays(ms, reserve, required, a, b) {
      if a < end {
        assert a == c;
        assert b == end;
      }
    }
  }

  /** From a cut on, the eligible stretch goes on to the first unit that must stay. */
  lemma {:induction false} EligibleFrom(ms: seq<Message>, reserve: nat, required: set<nat>, covered: nat, c: nat)
    requires covered <= c <= |ms| && IsCut(ms, c)
    ensures var e := Eligible(ms, reserve, required, covered, UnitsFrom(ms, c), c);
            && c <= e <= |ms| && IsCut(ms, e) && NoneStays(ms, reserve, required, c, e)
            && (forall b: nat :: IsUnit(ms, e, b) ==> Stays(ms, reserve, required, e, b))
            && (e > c <==> exists b: nat :: IsUnit(ms, c, b) && !Stays(ms, reserve, required, c, b))
    decreases |ms| - c
  {
    hide IsCut, Stays, UnitAt, Pinned;
    if c < |ms| {
      var u := UnitAt(ms, c);
      assert UnitsFrom(ms, c)[1..] == UnitsFrom(ms, u.end);
      UnitSpelledOut(ms, reserve, required, c);
      if !Pinned(ms, reserve, required, u) {
        EligibleFrom(ms, reserve, required, covered, u.end);
        NoneStaysJoins(ms, reserve, required, c, u.end,
                       Eligible(ms, reserve, required, covered, UnitsFrom(ms, u.end), u.end));
      }
    }
  }

  /** The units up to `covered` are passed over; one that reaches across it ends the search. */
  lemma {:induction false} EligibleUpTo(ms: seq<Message>, reserve: nat, required: set<nat>, covered: nat, i: nat)
    requires i <= covered <= |ms| && IsCut(ms, i)
    ensures Eligible(ms, reserve, required, covered, UnitsFrom(ms, i), covered) ==
            if IsCut(ms, covered)
            then Eligible(ms, reserve, required, covered, UnitsFrom(ms, covered), covered) else covered
    decreases |ms| - i
  {
    hide IsCut, Stays, UnitAt, Pinned;
    if i < covered {
      var u := UnitAt(ms, i);
      assert UnitsFrom(ms, i)[1..] == UnitsFrom(ms, u.end);
      UnitSpelledOut(ms, reserve, required, i);
      if u.end <= covered { EligibleUpTo(ms, reserve, required, covered, u.end); }
    }
  }

  /** The end moves if and only if the covered position is a cut and the unit that starts there need not stay;
      it moves to the first unit behind that must. */
  lemma EligibleExactly(ms: seq<Message>, reserve: nat, required: set<nat>, covered: nat)
    requires covered <= |ms|
    ensures var e := EligibleEnd(ms, reserve, required, covered);
            && (e > covered <==> exists b: nat :: IsUnit(ms, covered, b) && !Stays(ms, reserve, required, covered, b))
            && (e > covered ==> IsEligibleEnd(ms, reserve, required, covered, e))
            && (e <= covered ==> e == covered)
  {
    assert IsCut(ms, 0);
    hide Stays, UnitAt, Pinned, Eligible, UnitsFrom, NoneStays;
    EligibleUpTo(ms, reserve, required, covered, 0);
    if IsCut(ms, covered) { EligibleFrom(ms, reserve, required, covered, covered); }
  }

  /** There is only one such end. */
  lemma EligibleEndIsUnique(ms: seq<Message>, reserve: nat, required: set<nat>, covered: nat, e: nat, f: nat)
    requires IsEligibleEnd(ms, reserve, required, covered, e) && IsEligibleEnd(ms, reserve, required, covered, f)
    ensures e == f
  {
    hide Stays, IsCut;
    if f < e { NextUnit(ms, f, e); }
    if e < f { NextUnit(ms, e, f); }
  }

  /** Behind a cut there is a unit, which ends no later than any other cut. */
  lemma NextUnit(ms: seq<Message>, a: nat, e: nat)
    requires a < e <= |ms| && IsCut(ms, a) && IsCut(ms, e)
    ensures exists b: nat :: IsUnit(ms, a, b) && b <= e
  {
    UnitIsStretch(ms, a);
  }
}
