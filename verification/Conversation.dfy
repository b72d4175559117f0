/** Conversation records, the user/assistant turns in them, and their grouping into bounded segments
    (`segment_messages`, `src/axiom/memory/summarizer.py:122-175`). */
module Conversation {
  import opened Wrappers
  import Segments

  datatype Record = Record(role: string, content: string, event: Option<int>)

  /** A user message, the reply to it, and their event ids. */
  datatype Turn = Turn(user: string, assistant: string, start: int, end: int)

  datatype TurnSegment = TurnSegment(turns: seq<Turn>, start: int, end: int)

  predicate IsUser(r: Record) {
    r.event.Some? && r.role == "user"
  }

  predicate IsAssistant(r: Record) {
    r.event.Some? && r.role == "assistant"
  }

  // ---- Turns ----

  /** The turns of the records, when the user message `pending` is still waiting for its reply. */
  function TurnsFrom(pending: Option<Record>, rs: seq<Record>): seq<Turn>
    requires pending.Some? ==> IsUser(pending.value)
    decreases |rs|
  {
    if rs == [] then []
    else if IsUser(rs[0]) then TurnsFrom(Some(rs[0]), rs[1..])
    else if IsAssistant(rs[0]) && pending.Some? then [TurnOf(pending.value, rs[0])] + TurnsFrom(None, rs[1..])
    else TurnsFrom(pending, rs[1..])
  }

  function TurnOf(user: Record, assistant: Record): Turn
    requires IsUser(user) && IsAssistant(assistant)
  {
    Turn(user.content, assistant.content, user.event.value, assistant.event.value)
  }

  function Turns(rs: seq<Record>): seq<Turn> {
    TurnsFrom(None, rs)
  }

  /** A user message and the first reply after it, with no other user message in between. */
  ghost predicate IsTurnAt(rs: seq<Record>, i: nat, j: nat, t: Turn) {
    && i < j < |rs| && IsUser(rs[i]) && IsAssistant(rs[j]) && t == TurnOf(rs[i], rs[j])
    && forall k :: i < k < j ==> !IsUser(rs[k]) && !IsAssistant(rs[k])
  }

  ghost predicate IsTurn(rs: seq<Record>, t: Turn) {
    exists i: nat, j: nat :: IsTurnAt(rs, i, j, t)
  }

  /** Exactly the replied user messages of the records are turns. */
  lemma {:induction false} TurnsExact(rs: seq<Record>, t: Turn)
    ensures t in Turns(rs) <==> IsTurn(rs, t)
    decreases |rs|
  {
    if rs != [] {
      var rest := rs[1..];
      TurnsExact(rest, t);
      ShiftTurn(rs, t);
      if IsUser(rs[0]) {
        assert rs == [rs[0]] + rest;
        FirstTurn(rs[0], rest, t);
      }
    }
  }

  /** A turn of the records is one of the rest or starts with the first record. */
  lemma ShiftTurn(rs: seq<Record>, t: Turn)
    requires rs != []
    ensures IsTurn(rs, t) <==> IsTurn(rs[1..], t) || exists j: nat :: IsTurnAt(rs, 0, j, t)
  {
    var rest := rs[1..];
    if IsTurn(rest, t) {
      var i: nat, j: nat :| IsTurnAt(rest, i, j, t);
      assert IsTurnAt(rs, i + 1, j + 1, t);
    }
    if IsTurn(rs, t) {
      var i: nat, j: nat :| IsTurnAt(rs, i, j, t);
      if i > 0 {
        assert IsTurnAt(rest, i - 1, j - 1, t);
      }
    }
  }

  /** With a user message first: its own turn, if any, then the turns of the rest. */
  lemma {:induction false} FirstTurn(user: Record, rest: seq<Record>, t: Turn)
    requires IsUser(user)
    ensures t in TurnsFrom(Some(user), rest) <==> t in Turns(rest) || exists j: nat :: IsTurnAt([user] + rest, 0, j, t)
    decreases |rest|
  {
    if rest != [] {
      var next, rs, rs' := rest[0], [user] + rest, [user] + rest[1..];
      if IsUser(next) {
        forall j: nat ensures !IsTurnAt(rs, 0, j, t) { assert IsUser(rs[1]); }
      } else if IsAssistant(next) {
        assert IsTurnAt(rs, 0, 1, TurnOf(user, next));
        forall j: nat | IsTurnAt(rs, 0, j, t) ensures t == TurnOf(user, next) { assert IsAssistant(rs[1]); }
      } else {
        FirstTurn(user, rest[1..], t);
        assert forall k :: 1 <= k < |rs'| ==> rs'[k] == rs[k + 1];
        if j: nat :| IsTurnAt(rs', 0, j, t) {
          forall k | 0 < k < j + 1 ensures !IsUser(rs[k]) && !IsAssistant(rs[k]) {
            assert k > 1 ==> rs[k] == rs'[k - 1];
          }
          assert IsTurnAt(rs, 0, j + 1, t);
        }
        if j: nat :| IsTurnAt(rs, 0, j, t) {
          assert j != 1;
          assert IsTurnAt(rs', 0, j - 1, t);
        }
      }
    }
  }

  // ---- Event ids ----

  /** Every record has a positive event id, and the ids grow. */
  ghost predicate Increasing(rs: seq<Record>) {
    && (forall i :: 0 <= i < |rs| ==> rs[i].event.Some? && rs[i].event.value > 0)
    && (forall i, j :: 0 <= i < j < |rs| ==> rs[i].event.value < rs[j].event.value)
  }

  /** The turns lie one after the other in (low, high]. */
  ghost predicate TurnsWithin(turns: seq<Turn>, low: int, high: int) {
    && (forall i :: 0 <= i < |turns| ==> low < turns[i].start < turns[i].end <= high)
    && (forall i, j :: 0 <= i < j < |turns| ==> turns[i].end < turns[j].start)
  }

  lemma {:induction false} TurnsIncrease(pending: Option<Record>, rs: seq<Record>, low: int, high: int)
    requires Increasing(rs) && (forall i :: 0 <= i < |rs| ==> low < rs[i].event.value <= high)
    requires pending.Some? ==> IsUser(pending.value) && low < pending.value.event.value
                               && forall i :: 0 <= i < |rs| ==> pending.value.event.value < rs[i].event.value
    ensures TurnsWithin(TurnsFrom(pending, rs), low, high)
    decreases |rs|
  {
    if rs != [] {
      assert Increasing(rs[1..]);
      if IsUser(rs[0]) {
        TurnsIncrease(Some(rs[0]), rs[1..], low, high);
      } else if IsAssistant(rs[0]) && pending.Some? {
        TurnsIncrease(None, rs[1..], rs[0].event.value, high);
      } else {
        TurnsIncrease(pending, rs[1..], low, high);
      }
    }
  }

  // ---- Segments ----

  function Cost(tokens: string -> nat): Turn -> nat {
    (t: Turn) => TurnCost(tokens, t)
  }

  function TurnCost(tokens: string -> nat, t: Turn): nat {
    tokens(t.user) + tokens(t.assistant)
  }

  /** Fills on from `current`. `x or y` in the source takes `y` when the id `x` is zero. */
  function Grouped(tokens: string -> nat, limit: nat, current: seq<Turn>, rest: seq<Turn>): seq<TurnSegment>
    decreases |rest|
  {
    if rest == [] then (if current == [] then [] else [Whole(current)])
    else if current != [] && Segments.Total(Cost(tokens), current) + Cost(tokens)(rest[0]) > limit then
      var full := Whole(current);
      [TurnSegment(current, if full.start == 0 then rest[0].start else full.start,
                   if full.end == 0 then rest[0].end else full.end)]
      + Grouped(tokens, limit, [rest[0]], rest[1..])
    else Grouped(tokens, limit, current + [rest[0]], rest[1..])
  }

  /** The segment of the given turns, from the first event to the last. */
  function Whole(turns: seq<Turn>): TurnSegment
    requires turns != []
  {
    TurnSegment(turns, turns[0].start, turns[|turns| - 1].end)
  }

  method SegmentMessages(records: seq<Record>, tokens: string -> nat, limit: nat) returns (segments: seq<TurnSegment>)
    ensures segments == Grouped(tokens, limit, [], Turns(records))
  {
    var turns: seq<(Turn, nat)>, pendingUser: Option<Record> := [], None;
    ghost var found: seq<Turn> := [];
    for k := 0 to |records|
      invariant pendingUser.Some? ==> IsUser(pendingUser.value)
      invariant found + TurnsFrom(pendingUser, records[k..]) == Turns(records)
      invariant |turns| == |found| && forall n :: 0 <= n < |turns| ==> turns[n] == (found[n], Cost(tokens)(found[n]))
    {
      var record := records[k];
      assert records[k..][1..] == records[k + 1..];
      if record.event.None? { continue; }
      if record.role == "user" {
        pendingUser := Some(record);
      } else if record.role == "assistant" && pendingUser.Some? {
        var user := pendingUser.value;
        var tokenCount := tokens(user.content) + tokens(record.content);
        var turn := Turn(user.content, record.content, user.event.value, record.event.value);
        turns := turns + [(turn, tokenCount)];
        found := found + [turn];
        pendingUser := None;
      }
    }
    assert found == Turns(records);
    segments := Group(turns, found, tokens, limit);
  }

  method Group(turns: seq<(Turn, nat)>, ghost found: seq<Turn>, tokens: string -> nat, limit: nat)
    returns (segments: seq<TurnSegment>)
    requires |turns| == |found| && forall n :: 0 <= n < |turns| ==> turns[n] == (found[n], Cost(tokens)(found[n]))
    ensures segments == Grouped(tokens, limit, [], found)
  {
    hide Grouped, Cost, Segments.Total;
    NothingGrouped(tokens, limit);
    segments := [];
    var current: seq<Turn>, currentStart: Option<int>, currentEnd: Option<int>, currentTokens := [], None, None, 0;
    for k := 0 to |turns|
      invariant current == [] <==> currentStart.None?
      invariant current != [] ==>
                  currentStart == Some(current[0].start) && currentEnd == Some(current[|current| - 1].end)
      invariant currentTokens == Segments.Total(Cost(tokens), current)
      invariant segments + Grouped(tokens, limit, current, found[k..]) == Grouped(tokens, limit, [], found)
    {
      var (turn, turnTokens) := turns[k];
      GroupStep(tokens, limit, current, found, k);
      if current != [] && currentTokens + turnTokens > limit {
        ghost var more := Grouped(tokens, limit, [turn], found[k + 1..]);
        ghost var full := TurnSegment(current, OrElse(currentStart, turn.start), OrElse(currentEnd, turn.end));
        assert segments + ([full] + more) == (segments + [full]) + more;
        segments := segments + [TurnSegment(current, OrElse(currentStart, turn.start), OrElse(currentEnd, turn.end))];
        assert [] + [turn] == [turn];
        current, currentStart, currentTokens := [], None, 0;
      }
      if currentStart.None? { currentStart := Some(turn.start); }
      Segments.TotalAppend(Cost(tokens), current, turn);
      current, currentEnd, currentTokens := current + [turn], Some(turn.end), currentTokens + turnTokens;
    }
    assert found[|turns|..] == [];
    GroupEnd(tokens, limit, current);
    if current != [] {
      segments := segments + [TurnSegment(current, OrElse(currentStart, 0), OrElse(currentEnd, 0))];
    } else {
      assert segments + [] == segments;
    }
  }

  lemma GroupStep(tokens: string -> nat, limit: nat, current: seq<Turn>, found: seq<Turn>, k: nat)
    requires k < |found|
    ensures Grouped(tokens, limit, current, found[k..]) ==
            if current != [] && Segments.Total(Cost(tokens), current) + Cost(tokens)(found[k]) > limit
            then [TurnSegment(current, OrElse(Some(current[0].start), found[k].start),
                              OrElse(Some(current[|current| - 1].end), found[k].end))]
                 + Grouped(tokens, limit, [found[k]], found[k + 1..])
            else Grouped(tokens, limit, current + [found[k]], found[k + 1..])
  {
    hide Segments.Total;
    assert found[k..][1..] == found[k + 1..];
  }

  lemma GroupEnd(tokens: string -> nat, limit: nat, current: seq<Turn>)
    ensures Grouped(tokens, limit, current, []) ==
            if current == [] then []
            else [TurnSegment(current, OrElse(Some(current[0].start), 0), OrElse(Some(current[|current| - 1].end), 0))]
  {}

  lemma NothingGrouped(tokens: string -> nat, limit: nat)
    ensures Segments.Total(Cost(tokens), []) == 0
  {}

  /** `x or y` for an optional id. */
  function OrElse(x: Option<int>, y: int): int {
    if x.None? || x.value == 0 then y else x.value
  }

  // ---- What the segments cover ----

  /** With positive event ids the segments are those of the greedy loop, each ranging from its first
      event to its last. */
  lemma {:induction false} GroupedIsFill(tokens: string -> nat, limit: nat, current: seq<Turn>, rest: seq<Turn>)
    requires forall t :: t in current || t in rest ==> t.start > 0 && t.end > 0
    ensures var segments, fill := Grouped(tokens, limit, current, rest),
                                  Segments.Fill(Cost(tokens), limit, current, rest);
            && |segments| == |fill|
            && forall k :: 0 <= k < |fill| ==> fill[k] != [] && segments[k] == Whole(fill[k])
    decreases |rest|
  {
    hide Segments.Total, Cost, Grouped, Segments.Fill;
    if rest == [] {
      FilledUp(tokens, limit, current);
    } else {
      FillOne(tokens, limit, current, rest);
      GroupedIsFill(tokens, limit, [rest[0]], rest[1..]);
      GroupedIsFill(tokens, limit, current + [rest[0]], rest[1..]);
    }
  }

  lemma FilledUp(tokens: string -> nat, limit: nat, current: seq<Turn>)
    ensures Grouped(tokens, limit, current, []) == if current == [] then [] else [Whole(current)]
    ensures Segments.Fill(Cost(tokens), limit, current, []) == if current == [] then [] else [current]
  {}

  /** Both go on in the same way with the next turn. */
  lemma FillOne(tokens: string -> nat, limit: nat, current: seq<Turn>, rest: seq<Turn>)
    requires rest != [] && forall t :: t in current || t in rest ==> t.start > 0 && t.end > 0
    ensures var segments, fill := Grouped(tokens, limit, current, rest),
                                  Segments.Fill(Cost(tokens), limit, current, rest);
            if current != [] && Segments.Total(Cost(tokens), current) + Cost(tokens)(rest[0]) > limit
            then && segments == [Whole(current)] + Grouped(tokens, limit, [rest[0]], rest[1..])
                 && fill == [current] + Segments.Fill(Cost(tokens), limit, [rest[0]], rest[1..])
            else && segments == Grouped(tokens, limit, current + [rest[0]], rest[1..])
                 && fill == Segments.Fill(Cost(tokens), limit, current + [rest[0]], rest[1..])
  {
    hide Segments.Total, Cost;
    if current != [] { assert current[0] in current && current[|current| - 1] in current; }
  }

  /** The turns of all segments, in order. */
  function AllTurns(segments: seq<TurnSegment>): seq<Turn> {
    if segments == [] then [] else segments[0].turns + AllTurns(segments[1..])
  }

  /** No turn is lost, added or moved. */
  lemma {:induction false} GroupedKeepsTurns(tokens: string -> nat, limit: nat, current: seq<Turn>, rest: seq<Turn>)
    ensures AllTurns(Grouped(tokens, limit, current, rest)) == current + rest
    ensures Grouped(tokens, limit, current, rest) == [] <==> current + rest == []
    decreases |rest|
  {
    if rest == [] {
      if current != [] {
        assert [Whole(current)][1..] == [];
      }
    } else {
      var flushed := Grouped(tokens, limit, [rest[0]], rest[1..]);
      GroupedKeepsTurns(tokens, limit, [rest[0]], rest[1..]);
      GroupedKeepsTurns(tokens, limit, current + [rest[0]], rest[1..]);
      assert [rest[0]] + rest[1..] == rest;
      assert current + [rest[0]] + rest[1..] == current + rest;
      var segments := Grouped(tokens, limit, current, rest);
      if current != [] && Segments.Total(Cost(tokens), current) + Cost(tokens)(rest[0]) > limit {
        assert segments[1..] == flushed;
      }
    }
  }

  /** The ranges of the segments are disjoint and increase within (low, high], and each is the range
      of its whole turns. */
  ghost predicate RangesWithin(segments: seq<TurnSegment>, low: int, high: int) {
    && (forall k :: 0 <= k < |segments| ==> segments[k].turns != [] && segments[k] == Whole(segments[k].turns))
    && (forall k :: 0 <= k < |segments| ==> low < segments[k].start < segments[k].end <= high)
    && (forall k, l :: 0 <= k < l < |segments| ==> segments[k].end < segments[l].start)
  }

  lemma {:induction false} GroupedRanges(tokens: string -> nat, limit: nat, current: seq<Turn>, rest: seq<Turn>,
                                         low: int, high: int)
    requires TurnsWithin(current + rest, low, high) && 0 <= low
    ensures RangesWithin(Grouped(tokens, limit, current, rest), low, high)
    decreases |rest|
  {
    hide RangesWithin, TurnsWithin, Cost;
    SplitTurns(current, rest, low, high);
    if rest == [] {
      NoRanges(low, high);
      if current != [] {
        NoRanges(current[|current| - 1].end, high);
        RangesCons(current, [], low, high);
        assert [Whole(current)] + [] == [Whole(current)];
      }
    } else if current != [] && Segments.Total(Cost(tokens), current) + Cost(tokens)(rest[0]) > limit {
      assert [rest[0]] + rest[1..] == rest;
      GroupedRanges(tokens, limit, [rest[0]], rest[1..], current[|current| - 1].end, high);
      RangesCons(current, Grouped(tokens, limit, [rest[0]], rest[1..]), low, high);
    } else {
      assert current + [rest[0]] + rest[1..] == current + rest;
      GroupedRanges(tokens, limit, current + [rest[0]], rest[1..], low, high);
    }
  }

  lemma SplitTurns(current: seq<Turn>, rest: seq<Turn>, low: int, high: int)
    requires TurnsWithin(current + rest, low, high)
    ensures TurnsWithin(current, low, high)
    ensures current != [] ==>
              low < current[0].start < current[|current| - 1].end && TurnsWithin(rest, current[|current| - 1].end, high)
  {
    var all := current + rest;
    assert forall i :: 0 <= i < |current| ==> all[i] == current[i];
    assert forall i :: 0 <= i < |rest| ==> all[|current| + i] == rest[i];
  }

  lemma NoRanges(low: int, high: int)
    ensures RangesWithin([], low, high)
  {}

  lemma RangesCons(current: seq<Turn>, segments: seq<TurnSegment>, low: int, high: int)
    requires TurnsWithin(current, low, high) && current != [] ==>
               RangesWithin(segments, current[|current| - 1].end, high)
    ensures TurnsWithin(current, low, high) && current != [] ==> RangesWithin([Whole(current)] + segments, low, high)
  {
    if TurnsWithin(current, low, high) && current != [] {
      var all := [Whole(current)] + segments;
      forall k | 0 <= k < |all|
        ensures all[k].turns != [] && all[k] == Whole(all[k].turns) && low < all[k].start < all[k].end <= high
      {
        if k > 0 { assert all[k] == segments[k - 1]; }
      }
      forall k, l | 0 <= k < l < |all| ensures all[k].end < all[l].start {
        assert all[l] == segments[l - 1];
        if k > 0 { assert all[k] == segments[k - 1]; }
      }
    }
  }
}
