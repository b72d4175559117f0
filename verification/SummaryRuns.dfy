/** Runs of saved messages and summary passes: what is mapped, how far the active summary reaches, and
    when a pass maps only later records (`src/axiom/memory/service.py:392-503`). */
module SummaryRuns {
  import opened Wrappers
  import opened Conversation
  import opened SummaryPasses

  // ---- What a pass takes ----

  /** The turns of a stretch are the turns of the conversation that lie in it. */
  lemma StretchTurns(conversation: seq<Record>, from: nat, to: nat, t: Turn)
    requires from <= to <= |conversation|
    ensures IsTurn(conversation[from..to], t) <==>
              exists i: nat, j: nat :: from <= i && j < to && IsTurnAt(conversation, i, j, t)
  {
    var stretch := conversation[from..to];
    if IsTurn(stretch, t) {
      var i: nat, j: nat :| IsTurnAt(stretch, i, j, t);
      forall k | from + i < k < from + j ensures !IsUser(conversation[k]) && !IsAssistant(conversation[k]) {
        assert conversation[k] == stretch[k - from];
      }
      assert IsTurnAt(conversation, from + i, from + j, t);
    }
    if i: nat, j: nat :| from <= i && j < to && IsTurnAt(conversation, i, j, t) {
      assert IsTurnAt(stretch, i - from, j - from, t);
    }
  }

  /** The covered events end with a reply. */
  lemma ReachedIsReply(t: Thread) returns (m: nat)
    requires Disjoint(t) && Reached(t.summaries) > 0
    ensures m < |t.conversation| && IsAssistant(t.conversation[m])
    ensures t.conversation[m].event.value == Reached(t.summaries)
  {
    hide TurnsWithin, Increasing, OneActive, Listed;
    var listed := Listed(t.summaries);
    WholeSegments(listed, 0, Reached(t.summaries));
    LastTurn(listed);
    var all := AllTurns(listed);
    assert all[|all| - 1] in all;
    var i: nat, j: nat :| IsTurnAt(t.conversation, i, j, all[|all| - 1]);
    m := j;
  }

  /** A turn that ends after the covered events starts after them. */
  lemma NoTurnStraddles(t: Thread, i: nat, j: nat, turn: Turn)
    requires Disjoint(t) && IsTurnAt(t.conversation, i, j, turn)
    ensures Reached(t.summaries) < turn.end ==> Reached(t.summaries) < turn.start
  {
    hide TurnsWithin, OneActive, Listed, RangesWithin, AllTurns, IsTurn;
    if Reached(t.summaries) > 0 {
      var m := ReachedIsReply(t);
      assert m < i || j <= m;
    }
  }

  /** What a pass sees as covered: nothing when it does not find the summary. */
  function Seen(t: Thread): int {
    if Visible(t.summaries) then Reached(t.summaries) else 0
  }

  /** The planned turns are those of a stretch after what the pass sees as covered. */
  lemma PlannedStretch(tokens: string -> nat, policy: SummaryPolicy, t: Thread) returns (from: nat, to: nat)
    requires Increasing(t.conversation) && OneActive(t.summaries)
    ensures from <= to <= |t.conversation| && from >= |t.conversation| - LIST_LIMIT
    ensures IsStretch(t.conversation, Seen(t), Normalized(policy).recentReserve, from, to)
    ensures Plan(tokens, policy, t) != [] ==>
              && from < to
              && Plan(tokens, policy, t) == Grouped(tokens, LimitOf(policy), [], Turns(t.conversation[from..to]))
              && AllTurns(Plan(tokens, policy, t)) == Turns(t.conversation[from..to])
  {
    hide Normalized, Increasing, OneActive, Eligible, AllTurns, Grouped, TurnsFrom;
    ActiveExact(t.summaries);
    from, to := EligibleStretch(t.conversation, Covered(t.summaries), Normalized(policy).recentReserve);
    var eligible := t.conversation[from..to];
    if Plan(tokens, policy, t) != [] {
      GroupedKeepsTurns(tokens, LimitOf(policy), [], Turns(eligible));
      assert [] + Turns(eligible) == Turns(eligible);
      TurnsOfNothing(eligible);
    }
  }

  /** The turn at positions `i` and `j` of the conversation lies among the newest 1000 records and before the
      reserved ones. */
  ghost predicate RecentAt(policy: SummaryPolicy, t: Thread, i: nat, j: nat, turn: Turn) {
    && i >= |t.conversation| - LIST_LIMIT && j < |t.conversation| - Normalized(policy).recentReserve
    && IsTurnAt(t.conversation, i, j, turn)
  }

  /** Besides, it is already covered. */
  ghost predicate CoveredAt(policy: SummaryPolicy, t: Thread, i: nat, j: nat, turn: Turn) {
    RecentAt(policy, t, i, j, turn) && turn.end <= Reached(t.summaries)
  }

  ghost predicate CoversRecent(policy: SummaryPolicy, t: Thread) {
    exists i: nat, j: nat, turn :: CoveredAt(policy, t, i, j, turn)
  }

  /** The pass finds the active summary, or there is nothing covered that it could take again. */
  ghost predicate GoesOn(policy: SummaryPolicy, t: Thread) {
    Visible(t.summaries) || !CoversRecent(policy, t)
  }

  ghost predicate MapsOnlyLater(tokens: string -> nat, policy: SummaryPolicy, t: Thread) {
    forall turn :: turn in AllTurns(Plan(tokens, policy, t)) ==> Reached(t.summaries) < turn.start
  }

  /** A pass maps only turns after the covered events if and only if it finds the active summary or no covered
      turn lies in what it takes. */
  lemma MapsOnlyLaterExactly(tokens: string -> nat, policy: SummaryPolicy, t: Thread)
    requires Disjoint(t) && Plan(tokens, policy, t) != []
    ensures MapsOnlyLater(tokens, policy, t) <==> GoesOn(policy, t)
  {
    hide Disjoint, Plan, AllTurns, Visible, IsStretch, Normalized, RecentAt, TurnsFrom;
    DisjointParts(t);
    var from, to := PlannedStretch(tokens, policy, t);
    forall turn | turn in Turns(t.conversation[from..to]) && GoesOn(policy, t)
      ensures Reached(t.summaries) < turn.start
    {
      TakenIsLater(policy, t, from, to, turn);
    }
    if !Visible(t.summaries) && CoversRecent(policy, t) {
      var i: nat, j: nat, turn :| CoveredAt(policy, t, i, j, turn);
      RecentIsTaken(policy, t, from, to, i, j, turn);
    }
  }

  lemma DisjointParts(t: Thread)
    requires Disjoint(t)
    ensures Increasing(t.conversation) && OneActive(t.summaries) && Reached(t.summaries) >= 0
    ensures RangesWithin(Listed(t.summaries), 0, Reached(t.summaries))
    ensures TurnsWithin(AllTurns(Listed(t.summaries)), 0, Reached(t.summaries))
    ensures Reached(t.summaries) > 0 ==>
              Listed(t.summaries) != [] && Reached(t.summaries) == Listed(t.summaries)[|Listed(t.summaries)| - 1].end
  {}

  lemma TakenIsLater(policy: SummaryPolicy, t: Thread, from: nat, to: nat, turn: Turn)
    requires Disjoint(t) && GoesOn(policy, t) && from < to && from >= |t.conversation| - LIST_LIMIT
    requires IsStretch(t.conversation, Seen(t), Normalized(policy).recentReserve, from, to)
    requires turn in Turns(t.conversation[from..to])
    ensures Reached(t.summaries) < turn.start
  {
    hide TurnsFrom, Normalized, Disjoint, Visible;
    NormalReserve(policy);
    TurnsExact(t.conversation[from..to], turn);
    StretchTurns(t.conversation, from, to, turn);
    var i: nat, j: nat :| from <= i && j < to && IsTurnAt(t.conversation, i, j, turn);
    if !Visible(t.summaries) {
      assert !CoveredAt(policy, t, i, j, turn);
      NoTurnStraddles(t, i, j, turn);
    }
  }

  /** A pass that sees nothing takes every such turn. */
  lemma RecentIsTaken(policy: SummaryPolicy, t: Thread, from: nat, to: nat, i: nat, j: nat, turn: Turn)
    requires Increasing(t.conversation) && !Visible(t.summaries) && from < to
    requires IsStretch(t.conversation, Seen(t), Normalized(policy).recentReserve, from, to)
    requires RecentAt(policy, t, i, j, turn)
    ensures turn in Turns(t.conversation[from..to]) && turn.start < turn.end
  {
    hide TurnsFrom, Normalized, Visible;
    NormalReserve(policy);
    assert from <= i && j < to;
    StretchTurns(t.conversation, from, to, turn);
    TurnsExact(t.conversation[from..to], turn);
  }

  lemma NormalReserve(policy: SummaryPolicy)
    ensures Normalized(policy).recentReserve >= 0
  {}

  /** The planned segments of a pass that goes on lie after everything reached so far. */
  lemma PlannedRanges(tokens: string -> nat, policy: SummaryPolicy, t: Thread) returns (from: nat, to: nat, high: int)
    requires Disjoint(t) && GoesOn(policy, t) && Plan(tokens, policy, t) != []
    ensures from < to <= |t.conversation| && from >= |t.conversation| - LIST_LIMIT
    ensures IsStretch(t.conversation, Seen(t), Normalized(policy).recentReserve, from, to)
    ensures high == t.conversation[to - 1].event.value
    ensures AllTurns(Plan(tokens, policy, t)) == Turns(t.conversation[from..to])
    ensures var segments, reached := Plan(tokens, policy, t), Reached(t.summaries);
            RangesWithin(segments, reached, high) && TurnsWithin(AllTurns(segments), reached, high)
  {
    hide Disjoint, Normalized, Increasing, Visible, TurnsWithin, RangesWithin, AllTurns, Grouped, TurnsFrom, Plan,
         IsStretch, GoesOn;
    DisjointParts(t);
    from, to := PlannedStretch(tokens, policy, t);
    var turns := Turns(t.conversation[from..to]);
    high := t.conversation[to - 1].event.value;
    SeenIsAtLeast(t);
    StretchBounds(t.conversation, Seen(t), Normalized(policy).recentReserve, from, to);
    TurnsIncrease(None, t.conversation[from..to], Seen(t), high);
    MapsOnlyLaterExactly(tokens, policy, t);
    LaterTurns(turns, Seen(t), Reached(t.summaries), high);
    assert [] + turns == turns;
    GroupedRanges(tokens, LimitOf(policy), [], turns, Reached(t.summaries), high);
  }

  lemma SeenIsAtLeast(t: Thread)
    requires Reached(t.summaries) >= 0
    ensures Seen(t) >= 0
  {}

  lemma LaterTurns(turns: seq<Turn>, low: int, mid: int, high: int)
    requires TurnsWithin(turns, low, high) && forall turn :: turn in turns ==> mid < turn.start
    ensures TurnsWithin(turns, mid, high)
  {}

  function LimitOf(policy: SummaryPolicy): nat {
    Normalized(policy).mapChunkTokens
  }

  lemma TurnsOfNothing(rs: seq<Record>)
    ensures rs == [] ==> Turns(rs) == []
  {}

  lemma StretchBounds(conversation: seq<Record>, covered: int, reserve: int, from: nat, to: nat)
    requires Increasing(conversation) && IsStretch(conversation, covered, reserve, from, to) && from < to
    ensures Increasing(conversation[from..to])
    ensures forall i :: 0 <= i < to - from ==>
              covered < conversation[from..to][i].event.value <= conversation[to - 1].event.value
  {}

  lemma {:induction false} LastTurn(segments: seq<TurnSegment>)
    requires segments != [] && forall k :: 0 <= k < |segments| ==>
               segments[k].turns != [] && segments[k] == Whole(segments[k].turns)
    ensures var all := AllTurns(segments); all != [] && all[|all| - 1].end == segments[|segments| - 1].end
  {
    if |segments| > 1 {
      LastTurn(segments[1..]);
    } else {
      assert segments[1..] == [];
    }
  }

  /** Segments of a later stretch extend the earlier ones. */
  lemma RangesJoin(xs: seq<TurnSegment>, ys: seq<TurnSegment>, mid: int, high: int)
    requires RangesWithin(xs, 0, mid) && RangesWithin(ys, mid, high) && ys != [] && mid >= 0
    ensures RangesWithin(xs + ys, 0, ys[|ys| - 1].end) && mid < ys[|ys| - 1].end <= high
  {
    assert forall k :: 0 <= k < |ys| ==> (xs + ys)[|xs| + k] == ys[k];
    assert forall k :: 0 <= k < |ys| ==> ys[k].end <= ys[|ys| - 1].end;
  }

  lemma TurnsJoinWithin(xs: seq<Turn>, ys: seq<Turn>, mid: int, high: int)
    requires TurnsWithin(xs, 0, mid) && TurnsWithin(ys, mid, high) && ys != [] && mid >= 0
    ensures TurnsWithin(xs + ys, 0, ys[|ys| - 1].end)
  {
    assert forall k :: 0 <= k < |ys| ==> (xs + ys)[|xs| + k] == ys[k];
    assert forall k :: 0 <= k < |ys| ==> ys[k].end <= ys[|ys| - 1].end;
  }

  // ---- What a pass keeps ----

  /** A completed pass keeps the segments disjoint if and only if it goes on after the covered events; then it
      reaches further and stays before the reserved newest records. */
  lemma CompletedKeepsDisjoint(tokens: string -> nat, policy: SummaryPolicy, t: Thread, failure: Option<nat>)
    requires Disjoint(t) && Completes(tokens, policy, t, failure)
    ensures var t' := Pass(tokens, policy, t, failure);
            && (Disjoint(t') <==> GoesOn(policy, t))
            && Listed(t'.summaries) == Listed(t.summaries) + Plan(tokens, policy, t)
            && (GoesOn(policy, t) ==> Reached(t'.summaries) > Reached(t.summaries))
            && (GoesOn(policy, t) ==>
                  forall i :: 0 <= i < |t.conversation| && i >= |t.conversation| - Normalized(policy).recentReserve ==>
                    Reached(t'.summaries) < t.conversation[i].event.value)
  {
    hide Disjoint, Plan, Pass, Completes, Listed, GoesOn, Increasing, OneActive, Normalized, ReduceRow;
    DisjointParts(t);
    PassKeepsConversation(tokens, policy, t, failure);
    CompletedRows(tokens, policy, t, failure);
    MapsOnlyLaterExactly(tokens, policy, t);
    if GoesOn(policy, t) {
      GoingOnKeepsDisjoint(tokens, policy, t, failure);
    } else {
      TakingAgainOverlaps(tokens, policy, t, failure);
    }
  }

  lemma GoingOnKeepsDisjoint(tokens: string -> nat, policy: SummaryPolicy, t: Thread, failure: Option<nat>)
    requires Disjoint(t) && Completes(tokens, policy, t, failure) && GoesOn(policy, t)
    ensures var t' := Pass(tokens, policy, t, failure);
            && Disjoint(t') && Reached(t'.summaries) > Reached(t.summaries)
            && (forall i :: 0 <= i < |t.conversation| && i >= |t.conversation| - Normalized(policy).recentReserve ==>
                  Reached(t'.summaries) < t.conversation[i].event.value)
  {
    hide Plan, Pass, Completes, Listed, RangesWithin, TurnsWithin, AllTurns, GoesOn, Increasing, OneActive, IsTurn,
         Normalized,
         ReduceRow, Passes;
    var segments, listed, reached := Plan(tokens, policy, t), Listed(t.summaries), Reached(t.summaries);
    PassKeepsConversation(tokens, policy, t, failure);
    CompletedRows(tokens, policy, t, failure);
    var from, to, high := PlannedRanges(tokens, policy, t);
    WholeSegments(segments, reached, high);
    ReduceEnds(t.summaries, segments);
    RangesJoin(listed, segments, reached, high);
    LastTurn(segments);
    AllTurnsJoin(listed, segments);
    TurnsJoinWithin(AllTurns(listed), AllTurns(segments), reached, high);
    forall turn | turn in AllTurns(segments) ensures IsTurn(t.conversation, turn) {
      StretchTurn(t.conversation, from, to, turn);
    }
    ReserveIsAfter(t.conversation, Seen(t), Normalized(policy).recentReserve, from, to);
  }

  lemma ReduceEnds(rows: seq<Summary>, segments: seq<TurnSegment>)
    requires segments != []
    ensures ReduceRow(rows, segments).end == segments[|segments| - 1].end
  {}

  lemma TakingAgainOverlaps(tokens: string -> nat, policy: SummaryPolicy, t: Thread, failure: Option<nat>)
    requires Disjoint(t) && Completes(tokens, policy, t, failure) && !MapsOnlyLater(tokens, policy, t)
    ensures !Disjoint(Pass(tokens, policy, t, failure))
  {
    hide Disjoint, Plan, Pass, Completes, Listed, AllTurns, OneActive, ReduceRow, Reached, RangesWithin;
    var segments, listed := Plan(tokens, policy, t), Listed(t.summaries);
    DisjointParts(t);
    CompletedRows(tokens, policy, t, failure);
    AllTurnsJoin(listed, segments);
    if Reached(t.summaries) > 0 { LastListed(t); }
    var t' := Pass(tokens, policy, t, failure);
    if Disjoint(t') {
      DisjointParts(t');
      SecondsAreLater(AllTurns(listed), AllTurns(segments), Reached(t.summaries), Reached(t'.summaries));
    }
  }

  lemma SecondsAreLater(xs: seq<Turn>, ys: seq<Turn>, mid: int, high: int)
    requires TurnsWithin(xs + ys, 0, high) && (mid > 0 ==> xs != [] && xs[|xs| - 1].end == mid)
    ensures forall turn :: turn in ys ==> mid < turn.start
  {
    forall turn | turn in ys ensures mid < turn.start {
      var k :| 0 <= k < |ys| && ys[k] == turn;
      assert (xs + ys)[|xs| + k] == turn;
      assert mid > 0 ==> (xs + ys)[|xs| - 1] == xs[|xs| - 1];
    }
  }

  /** When something is covered, the last mapped turn ends there. */
  lemma LastListed(t: Thread)
    requires Disjoint(t) && Reached(t.summaries) > 0
    ensures var all := AllTurns(Listed(t.summaries)); all != [] && all[|all| - 1].end == Reached(t.summaries)
  {
    hide TurnsWithin, OneActive, Increasing, Listed, AllTurns, IsTurn;
    WholeSegments(Listed(t.summaries), 0, Reached(t.summaries));
    LastTurn(Listed(t.summaries));
  }

  /** A completed pass keeps the version and start of the summary right if and only if it finds the active one. */
  lemma CompletedKeepsGood(tokens: string -> nat, policy: SummaryPolicy, t: Thread, failure: Option<nat>)
    requires Good(t) && Completes(tokens, policy, t, failure)
    ensures Good(Pass(tokens, policy, t, failure)) <==> Visible(t.summaries)
  {
    hide Plan, Pass, Completes, Disjoint, Listed, Passes, ActiveSummary, Visible, OneActive, ReduceRow;
    DisjointParts(t);
    PassKeepsConversation(tokens, policy, t, failure);
    CompletedRows(tokens, policy, t, failure);
    if Visible(t.summaries) {
      CompletedKeepsDisjoint(tokens, policy, t, failure);
      ReduceIsNext(t, Plan(tokens, policy, t));
    } else {
      UnseenRestarts(t, Plan(tokens, policy, t));
    }
  }

  /** A pass that does not find the summary counts from one again. */
  lemma UnseenRestarts(t: Thread, segments: seq<TurnSegment>)
    requires OneActive(t.summaries) && !Visible(t.summaries) && segments != []
    ensures ReduceRow(t.summaries, segments).version == 1 && Passes(t.summaries) >= 1
  {
    ActiveExact(t.summaries);
    ReduceMeansPasses(t.summaries);
  }

  lemma {:induction false} ReduceMeansPasses(rows: seq<Summary>)
    ensures LastReduce(rows).Some? ==> Passes(rows) >= 1
  {
    if rows != [] { ReduceMeansPasses(rows[..|rows| - 1]); }
  }

  lemma PassKeepsConversation(tokens: string -> nat, policy: SummaryPolicy, t: Thread, failure: Option<nat>)
    ensures Pass(tokens, policy, t, failure).conversation == t.conversation
    ensures Completes(tokens, policy, t, failure) ==> Plan(tokens, policy, t) != []
  {
    hide Plan;
  }

  lemma WholeSegments(segments: seq<TurnSegment>, low: int, high: int)
    requires RangesWithin(segments, low, high)
    ensures forall k :: 0 <= k < |segments| ==> segments[k].turns != [] && segments[k] == Whole(segments[k].turns)
  {}

  lemma StretchTurn(conversation: seq<Record>, from: nat, to: nat, t: Turn)
    requires from <= to <= |conversation| && t in Turns(conversation[from..to])
    ensures IsTurn(conversation, t)
  {
    hide TurnsFrom, IsTurnAt;
    TurnsExact(conversation[from..to], t);
    StretchTurns(conversation, from, to, t);
  }

  lemma ReduceIsNext(t: Thread, segments: seq<TurnSegment>)
    requires Good(t) && Visible(t.summaries) && segments != []
    ensures var row := ReduceRow(t.summaries, segments);
            && row.version == Passes(t.summaries) + 1 && row.end == segments[|segments| - 1].end
            && row.start == (Listed(t.summaries) + segments)[0].start
  {
    hide RangesWithin, TurnsWithin, AllTurns, Increasing;
    ActiveExact(t.summaries);
    NoReduceNoPasses(t.summaries);
  }

  lemma {:induction false} NoReduceNoPasses(rows: seq<Summary>)
    ensures LastReduce(rows).None? ==> Listed(rows) == [] && Passes(rows) == 0
  {
    if rows != [] {
      NoReduceNoPasses(rows[..|rows| - 1]);
    }
  }

  lemma ReserveIsAfter(conversation: seq<Record>, covered: int, reserve: int, from: nat, to: nat)
    requires Increasing(conversation) && IsStretch(conversation, covered, reserve, from, to) && from < to
    ensures forall i :: 0 <= i < |conversation| && i >= |conversation| - reserve ==>
              conversation[to - 1].event.value < conversation[i].event.value
  {}

  /** A pass that fails, or has nothing to do, changes nothing that counts. */
  lemma AbortedKeepsGood(tokens: string -> nat, policy: SummaryPolicy, t: Thread, failure: Option<nat>)
    requires OneActive(t.summaries) && !Completes(tokens, policy, t, failure)
    ensures var t' := Pass(tokens, policy, t, failure);
            && Reached(t'.summaries) == Reached(t.summaries) && Listed(t'.summaries) == Listed(t.summaries)
            && LastReduce(t'.summaries) == LastReduce(t.summaries) && t.summaries <= t'.summaries
            && OneActive(t'.summaries)
            && (Disjoint(t) ==> Disjoint(t')) && (Good(t) ==> Good(t'))
  {
    hide Plan, Listed, Passes, ActiveSummary, RangesWithin, TurnsWithin, AllTurns, Increasing, IsTurn, NextVersion;
    var segments := Plan(tokens, policy, t);
    if segments != [] {
      LastReduceAppend(t.summaries, MapRows(segments[..failure.value], NextVersion(t.summaries)));
    }
  }

  // ---- Runs ----

  datatype Operation = Say(record: Record) | Summarize(policy: SummaryPolicy, failure: Option<nat>)

  /** A conversation row's id is made from its event id, so a second row for one event is refused. */
  function SayTo(t: Thread, r: Record): Thread {
    if exists i :: 0 <= i < |t.conversation| && t.conversation[i].event == r.event then t
    else t.(conversation := t.conversation + [r])
  }

  function Step(tokens: string -> nat, t: Thread, op: Operation): Thread {
    match op
    case Say(r) => SayTo(t, r)
    case Summarize(policy, failure) => Pass(tokens, policy, t, failure)
  }

  function Run(tokens: string -> nat, ops: seq<Operation>): Thread {
    if ops == [] then Thread([], []) else Step(tokens, Run(tokens, ops[..|ops| - 1]), ops[|ops| - 1])
  }

  function Said(ops: seq<Operation>): seq<Record> {
    if ops == [] then []
    else Said(ops[..|ops| - 1]) + if ops[|ops| - 1].Say? then [ops[|ops| - 1].record] else []
  }

  lemma {:induction false} RunSays(tokens: string -> nat, ops: seq<Operation>)
    requires Increasing(Said(ops))
    ensures Run(tokens, ops).conversation == Said(ops)
  {
    hide Increasing, Pass, SayTo;
    if ops != [] {
      var init, last := ops[..|ops| - 1], ops[|ops| - 1];
      SaidInit(ops);
      RunSays(tokens, init);
      match last {
        case Say(r) => SayAppends(Run(tokens, init), r);
        case Summarize(policy, failure) => PassKeepsConversation(tokens, policy, Run(tokens, init), failure);
      }
    }
  }

  lemma SaidInit(ops: seq<Operation>)
    requires ops != [] && Increasing(Said(ops))
    ensures Increasing(Said(ops[..|ops| - 1]))
  {
    hide Increasing;
    var before := Said(ops[..|ops| - 1]);
    assert before <= Said(ops);
    IncreasingPrefix(before, Said(ops));
  }

  lemma IncreasingPrefix(xs: seq<Record>, ys: seq<Record>)
    requires Increasing(ys) && xs <= ys
    ensures Increasing(xs)
  {}

  lemma SayAppends(t: Thread, r: Record)
    requires Increasing(t.conversation + [r])
    ensures SayTo(t, r) == Thread(t.conversation + [r], t.summaries)
  {
    var all := t.conversation + [r];
    assert all[|all| - 1] == r;
    forall i | 0 <= i < |t.conversation| ensures t.conversation[i].event != r.event {
      assert all[i] == t.conversation[i];
    }
  }

  lemma SayKeepsGood(t: Thread, r: Record)
    requires Increasing(t.conversation + [r])
    ensures SayTo(t, r) == Thread(t.conversation + [r], t.summaries)
    ensures (Disjoint(t) ==> Disjoint(SayTo(t, r))) && (Good(t) ==> Good(SayTo(t, r)))
  {
    hide Listed, Passes, RangesWithin, TurnsWithin, AllTurns, OneActive, IsTurn, SayTo;
    SayAppends(t, r);
    forall turn | IsTurn(t.conversation, turn) ensures IsTurn(t.conversation + [r], turn) {
      TurnStays(t.conversation, r, turn);
    }
  }

  lemma TurnStays(rs: seq<Record>, r: Record, t: Turn)
    requires IsTurn(rs, t)
    ensures IsTurn(rs + [r], t)
  {
    var i: nat, j: nat :| IsTurnAt(rs, i, j, t);
    assert IsTurnAt(rs + [r], i, j, t);
  }

  /** Operation `k` of the run is a pass that completes. */
  ghost predicate CompletesAt(tokens: string -> nat, ops: seq<Operation>, k: nat) {
    k < |ops| && ops[k].Summarize? && Completes(tokens, ops[k].policy, Run(tokens, ops[..k]), ops[k].failure)
  }

  /** Every pass that completes finds the active summary. */
  ghost predicate Sees(tokens: string -> nat, ops: seq<Operation>) {
    forall k: nat :: CompletesAt(tokens, ops, k) ==> Visible(Run(tokens, ops[..k]).summaries)
  }

  /** Every pass that completes goes on after the covered events. */
  ghost predicate AlwaysGoesOn(tokens: string -> nat, ops: seq<Operation>) {
    forall k: nat :: CompletesAt(tokens, ops, k) ==> GoesOn(ops[k].policy, Run(tokens, ops[..k]))
  }

  lemma {:induction false} SaidPrefix(ops: seq<Operation>, k: nat)
    requires k <= |ops| && Increasing(Said(ops))
    ensures Increasing(Said(ops[..k]))
  {
    hide Increasing;
    if k == |ops| {
      assert ops[..k] == ops;
    } else {
      SaidInit(ops);
      assert ops[..|ops| - 1][..k] == ops[..k];
      SaidPrefix(ops[..|ops| - 1], k);
    }
  }

  /** One step of a run. */
  lemma StepOf(tokens: string -> nat, ops: seq<Operation>, k: nat)
    requires k < |ops| && Increasing(Said(ops))
    ensures Run(tokens, ops[..k + 1]) == Step(tokens, Run(tokens, ops[..k]), ops[k])
    ensures Run(tokens, ops[..k]).conversation == Said(ops[..k])
    ensures ops[k].Say? ==> Increasing(Run(tokens, ops[..k]).conversation + [ops[k].record])
  {
    hide Increasing, Step;
    assert ops[..k + 1][..k] == ops[..k] && ops[..k + 1][k] == ops[k];
    SaidPrefix(ops, k + 1);
    SaidPrefix(ops, k);
    RunSays(tokens, ops[..k]);
  }

  /** A step keeps the segments disjoint unless it is a completing pass that takes covered turns again. */
  lemma StepKeepsDisjoint(tokens: string -> nat, t: Thread, op: Operation)
    requires Disjoint(t) && (op.Say? ==> Increasing(t.conversation + [op.record]))
    ensures Disjoint(Step(tokens, t, op)) <==>
            (op.Summarize? && Completes(tokens, op.policy, t, op.failure) ==> GoesOn(op.policy, t))
    ensures Listed(t.summaries) <= Listed(Step(tokens, t, op).summaries)
    ensures Disjoint(Step(tokens, t, op)) ==> Reached(t.summaries) <= Reached(Step(tokens, t, op).summaries)
  {
    hide Disjoint, Increasing, Pass, SayTo, Completes, GoesOn, Listed, Good;
    match op {
      case Say(r) => SayKeepsGood(t, r);
      case Summarize(policy, failure) =>
        DisjointParts(t);
        if Completes(tokens, policy, t, failure) {
          CompletedKeepsDisjoint(tokens, policy, t, failure);
        } else {
          AbortedKeepsGood(tokens, policy, t, failure);
        }
    }
  }

  lemma StepKeepsGood(tokens: string -> nat, t: Thread, op: Operation)
    requires Good(t) && (op.Say? ==> Increasing(t.conversation + [op.record]))
    ensures Good(Step(tokens, t, op)) <==>
            (op.Summarize? && Completes(tokens, op.policy, t, op.failure) ==> Visible(t.summaries))
  {
    hide Increasing, Pass, SayTo, Completes, Visible, Good, Disjoint;
    match op {
      case Say(r) => SayKeepsGood(t, r);
      case Summarize(policy, failure) =>
        GoodIsDisjoint(t);
        DisjointParts(t);
        if Completes(tokens, policy, t, failure) {
          CompletedKeepsGood(tokens, policy, t, failure);
        } else {
          AbortedKeepsGood(tokens, policy, t, failure);
        }
    }
  }

  lemma GoodIsDisjoint(t: Thread)
    requires Good(t)
    ensures Disjoint(t)
  {}

  /** In every run of saved messages and passes, failing ones included, the map segments of the completed
      passes keep disjoint, increasing ranges of whole turns, with one active summary that ends where they
      end, exactly as long as every completing pass goes on after the covered events. */
  lemma RunsStayDisjoint(tokens: string -> nat, ops: seq<Operation>)
    requires Increasing(Said(ops))
    ensures (forall k: nat :: k <= |ops| ==> Disjoint(Run(tokens, ops[..k]))) <==> AlwaysGoesOn(tokens, ops)
  {
    hide Disjoint, GoesOn, Increasing, Run, Step, Completes;
    if AlwaysGoesOn(tokens, ops) {
      forall k: nat | k <= |ops| ensures Disjoint(Run(tokens, ops[..k])) { GoingOnStaysDisjoint(tokens, ops, k); }
    }
    if forall k: nat :: k <= |ops| ==> Disjoint(Run(tokens, ops[..k])) {
      forall k: nat | CompletesAt(tokens, ops, k) ensures GoesOn(ops[k].policy, Run(tokens, ops[..k])) {
        StepOf(tokens, ops, k);
        StepKeepsDisjoint(tokens, Run(tokens, ops[..k]), ops[k]);
        assert Disjoint(Run(tokens, ops[..k + 1]));
      }
    }
  }

  lemma {:induction false} GoingOnStaysDisjoint(tokens: string -> nat, ops: seq<Operation>, k: nat)
    requires Increasing(Said(ops)) && AlwaysGoesOn(tokens, ops) && k <= |ops|
    ensures Disjoint(Run(tokens, ops[..k]))
  {
    hide Disjoint, GoesOn, Increasing, Step, Completes;
    if k == 0 {
      EmptyIsGood();
      assert ops[..0] == [];
    } else {
      GoingOnStaysDisjoint(tokens, ops, k - 1);
      StepOf(tokens, ops, k - 1);
      StepKeepsDisjoint(tokens, Run(tokens, ops[..k - 1]), ops[k - 1]);
      assert CompletesAt(tokens, ops, k - 1) ==> GoesOn(ops[k - 1].policy, Run(tokens, ops[..k - 1]));
    }
  }

  /** Besides, the active summary's start is the first one's and its version counts the completed passes,
      exactly as long as every completing pass finds the active summary. */
  lemma RunsStayGood(tokens: string -> nat, ops: seq<Operation>)
    requires Increasing(Said(ops))
    ensures (forall k: nat :: k <= |ops| ==> Good(Run(tokens, ops[..k]))) <==> Sees(tokens, ops)
  {
    hide Good, Visible, Increasing, Run, Step, Completes;
    if Sees(tokens, ops) {
      forall k: nat | k <= |ops| ensures Good(Run(tokens, ops[..k])) { SeeingStaysGood(tokens, ops, k); }
    }
    if forall k: nat :: k <= |ops| ==> Good(Run(tokens, ops[..k])) {
      forall k: nat | CompletesAt(tokens, ops, k) ensures Visible(Run(tokens, ops[..k]).summaries) {
        StepOf(tokens, ops, k);
        StepKeepsGood(tokens, Run(tokens, ops[..k]), ops[k]);
        assert Good(Run(tokens, ops[..k + 1]));
      }
    }
  }

  lemma {:induction false} SeeingStaysGood(tokens: string -> nat, ops: seq<Operation>, k: nat)
    requires Increasing(Said(ops)) && Sees(tokens, ops) && k <= |ops|
    ensures Good(Run(tokens, ops[..k]))
  {
    hide Good, Visible, Increasing, Step, Completes;
    if k == 0 {
      EmptyIsGood();
      assert ops[..0] == [];
    } else {
      SeeingStaysGood(tokens, ops, k - 1);
      StepOf(tokens, ops, k - 1);
      StepKeepsGood(tokens, Run(tokens, ops[..k - 1]), ops[k - 1]);
      assert CompletesAt(tokens, ops, k - 1) ==> Visible(Run(tokens, ops[..k - 1]).summaries);
    }
  }

  lemma EmptyIsGood()
    ensures Good(Thread([], [])) && Disjoint(Thread([], []))
  {}

  // ---- How far the active summary reaches ----

  /** The pass finds the active summary, or takes a turn that ends where it ends or later. */
  ghost predicate KeepsEnd(policy: SummaryPolicy, t: Thread) {
    || Visible(t.summaries)
    || exists i: nat, j: nat, turn :: RecentAt(policy, t, i, j, turn) && Reached(t.summaries) <= turn.end
  }

  /** A completed pass does not move the end back if and only if it keeps it in that sense; that needs nothing
      of what earlier passes have mapped. */
  lemma EndStaysExactly(tokens: string -> nat, policy: SummaryPolicy, t: Thread, failure: Option<nat>)
    requires Increasing(t.conversation) && OneActive(t.summaries) && Reached(t.summaries) >= 0
    requires Completes(tokens, policy, t, failure)
    ensures var end := Reached(Pass(tokens, policy, t, failure).summaries);
            end > 0 && (Reached(t.summaries) <= end <==> KeepsEnd(policy, t))
  {
    hide Normalized, Increasing, OneActive, Visible, TurnsWithin, RangesWithin, AllTurns, TurnsFrom, Plan, Pass,
         Completes, IsStretch, ReduceRow, RecentAt, IsTurnAt;
    PassKeepsConversation(tokens, policy, t, failure);
    CompletedRows(tokens, policy, t, failure);
    var segments := Plan(tokens, policy, t);
    ReduceEnds(t.summaries, segments);
    var from, to, turns := LastTaken(tokens, policy, t);
    var last := turns[|turns| - 1];
    assert last in turns;
    WithinLast(turns, Seen(t), last.end, last);
    if !Visible(t.summaries) {
      var i: nat, j: nat := RecentPlace(policy, t, from, to, last);
      forall k: nat, l: nat, turn | RecentAt(policy, t, k, l, turn) ensures turn.end <= last.end {
        RecentIsTaken(policy, t, from, to, k, l, turn);
        WithinLast(turns, Seen(t), last.end, turn);
      }
    }
  }

  /** The planned turns, whose last one ends where the last planned segment does. */
  lemma LastTaken(tokens: string -> nat, policy: SummaryPolicy, t: Thread)
    returns (from: nat, to: nat, turns: seq<Turn>)
    requires Increasing(t.conversation) && OneActive(t.summaries) && Reached(t.summaries) >= 0
    requires Plan(tokens, policy, t) != []
    ensures from < to <= |t.conversation| && turns == Turns(t.conversation[from..to]) && turns != []
    ensures IsStretch(t.conversation, Seen(t), Normalized(policy).recentReserve, from, to)
    ensures from >= |t.conversation| - LIST_LIMIT
    ensures var segments := Plan(tokens, policy, t); segments[|segments| - 1].end == turns[|turns| - 1].end
    ensures TurnsWithin(turns, Seen(t), turns[|turns| - 1].end) && Seen(t) >= 0
  {
    hide Normalized, Increasing, OneActive, Visible, TurnsWithin, RangesWithin, AllTurns, TurnsFrom, Plan, IsStretch,
         Grouped;
    from, to := PlannedStretch(tokens, policy, t);
    turns := Turns(t.conversation[from..to]);
    HasEvent(t.conversation, to - 1);
    var high := t.conversation[to - 1].event.value;
    SeenIsAtLeast(t);
    StretchBounds(t.conversation, Seen(t), Normalized(policy).recentReserve, from, to);
    TurnsIncrease(None, t.conversation[from..to], Seen(t), high);
    assert [] + turns == turns;
    GroupedRanges(tokens, LimitOf(policy), [], turns, Seen(t), high);
    WholeSegments(Plan(tokens, policy, t), Seen(t), high);
    LastTurn(Plan(tokens, policy, t));
    UpToLast(turns, Seen(t), high);
  }

  lemma HasEvent(rs: seq<Record>, k: nat)
    requires Increasing(rs) && k < |rs|
    ensures rs[k].event.Some?
  {}

  lemma UpToLast(turns: seq<Turn>, low: int, high: int)
    requires TurnsWithin(turns, low, high) && turns != []
    ensures TurnsWithin(turns, low, turns[|turns| - 1].end)
  {}

  lemma WithinLast(turns: seq<Turn>, low: int, high: int, t: Turn)
    requires TurnsWithin(turns, low, high) && t in turns
    ensures low < t.end <= turns[|turns| - 1].end <= high
  {}

  lemma RecentPlace(policy: SummaryPolicy, t: Thread, from: nat, to: nat, turn: Turn) returns (i: nat, j: nat)
    requires from < to <= |t.conversation| && turn in Turns(t.conversation[from..to])
    requires IsStretch(t.conversation, Seen(t), Normalized(policy).recentReserve, from, to)
    requires from >= |t.conversation| - LIST_LIMIT
    ensures RecentAt(policy, t, i, j, turn)
  {
    hide TurnsFrom, Normalized, IsTurnAt;
    NormalReserve(policy);
    TurnsExact(t.conversation[from..to], turn);
    StretchTurns(t.conversation, from, to, turn);
    i, j :| from <= i && j < to && IsTurnAt(t.conversation, i, j, turn);
  }

  /** In every run the conversation is what was said, and the last reduce row is the one active row. */
  lemma {:induction false} RunIsPlain(tokens: string -> nat, ops: seq<Operation>, k: nat)
    requires Increasing(Said(ops)) && k <= |ops|
    ensures var t := Run(tokens, ops[..k]);
            Increasing(t.conversation) && OneActive(t.summaries) && Reached(t.summaries) >= 0
  {
    hide Increasing, Step, Completes, Run, OneActive, Reached;
    if k == 0 {
      EmptyIsGood();
      assert ops[..0] == [];
      EmptyRun(tokens);
    } else {
      RunIsPlain(tokens, ops, k - 1);
      StepOf(tokens, ops, k - 1);
      StepIsPlain(tokens, Run(tokens, ops[..k - 1]), ops[k - 1]);
    }
  }

  lemma EmptyRun(tokens: string -> nat)
    ensures Run(tokens, []) == Thread([], []) && Increasing([]) && OneActive([]) && Reached([]) == 0
  {}

  lemma StepIsPlain(tokens: string -> nat, t: Thread, op: Operation)
    requires Increasing(t.conversation) && OneActive(t.summaries) && Reached(t.summaries) >= 0
    requires op.Say? ==> Increasing(t.conversation + [op.record])
    ensures var t' := Step(tokens, t, op);
            && Increasing(t'.conversation) && OneActive(t'.summaries) && Reached(t'.summaries) >= 0
            && Listed(t.summaries) <= Listed(t'.summaries)
            && (Reached(t.summaries) <= Reached(t'.summaries) <==>
                (op.Summarize? && Completes(tokens, op.policy, t, op.failure) ==> KeepsEnd(op.policy, t)))
  {
    hide Increasing, Pass, SayTo, Completes, OneActive, Reached, Listed, KeepsEnd;
    match op {
      case Say(r) => SayAppends(t, r);
      case Summarize(policy, failure) =>
        PassKeepsConversation(tokens, policy, t, failure);
        if Completes(tokens, policy, t, failure) {
          CompletedRows(tokens, policy, t, failure);
          EndStaysExactly(tokens, policy, t, failure);
        } else {
          AbortedKeepsGood(tokens, policy, t, failure);
        }
    }
  }

  /** In every run mapped segments stay; and the active summary's end never moves back if and only if every
      completing pass keeps it. */
  lemma CoverageOnlyGrows(tokens: string -> nat, ops: seq<Operation>)
    requires Increasing(Said(ops))
    ensures forall k: nat :: k < |ops| ==>
              Listed(Run(tokens, ops[..k]).summaries) <= Listed(Run(tokens, ops[..k + 1]).summaries)
    ensures (forall k: nat :: k < |ops| ==> EndGrowsAt(tokens, ops, k)) <==>
            (forall k: nat :: CompletesAt(tokens, ops, k) ==> KeepsEnd(ops[k].policy, Run(tokens, ops[..k])))
  {
    hide Increasing, Step, Completes, Run, OneActive, Reached, Listed, KeepsEnd;
    forall k: nat | k < |ops|
      ensures Listed(Run(tokens, ops[..k]).summaries) <= Listed(Run(tokens, ops[..k + 1]).summaries)
      ensures EndGrowsAt(tokens, ops, k) <==>
                (CompletesAt(tokens, ops, k) ==> KeepsEnd(ops[k].policy, Run(tokens, ops[..k])))
    {
      RunIsPlain(tokens, ops, k);
      StepOf(tokens, ops, k);
      StepIsPlain(tokens, Run(tokens, ops[..k]), ops[k]);
    }
  }

  ghost predicate EndGrowsAt(tokens: string -> nat, ops: seq<Operation>, k: nat)
    requires k < |ops|
  {
    Reached(Run(tokens, ops[..k]).summaries) <= Reached(Run(tokens, ops[..k + 1]).summaries)
  }

  /** When no pass fails, every pass sees the active summary: it is the newest row. */
  lemma UnfailingRunsSee(tokens: string -> nat, ops: seq<Operation>)
    requires forall k :: 0 <= k < |ops| && ops[k].Summarize? ==> ops[k].failure.None?
    ensures Sees(tokens, ops)
    ensures forall k: nat :: k <= |ops| ==> NewestIsActive(Run(tokens, ops[..k]).summaries)
  {
    hide Run, NewestIsActive, CompletesAt;
    forall k: nat | k <= |ops|
      ensures NewestIsActive(Run(tokens, ops[..k]).summaries) && Visible(Run(tokens, ops[..k]).summaries)
    {
      UnfailingRun(tokens, ops[..k]);
      NewestIsVisible(Run(tokens, ops[..k]).summaries);
    }
    forall k: nat | CompletesAt(tokens, ops, k) ensures k < |ops| { InRun(tokens, ops, k); }
  }

  lemma InRun(tokens: string -> nat, ops: seq<Operation>, k: nat)
    requires CompletesAt(tokens, ops, k)
    ensures k < |ops|
  {}

  ghost predicate NewestIsActive(rows: seq<Summary>) {
    OneActive(rows) && (rows != [] ==> LastReduce(rows) == Some(|rows| - 1))
  }

  lemma NewestIsVisible(rows: seq<Summary>)
    requires NewestIsActive(rows)
    ensures Visible(rows)
  {}

  lemma {:induction false} UnfailingRun(tokens: string -> nat, ops: seq<Operation>)
    requires forall k :: 0 <= k < |ops| && ops[k].Summarize? ==> ops[k].failure.None?
    ensures NewestIsActive(Run(tokens, ops).summaries)
  {
    hide NewestIsActive, Step;
    if ops == [] {
      NoRows();
    } else {
      UnfailingRun(tokens, ops[..|ops| - 1]);
      UnfailingStep(tokens, Run(tokens, ops[..|ops| - 1]), ops[|ops| - 1]);
    }
  }

  lemma UnfailingStep(tokens: string -> nat, t: Thread, op: Operation)
    requires NewestIsActive(t.summaries) && (op.Summarize? ==> op.failure.None?)
    ensures NewestIsActive(Step(tokens, t, op).summaries)
  {
    hide Plan, ReduceRow, LastReduce, OneActive, Listed, Passes;
    if op.Summarize? && Completes(tokens, op.policy, t, op.failure) {
      CompletedRows(tokens, op.policy, t, op.failure);
    }
  }

  lemma NoRows()
    ensures NewestIsActive([])
  {}
}
