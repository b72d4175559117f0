/** When a summary pass writes a summary, and what it writes, told from the records and rows alone
    (`src/axiom/memory/service.py:392-503`). */
module SummaryConditions {
  import opened Wrappers
  import opened Ordering
  import opened Conversation
  import opened SummaryPasses
  import opened SummaryRuns
  import Segments

  // ---- The conditions ----

  /** The places, among the newest 1000 records, of those after the end of every active row that is among the
      newest 100 rows. */
  ghost function OpenPlaces(t: Thread): set<int>
    requires forall r :: r in t.conversation ==> r.event.Some?
  {
    set i | 0 <= i < |t.conversation| && i >= |t.conversation| - 1000
            && forall k :: 0 <= k < |t.summaries| && k >= |t.summaries| - 100 && t.summaries[k].active ==>
                 t.conversation[i].event.value > t.summaries[k].end
  }

  /** A user message at `i` and the first reply after it at `j`, with no other user message in between. */
  ghost predicate IsExchange(rs: seq<Record>, i: int, j: int) {
    && 0 <= i < j < |rs| && rs[i].role == "user" && rs[j].role == "assistant"
    && forall k :: i < k < j ==> rs[k].role != "user" && rs[k].role != "assistant"
  }

  /** The numbers of records kept back, needed in all, and needed for one pass. */
  ghost function Reserve(policy: SummaryPolicy): int {
    if policy.recentReserve < 0 then 0 else if policy.recentReserve > 20 then 20 else policy.recentReserve
  }

  ghost function Threshold(policy: SummaryPolicy): int {
    if policy.thresholdMessages < 2 then 2 else if policy.thresholdMessages > 200 then 200 else policy.thresholdMessages
  }

  ghost function Minimum(policy: SummaryPolicy): int {
    if policy.minimumUnsummarized < 2 then 2
    else if policy.minimumUnsummarized > 100 then 100 else policy.minimumUnsummarized
  }

  ghost function Chunk(policy: SummaryPolicy): int {
    if policy.mapChunkTokens < 50 then 50 else if policy.mapChunkTokens > 4000 then 4000 else policy.mapChunkTokens
  }

  /** An exchange that starts at an open place and ends before the reserved newest records. */
  ghost predicate IsDue(policy: SummaryPolicy, t: Thread, i: int, j: int)
    requires forall r :: r in t.conversation ==> r.event.Some?
  {
    i in OpenPlaces(t) && j < |t.conversation| - Reserve(policy) && IsExchange(t.conversation, i, j)
  }

  /** Summaries are enabled, the thread is long enough, enough records are open, and an exchange is due. */
  ghost predicate HasToSummarize(policy: SummaryPolicy, t: Thread)
    requires forall r :: r in t.conversation ==> r.event.Some?
  {
    && policy.enabled
    && (if |t.conversation| < 1000 then |t.conversation| else 1000) >= Threshold(policy)
    && |OpenPlaces(t)| - Reserve(policy) >= Minimum(policy)
    && exists i, j :: IsDue(policy, t, i, j)
  }

  lemma Clamps(policy: SummaryPolicy)
    ensures Normalized(policy) == SummaryPolicy(policy.enabled, Threshold(policy), Chunk(policy), Minimum(policy),
                                                Reserve(policy))
  {}

  lemma {:induction false} CardOfInterval(a: int, b: int, s: set<int>)
    requires a <= b && forall i :: i in s <==> a <= i < b
    ensures |s| == b - a
    decreases b - a
  {
    if a == b {
      assert forall i :: i !in s;
      assert s == {};
    } else {
      CardOfInterval(a, b - 1, s - {b - 1});
      assert s == (s - {b - 1}) + {b - 1};
    }
  }

  lemma SeenRows(rows: seq<Summary>, event: int)
    requires OneActive(rows) && event > 0
    ensures (forall k :: 0 <= k < |rows| && k >= |rows| - 100 && rows[k].active ==> event > rows[k].end) <==>
              match Covered(rows) case None => true case Some(end) => event > end
  {
    hide BestReduce;
    ActiveExact(rows);
  }

  /** The open places are those from the start of the stretch that a pass takes. */
  lemma OpenIsStretch(t: Thread, reserve: int) returns (from: nat, to: nat)
    requires Increasing(t.conversation) && OneActive(t.summaries)
    ensures from <= to <= |t.conversation| && from >= |t.conversation| - 1000
    ensures forall i :: i in OpenPlaces(t) <==> from <= i < |t.conversation|
    ensures to == if reserve <= 0 then |t.conversation|
                  else if |t.conversation| - from > reserve then |t.conversation| - reserve else from
    ensures Eligible(t.conversation, Covered(t.summaries), reserve) == t.conversation[from..to]
  {
    hide Eligible, OneActive, ActiveSummary;
    from, to := EligibleStretch(t.conversation, Covered(t.summaries), reserve);
    assert from == to || to == if reserve <= 0 then |t.conversation| else |t.conversation| - reserve;
    forall i | 0 <= i < |t.conversation| { SeenRows(t.summaries, t.conversation[i].event.value); }
  }

  /** The turn of the exchange at `i` and `j`. */
  ghost predicate IsTurnOf(rs: seq<Record>, i: int, j: int, turn: Turn)
    requires 0 <= i < |rs| && 0 <= j < |rs| && rs[i].event.Some? && rs[j].event.Some?
  {
    && turn.user == rs[i].content && turn.start == rs[i].event.value
    && turn.assistant == rs[j].content && turn.end == rs[j].event.value
  }

  lemma TurnIsExchange(rs: seq<Record>, i: nat, j: nat, turn: Turn)
    requires forall k :: 0 <= k < |rs| ==> rs[k].event.Some?
    ensures IsTurnAt(rs, i, j, turn) <==> IsExchange(rs, i, j) && IsTurnOf(rs, i, j, turn)
  {}

  /** A due exchange and its turn. */
  ghost predicate IsDueTurn(policy: SummaryPolicy, t: Thread, turn: Turn)
    requires forall r :: r in t.conversation ==> r.event.Some?
  {
    exists i, j :: IsDue(policy, t, i, j) && IsTurnOf(t.conversation, i, j, turn)
  }

  lemma TurnsAreDue(policy: SummaryPolicy, t: Thread, from: nat, to: nat, turn: Turn)
    requires Increasing(t.conversation) && from <= to <= |t.conversation|
    requires forall i :: i in OpenPlaces(t) <==> from <= i < |t.conversation|
    requires from < to ==> to == |t.conversation| - Reserve(policy)
    requires from == to ==> |t.conversation| - from <= Reserve(policy)
    ensures turn in Turns(t.conversation[from..to]) <==> IsDueTurn(policy, t, turn)
  {
    hide TurnsFrom, IsTurnAt, IsTurnOf, Reserve, OpenPlaces, Increasing;
    assert forall k :: 0 <= k < |t.conversation| ==> t.conversation[k].event.Some? by { EventsThere(t.conversation); }
    TurnsExact(t.conversation[from..to], turn);
    StretchTurns(t.conversation, from, to, turn);
    if turn in Turns(t.conversation[from..to]) {
      var i: nat, j: nat :| from <= i && j < to && IsTurnAt(t.conversation, i, j, turn);
      TurnIsExchange(t.conversation, i, j, turn);
      assert IsDue(policy, t, i, j);
    }
    if IsDueTurn(policy, t, turn) {
      var i, j :| IsDue(policy, t, i, j) && IsTurnOf(t.conversation, i, j, turn);
      TurnIsExchange(t.conversation, i, j, turn);
    }
  }

  lemma EventsThere(rs: seq<Record>)
    requires Increasing(rs)
    ensures forall k :: 0 <= k < |rs| ==> rs[k].event.Some? && rs[k].event.value > 0
  {}

  /** A pass has something to map if and only if the thread has to be summarized; it maps the due turns. */
  lemma PlansExactly(tokens: string -> nat, policy: SummaryPolicy, t: Thread)
    requires Increasing(t.conversation) && OneActive(t.summaries)
    ensures Plan(tokens, policy, t) != [] <==> HasToSummarize(policy, t)
    ensures Plan(tokens, policy, t) != [] ==>
              && Chunk(policy) >= 0
              && exists turns ::
                   && Plan(tokens, policy, t) == Grouped(tokens, Chunk(policy), [], turns)
                   && (forall turn :: turn in turns <==> IsDueTurn(policy, t, turn))
                   && exists high :: TurnsWithin(turns, 0, high)
  {
    hide Eligible, Grouped, TurnsFrom, OneActive, IsDueTurn, TurnsWithin;
    Clamps(policy);
    var from, to := OpenIsStretch(t, Reserve(policy));
    var turns := Turns(t.conversation[from..to]);
    CardOfInterval(from, |t.conversation|, OpenPlaces(t));
    forall turn { TurnsAreDue(policy, t, from, to, turn); }
    GroupedKeepsTurns(tokens, Chunk(policy), [], turns);
    assert [] + turns == turns;
    SomeDue(policy, t, turns);
    StretchIncreases(t.conversation, from, to);
  }

  lemma SomeDue(policy: SummaryPolicy, t: Thread, turns: seq<Turn>)
    requires Increasing(t.conversation) && forall turn :: turn in turns <==> IsDueTurn(policy, t, turn)
    ensures turns != [] <==> exists i, j :: IsDue(policy, t, i, j)
  {
    hide OpenPlaces;
    if turns != [] { assert turns[0] in turns; }
    if i, j :| IsDue(policy, t, i, j) {
      var user, reply := t.conversation[i], t.conversation[j];
      assert IsDueTurn(policy, t, Turn(user.content, reply.content, user.event.value, reply.event.value));
    }
  }

  lemma StretchIncreases(rs: seq<Record>, from: nat, to: nat)
    requires Increasing(rs) && from <= to <= |rs|
    ensures exists high :: TurnsWithin(Turns(rs[from..to]), 0, high)
  {
    hide TurnsFrom, TurnsWithin;
    var stretch := rs[from..to];
    assert Increasing(stretch);
    var high := if to > from then rs[to - 1].event.value else 0;
    assert forall i :: 0 <= i < |stretch| ==> 0 < stretch[i].event.value <= high;
    TurnsIncrease(None, stretch, 0, high);
    assert TurnsWithin(Turns(stretch), 0, high);
  }

  // ---- What is written ----

  /** The tokens of user message and reply together. */
  ghost function TokensOf(tokens: string -> nat, turns: seq<Turn>): int {
    SumOver((turn: Turn) => tokens(turn.user) + tokens(turn.assistant), turns)
  }

  /** Segments for the due turns, one behind the other; only a single turn may exceed the chunk size. */
  ghost predicate MapsDue(tokens: string -> nat, policy: SummaryPolicy, t: Thread, maps: seq<TurnSegment>)
    requires forall r :: r in t.conversation ==> r.event.Some?
  {
    && maps != []
    && (forall k :: 0 <= k < |maps| ==>
          var turns := maps[k].turns;
          && turns != [] && maps[k].start == turns[0].start && maps[k].end == turns[|turns| - 1].end
          && (|turns| == 1 || TokensOf(tokens, turns) <= Chunk(policy)))
    && (forall k, l :: 0 <= k < l < |maps| ==> maps[k].end < maps[l].start)
    && (forall turn :: InSome(maps, turn) <==> IsDueTurn(policy, t, turn))
  }

  ghost predicate InSome(maps: seq<TurnSegment>, turn: Turn) {
    exists k :: 0 <= k < |maps| && turn in maps[k].turns
  }

  lemma {:induction false} TokensAreTotal(tokens: string -> nat, turns: seq<Turn>)
    ensures Segments.Total(Cost(tokens), turns) == TokensOf(tokens, turns)
  {
    if turns != [] { TokensAreTotal(tokens, turns[..|turns| - 1]); }
  }

  lemma {:induction false} AllTurnsExact(maps: seq<TurnSegment>, turn: Turn)
    ensures turn in AllTurns(maps) <==> InSome(maps, turn)
  {
    if maps != [] {
      AllTurnsExact(maps[1..], turn);
      if InSome(maps[1..], turn) {
        var k :| 0 <= k < |maps[1..]| && turn in maps[1..][k].turns;
        assert turn in maps[k + 1].turns;
      }
      if k :| 0 <= k < |maps| && turn in maps[k].turns {
        assert k > 0 ==> turn in maps[1..][k - 1].turns;
      }
    }
  }

  lemma GroupsMapDue(tokens: string -> nat, policy: SummaryPolicy, t: Thread, turns: seq<Turn>, high: int)
    requires forall r :: r in t.conversation ==> r.event.Some?
    requires turns != [] && TurnsWithin(turns, 0, high) && forall turn :: turn in turns <==> IsDueTurn(policy, t, turn)
    ensures MapsDue(tokens, policy, t, Grouped(tokens, Chunk(policy), [], turns))
  {
    hide Grouped, Cost, Segments.Fill, Segments.Total, TokensOf, IsDueTurn, AllTurns, Segments.Join, InSome;
    var maps, fill := Grouped(tokens, Chunk(policy), [], turns), Segments.Fill(Cost(tokens), Chunk(policy), [], turns);
    assert [] + turns == turns;
    GroupedKeepsTurns(tokens, Chunk(policy), [], turns);
    GroupedRanges(tokens, Chunk(policy), [], turns, 0, high);
    GroupedIsFill(tokens, Chunk(policy), [], turns);
    Segments.FillIsPartition(Cost(tokens), Chunk(policy), [], turns);
    forall k | 0 <= k < |maps| ensures |maps[k].turns| == 1 || TokensOf(tokens, maps[k].turns) <= Chunk(policy) {
      assert maps[k] == Whole(fill[k]) && Segments.Allowed(Cost(tokens), Chunk(policy), fill[k]);
      TokensAreTotal(tokens, fill[k]);
    }
    forall turn { AllTurnsExact(maps, turn); }
  }

  /** One map row per segment and then the reduce row, which takes over from the active row among the newest
      100, if there is one. All rows before are kept; none of them stays active. */
  ghost predicate Writes(t: Thread, t': Thread, maps: seq<TurnSegment>) {
    var rows, rows', n := t.summaries, t'.summaries, |t.summaries|;
    && maps != [] && |rows'| == n + |maps| + 1 && t'.conversation == t.conversation
    && var last := rows'[n + |maps|];
    && (forall k :: 0 <= k < n ==>
          rows'[k] == if rows[k].active then rows[k].(active := false, supersededBy := Some(n + |maps|)) else rows[k])
    && (forall k :: 0 <= k < |maps| ==>
          rows'[n + k] == Summary(Map, false, last.version, maps[k].start, maps[k].end, [maps[k]], None, None))
    && last == Summary(Reduce, true, last.version, last.start, maps[|maps| - 1].end, maps, last.predecessor, None)
    && TakesOver(rows, last, maps[0].start)
  }

  /** The new reduce row follows the active row among the newest 100, or is the first version. */
  ghost predicate TakesOver(rows: seq<Summary>, last: Summary, start: int) {
    var n := |rows|;
    if exists k :: 0 <= k < n && k >= n - 100 && rows[k].active
    then forall k :: 0 <= k < n && k >= n - 100 && rows[k].active ==>
           last.predecessor == Some(k) && last.version == rows[k].version + 1 && last.start == rows[k].start
    else last.predecessor == None && last.version == 1 && last.start == start
  }

  lemma ActiveSpelledOut(rows: seq<Summary>)
    requires OneActive(rows)
    ensures forall k :: 0 <= k < |rows| && k >= |rows| - 100 && rows[k].active ==> ActiveSummary(rows) == Some(k)
    ensures ActiveSummary(rows).Some? ==>
              0 <= ActiveSummary(rows).value < |rows| && ActiveSummary(rows).value >= |rows| - 100
              && rows[ActiveSummary(rows).value].active
  {
    ActiveExact(rows);
    hide ActiveSummary;
  }

  lemma ActiveIsReduce(rows: seq<Summary>)
    requires OneActive(rows)
    ensures forall k :: 0 <= k < |rows| && rows[k].active ==> rows[k].stage == Reduce
  {}

  /** The rows that a completed pass leaves, one by one. */
  ghost function RowsAfter(rows: seq<Summary>, maps: seq<TurnSegment>): seq<Summary>
    requires maps != []
  {
    DeactivateAll(rows + MapRows(maps, NextVersion(rows)), |rows| + |maps|) + [ReduceRow(rows, maps)]
  }

  lemma RowsAfterAre(rows: seq<Summary>, maps: seq<TurnSegment>)
    requires maps != []
    ensures var n, rows' := |rows|, RowsAfter(rows, maps);
            && |rows'| == n + |maps| + 1 && rows'[n + |maps|] == ReduceRow(rows, maps)
            && (forall k :: 0 <= k < n ==> rows'[k] == Deactivated(rows[k], n + |maps|))
            && (forall k :: 0 <= k < |maps| ==>
                  rows'[n + k] ==
                  Summary(Map, false, NextVersion(rows), maps[k].start, maps[k].end, [maps[k]], None, None))
  {
    hide ReduceRow, NextVersion;
    var all := rows + MapRows(maps, NextVersion(rows));
    assert |all| == |rows| + |maps|;
    forall k | 0 <= k < |maps| ensures RowsAfter(rows, maps)[|rows| + k] == MapRow(maps[k], NextVersion(rows)) {
      assert all[|rows| + k] == MapRow(maps[k], NextVersion(rows));
    }
  }

  lemma RowsAreWritten(t: Thread, t': Thread, maps: seq<TurnSegment>)
    requires OneActive(t.summaries) && maps != [] && t' == t.(summaries := RowsAfter(t.summaries, maps))
    ensures Writes(t, t', maps)
  {
    RowsAfterAre(t.summaries, maps);
    ReduceTakesOver(t.summaries, maps);
    ActiveIsReduce(t.summaries);
    hide RowsAfter, OneActive, ReduceRow, TakesOver, NextVersion;
  }

  lemma ReduceTakesOver(rows: seq<Summary>, maps: seq<TurnSegment>)
    requires OneActive(rows) && maps != []
    ensures var last := ReduceRow(rows, maps);
            && TakesOver(rows, last, maps[0].start) && last.version == NextVersion(rows)
            && last ==
               Summary(Reduce, true, last.version, last.start, maps[|maps| - 1].end, maps, last.predecessor, None)
  {
    ActiveSpelledOut(rows);
    hide ActiveSummary, OneActive;
  }

  lemma PassWrites(tokens: string -> nat, policy: SummaryPolicy, t: Thread, failure: Option<nat>)
    requires OneActive(t.summaries) && Completes(tokens, policy, t, failure)
    ensures Writes(t, Pass(tokens, policy, t, failure), Plan(tokens, policy, t))
  {
    hide Plan, OneActive, Writes, DeactivateAll, MapRows, ReduceRow, NextVersion;
    var maps := Plan(tokens, policy, t);
    MapRowsAre(maps, NextVersion(t.summaries));
    RowsAreWritten(t, Pass(tokens, policy, t, failure), maps);
  }

  /** The summarizer raised in its call number `failure`: the map rows written before that stay. */
  ghost predicate WritesSome(t: Thread, t': Thread, maps: seq<TurnSegment>, failure: nat) {
    var rows, rows', n := t.summaries, t'.summaries, |t.summaries|;
    && failure <= |maps| && |rows'| == n + failure && rows'[..n] == rows && t'.conversation == t.conversation
    && forall k :: 0 <= k < failure ==>
         && rows'[n + k] == Summary(Map, false, rows'[n + k].version, maps[k].start, maps[k].end, [maps[k]], None, None)
         && if exists a :: 0 <= a < n && a >= n - 100 && rows[a].active
            then forall a :: 0 <= a < n && a >= n - 100 && rows[a].active ==>
                   rows'[n + k].version == rows[a].version + 1
            else rows'[n + k].version == 1
  }

  lemma PassWritesSome(tokens: string -> nat, policy: SummaryPolicy, t: Thread, failure: nat)
    requires OneActive(t.summaries) && Plan(tokens, policy, t) != [] && failure <= |Plan(tokens, policy, t)|
    ensures WritesSome(t, Pass(tokens, policy, t, Some(failure)), Plan(tokens, policy, t), failure)
  {
    ActiveSpelledOut(t.summaries);
    hide Plan, ActiveSummary, OneActive;
  }

  /** What a pass does: it has something to write exactly when the thread has to be summarized, and otherwise
      changes nothing; it completes unless the summarizer raises in one of its calls. */
  lemma SummarizesExactly(tokens: string -> nat, policy: SummaryPolicy, t: Thread, failure: Option<nat>)
    ensures !policy.enabled ==> Pass(tokens, policy, t, failure) == t && !Completes(tokens, policy, t, failure)
    ensures Increasing(t.conversation) && OneActive(t.summaries) ==>
              Summarizes(tokens, policy, t, Pass(tokens, policy, t, failure), failure,
                         Completes(tokens, policy, t, failure))
  {
    if Increasing(t.conversation) && OneActive(t.summaries) {
      PlansExactly(tokens, policy, t);
      if Plan(tokens, policy, t) != [] {
        PlanMapsDue(tokens, policy, t);
        hide Plan, HasToSummarize, MapsDue, Writes, WritesSome, OneActive, Increasing;
        if Completes(tokens, policy, t, failure) {
          PassWrites(tokens, policy, t, failure);
        } else {
          PassWritesSome(tokens, policy, t, failure.value);
        }
      }
    }
  }

  ghost predicate Summarizes(tokens: string -> nat, policy: SummaryPolicy, t: Thread, t': Thread, failure: Option<nat>,
                             created: bool)
    requires forall r :: r in t.conversation ==> r.event.Some?
  {
    if HasToSummarize(policy, t) then
      exists maps ::
        && MapsDue(tokens, policy, t, maps)
        && (created <==> failure.None? || failure.value > |maps|)
        && if created then Writes(t, t', maps) else WritesSome(t, t', maps, failure.value)
    else t' == t && !created
  }

  lemma PlanMapsDue(tokens: string -> nat, policy: SummaryPolicy, t: Thread)
    requires Increasing(t.conversation) && OneActive(t.summaries) && Plan(tokens, policy, t) != []
    ensures MapsDue(tokens, policy, t, Plan(tokens, policy, t))
  {
    hide Plan, HasToSummarize, MapsDue, Grouped, TurnsWithin, IsDueTurn, OneActive;
    PlansExactly(tokens, policy, t);
    var turns :| Plan(tokens, policy, t) == Grouped(tokens, Chunk(policy), [], turns)
                 && (forall turn :: turn in turns <==> IsDueTurn(policy, t, turn))
                 && exists high :: TurnsWithin(turns, 0, high);
    var high :| TurnsWithin(turns, 0, high);
    GroupedKeepsTurns(tokens, Chunk(policy), [], turns);
    GroupsMapDue(tokens, policy, t, turns, high);
  }
}
