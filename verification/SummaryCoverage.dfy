/** When a thread's summaries cover every turn exactly once, and when a pass starts over
    (`src/axiom/memory/service.py:392-503`, `src/axiom/memory/store.py:339-399`). */
module SummaryCoverage {
  import opened Wrappers
  import opened Conversation
  import opened SummaryPasses
  import opened SummaryRuns

  /** Exactly the turns that end by the active summary's end are mapped. */
  ghost predicate Exact(t: Thread) {
    forall turn :: turn in AllTurns(Listed(t.summaries)) <==>
      IsTurn(t.conversation, turn) && turn.end <= Reached(t.summaries)
  }

  /** The turn at positions `i` and `j` starts among the newest 1000 records and lies between the covered events
      and `end`. */
  ghost predicate NewAt(t: Thread, end: int, i: nat, j: nat, turn: Turn) {
    i >= |t.conversation| - LIST_LIMIT && IsTurnAt(t.conversation, i, j, turn) && Reached(t.summaries) < turn.end <= end
  }

  /** The turn lies between the covered events and `end` but starts before the newest 1000 records. */
  ghost predicate MissedAt(t: Thread, end: int, i: nat, j: nat, turn: Turn) {
    i < |t.conversation| - LIST_LIMIT && IsTurnAt(t.conversation, i, j, turn) && Reached(t.summaries) < turn.end <= end
  }

  ghost predicate Misses(t: Thread, end: int) {
    exists i: nat, j: nat, turn :: MissedAt(t, end, i, j, turn)
  }

  /** A pass that goes on maps exactly the turns between the former and the new end that start among the newest
      1000 records. */
  lemma PlannedExactly(tokens: string -> nat, policy: SummaryPolicy, t: Thread, failure: Option<nat>, turn: Turn)
    requires Disjoint(t) && GoesOn(policy, t) && Completes(tokens, policy, t, failure)
    ensures var end := Reached(Pass(tokens, policy, t, failure).summaries);
            turn in AllTurns(Plan(tokens, policy, t)) <==> exists i: nat, j: nat :: NewAt(t, end, i, j, turn)
  {
    hide Disjoint, GoesOn, Plan, Pass, Completes, OneActive, ReduceRow, Normalized, IsTurn, IsStretch, Increasing,
         RangesWithin, Whole,
         Listed, Passes, TurnsFrom;
    var segments, reached := Plan(tokens, policy, t), Reached(t.summaries);
    var rows := Pass(tokens, policy, t, failure).summaries;
    DisjointParts(t);
    PassKeepsConversation(tokens, policy, t, failure);
    CompletedRows(tokens, policy, t, failure);
    var from, to, high := PlannedRanges(tokens, policy, t);
    WholeSegments(segments, reached, high);
    LastTurn(segments);
    ReduceEnds(t.summaries, segments);
    TurnsExact(t.conversation[from..to], turn);
    StretchTurns(t.conversation, from, to, turn);
    if turn in AllTurns(segments) {
      var i: nat, j: nat :| from <= i && j < to && IsTurnAt(t.conversation, i, j, turn);
      WithinLast(AllTurns(segments), reached, high, turn);
      assert NewAt(t, Reached(rows), i, j, turn);
    }
    if i: nat, j: nat :| NewAt(t, Reached(rows), i, j, turn) {
      WithinLast(AllTurns(segments), reached, high, AllTurns(segments)[|AllTurns(segments)| - 1]);
      NewIsTaken(t, Normalized(policy).recentReserve, from, to, Reached(rows), i, j, turn);
    }
  }

  lemma NewIsTaken(t: Thread, reserve: int, from: nat, to: nat, end: int, i: nat, j: nat, turn: Turn)
    requires Disjoint(t) && IsStretch(t.conversation, Seen(t), reserve, from, to) && from < to
    requires NewAt(t, end, i, j, turn) && end <= t.conversation[to - 1].event.value
    ensures from <= i && j < to
  {
    hide Disjoint;
    DisjointParts(t);
    NoTurnStraddles(t, i, j, turn);
    SeenIsCovered(t);
  }

  lemma SeenIsCovered(t: Thread)
    requires Reached(t.summaries) >= 0
    ensures Seen(t) <= Reached(t.summaries)
  {}

  /** A completed pass that goes on keeps the coverage exact if and only if no turn between the former and the
      new end starts before the newest 1000 records. */
  lemma CompletedKeepsExact(tokens: string -> nat, policy: SummaryPolicy, t: Thread, failure: Option<nat>)
    requires Disjoint(t) && Exact(t) && GoesOn(policy, t) && Completes(tokens, policy, t, failure)
    ensures var t' := Pass(tokens, policy, t, failure); Exact(t') <==> !Misses(t, Reached(t'.summaries))
  {
    hide Disjoint, GoesOn, Plan, Completes, Pass, Listed, AllTurns, Increasing, IsTurnAt, Reached;
    var t' := Pass(tokens, policy, t, failure);
    var planned, listed, end := AllTurns(Plan(tokens, policy, t)), AllTurns(Listed(t.summaries)), Reached(t'.summaries);
    DisjointParts(t);
    PassKeepsConversation(tokens, policy, t, failure);
    CompletedKeepsDisjoint(tokens, policy, t, failure);
    AllTurnsJoin(Listed(t.summaries), Plan(tokens, policy, t));
    forall turn ensures turn in planned <==> exists i: nat, j: nat :: NewAt(t, end, i, j, turn) {
      PlannedExactly(tokens, policy, t, failure, turn);
    }
    if Misses(t, end) {
      var i: nat, j: nat, turn :| MissedAt(t, end, i, j, turn);
      assert IsTurn(t.conversation, turn) && turn !in listed;
      MissedIsNotNew(t, end, i, j, turn);
    } else {
      forall turn ensures turn in listed + planned <==> IsTurn(t.conversation, turn) && turn.end <= end {
        CoveredOrNew(t, end, turn);
      }
    }
  }

  lemma MissedIsNotNew(t: Thread, end: int, i: nat, j: nat, turn: Turn)
    requires Increasing(t.conversation) && MissedAt(t, end, i, j, turn)
    ensures forall k: nat, l: nat :: !NewAt(t, end, k, l, turn)
  {}

  lemma CoveredOrNew(t: Thread, end: int, turn: Turn)
    requires !Misses(t, end) && Reached(t.summaries) <= end
    ensures IsTurn(t.conversation, turn) && turn.end <= end <==>
            (IsTurn(t.conversation, turn) && turn.end <= Reached(t.summaries))
            || exists i: nat, j: nat :: NewAt(t, end, i, j, turn)
  {
    hide Reached;
    if IsTurn(t.conversation, turn) && Reached(t.summaries) < turn.end <= end {
      var i: nat, j: nat :| IsTurnAt(t.conversation, i, j, turn);
      assert !MissedAt(t, end, i, j, turn);
      assert NewAt(t, end, i, j, turn);
    }
  }

  /** In particular nothing is missed while at most 1000 records come after the covered events. */
  lemma InReachMissesNothing(t: Thread, end: int)
    requires Disjoint(t)
    requires forall i :: 0 <= i < |t.conversation| - LIST_LIMIT ==>
               t.conversation[i].event.value <= Reached(t.summaries)
    ensures !Misses(t, end)
  {
    hide Disjoint;
    DisjointParts(t);
    forall i: nat, j: nat, turn ensures !MissedAt(t, end, i, j, turn) {
      if IsTurnAt(t.conversation, i, j, turn) { NoTurnStraddles(t, i, j, turn); }
    }
  }

  lemma SayIsExact(t: Thread, r: Record)
    requires Disjoint(t) && Exact(t) && Increasing(t.conversation + [r])
    ensures Exact(SayTo(t, r))
  {
    hide Disjoint, Listed, AllTurns, SayTo, IsTurn;
    SayAppends(t, r);
    var all := t.conversation + [r];
    forall turn
      ensures IsTurn(all, turn) && turn.end <= Reached(t.summaries) <==>
              IsTurn(t.conversation, turn) && turn.end <= Reached(t.summaries)
    {
      OldTurn(t, r, turn);
    }
  }

  /** A turn that ends by the covered events is none of a later record. */
  lemma OldTurn(t: Thread, r: Record, turn: Turn)
    requires Disjoint(t) && Increasing(t.conversation + [r])
    ensures IsTurn(t.conversation + [r], turn) && turn.end <= Reached(t.summaries) <==>
            IsTurn(t.conversation, turn) && turn.end <= Reached(t.summaries)
  {
    hide Disjoint;
    var all := t.conversation + [r];
    if IsTurn(t.conversation, turn) {
      TurnStays(t.conversation, r, turn);
    }
    if IsTurn(all, turn) && turn.end <= Reached(t.summaries) {
      var i: nat, j: nat :| IsTurnAt(all, i, j, turn);
      assert all[j].event.value > 0;
      var m := ReachedIsReply(t);
      assert all[m] == t.conversation[m];
      assert j < |t.conversation|;
      assert forall k :: 0 <= k < |t.conversation| ==> all[k] == t.conversation[k];
      assert IsTurnAt(t.conversation, i, j, turn);
    }
  }

  /** No completing pass of the run passes over a turn that starts before the newest 1000 records. */
  ghost predicate NeverMisses(tokens: string -> nat, ops: seq<Operation>) {
    forall k: nat :: CompletesAt(tokens, ops, k) ==> !MissesAt(tokens, ops, k)
  }

  ghost predicate MissesAt(tokens: string -> nat, ops: seq<Operation>, k: nat)
    requires k < |ops|
  {
    Misses(Run(tokens, ops[..k]), Reached(Run(tokens, ops[..k + 1]).summaries))
  }

  lemma StepKeepsExact(tokens: string -> nat, t: Thread, op: Operation)
    requires Disjoint(t) && Exact(t) && (op.Say? ==> Increasing(t.conversation + [op.record]))
    requires op.Summarize? && Completes(tokens, op.policy, t, op.failure) ==> GoesOn(op.policy, t)
    ensures Exact(Step(tokens, t, op)) <==>
            (op.Summarize? && Completes(tokens, op.policy, t, op.failure) ==>
             !Misses(t, Reached(Step(tokens, t, op).summaries)))
  {
    hide Disjoint, GoesOn, Increasing, Pass, SayTo, Completes, Misses, Exact;
    match op {
      case Say(r) => SayIsExact(t, r);
      case Summarize(policy, failure) =>
        if Completes(tokens, policy, t, failure) {
          CompletedKeepsExact(tokens, policy, t, failure);
        } else {
          AbortedIsExact(tokens, policy, t, failure);
        }
    }
  }

  lemma AbortedIsExact(tokens: string -> nat, policy: SummaryPolicy, t: Thread, failure: Option<nat>)
    requires Disjoint(t) && Exact(t) && !Completes(tokens, policy, t, failure)
    ensures Exact(Pass(tokens, policy, t, failure))
  {
    hide Disjoint, Pass, Completes, Listed, AllTurns, IsTurn;
    DisjointParts(t);
    PassKeepsConversation(tokens, policy, t, failure);
    AbortedKeepsGood(tokens, policy, t, failure);
  }

  /** While completing passes go on after the covered events, a turn has been mapped exactly when it ends by the
      active summary's end, and once, as long as and only as long as no completing pass passes over a turn
      that starts before the newest 1000 records. */
  lemma EveryTurnOnce(tokens: string -> nat, ops: seq<Operation>)
    requires Increasing(Said(ops)) && AlwaysGoesOn(tokens, ops)
    ensures (forall k: nat :: k <= |ops| ==> Exact(Run(tokens, ops[..k]))) <==> NeverMisses(tokens, ops)
    ensures var t := Run(tokens, ops); TurnsWithin(AllTurns(Listed(t.summaries)), 0, Reached(t.summaries))
  {
    hide Disjoint, Increasing, Run, Step, Completes, Exact, GoesOn, Misses;
    if NeverMisses(tokens, ops) {
      forall k: nat | k <= |ops| ensures Exact(Run(tokens, ops[..k])) { NeverMissingStaysExact(tokens, ops, k); }
    }
    if forall k: nat :: k <= |ops| ==> Exact(Run(tokens, ops[..k])) {
      forall k: nat | CompletesAt(tokens, ops, k) ensures !MissesAt(tokens, ops, k) {
        StepOf(tokens, ops, k);
        GoingOnStaysDisjoint(tokens, ops, k);
        StepKeepsExact(tokens, Run(tokens, ops[..k]), ops[k]);
        assert Exact(Run(tokens, ops[..k + 1]));
      }
    }
    GoingOnStaysDisjoint(tokens, ops, |ops|);
    assert ops[..|ops|] == ops;
    DisjointParts(Run(tokens, ops));
  }

  lemma {:induction false} NeverMissingStaysExact(tokens: string -> nat, ops: seq<Operation>, k: nat)
    requires Increasing(Said(ops)) && AlwaysGoesOn(tokens, ops) && NeverMisses(tokens, ops) && k <= |ops|
    ensures Exact(Run(tokens, ops[..k]))
  {
    hide Disjoint, GoesOn, Increasing, Step, Completes, Exact, Misses;
    if k == 0 {
      NothingIsExact();
      assert ops[..0] == [];
    } else {
      NeverMissingStaysExact(tokens, ops, k - 1);
      GoingOnStaysDisjoint(tokens, ops, k - 1);
      StepOf(tokens, ops, k - 1);
      assert CompletesAt(tokens, ops, k - 1) ==> GoesOn(ops[k - 1].policy, Run(tokens, ops[..k - 1]));
      assert CompletesAt(tokens, ops, k - 1) ==> !MissesAt(tokens, ops, k - 1);
      StepKeepsExact(tokens, Run(tokens, ops[..k - 1]), ops[k - 1]);
    }
  }

  lemma NothingIsExact()
    ensures Exact(Thread([], []))
  {}

  // ---- Losing sight of the active summary ----

  /** Once 100 rows follow the active summary, a pass plans as if nothing had ever been summarized. */
  lemma UnseenStartsOver(tokens: string -> nat, policy: SummaryPolicy, t: Thread)
    requires Good(t) && !Visible(t.summaries)
    ensures Plan(tokens, policy, t) == Plan(tokens, policy, Thread(t.conversation, [])) && NextVersion(t.summaries) == 1
  {
    hide Eligible, Grouped, Disjoint, Normalized;
    GoodIsDisjoint(t);
    DisjointParts(t);
    ActiveExact(t.summaries);
  }

  function Repeat(tokens: string -> nat, policy: SummaryPolicy, t: Thread, n: nat): Thread {
    if n == 0 then t else Pass(tokens, policy, Repeat(tokens, policy, t, n - 1), Some(1))
  }

  /** A pass that fails after its first map row leaves one more row behind the active summary. */
  lemma FailureLeavesARow(tokens: string -> nat, policy: SummaryPolicy, t: Thread)
    requires Good(t) && Plan(tokens, policy, t) != []
    ensures var t' := Pass(tokens, policy, t, Some(1));
            && t'.conversation == t.conversation && |t'.summaries| == |t.summaries| + 1
            && LastReduce(t'.summaries) == LastReduce(t.summaries) && OneActive(t'.summaries)
            && Reached(t'.summaries) == Reached(t.summaries)
  {
    hide Plan, Good, Disjoint, Pass, OneActive, LastReduce, Reached, Completes, Listed;
    GoodIsOneActive(t);
    PassKeepsConversation(tokens, policy, t, Some(1));
    FailsAtOnce(tokens, policy, t);
    AbortedKeepsGood(tokens, policy, t, Some(1));
  }

  lemma FailsAtOnce(tokens: string -> nat, policy: SummaryPolicy, t: Thread)
    requires Plan(tokens, policy, t) != []
    ensures !Completes(tokens, policy, t, Some(1))
    ensures |Pass(tokens, policy, t, Some(1)).summaries| == |t.summaries| + 1
  {
    hide Plan, NextVersion;
    assert |Plan(tokens, policy, t)| >= 1;
  }

  lemma GoodIsOneActive(t: Thread)
    ensures Good(t) ==> Disjoint(t) && OneActive(t.summaries) && Increasing(t.conversation)
  {}

  lemma PlanDependsOn(tokens: string -> nat, policy: SummaryPolicy, t: Thread, u: Thread)
    requires t.conversation == u.conversation && OneActive(t.summaries) && OneActive(u.summaries)
    requires Visible(t.summaries) && Visible(u.summaries)
    requires LastReduce(t.summaries) == LastReduce(u.summaries) && Reached(t.summaries) == Reached(u.summaries)
    ensures Plan(tokens, policy, t) == Plan(tokens, policy, u)
  {
    hide Eligible, Grouped, Normalized, Newest, OneActive, TurnsFrom;
    ActiveExact(t.summaries);
    ActiveExact(u.summaries);
  }

  /** Failing passes forget the active summary: when a pass has something to map and the next 100 all
      fail after their first map row, the active summary is no longer found. */
  lemma FailuresForget(tokens: string -> nat, policy: SummaryPolicy, t: Thread)
    requires Good(t) && LastReduce(t.summaries) == Some(|t.summaries| - 1) && Plan(tokens, policy, t) != []
    ensures var t' := Repeat(tokens, policy, t, SUMMARY_LIMIT);
            && Good(t') && LastReduce(t'.summaries) == LastReduce(t.summaries) && ActiveSummary(t'.summaries) == None
            && ActiveSummary(t.summaries) == LastReduce(t.summaries)
  {
    hide Good, Plan, OneActive;
    Repeated(tokens, policy, t, SUMMARY_LIMIT);
    GoodIsOneActive(t);
    GoodIsOneActive(Repeat(tokens, policy, t, SUMMARY_LIMIT));
    ActiveExact(t.summaries);
    ActiveExact(Repeat(tokens, policy, t, SUMMARY_LIMIT).summaries);
  }

  lemma {:induction false} Repeated(tokens: string -> nat, policy: SummaryPolicy, t: Thread, n: nat)
    requires n <= SUMMARY_LIMIT
    requires Good(t) && LastReduce(t.summaries) == Some(|t.summaries| - 1) && Plan(tokens, policy, t) != []
    ensures var t' := Repeat(tokens, policy, t, n);
            && Good(t') && t'.conversation == t.conversation && |t'.summaries| == |t.summaries| + n
            && LastReduce(t'.summaries) == LastReduce(t.summaries) && Reached(t'.summaries) == Reached(t.summaries)
            && Listed(t'.summaries) == Listed(t.summaries)
  {
    hide Good, Plan, Pass, OneActive, Listed;
    if n > 0 {
      var u := Repeat(tokens, policy, t, n - 1);
      Repeated(tokens, policy, t, n - 1);
      GoodIsOneActive(t);
      GoodIsOneActive(u);
      PlanDependsOn(tokens, policy, t, u);
      FailureLeavesARow(tokens, policy, u);
      AbortedKeepsGood(tokens, policy, u, Some(1));
    }
  }

  // ---- Starting over ----

  /** The turn lies among the newest 1000 records. */
  ghost predicate IsRecent(conversation: seq<Record>, t: Turn) {
    exists i: nat, j: nat :: i >= |conversation| - LIST_LIMIT && IsTurnAt(conversation, i, j, t)
  }

  /** What a pass takes when it sees no summary: the newest records without the reserve. */
  lemma StartOverStretch(policy: SummaryPolicy, t: Thread, u: Thread) returns (from: nat, to: nat)
    requires Increasing(t.conversation) && u.conversation == t.conversation && Covered(u.summaries).None?
    ensures from <= to <= |t.conversation| && (from == 0 || from <= |t.conversation| - LIST_LIMIT)
    ensures Eligible(u.conversation, Covered(u.summaries), Normalized(policy).recentReserve) == t.conversation[from..to]
    ensures IsStretch(t.conversation, 0, Normalized(policy).recentReserve, from, to)
  {
    hide Eligible, Normalized;
    from, to := EligibleStretch(t.conversation, None, Normalized(policy).recentReserve);
    assert from > 0 ==> t.conversation[from - 1].event.value > 0;
  }

  /** A pass that has work after the summary and then loses sight of it has at least as much to take. */
  lemma StartOverPlan(tokens: string -> nat, policy: SummaryPolicy, t: Thread, u: Thread)
    returns (from: nat, to: nat, high: nat)
    requires Good(t) && Visible(t.summaries) && Plan(tokens, policy, t) != []
    requires u.conversation == t.conversation && Covered(u.summaries).None?
    ensures from <= to <= |t.conversation| && (from == 0 || from <= |t.conversation| - LIST_LIMIT)
    ensures AllTurns(Plan(tokens, policy, u)) == Turns(t.conversation[from..to])
    ensures high < to && Reached(t.summaries) < t.conversation[high].event.value
  {
    hide Grouped, RangesWithin, TurnsWithin, AllTurns, IsTurn, Normalized, Eligible, Passes, Listed, OneActive,
         TurnsFrom;
    var p := Normalized(policy);
    NormalMinimum(policy);
    ActiveExactOf(t);
    var low, end := EligibleStretch(t.conversation, Covered(t.summaries), p.recentReserve);
    from, to := StartOverStretch(policy, t, u);
    SameEnd(t.conversation, ReachedIf(t), p.recentReserve, low, end, from, to);
    high := end - 1;
    GroupedKeepsTurns(tokens, LimitOf(policy), [], Turns(t.conversation[from..to]));
    assert [] + Turns(t.conversation[from..to]) == Turns(t.conversation[from..to]);
  }

  lemma NormalMinimum(policy: SummaryPolicy)
    ensures Normalized(policy).minimumUnsummarized >= 2
  {}

  ghost function ReachedIf(t: Thread): int {
    if Covered(t.summaries).Some? then Covered(t.summaries).value else 0
  }

  lemma ActiveExactOf(t: Thread)
    requires Good(t) && Visible(t.summaries)
    ensures ReachedIf(t) == Reached(t.summaries)
  {
    hide RangesWithin, TurnsWithin, AllTurns, Increasing, IsTurn, Passes, Listed;
    ActiveExact(t.summaries);
  }

  lemma SameEnd(conversation: seq<Record>, reached: int, reserve: int, low: nat, end: nat, from: nat, to: nat)
    requires IsStretch(conversation, reached, reserve, low, end) && IsStretch(conversation, 0, reserve, from, to)
    requires Increasing(conversation) && reached >= 0
    requires from == 0 || from <= |conversation| - LIST_LIMIT
    requires low >= |conversation| - LIST_LIMIT
    ensures low < end ==> from <= low && end == to && reached < conversation[end - 1].event.value
  {}

  /** After `FailuresForget`, a pass that completes maps every mapped turn among the newest 1000 records a
      second time; with one such turn the ranges are no longer disjoint. */
  lemma StartingOverRepeats(tokens: string -> nat, policy: SummaryPolicy, t: Thread, turn: Turn)
    requires Good(t) && LastReduce(t.summaries) == Some(|t.summaries| - 1) && Plan(tokens, policy, t) != []
    requires turn in AllTurns(Listed(t.summaries)) && IsRecent(t.conversation, turn)
    ensures var u := Repeat(tokens, policy, t, SUMMARY_LIMIT);
            var v := Pass(tokens, policy, u, None);
            turn in AllTurns(Plan(tokens, policy, u)) && !Disjoint(v)
  {
    hide Good, Plan, Pass, Listed, AllTurns, IsTurnAt, Completes, Increasing;
    var u := Repeat(tokens, policy, t, SUMMARY_LIMIT);
    FailuresForget(tokens, policy, t);
    Repeated(tokens, policy, t, SUMMARY_LIMIT);
    GoodIsOneActive(u);
    RepeatedTurn(tokens, policy, t, u, turn);
    CompletesUnfailing(tokens, policy, u, turn);
    CompletedRows(tokens, policy, u, None);
    AllTurnsJoin(Listed(u.summaries), Plan(tokens, policy, u));
    MappedTwice(Pass(tokens, policy, u, None), AllTurns(Listed(u.summaries)), AllTurns(Plan(tokens, policy, u)), turn);
  }

  lemma CompletesUnfailing(tokens: string -> nat, policy: SummaryPolicy, u: Thread, turn: Turn)
    requires turn in AllTurns(Plan(tokens, policy, u))
    ensures Completes(tokens, policy, u, None)
  {
    hide Plan;
  }

  lemma RepeatedTurn(tokens: string -> nat, policy: SummaryPolicy, t: Thread, u: Thread, turn: Turn)
    requires Good(t) && Visible(t.summaries) && Plan(tokens, policy, t) != []
    requires u.conversation == t.conversation && Covered(u.summaries).None?
    requires turn in AllTurns(Listed(t.summaries)) && IsRecent(t.conversation, turn)
    ensures turn in AllTurns(Plan(tokens, policy, u))
  {
    hide Plan, Listed, AllTurns, Good, Visible, Covered;
    var from, to, high := StartOverPlan(tokens, policy, t, u);
    MappedEnds(t, turn);
    var i: nat, j: nat :| i >= |t.conversation| - LIST_LIMIT && IsTurnAt(t.conversation, i, j, turn);
    assert from <= i && j < to;
    StretchTurns(t.conversation, from, to, turn);
    TurnsExact(t.conversation[from..to], turn);
  }

  lemma MappedEnds(t: Thread, turn: Turn)
    requires Good(t) && turn in AllTurns(Listed(t.summaries))
    ensures turn.end <= Reached(t.summaries) && Increasing(t.conversation)
  {}

  lemma MappedTwice(v: Thread, xs: seq<Turn>, ys: seq<Turn>, turn: Turn)
    requires AllTurns(Listed(v.summaries)) == xs + ys && turn in xs && turn in ys
    ensures !Disjoint(v)
  {
    hide Listed, AllTurns, RangesWithin, OneActive, Increasing, IsTurn, Passes, LastReduce;
    var all := xs + ys;
    var i :| 0 <= i < |xs| && xs[i] == turn;
    var j :| 0 <= j < |ys| && ys[j] == turn;
    assert all[i] == turn && all[|xs| + j] == turn;
  }
}
