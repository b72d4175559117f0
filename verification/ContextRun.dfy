/** Runs of an agent turn loop (`src/axiom/agent/query.py:54-144`): messages are only appended, and every
    model request is prepared with the summary that the last one returned. */
module ContextRun {
  import opened Wrappers
  import opened Messages
  import opened ContextUnits
  import opened ContextBudget

  datatype State = State(raw: seq<Message>, summary: Option<Summary>)

  datatype Event =
    | Append(more: seq<Message>)
    | Prepare(systemPrompt: string, tools: string, objective: string)

  function CoveredBy(s: State): nat {
    match s.summary case None => 0 case Some(m) => m.covered
  }

  function Wanted(env: Env, s: State, e: Event): Desired
    requires e.Prepare?
  {
    Build(env, s.raw, e.systemPrompt, e.tools, e.objective, s.summary)
  }

  /** The request prepared in state `s`. */
  function Request(env: Env, p: Policy, s: State, e: Event): Result<Compaction, BudgetExceeded>
    requires e.Prepare? && p.recentReserve >= 0
  {
    FitSpec(env, p, Wanted(env, s, e))
  }

  function Next(env: Env, p: Policy, s: State, e: Event): State
    requires p.recentReserve >= 0
  {
    match e
    case Append(more) => s.(raw := s.raw + more)
    case Prepare(_, _, _) =>
      match Request(env, p, s, e)
      case Ok(c) => s.(summary := c.summary)
      case Err(_) => s
  }

  // ---- What every run keeps ----

  /** The remembered summary stands for a prefix that it was made from, that ends before the newest user
      message and the recent messages, and that leaves no call of its own unanswered. */
  ghost predicate Good(env: Env, p: Policy, s: State)
    requires p.recentReserve >= 0
  {
    s.summary.Some? ==>
      var m := s.summary.value;
      && 0 < m.covered <= |s.raw| && m.fingerprint == env.fingerprint(s.raw[..m.covered])
      && m.covered <= RecentStart(s.raw, p.recentReserve)
      && (LatestUser(s.raw).Some? ==> LatestUser(s.raw).value >= m.covered)
      && (AssistantsCall(s.raw) ==> Settled(s.raw, m.covered))
  }

  lemma PreviousIsValid(env: Env, p: Policy, s: State, e: Event)
    requires p.recentReserve >= 0 && Good(env, p, s) && e.Prepare?
    ensures Wanted(env, s, e).previous == s.summary && Wanted(env, s, e).messages == s.raw
    ensures Covered(Wanted(env, s, e)) == CoveredBy(s)
  {}

  function CoveredAfter(c: Compaction): nat {
    match c.summary case None => 0 case Some(m) => m.covered
  }

  /** Message `k` is not recent, not required and not the newest user message. */
  ghost predicate MayGo(p: Policy, ms: seq<Message>, required: set<nat>, k: nat)
    requires p.recentReserve >= 0
  {
    k < RecentStart(ms, p.recentReserve) && k !in required && LatestUser(ms) != Some(k)
  }

  /** A request drops more only when it compacts, and then nothing recent, nothing required and not the
      newest user message. */
  ghost predicate DropsOnlyEligible(p: Policy, s: State, e: Event, c: Compaction)
    requires e.Prepare? && p.recentReserve >= 0
  {
    && CoveredBy(s) <= CoveredAfter(c) <= |s.raw|
    && (c.compacted <==> CoveredAfter(c) > CoveredBy(s))
    && (!c.compacted ==> c.summary == s.summary)
    && (forall k: nat :: CoveredBy(s) <= k < CoveredAfter(c) ==> MayGo(p, s.raw, Required(s.raw, e.objective), k))
  }

  /** What is sent is the summary followed by the rest, with long old tool results shortened; the
      estimate is of that list, and under a normal policy leaves room for the reserved output. */
  ghost predicate SendsTheRest(env: Env, p: Policy, s: State, e: Event, c: Compaction)
    requires e.Prepare? && p.recentReserve >= 0 && CoveredAfter(c) <= |s.raw|
  {
    && c.messages == ProjectAll(env, p, WithPrevious(s.raw, c.summary))
    && c.after == env.estimate(c.messages, e.systemPrompt, e.tools)
    && (IsNormal(p) ==> c.after + p.reservedOutput <= p.window)
  }

  lemma RequestIsOk(env: Env, p: Policy, s: State, e: Event)
    requires p.recentReserve >= 0 && Good(env, p, s) && e.Prepare? && Request(env, p, s, e).Ok?
    ensures DropsOnlyEligible(p, s, e, Request(env, p, s, e).value)
    ensures SendsTheRest(env, p, s, e, Request(env, p, s, e).value)
  {
    hide ProjectAll, EligibleEnd, HighWatermarkTokens, Required, AssistantsCall, Settled;
    var d := Wanted(env, s, e);
    PreviousIsValid(env, p, s, e);
    NormalPolicies(p);
    var end := EligibleEnd(s.raw, p.recentReserve, d.required, CoveredBy(s));
    WholeStretch(p, s.raw, d.required, CoveredBy(s), end);
    forall k: nat | CoveredBy(s) <= k < end ensures MayGo(p, s.raw, d.required, k) {
      WholeUnitsLeave(s.raw, p.recentReserve, d.required, CoveredBy(s), end, k);
    }
  }

  lemma WholeStretch(p: Policy, ms: seq<Message>, required: set<nat>, covered: nat, end: nat)
    requires p.recentReserve >= 0 && covered <= |ms| && end == EligibleEnd(ms, p.recentReserve, required, covered)
    ensures covered <= end <= |ms| && WholeUnits(ms, p.recentReserve, required, covered, end)
  {
    EligibleIsWhole(ms, p.recentReserve, required, covered, 0, covered);
  }

  lemma CompactedEnd(env: Env, p: Policy, s: State, e: Event)
    requires p.recentReserve >= 0 && Good(env, p, s) && e.Prepare? && Request(env, p, s, e).Ok?
    requires Request(env, p, s, e).value.compacted
    ensures var end := EligibleEnd(s.raw, p.recentReserve, Wanted(env, s, e).required, CoveredBy(s));
            && CoveredBy(s) < end <= |s.raw|
            && Request(env, p, s, e).value.summary.Some?
            && Request(env, p, s, e).value.summary.value.covered == end
            && Request(env, p, s, e).value.summary.value.fingerprint == env.fingerprint(s.raw[..end])
  {
    hide ProjectAll, EligibleEnd, HighWatermarkTokens, Required, AssistantsCall, Settled;
    PreviousIsValid(env, p, s, e);
    EligibleRange(p, Wanted(env, s, e));
  }

  lemma PrepareKeepsGood(env: Env, p: Policy, s: State, e: Event)
    requires p.recentReserve >= 0 && Good(env, p, s) && e.Prepare?
    ensures Good(env, p, Next(env, p, s, e)) && CoveredBy(Next(env, p, s, e)) >= CoveredBy(s)
  {
    hide ProjectAll, EligibleEnd, HighWatermarkTokens, Required, AssistantsCall, Settled, Request;
    var r := Request(env, p, s, e);
    if r.Ok? {
      RequestIsOk(env, p, s, e);
      if r.value.compacted {
        CompactedEnd(env, p, s, e);
        var end := r.value.summary.value.covered;
        WholeStretch(p, s.raw, Wanted(env, s, e).required, CoveredBy(s), end);
        if AssistantsCall(s.raw) {
          SettledFromGood(env, p, s);
          WholeUnitsSettle(s.raw, p.recentReserve, Wanted(env, s, e).required, CoveredBy(s), end);
        }
        var required := Wanted(env, s, e).required;
        WholeUnitsLeave(s.raw, p.recentReserve, required, CoveredBy(s), end, end - 1);
        if LatestUser(s.raw).Some? && CoveredBy(s) <= LatestUser(s.raw).value < end {
          WholeUnitsLeave(s.raw, p.recentReserve, required, CoveredBy(s), end, LatestUser(s.raw).value);
        }
      } else {
        assert Next(env, p, s, e) == s;
      }
    }
  }

  lemma SettledFromGood(env: Env, p: Policy, s: State)
    requires p.recentReserve >= 0 && Good(env, p, s) && AssistantsCall(s.raw)
    ensures Settled(s.raw, CoveredBy(s))
  {}

  lemma AppendKeepsGood(env: Env, p: Policy, s: State, more: seq<Message>)
    requires p.recentReserve >= 0 && Good(env, p, s)
    ensures Good(env, p, s.(raw := s.raw + more))
  {
    if s.summary.Some? {
      var covered := s.summary.value.covered;
      var longer := s.raw + more;
      assert longer[..covered] == s.raw[..covered];
      if AssistantsCall(longer) {
        forall i | 0 <= i < |s.raw| ensures s.raw[i] == longer[i] {}
        SettledExtends(s.raw, more, covered);
      }
      if LatestUser(longer).Some? && LatestUser(longer).value < |s.raw| {
        assert s.raw[LatestUser(longer).value].role == User;
        assert longer[LatestUser(s.raw).value].role == User;
      }
    }
  }

  ghost predicate IsRun(env: Env, p: Policy, states: seq<State>, events: seq<Event>)
    requires p.recentReserve >= 0
  {
    && |states| == |events| + 1 && states[0].summary == None
    && forall i :: 0 <= i < |events| ==> states[i + 1] == Next(env, p, states[i], events[i])
  }

  lemma {:induction false} RunKeepsGood(env: Env, p: Policy, states: seq<State>, events: seq<Event>, i: nat)
    requires p.recentReserve >= 0 && IsRun(env, p, states, events) && i < |states|
    ensures Good(env, p, states[i])
    ensures i > 0 ==> CoveredBy(states[i - 1]) <= CoveredBy(states[i]) && states[i - 1].raw <= states[i].raw
  {
    hide Good;
    if i == 0 {
      NoSummaryIsGood(env, p, states[0]);
    } else {
      RunKeepsGood(env, p, states, events, i - 1);
      var s, e := states[i - 1], events[i - 1];
      if e.Append? { AppendKeepsGood(env, p, s, e.more); } else { PrepareKeepsGood(env, p, s, e); }
    }
  }

  lemma NoSummaryIsGood(env: Env, p: Policy, s: State)
    requires p.recentReserve >= 0 && s.summary == None
    ensures Good(env, p, s)
  {}

  /** In every run, when the whole conversation keeps to the tool protocol, so does every list sent to the
      model, however much of the conversation has been dropped by then. */
  lemma SentKeepsProtocol(env: Env, p: Policy, states: seq<State>, events: seq<Event>, i: nat)
    requires p.recentReserve >= 0 && IsRun(env, p, states, events) && i < |events| && events[i].Prepare?
    requires Protocol(states[i].raw) && AssistantsCall(states[i].raw)
    requires Request(env, p, states[i], events[i]).Ok?
    ensures Protocol(Request(env, p, states[i], events[i]).value.messages)
  {
    hide Request, ProjectAll, Protocol, Settled, Good, AssistantsCall;
    var s, c := states[i], Request(env, p, states[i], events[i]).value;
    RunKeepsGood(env, p, states, events, i);
    RunKeepsGood(env, p, states, events, i + 1);
    RequestIsOk(env, p, s, events[i]);
    SettledFromGood(env, p, states[i + 1]);
    var sent := WithPrevious(s.raw, c.summary);
    if c.summary.Some? {
      DropSettled(s.raw, c.summary.value.covered, SummaryMessage(c.summary.value));
    }
    ProjectionKeepsShape(env, p, sent);
    SameShapeSameProtocol(sent, c.messages);
  }

  lemma ProjectionKeepsShape(env: Env, p: Policy, ms: seq<Message>)
    requires p.recentReserve >= 0
    ensures SameShape(ms, ProjectAll(env, p, ms))
  {}

  /** In every run, each request carries the newest user message and the last messages of the conversation
      unchanged, at the place the summary leaves for them. */
  lemma SentKeepsNewest(env: Env, p: Policy, states: seq<State>, events: seq<Event>, i: nat, k: nat)
    requires p.recentReserve >= 0 && IsRun(env, p, states, events) && i < |events| && events[i].Prepare?
    requires Request(env, p, states[i], events[i]).Ok? && k < |states[i].raw|
    requires LatestUser(states[i].raw) == Some(k) || k >= RecentStart(states[i].raw, p.recentReserve)
    ensures var c := Request(env, p, states[i], events[i]).value;
            var at := k - CoveredAfter(c) + if c.summary.Some? then 1 else 0;
            0 <= at < |c.messages| && c.messages[at] == states[i].raw[k]
  {
    hide Request, Good, ProjectAll, LatestUser, RecentStart;
    var s, c := states[i], Request(env, p, states[i], events[i]).value;
    RunKeepsGood(env, p, states, events, i);
    RunKeepsGood(env, p, states, events, i + 1);
    RequestIsOk(env, p, s, events[i]);
    GoodLeaves(env, p, states[i + 1], k);
    assert states[i + 1].raw == s.raw && states[i + 1].summary == c.summary;
    KeptInPlace(env, p, s.raw, c.summary, k);
  }

  lemma GoodLeaves(env: Env, p: Policy, s: State, k: nat)
    requires p.recentReserve >= 0 && Good(env, p, s) && k < |s.raw|
    requires LatestUser(s.raw) == Some(k) || k >= RecentStart(s.raw, p.recentReserve)
    ensures CoveredBy(s) <= k && CoveredBy(s) <= RecentStart(s.raw, p.recentReserve)
  {}

  /** Projection leaves user messages and recent messages alone. */
  lemma KeptInPlace(env: Env, p: Policy, raw: seq<Message>, summary: Option<Summary>, k: nat)
    requires p.recentReserve >= 0 && k < |raw|
    requires raw[k].role == User || k >= RecentStart(raw, p.recentReserve)
    requires summary.Some? ==> summary.value.covered <= k && summary.value.covered <= RecentStart(raw, p.recentReserve)
    ensures var at := if summary.Some? then k - summary.value.covered + 1 else k;
            var sent := ProjectAll(env, p, WithPrevious(raw, summary));
            at < |sent| && sent[at] == raw[k]
  {
    var at, candidate := if summary.Some? then k - summary.value.covered + 1 else k, WithPrevious(raw, summary);
    assert candidate[at] == raw[k];
    assert !Oversized(p, candidate, at);
  }

  /** The newest message that says the objective has not been summarized. */
  ghost predicate ObjectiveStays(s: State, objective: string) {
    forall k: nat :: IsNewestSaying(s.raw, objective, k) ==> CoveredBy(s) <= k
  }

  /** A request drops no message that is among the last `recentReserve`, is the newest of the user, is the newest
      that says the objective, or belongs to a call without all its results. */
  lemma RequestKeeps(env: Env, p: Policy, s: State, e: Event, k: nat)
    requires p.recentReserve >= 0 && Good(env, p, s) && e.Prepare? && Request(env, p, s, e).Ok? && k < |s.raw|
    requires || k + p.recentReserve >= |s.raw|
             || (s.raw[k].role == User && forall l :: k < l < |s.raw| ==> s.raw[l].role != User)
             || (e.objective != "" && IsNewestSaying(s.raw, e.objective, k))
             || exists a: nat, b: nat :: IsUnit(s.raw, a, b) && Unanswered(s.raw, a, b) && a <= k < b
    ensures !(CoveredBy(s) <= k < CoveredAfter(Request(env, p, s, e).value))
  {
    hide Request, Good, IsUnit, Unanswered, IsNewestSaying, Required;
    RequestIsOk(env, p, s, e);
    RequiredExactly(s.raw, e.objective, k);
    assert !MayGo(p, s.raw, Required(s.raw, e.objective), k);
  }

  /** In every run whose requests have one objective, its newest message is never summarized. */
  lemma {:induction false} RunKeepsObjective(env: Env, p: Policy, states: seq<State>, events: seq<Event>,
                                             objective: string, i: nat)
    requires p.recentReserve >= 0 && IsRun(env, p, states, events) && i < |states| && objective != ""
    requires forall j :: 0 <= j < |events| && events[j].Prepare? ==> events[j].objective == objective
    ensures ObjectiveStays(states[i], objective)
  {
    hide Good, Request;
    if i > 0 {
      var s, e := states[i - 1], events[i - 1];
      RunKeepsObjective(env, p, states, events, objective, i - 1);
      RunKeepsGood(env, p, states, events, i - 1);
      if e.Append? {
        AppendKeepsObjective(env, p, s, e.more, objective);
      } else {
        forall k: nat | IsNewestSaying(s.raw, objective, k) ensures CoveredBy(states[i]) <= k {
          if Request(env, p, s, e).Ok? { RequestKeeps(env, p, s, e, k); }
        }
      }
    }
  }

  lemma AppendKeepsObjective(env: Env, p: Policy, s: State, more: seq<Message>, objective: string)
    requires p.recentReserve >= 0 && Good(env, p, s) && ObjectiveStays(s, objective)
    ensures ObjectiveStays(s.(raw := s.raw + more), objective)
  {
    forall k: nat | IsNewestSaying(s.raw + more, objective, k) ensures CoveredBy(s) <= k {
      if k < |s.raw| {
        forall l | k < l < |s.raw| ensures !(s.raw[l].role == User && s.raw[l].content == objective) {
          assert (s.raw + more)[l] == s.raw[l];
        }
        assert IsNewestSaying(s.raw, objective, k);
      }
    }
  }

  /** So every request of such a run carries that message, unchanged. */
  lemma SentKeepsObjective(env: Env, p: Policy, states: seq<State>, events: seq<Event>, i: nat, k: nat)
    requires p.recentReserve >= 0 && IsRun(env, p, states, events) && i < |events| && events[i].Prepare?
    requires events[i].objective != ""
    requires forall j :: 0 <= j < |events| && events[j].Prepare? ==> events[j].objective == events[i].objective
    requires Request(env, p, states[i], events[i]).Ok? && IsNewestSaying(states[i].raw, events[i].objective, k)
    ensures var c := Request(env, p, states[i], events[i]).value;
            var at := k - CoveredAfter(c) + if c.summary.Some? then 1 else 0;
            0 <= at < |c.messages| && c.messages[at] == states[i].raw[k]
  {
    hide Request, Good, ProjectAll, RecentStart;
    var s, c := states[i], Request(env, p, states[i], events[i]).value;
    RunKeepsGood(env, p, states, events, i);
    RunKeepsGood(env, p, states, events, i + 1);
    RunKeepsObjective(env, p, states, events, events[i].objective, i + 1);
    RequestIsOk(env, p, s, events[i]);
    assert states[i + 1].raw == s.raw && states[i + 1].summary == c.summary;
    GoodEnds(env, p, states[i + 1]);
    KeptInPlace(env, p, s.raw, c.summary, k);
  }

  lemma GoodEnds(env: Env, p: Policy, s: State)
    requires p.recentReserve >= 0 && Good(env, p, s)
    ensures s.summary.Some? ==> CoveredBy(s) <= RecentStart(s.raw, p.recentReserve)
  {}

  // ---- The conversations the turn loop builds ----

  /** One turn: the assistant's message and results of its own calls, in any order. `answers` tells which
      call each result is for; no call has two results, but two calls may carry the same id. */
  ghost predicate IsTurn(turn: seq<Message>, answers: seq<nat>) {
    && turn != [] && turn[0].role == Assistant && |answers| == |turn| - 1
    && (forall k :: 1 <= k < |turn| ==> turn[k].role == Tool && turn[k].toolCalls == [])
    && (forall k :: 0 <= k < |answers| ==> IsResultOf(turn, k + 1, answers[k]))
    && (forall k, l :: 0 <= k < l < |answers| ==> answers[k] != answers[l])
  }

  ghost predicate IsResultOf(turn: seq<Message>, k: nat, j: nat)
    requires k < |turn|
  {
    j < |turn[0].toolCalls| && turn[0].toolCalls[j].id == OrEmpty(turn[k].toolCallId)
  }

  /** The calls have nonempty ids that differ from each other and from every call issued before. */
  ghost predicate FreshIds(raw: seq<Message>, calls: seq<ToolCall>) {
    && (forall j :: 0 <= j < |calls| ==> calls[j].id != "" && forall i, l :: !Issues(raw, i, l, calls[j].id))
    && (forall j, l :: 0 <= j < l < |calls| ==> calls[j].id != calls[l].id)
  }

  /** A turn keeps the conversation within the protocol if and only if its call ids are fresh. */
  lemma TurnKeepsProtocol(raw: seq<Message>, turn: seq<Message>, answers: seq<nat>)
    requires Protocol(raw) && IsTurn(turn, answers)
    ensures Protocol(raw + turn) <==> FreshIds(raw, turn[0].toolCalls)
    ensures AssistantsCall(raw) ==> AssistantsCall(raw + turn)
  {
    if FreshIds(raw, turn[0].toolCalls) {
      FreshTurnKeepsProtocol(raw, turn, answers);
    }
    if Protocol(raw + turn) {
      ProtocolMeansFresh(raw, turn, answers);
    }
    forall i | 0 <= i < |raw + turn| && (raw + turn)[i].toolCalls != [] && AssistantsCall(raw)
      ensures (raw + turn)[i].role == Assistant
    {
      if i >= |raw| { assert (raw + turn)[i] == turn[i - |raw|]; } else { assert (raw + turn)[i] == raw[i]; }
    }
  }

  lemma FreshTurnKeepsProtocol(raw: seq<Message>, turn: seq<Message>, answers: seq<nat>)
    requires Protocol(raw) && IsTurn(turn, answers) && FreshIds(raw, turn[0].toolCalls)
    ensures Protocol(raw + turn)
  {
    var all, n := raw + turn, |raw|;
    forall i, j, id ensures Issues(all, i, j, id) <==> Issues(raw, i, j, id) || (i == n && Issues(turn, 0, j, id)) {}
    forall k, id ensures Answers(all, k, id) <==> Answers(raw, k, id) || (k > n && Answers(turn, k - n, id)) {}
    forall k, id | Answers(all, k, id) ensures id != "" && IssuedBefore(all, k, id) {
      if Answers(raw, k, id) {
        assert IssuedBefore(raw, k, id);
        var i, j :| i < k && Issues(raw, i, j, id);
        assert Issues(all, i, j, id);
      } else {
        assert IsResultOf(turn, k - n, answers[k - n - 1]);
        assert Issues(all, n, answers[k - n - 1], id);
      }
    }
    forall k, k', id | Answers(all, k, id) && Answers(all, k', id) ensures k == k' {
      AnswersApart(raw, turn, answers, k, k', id);
      AnswersApart(raw, turn, answers, k', k, id);
      if k > n && k' > n {
        assert IsResultOf(turn, k - n, answers[k - n - 1]) && IsResultOf(turn, k' - n, answers[k' - n - 1]);
      }
    }
  }

  /** What a result of the turn answers was not issued before it. */
  lemma AnsweredIsNew(raw: seq<Message>, turn: seq<Message>, answers: seq<nat>, k: int, id: string)
    requires IsTurn(turn, answers) && FreshIds(raw, turn[0].toolCalls) && k > 0 && Answers(turn, k, id)
    ensures forall i, j :: !Issues(raw, i, j, id)
  {
    assert IsResultOf(turn, k, answers[k - 1]);
  }

  lemma AnswersApart(raw: seq<Message>, turn: seq<Message>, answers: seq<nat>, k: int, l: int, id: string)
    requires Protocol(raw) && IsTurn(turn, answers) && FreshIds(raw, turn[0].toolCalls)
    ensures !(Answers(raw, k, id) && l > |raw| && Answers(turn, l - |raw|, id))
  {
    assert Answers(raw, k, id) ==> IssuedBefore(raw, k, id);
    if l > |raw| && Answers(turn, l - |raw|, id) { AnsweredIsNew(raw, turn, answers, l - |raw|, id); }
  }

  lemma ProtocolMeansFresh(raw: seq<Message>, turn: seq<Message>, answers: seq<nat>)
    requires IsTurn(turn, answers) && Protocol(raw + turn)
    ensures FreshIds(raw, turn[0].toolCalls)
  {
    var all, n, calls := raw + turn, |raw|, turn[0].toolCalls;
    assert all[n] == turn[0];
    forall j | 0 <= j < |calls| ensures Issues(all, n, j, calls[j].id) {}
    forall i, l, id | Issues(raw, i, l, id) ensures Issues(all, i, l, id) {}
  }
}
