/** Building and fitting the context of one model request (`src/axiom/context.py:80-134` and `:221-582`).
    The token estimate, the fingerprint, the summary text and the text of a projected tool result are
    parameters. */
module ContextBudget {
  import opened Wrappers
  import opened Messages
  import opened ContextUnits

  const DEFAULT_UNKNOWN_MODEL_CONTEXT_WINDOW := 64000

  // ---- The policy ----

  datatype Policy = Policy(window: int, reservedOutput: int, highWatermark: real, target: real, recentReserve: int,
                           hardInputLimit: Option<int>, maxToolResultChars: int, compactionEnabled: bool)

  datatype PolicyError = BadReserve | BadHighWatermark | BadTarget | BadRecentReserve | BadHardLimit | BadToolChars

  function Normalized(p: Policy): Result<Policy, PolicyError> {
    var window := if p.window <= 0 then DEFAULT_UNKNOWN_MODEL_CONTEXT_WINDOW else p.window;
    var usable := window - p.reservedOutput;
    var hard := match p.hardInputLimit case None => usable case Some(limit) => limit;
    if p.reservedOutput < 0 || p.reservedOutput >= window then Err(BadReserve)
    else if !(0.0 < p.highWatermark <= 1.0) then Err(BadHighWatermark)
    else if !(0.0 < p.target < p.highWatermark) then Err(BadTarget)
    else if p.recentReserve < 0 then Err(BadRecentReserve)
    else if hard <= 0 || hard > usable then Err(BadHardLimit)
    else if p.maxToolResultChars < 200 then Err(BadToolChars)
    else Ok(p.(window := window, hardInputLimit := Some(hard)))
  }

  /** A policy as `normalized` leaves it. */
  predicate IsNormal(p: Policy) {
    Normalized(p) == Ok(p)
  }

  function UsableInput(p: Policy): int {
    p.window - p.reservedOutput
  }

  function HighWatermarkTokens(p: Policy): int {
    (UsableInput(p) as real * p.highWatermark).Floor
  }

  function HardLimit(p: Policy): int {
    match p.hardInputLimit case Some(limit) => if limit != 0 then limit else UsableInput(p) case None => UsableInput(p)
  }

  /** Normalizing is idempotent, and a normal policy leaves room for the reserved output below the hard
      limit and compacts no later than the usable input is full. */
  lemma NormalPolicies(p: Policy)
    ensures Normalized(p).Ok? ==> IsNormal(Normalized(p).value)
    ensures IsNormal(p) ==> 0 < HardLimit(p) && HardLimit(p) + p.reservedOutput <= p.window
    ensures IsNormal(p) ==> 0 <= HighWatermarkTokens(p) <= UsableInput(p)
  {
    if IsNormal(p) {
      var u := UsableInput(p) as real;
      assert 0.0 <= u * p.highWatermark <= u * 1.0;
    }
  }

  /** Exactly the policies that leave room, compact before the input is full and to a lower target are
      accepted. An absent window is that of an unknown model. */
  lemma NormalizedExactly(p: Policy)
    ensures var window := if p.window <= 0 then 64000 else p.window;
            Normalized(p).Ok? <==>
              && 0 <= p.reservedOutput < window
              && 0.0 < p.target < p.highWatermark <= 1.0
              && p.recentReserve >= 0 && p.maxToolResultChars >= 200
              && (p.hardInputLimit.Some? ==> 0 < p.hardInputLimit.value <= window - p.reservedOutput)
    ensures Normalized(p).Ok? ==>
              Normalized(p).value.window == (if p.window <= 0 then 64000 else p.window)
              && HardLimit(Normalized(p).value) ==
                 match p.hardInputLimit
                 case Some(limit) => limit
                 case None => Normalized(p).value.window - p.reservedOutput
  {}

  // ---- What the model request is made from ----

  datatype Summary = Summary(text: string, covered: nat, fingerprint: string)

  datatype Env = Env(
    estimate: (seq<Message>, string, string) -> nat,
    fingerprint: seq<Message> -> string,
    summarize: (seq<Message>, Option<Summary>, string) -> string,
    projection: (Message, seq<Message>) -> string)

  datatype Desired = Desired(messages: seq<Message>, systemPrompt: string, tools: string, objective: string,
                             previous: Option<Summary>, required: set<nat>)

  datatype Compaction = Compaction(messages: seq<Message>, compacted: bool, trigger: Option<string>,
                                   before: nat, after: nat, compactedCount: nat, preservedCount: nat,
                                   projected: nat, summary: Option<Summary>, reused: bool)

  datatype BudgetExceeded = BudgetExceeded(estimated: nat, limit: int)

  // ---- ContextBuilder ----

  function ValidPrevious(env: Env, ms: seq<Message>, previous: Option<Summary>): (r: Option<Summary>)
    ensures r.Some? ==> r == previous
    ensures r.Some? <==> previous.Some? && 0 < previous.value.covered <= |ms|
                         && env.fingerprint(ms[..previous.value.covered]) == previous.value.fingerprint
  {
    match previous
    case None => None
    case Some(s) =>
      if s.covered <= 0 || s.covered > |ms| then None
      else if env.fingerprint(ms[..s.covered]) == s.fingerprint then previous else None
  }

  function LatestUserSaying(ms: seq<Message>, text: string): (r: Option<nat>)
    ensures r.Some? ==> r.value < |ms| && ms[r.value].role == User && ms[r.value].content == text
    ensures forall k :: 0 <= k < |ms| && ms[k].role == User && ms[k].content == text ==> r.Some? && k <= r.value
  {
    if ms == [] then None
    else if ms[|ms| - 1].role == User && ms[|ms| - 1].content == text then Some(|ms| - 1)
    else LatestUserSaying(ms[..|ms| - 1], text)
  }

  function Indexes(o: Option<nat>): set<nat> {
    match o case None => {} case Some(i) => {i}
  }

  function Range(a: nat, b: nat): (r: set<nat>)
    ensures forall k :: k in r <==> a <= k < b
  {
    if a >= b then {} else Range(a, b - 1) + {b - 1}
  }

  function PendingIndexes(units: seq<Unit>): set<nat> {
    if units == [] then {}
    else PendingIndexes(units[..|units| - 1])
         + if units[|units| - 1].pending then Range(units[|units| - 1].start, units[|units| - 1].end) else {}
  }

  function Required(ms: seq<Message>, objective: string): set<nat> {
    Indexes(LatestUser(ms)) + (if objective == "" then {} else Indexes(LatestUserSaying(ms, objective)))
    + PendingIndexes(UnitsFrom(ms, 0))
  }

  method RequiredMessageIndexes(ms: seq<Message>, objective: string) returns (required: set<nat>)
    ensures required == Required(ms, objective)
  {
    hide LatestUser, LatestUserSaying;
    required := Indexes(LatestUser(ms));
    if objective != "" {
      var said := FindObjective(ms, objective);
      required := required + Indexes(said);
    }
    var units := MessageUnits(ms);
    ghost var base := required;
    for i := 0 to |units|
      invariant required == base + PendingIndexes(units[..i])
    {
      assert units[..i + 1][..i] == units[..i];
      if units[i].pending { required := required + Range(units[i].start, units[i].end); }
    }
    assert units[..|units|] == units;
  }

  method FindObjective(ms: seq<Message>, objective: string) returns (found: Option<nat>)
    ensures found == LatestUserSaying(ms, objective)
  {
    var index := |ms|;
    assert ms[..index] == ms;
    while index > 0
      invariant 0 <= index <= |ms|
      invariant LatestUserSaying(ms, objective) == LatestUserSaying(ms[..index], objective)
    {
      index := index - 1;
      assert ms[..index + 1][..index] == ms[..index];
      if ms[index].role == User && ms[index].content == objective { return Some(index); }
    }
    return None;
  }

  function Build(env: Env, ms: seq<Message>, systemPrompt: string, tools: string, objective: string,
                 previous: Option<Summary>): Desired
  {
    Desired(ms, systemPrompt, tools, objective, ValidPrevious(env, ms, previous), Required(ms, objective))
  }

  // ---- ContextBudget.fit ----

  function SummaryMessage(s: Summary): Message {
    Message(System, s.text, None, None, [])
  }

  function WithPrevious(ms: seq<Message>, previous: Option<Summary>): seq<Message>
    requires previous.Some? ==> previous.value.covered <= |ms|
  {
    match previous case None => ms case Some(s) => [SummaryMessage(s)] + ms[s.covered..]
  }

  predicate Oversized(p: Policy, ms: seq<Message>, i: nat)
    requires i < |ms| && p.recentReserve >= 0
  {
    ms[i].role == Tool && i < RecentStart(ms, p.recentReserve) && |ms[i].content| > p.maxToolResultChars
  }

  /** The message at `i` after projection: only the text of a long tool result outside the recent reserve changes. */
  function Projected(env: Env, p: Policy, ms: seq<Message>, i: nat): Message
    requires i < |ms| && p.recentReserve >= 0
  {
    if Oversized(p, ms, i) then ms[i].(content := env.projection(ms[i], ms)) else ms[i]
  }

  function ProjectAll(env: Env, p: Policy, ms: seq<Message>): seq<Message>
    requires p.recentReserve >= 0
  {
    seq(|ms|, i requires 0 <= i < |ms| => Projected(env, p, ms, i))
  }

  function CountOversized(p: Policy, ms: seq<Message>, n: nat): nat
    requires n <= |ms| && p.recentReserve >= 0
  {
    if n == 0 then 0 else CountOversized(p, ms, n - 1) + if Oversized(p, ms, n - 1) then 1 else 0
  }

  /** The tool results that are too long, except among the last `recentReserve` messages. */
  ghost function TooLong(p: Policy, ms: seq<Message>): set<int> {
    set i | 0 <= i < |ms| && ms[i].role == Tool && i + p.recentReserve < |ms| && |ms[i].content| > p.maxToolResultChars
  }

  ghost predicate IsShortened(env: Env, p: Policy, ms: seq<Message>, result: seq<Message>) {
    && |result| == |ms|
    && forall i :: 0 <= i < |ms| ==>
         result[i] == if i in TooLong(p, ms) then ms[i].(content := env.projection(ms[i], ms)) else ms[i]
  }

  lemma Shortens(env: Env, p: Policy, ms: seq<Message>)
    requires p.recentReserve >= 0
    ensures IsShortened(env, p, ms, ProjectAll(env, p, ms))
  {}

  lemma {:induction false} CountTooLong(p: Policy, ms: seq<Message>, n: nat, places: set<int>)
    requires p.recentReserve >= 0 && n <= |ms|
    requires forall i :: i in places <==> i in TooLong(p, ms) && i < n
    ensures CountOversized(p, ms, n) == |places|
  {
    if n == 0 {
      assert forall i :: i !in places;
      assert places == {};
    } else {
      CountTooLong(p, ms, n - 1, places - {n - 1});
      assert n - 1 in places ==> places == (places - {n - 1}) + {n - 1};
      assert n - 1 !in places ==> places == places - {n - 1};
    }
  }

  method ProjectOversizedHistoricalTools(env: Env, p: Policy, ms: seq<Message>)
    returns (result: seq<Message>, projected: nat)
    requires p.recentReserve >= 0
    ensures result == ProjectAll(env, p, ms) && projected == CountOversized(p, ms, |ms|)
    ensures IsShortened(env, p, ms, result)
    ensures projected == |TooLong(p, ms)|
  {
    Shortens(env, p, ms);
    CountTooLong(p, ms, |ms|, TooLong(p, ms));
    hide IsShortened, TooLong, Projected, CountOversized, ProjectAll;
    NoneOversized(p, ms);
    var recentStart := if |ms| >= p.recentReserve then |ms| - p.recentReserve else 0;
    projected := 0;
    result := [];
    for index := 0 to |ms|
      invariant |result| == index && forall k :: 0 <= k < index ==> result[k] == Projected(env, p, ms, k)
      invariant projected == CountOversized(p, ms, index)
    {
      ProjectStep(env, p, ms, index);
      var copied := ms[index];
      if copied.role == Tool && index < recentStart && |copied.content| > p.maxToolResultChars {
        copied := copied.(content := env.projection(copied, ms));
        projected := projected + 1;
      }
      result := result + [copied];
    }
    AllProjected(env, p, ms, result);
  }

  lemma NoneOversized(p: Policy, ms: seq<Message>)
    requires p.recentReserve >= 0
    ensures CountOversized(p, ms, 0) == 0
  {}

  lemma ProjectStep(env: Env, p: Policy, ms: seq<Message>, i: nat)
    requires i < |ms| && p.recentReserve >= 0
    ensures var oversized := ms[i].role == Tool && i < RecentStart(ms, p.recentReserve)
                             && |ms[i].content| > p.maxToolResultChars;
            && Projected(env, p, ms, i) == (if oversized then ms[i].(content := env.projection(ms[i], ms)) else ms[i])
            && CountOversized(p, ms, i + 1) == CountOversized(p, ms, i) + if oversized then 1 else 0
  {}

  lemma AllProjected(env: Env, p: Policy, ms: seq<Message>, result: seq<Message>)
    requires p.recentReserve >= 0 && |result| == |ms|
    requires forall k :: 0 <= k < |ms| ==> result[k] == Projected(env, p, ms, k)
    ensures result == ProjectAll(env, p, ms)
  {
    hide Projected;
  }

  function LatestUserText(ms: seq<Message>): string {
    match LatestUser(ms) case None => "" case Some(i) => ms[i].content
  }

  function NewSummary(env: Env, d: Desired, covered: nat, end: nat): Summary
    requires covered <= end <= |d.messages|
  {
    var objective := if d.objective != "" then d.objective else LatestUserText(d.messages);
    Summary(env.summarize(d.messages[covered..end], d.previous, objective), end, env.fingerprint(d.messages[..end]))
  }

  function Covered(d: Desired): nat {
    match d.previous case None => 0 case Some(s) => s.covered
  }

  ghost predicate Fits(d: Desired) {
    Covered(d) <= |d.messages|
  }

  /** `fit`: project long tool results; at the high watermark also drop what is eligible. */
  method Fit(env: Env, p: Policy, d: Desired) returns (r: Result<Compaction, BudgetExceeded>)
    requires p.recentReserve >= 0 && Fits(d)
    ensures r == FitSpec(env, p, d)
    ensures var limit := if p.hardInputLimit.Some? && p.hardInputLimit.value != 0
                         then p.hardInputLimit.value else p.window - p.reservedOutput;
            exists c :: IsFitted(env, p, d, c)
                        && r == if c.after > limit then Err(BudgetExceeded(c.after, limit)) else Ok(c)
  {
    FittingSpelledOut(env, p, d);
    hide IsFitted, Fitting;
    r := FitOnce(env, p, d);
  }

  method FitOnce(env: Env, p: Policy, d: Desired) returns (r: Result<Compaction, BudgetExceeded>)
    requires p.recentReserve >= 0 && Fits(d)
    ensures r == FitSpec(env, p, d)
  {
    hide IsShortened, TooLong;
    hide ProjectAll, CountOversized, EligibleEnd, HighWatermarkTokens, HardLimit, WithPrevious, NewSummary;
    EligibleRange(p, d);
    var candidate := WithPrevious(d.messages, d.previous);
    var before := env.estimate(candidate, d.systemPrompt, d.tools);
    var projected: nat;
    candidate, projected := ProjectOversizedHistoricalTools(env, p, candidate);
    var tokens := env.estimate(candidate, d.systemPrompt, d.tools);
    var trigger: Option<string> := None;
    if projected > 0 { trigger := Some("oversized_tool_result"); }
    var full := tokens >= HighWatermarkTokens(p);
    if full { trigger := Some("high_watermark"); }
    if !full || !p.compactionEnabled {
      return Enforce(p, Compaction(candidate, false, trigger, before, tokens, 0, |candidate|, projected,
                                   d.previous, d.previous.Some?));
    }
    var covered := Covered(d);
    var compactEnd := EligiblePrefixEnd(d.messages, p.recentReserve, d.required, covered);
    if compactEnd <= covered {
      return Enforce(p, Compaction(candidate, false, Some("pinned_context"), before, tokens, 0, |candidate|, projected,
                                   d.previous, d.previous.Some?));
    }
    var summary := NewSummary(env, d, covered, compactEnd);
    var compacted := [SummaryMessage(summary)] + d.messages[compactEnd..];
    var newlyProjected: nat;
    compacted, newlyProjected := ProjectOversizedHistoricalTools(env, p, compacted);
    projected := projected + newlyProjected;
    var after := env.estimate(compacted, d.systemPrompt, d.tools);
    return Enforce(p, Compaction(compacted, true, Some("high_watermark"), before, after, compactEnd - covered,
                                 |d.messages| - (compactEnd - covered), projected, Some(summary), d.previous.Some?));
  }

  lemma EligibleRange(p: Policy, d: Desired)
    requires p.recentReserve >= 0 && Fits(d)
    ensures var end := EligibleEnd(d.messages, p.recentReserve, d.required, Covered(d));
            && Covered(d) <= end <= |d.messages|
            && (end > Covered(d) ==> end <= RecentStart(d.messages, p.recentReserve))
  {
    hide UnitsFrom, Eligible;
    EligibleIsWhole(d.messages, p.recentReserve, d.required, Covered(d), 0, Covered(d));
    var end := EligibleEnd(d.messages, p.recentReserve, d.required, Covered(d));
    if end > Covered(d) {
      WholeUnitsLeave(d.messages, p.recentReserve, d.required, Covered(d), end, end - 1);
    }
  }

  function Enforce(p: Policy, c: Compaction): Result<Compaction, BudgetExceeded> {
    if c.after > HardLimit(p) then Err(BudgetExceeded(c.after, HardLimit(p))) else Ok(c)
  }

  function FitSpec(env: Env, p: Policy, d: Desired): Result<Compaction, BudgetExceeded>
    requires p.recentReserve >= 0 && Fits(d)
  {
    Enforce(p, Fitting(env, p, d))
  }

  /** What is sent if it is within the hard limit. */
  function Fitting(env: Env, p: Policy, d: Desired): Compaction
    requires p.recentReserve >= 0 && Fits(d)
  {
    var candidate := WithPrevious(d.messages, d.previous);
    var projected, count := ProjectAll(env, p, candidate), CountOversized(p, candidate, |candidate|);
    var before := env.estimate(candidate, d.systemPrompt, d.tools);
    var tokens := env.estimate(projected, d.systemPrompt, d.tools);
    var full := tokens >= HighWatermarkTokens(p);
    var end := EligibleEnd(d.messages, p.recentReserve, d.required, Covered(d));
    EligibleRange(p, d);
    if full && p.compactionEnabled && end > Covered(d) then
      var summary := NewSummary(env, d, Covered(d), end);
      var compacted := [SummaryMessage(summary)] + d.messages[end..];
      Compaction(
        ProjectAll(env, p, compacted), true, Some("high_watermark"), before,
        env.estimate(ProjectAll(env, p, compacted), d.systemPrompt, d.tools),
        end - Covered(d), |d.messages| - (end - Covered(d)),
        count + CountOversized(p, compacted, |compacted|), Some(summary), d.previous.Some?)
    else
      var trigger :=
        if full then Some(if p.compactionEnabled then "pinned_context" else "high_watermark")
        else if count > 0 then Some("oversized_tool_result") else None;
      Compaction(projected, false, trigger, before, tokens,
                 0, |projected|, count, d.previous, d.previous.Some?)
  }

  // ---- The request spelled out ----

  /** The objective for the summary: the one given, or the text of the newest user message. */
  ghost predicate IsObjective(d: Desired, text: string) {
    if d.objective != "" then text == d.objective
    else
      && (forall k :: 0 <= k < |d.messages| && d.messages[k].role == User
                      && (forall l :: k < l < |d.messages| ==> d.messages[l].role != User) ==>
            text == d.messages[k].content)
      && ((forall k :: 0 <= k < |d.messages| ==> d.messages[k].role != User) ==> text == "")
  }

  /** The summary goes on from the covered messages to the first unit that must stay; it is sent before the
      rest, in which long old tool results are shortened. */
  ghost predicate IsCompacted(env: Env, p: Policy, d: Desired, covered: nat, projected: nat, c: Compaction)
    requires p.recentReserve >= 0
  {
    && c.summary.Some?
    && var s := c.summary.value;
    && IsEligibleEnd(d.messages, p.recentReserve, d.required, covered, s.covered)
    && (exists text ::
          IsObjective(d, text) && s.text == env.summarize(d.messages[covered..s.covered], d.previous, text))
    && s.fingerprint == env.fingerprint(d.messages[..s.covered])
    && c.trigger == Some("high_watermark")
    && c.compactedCount == s.covered - covered && c.preservedCount == |d.messages| - c.compactedCount
    && var kept := [Message(System, s.text, None, None, [])] + d.messages[s.covered..];
    && IsShortened(env, p, kept, c.messages)
    && c.projected == projected + |TooLong(p, kept)|
  }

  /** The request compacts if and only if the high watermark is reached, compaction is enabled, and the unit
      behind the covered messages need not stay. */
  ghost predicate IsFittedFrom(env: Env, p: Policy, d: Desired, covered: nat, whole: seq<Message>,
                               shortened: seq<Message>, full: bool, c: Compaction)
    requires p.recentReserve >= 0
  {
    && c.before == env.estimate(whole, d.systemPrompt, d.tools)
    && c.after == env.estimate(c.messages, d.systemPrompt, d.tools)
    && c.reused == d.previous.Some?
    && (c.compacted <==> full && p.compactionEnabled && exists b: nat ::
          IsUnit(d.messages, covered, b) && !Stays(d.messages, p.recentReserve, d.required, covered, b))
    && if c.compacted then IsCompacted(env, p, d, covered, |TooLong(p, whole)|, c)
       else
         && c.messages == shortened && c.summary == d.previous
         && c.compactedCount == 0 && c.preservedCount == |whole| && c.projected == |TooLong(p, whole)|
         && c.trigger == (if full && p.compactionEnabled then Some("pinned_context")
                          else if full then Some("high_watermark")
                          else if c.projected > 0 then Some("oversized_tool_result") else None)
  }

  /** `whole` stands for the conversation, and `shortened` is it with long old tool results shortened: its
      estimate is compared with the high watermark. */
  ghost predicate IsFitted(env: Env, p: Policy, d: Desired, c: Compaction)
    requires p.recentReserve >= 0 && (d.previous.Some? ==> d.previous.value.covered <= |d.messages|)
  {
    var covered := if d.previous.Some? then d.previous.value.covered else 0;
    var whole := if d.previous.Some?
                 then [Message(System, d.previous.value.text, None, None, [])] + d.messages[covered..] else d.messages;
    exists shortened ::
      var full := env.estimate(shortened, d.systemPrompt, d.tools)
                  >= ((p.window - p.reservedOutput) as real * p.highWatermark).Floor;
      IsShortened(env, p, whole, shortened) && IsFittedFrom(env, p, d, covered, whole, shortened, full, c)
  }

  lemma ObjectiveSpelledOut(d: Desired)
    ensures IsObjective(d, if d.objective != "" then d.objective else LatestUserText(d.messages))
  {}

  lemma CompactedSpelledOut(env: Env, p: Policy, d: Desired, covered: nat, end: nat, projected: nat, c: Compaction)
    requires p.recentReserve >= 0 && covered <= end <= |d.messages|
    requires IsEligibleEnd(d.messages, p.recentReserve, d.required, covered, end)
    requires c.summary == Some(NewSummary(env, d, covered, end))
    requires var compacted := [SummaryMessage(c.summary.value)] + d.messages[end..];
             && c.messages == ProjectAll(env, p, compacted)
             && c.projected == projected + CountOversized(p, compacted, |compacted|)
    requires c.trigger == Some("high_watermark")
             && c.compactedCount == end - covered && c.preservedCount == |d.messages| - c.compactedCount
    ensures IsCompacted(env, p, d, covered, projected, c)
  {
    hide IsEligibleEnd, IsObjective, TooLong, ProjectAll, IsShortened;
    ObjectiveSpelledOut(d);
    var compacted := [SummaryMessage(c.summary.value)] + d.messages[end..];
    Shortens(env, p, compacted);
    CountAll(p, compacted);
  }

  lemma CountAll(p: Policy, ms: seq<Message>)
    requires p.recentReserve >= 0
    ensures CountOversized(p, ms, |ms|) == |TooLong(p, ms)|
  {
    CountTooLong(p, ms, |ms|, TooLong(p, ms));
  }

  lemma FittingSpelledOut(env: Env, p: Policy, d: Desired)
    requires p.recentReserve >= 0 && Fits(d)
    ensures IsFitted(env, p, d, Fitting(env, p, d))
  {
    hide ProjectAll, IsShortened, TooLong, IsFittedFrom, Fitting;
    var whole := WithPrevious(d.messages, d.previous);
    Shortens(env, p, whole);
    FittingFrom(env, p, d, whole);
  }

  lemma FittingFrom(env: Env, p: Policy, d: Desired, whole: seq<Message>)
    requires p.recentReserve >= 0 && Fits(d) && whole == WithPrevious(d.messages, d.previous)
    ensures var shortened := ProjectAll(env, p, whole);
            IsFittedFrom(env, p, d, Covered(d), whole, shortened,
                         env.estimate(shortened, d.systemPrompt, d.tools) >= HighWatermarkTokens(p), Fitting(env, p, d))
  {
    assert |ProjectAll(env, p, whole)| == |whole|;
    hide ProjectAll, EligibleEnd, TooLong, NewSummary, IsEligibleEnd, IsUnit, Stays, IsCompacted, WithPrevious,
         CountOversized, IsShortened, HighWatermarkTokens;
    EligibleRange(p, d);
    EligibleExactly(d.messages, p.recentReserve, d.required, Covered(d));
    CountAll(p, whole);
    var c, end := Fitting(env, p, d), EligibleEnd(d.messages, p.recentReserve, d.required, Covered(d));
    if c.compacted { CompactedSpelledOut(env, p, d, Covered(d), end, |TooLong(p, whole)|, c); }
  }

  /** What is to be sent is determined by that. */
  lemma FittedIsUnique(env: Env, p: Policy, d: Desired, c: Compaction, c': Compaction)
    requires p.recentReserve >= 0 && (d.previous.Some? ==> d.previous.value.covered <= |d.messages|)
    requires IsFitted(env, p, d, c) && IsFitted(env, p, d, c')
    ensures c == c'
  {
    hide IsShortened, IsUnit, Stays, IsCompacted, TooLong;
    var covered := if d.previous.Some? then d.previous.value.covered else 0;
    var whole := if d.previous.Some?
                 then [Message(System, d.previous.value.text, None, None, [])] + d.messages[covered..] else d.messages;
    forall s, s' | IsShortened(env, p, whole, s) && IsShortened(env, p, whole, s') ensures s == s' {
      ShortenedIsUnique(env, p, whole, s, s');
    }
    if c.compacted { CompactedIsUnique(env, p, d, covered, |TooLong(p, whole)|, c, c'); }
  }

  lemma ShortenedIsUnique(env: Env, p: Policy, ms: seq<Message>, s: seq<Message>, s': seq<Message>)
    requires IsShortened(env, p, ms, s) && IsShortened(env, p, ms, s')
    ensures s == s'
  {}

  lemma CompactedIsUnique(env: Env, p: Policy, d: Desired, covered: nat, projected: nat, c: Compaction, c': Compaction)
    requires p.recentReserve >= 0
    requires IsCompacted(env, p, d, covered, projected, c) && IsCompacted(env, p, d, covered, projected, c')
    ensures c.summary == c'.summary && c.messages == c'.messages && c.projected == c'.projected
    ensures c.trigger == c'.trigger && c.compactedCount == c'.compactedCount && c.preservedCount == c'.preservedCount
  {
    hide IsShortened, NoneStays, IsUnit, IsCut, Stays, IsObjective, TooLong;
    var s, s' := c.summary.value, c'.summary.value;
    EligibleEndIsUnique(d.messages, p.recentReserve, d.required, covered, s.covered, s'.covered);
    var text :| IsObjective(d, text) && s.text == env.summarize(d.messages[covered..s.covered], d.previous, text);
    var text' :| IsObjective(d, text') && s'.text == env.summarize(d.messages[covered..s.covered], d.previous, text');
    ObjectiveIsUnique(d, text, text');
    var kept := [Message(System, s.text, None, None, [])] + d.messages[s.covered..];
    ShortenedIsUnique(env, p, kept, c.messages, c'.messages);
  }

  lemma ObjectiveIsUnique(d: Desired, text: string, text': string)
    requires IsObjective(d, text) && IsObjective(d, text')
    ensures text == text'
  {
    if d.objective == "" && LatestUser(d.messages).Some? {
      assert d.messages[LatestUser(d.messages).value].role == User;
    }
  }

  // ---- What is required, spelled out ----

  /** The newest user message that says `text`. */
  ghost predicate IsNewestSaying(ms: seq<Message>, text: string, k: nat) {
    && k < |ms| && ms[k].role == User && ms[k].content == text
    && forall l :: k < l < |ms| ==> !(ms[l].role == User && ms[l].content == text)
  }

  lemma {:induction false} PendingFrom(ms: seq<Message>, i: nat, k: nat)
    requires i <= |ms| && IsCut(ms, i)
    ensures k in PendingIndexes(UnitsFrom(ms, i)) <==>
              exists a: nat, b: nat :: i <= a && IsUnit(ms, a, b) && Unanswered(ms, a, b) && a <= k < b
    decreases |ms| - i
  {
    hide IsCut, Unanswered, UnitAt;
    if i < |ms| {
      var u := UnitAt(ms, i);
      UnitIsStretch(ms, i);
      PendingSpelledOut(ms, i);
      PendingFrom(ms, u.end, k);
      PendingCons(u, UnitsFrom(ms, u.end), k);
      if a: nat, b: nat :| i <= a && IsUnit(ms, a, b) && Unanswered(ms, a, b) && a <= k < b {
        if a == i { UnitIsUnique(ms, i, b); }
      }
    }
  }

  lemma {:induction false} PendingCons(u: Unit, units: seq<Unit>, k: nat)
    ensures k in PendingIndexes([u] + units) <==> (u.pending && u.start <= k < u.end) || k in PendingIndexes(units)
  {
    if units == [] {
      assert [u] + units == [u];
      assert [u][..0] == [];
    } else {
      PendingCons(u, units[..|units| - 1], k);
      assert ([u] + units)[..|units|] == [u] + units[..|units| - 1];
    }
  }

  /** Required are the newest user message, the newest one that says the objective, and every message of a
      unit that waits for results. */
  lemma RequiredExactly(ms: seq<Message>, objective: string, k: nat)
    ensures k in Required(ms, objective) <==>
              || (k < |ms| && ms[k].role == User && forall l :: k < l < |ms| ==> ms[l].role != User)
              || (objective != "" && IsNewestSaying(ms, objective, k))
              || exists a: nat, b: nat :: IsUnit(ms, a, b) && Unanswered(ms, a, b) && a <= k < b
  {
    hide PendingIndexes, UnitsFrom, Unanswered, IsUnit;
    assert IsCut(ms, 0);
    PendingFrom(ms, 0, k);
    if objective != "" && IsNewestSaying(ms, objective, k) { assert LatestUserSaying(ms, objective) == Some(k); }
    if k < |ms| && ms[k].role == User && forall l :: k < l < |ms| ==> ms[l].role != User {
      assert LatestUser(ms) == Some(k);
    }
  }
}
