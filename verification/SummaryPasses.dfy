/** Summary passes over a thread: which records a pass takes, the map rows and the reduce row it
    writes, and which summary it finds next time (`src/axiom/memory/service.py:392-503`, `:539-565`,
    `src/axiom/memory/store.py:273-360` and `:362-399`). */
module SummaryPasses {
  import opened Wrappers
  import opened Conversation

  const LIST_LIMIT := 1000
  const SUMMARY_LIMIT := 100

  datatype SummaryPolicy = SummaryPolicy(enabled: bool, thresholdMessages: int, mapChunkTokens: int,
                                         minimumUnsummarized: int, recentReserve: int)

  function Clamp(x: int, low: int, high: int): int {
    if x < low then low else if x > high then high else x
  }

  function Normalized(p: SummaryPolicy): SummaryPolicy {
    SummaryPolicy(p.enabled, Clamp(p.thresholdMessages, 2, 200), Clamp(p.mapChunkTokens, 50, 4000),
                  Clamp(p.minimumUnsummarized, 2, 100), Clamp(p.recentReserve, 0, 20))
  }

  datatype Stage = Map | Reduce

  /** A summary row. Its text is what a summarizer makes of `maps`: of the one segment of a map row, or
      of the map rows that a reduce row lists. A row's id is its position. */
  datatype Summary = Summary(stage: Stage, active: bool, version: int, start: int, end: int,
                             maps: seq<TurnSegment>, predecessor: Option<nat>, supersededBy: Option<nat>)

  /** The conversation and summary rows of a thread, oldest first. */
  datatype Thread = Thread(conversation: seq<Record>, summaries: seq<Summary>)

  // ---- Selecting ----

  function Newest<T>(xs: seq<T>, n: nat): seq<T> {
    if |xs| > n then xs[|xs| - n..] else xs
  }

  function After(rs: seq<Record>, covered: Option<int>): seq<Record> {
    if rs == [] then []
    else (if covered.None? || (rs[0].event.Some? && rs[0].event.value > covered.value) then [rs[0]] else [])
         + After(rs[1..], covered)
  }

  /** The records to summarize: those after the covered events, without the reserved newest ones. */
  function Eligible(conversation: seq<Record>, covered: Option<int>, reserve: int): seq<Record> {
    var open := After(Newest(conversation, LIST_LIMIT), covered);
    if reserve <= 0 then open
    else if |open| > reserve then open[..|open| - reserve]
    else []
  }

  /** Sorted by version, then by end; a later row wins a tie. */
  predicate Ranks(a: Summary, b: Summary) {
    a.version > b.version || (a.version == b.version && a.end > b.end)
  }

  function BestReduce(rows: seq<Summary>, low: nat, high: nat): (best: Option<nat>)
    requires low <= high <= |rows|
    ensures best.Some? ==> low <= best.value < high && rows[best.value].active && rows[best.value].stage == Reduce
  {
    if low == high then None
    else
      var best, row := BestReduce(rows, low, high - 1), rows[high - 1];
      if !row.active || row.stage != Reduce then best
      else if best.Some? && Ranks(rows[best.value], row) then best
      else Some(high - 1)
  }

  /** The active reduce row, among the rows from `low` on, of the greatest version, then of the greatest end, then
      written last. */
  ghost predicate IsBestFrom(rows: seq<Summary>, low: nat, high: nat, best: Option<nat>)
    requires high <= |rows|
  {
    match best
    case None => forall i :: low <= i < high ==> !(rows[i].active && rows[i].stage == Reduce)
    case Some(p) =>
      && low <= p < high && rows[p].active && rows[p].stage == Reduce
      && forall i :: low <= i < high && rows[i].active && rows[i].stage == Reduce ==>
           && rows[i].version <= rows[p].version
           && (rows[i].version == rows[p].version ==> rows[i].end <= rows[p].end)
           && (rows[i].version == rows[p].version && rows[i].end == rows[p].end ==> i <= p)
  }

  /** Only the newest 100 rows count. */
  ghost predicate IsBest(rows: seq<Summary>, best: Option<nat>) {
    IsBestFrom(rows, if |rows| > 100 then |rows| - 100 else 0, |rows|, best)
  }

  lemma {:induction false} BestFromExactly(rows: seq<Summary>, low: nat, high: nat)
    requires low <= high <= |rows|
    ensures IsBestFrom(rows, low, high, BestReduce(rows, low, high))
  {
    if low < high { BestFromExactly(rows, low, high - 1); }
  }

  lemma BestExactly(rows: seq<Summary>)
    ensures IsBest(rows, ActiveSummary(rows))
  {
    BestFromExactly(rows, if |rows| > 100 then |rows| - 100 else 0, |rows|);
  }

  /** The newest 100 summary rows are listed first, and only then the inactive and map rows left out. */
  function ActiveSummary(rows: seq<Summary>): (best: Option<nat>)
    ensures best.Some? ==> best.value < |rows| && rows[best.value].active && rows[best.value].stage == Reduce
  {
    BestReduce(rows, if |rows| > SUMMARY_LIMIT then |rows| - SUMMARY_LIMIT else 0, |rows|)
  }

  function Covered(rows: seq<Summary>): Option<int> {
    match ActiveSummary(rows) case None => None case Some(p) => Some(rows[p].end)
  }

  // ---- A pass ----

  /** The segments a pass maps; none when it has nothing to do. */
  function Plan(tokens: string -> nat, policy: SummaryPolicy, t: Thread): seq<TurnSegment> {
    var p := Normalized(policy);
    var eligible := Eligible(t.conversation, Covered(t.summaries), p.recentReserve);
    if !p.enabled || |Newest(t.conversation, LIST_LIMIT)| < p.thresholdMessages || |eligible| < p.minimumUnsummarized
    then []
    else Grouped(tokens, p.mapChunkTokens, [], Turns(eligible))
  }

  function MapRow(segment: TurnSegment, version: int): Summary {
    Summary(Map, false, version, segment.start, segment.end, [segment], None, None)
  }

  function MapRows(segments: seq<TurnSegment>, version: int): seq<Summary> {
    seq(|segments|, k requires 0 <= k < |segments| => MapRow(segments[k], version))
  }

  function Deactivated(row: Summary, newer: nat): Summary {
    if row.stage == Reduce && row.active then row.(active := false, supersededBy := Some(newer)) else row
  }

  function DeactivateAll(rows: seq<Summary>, newer: nat): seq<Summary> {
    seq(|rows|, k requires 0 <= k < |rows| => Deactivated(rows[k], newer))
  }

  function NextVersion(rows: seq<Summary>): int {
    match ActiveSummary(rows) case None => 1 case Some(p) => rows[p].version + 1
  }

  function ReduceRow(rows: seq<Summary>, segments: seq<TurnSegment>): Summary
    requires segments != []
  {
    var active := ActiveSummary(rows);
    Summary(Reduce, true, NextVersion(rows), if active.Some? then rows[active.value].start else segments[0].start,
            segments[|segments| - 1].end, segments, active, None)
  }

  /** A pass whose summarizer raises in its call number `failure`, counting from zero; the map rows
      written before that stay. */
  function Pass(tokens: string -> nat, policy: SummaryPolicy, t: Thread, failure: Option<nat>): Thread {
    var segments := Plan(tokens, policy, t);
    if segments == [] then t
    else if failure.Some? && failure.value <= |segments| then
      t.(summaries := t.summaries + MapRows(segments[..failure.value], NextVersion(t.summaries)))
    else
      var rows := t.summaries + MapRows(segments, NextVersion(t.summaries));
      t.(summaries := DeactivateAll(rows, |rows|) + [ReduceRow(t.summaries, segments)])
  }

  predicate Completes(tokens: string -> nat, policy: SummaryPolicy, t: Thread, failure: Option<nat>) {
    var segments := Plan(tokens, policy, t);
    segments != [] && (failure.None? || failure.value > |segments|)
  }

  // ---- What the rows say ----

  function LastReduce(rows: seq<Summary>): (p: Option<nat>)
    ensures p.Some? ==> p.value < |rows| && rows[p.value].stage == Reduce
    ensures forall i :: 0 <= i < |rows| && rows[i].stage == Reduce ==> p.Some? && i <= p.value
  {
    if rows == [] then None
    else if rows[|rows| - 1].stage == Reduce then Some(|rows| - 1)
    else LastReduce(rows[..|rows| - 1])
  }

  /** Where the last completed pass ended. */
  function Reached(rows: seq<Summary>): int {
    match LastReduce(rows) case None => 0 case Some(p) => rows[p].end
  }

  /** The map segments of all completed passes, in order. */
  function Listed(rows: seq<Summary>): seq<TurnSegment> {
    if rows == [] then []
    else Listed(rows[..|rows| - 1]) + if rows[|rows| - 1].stage == Reduce then rows[|rows| - 1].maps else []
  }

  function Passes(rows: seq<Summary>): nat {
    if rows == [] then 0 else Passes(rows[..|rows| - 1]) + if rows[|rows| - 1].stage == Reduce then 1 else 0
  }

  /** The last reduce row is the one active row. */
  ghost predicate OneActive(rows: seq<Summary>) {
    forall i :: 0 <= i < |rows| ==> (rows[i].active <==> Some(i) == LastReduce(rows))
  }

  /** Whether the active summary is among the rows that are listed. */
  predicate Visible(rows: seq<Summary>) {
    match LastReduce(rows) case None => true case Some(p) => |rows| - p <= SUMMARY_LIMIT
  }

  /** The mapped segments have disjoint, increasing ranges made of whole turns of the conversation, no turn
      is mapped twice, and the last reduce row is the one active row and ends where they end. */
  ghost predicate Disjoint(t: Thread) {
    var listed, reached := Listed(t.summaries), Reached(t.summaries);
    && Increasing(t.conversation) && OneActive(t.summaries)
    && reached >= 0
    && RangesWithin(listed, 0, reached) && TurnsWithin(AllTurns(listed), 0, reached)
    && (forall turn :: turn in AllTurns(listed) ==> IsTurn(t.conversation, turn))
    && (LastReduce(t.summaries).Some? ==> listed != [] && reached == listed[|listed| - 1].end)
  }

  /** Besides, the active summary starts with the first mapped segment, and its version counts the completed
      passes. */
  ghost predicate Good(t: Thread) {
    && Disjoint(t)
    && (match LastReduce(t.summaries)
        case None => true
        case Some(p) =>
          t.summaries[p].start == Listed(t.summaries)[0].start && t.summaries[p].version == Passes(t.summaries))
  }

  // ---- Finding the active summary ----

  lemma {:induction false} BestIsOnly(rows: seq<Summary>, low: nat, high: nat, p: Option<nat>)
    requires low <= high <= |rows|
    requires forall i :: low <= i < high ==> (rows[i].active && rows[i].stage == Reduce <==> Some(i) == p)
    ensures BestReduce(rows, low, high) == if p.Some? && low <= p.value < high then p else None
    decreases high
  {
    if low < high {
      BestIsOnly(rows, low, high - 1, p);
    }
  }

  /** The active summary is found exactly when fewer than 100 rows have been written after it. */
  lemma ActiveExact(rows: seq<Summary>)
    requires OneActive(rows)
    ensures ActiveSummary(rows) == if Visible(rows) then LastReduce(rows) else None
  {
    var low := if |rows| > SUMMARY_LIMIT then |rows| - SUMMARY_LIMIT else 0;
    BestIsOnly(rows, low, |rows|, LastReduce(rows));
  }

  // ---- How the rows change ----

  lemma {:induction false} LastReduceAppend(rows: seq<Summary>, more: seq<Summary>)
    requires forall k :: 0 <= k < |more| ==> more[k].stage == Map
    ensures LastReduce(rows + more) == LastReduce(rows) && Listed(rows + more) == Listed(rows)
    ensures Passes(rows + more) == Passes(rows)
  {
    if more == [] {
      assert rows + more == rows;
    } else {
      assert (rows + more)[..|rows + more| - 1] == rows + more[..|more| - 1];
      LastReduceAppend(rows, more[..|more| - 1]);
    }
  }

  lemma {:induction false} DeactivateKeeps(rows: seq<Summary>, newer: nat)
    ensures LastReduce(DeactivateAll(rows, newer)) == LastReduce(rows)
    ensures Listed(DeactivateAll(rows, newer)) == Listed(rows) && Passes(DeactivateAll(rows, newer)) == Passes(rows)
  {
    var rows' := DeactivateAll(rows, newer);
    if rows != [] {
      assert rows'[..|rows| - 1] == DeactivateAll(rows[..|rows| - 1], newer);
      DeactivateKeeps(rows[..|rows| - 1], newer);
    }
  }

  lemma {:induction false} AllTurnsJoin(xs: seq<TurnSegment>, ys: seq<TurnSegment>)
    ensures AllTurns(xs + ys) == AllTurns(xs) + AllTurns(ys)
  {
    if xs == [] {
      assert xs + ys == ys;
    } else {
      assert (xs + ys)[1..] == xs[1..] + ys;
      AllTurnsJoin(xs[1..], ys);
    }
  }

  /** What a completed pass leaves behind. */
  lemma CompletedRows(tokens: string -> nat, policy: SummaryPolicy, t: Thread, failure: Option<nat>)
    requires OneActive(t.summaries) && Completes(tokens, policy, t, failure)
    ensures var segments, rows := Plan(tokens, policy, t), Pass(tokens, policy, t, failure).summaries;
            && |rows| == |t.summaries| + |segments| + 1
            && LastReduce(rows) == Some(|rows| - 1) && rows[|rows| - 1] == ReduceRow(t.summaries, segments)
            && Listed(rows) == Listed(t.summaries) + segments && Passes(rows) == Passes(t.summaries) + 1
            && OneActive(rows)
  {
    hide Plan, Listed, Passes, ActiveSummary, NextVersion, OneActive, LastReduce, ReduceRow, MapRows, DeactivateAll;
    var segments := Plan(tokens, policy, t);
    var maps := MapRows(segments, NextVersion(t.summaries));
    var before := t.summaries + maps;
    MapRowsAre(segments, NextVersion(t.summaries));
    LastReduceAppend(t.summaries, maps);
    DeactivateKeeps(before, |before|);
    NoneActive(t.summaries, maps);
    var former := DeactivateAll(before, |before|);
    ReduceRowIs(t.summaries, segments);
    ReduceAppended(former, ReduceRow(t.summaries, segments), segments);
    OneActiveAppended(former, ReduceRow(t.summaries, segments));
  }

  lemma MapRowsAre(segments: seq<TurnSegment>, version: int)
    ensures |MapRows(segments, version)| == |segments|
    ensures forall k :: 0 <= k < |segments| ==>
              MapRows(segments, version)[k].stage == Map && !MapRows(segments, version)[k].active
  {}

  lemma ReduceRowIs(rows: seq<Summary>, segments: seq<TurnSegment>)
    requires segments != []
    ensures var row := ReduceRow(rows, segments); row.stage == Reduce && row.active && row.maps == segments
  {}

  /** Once all active reduce rows have been deactivated, no row is active. */
  lemma NoneActive(rows: seq<Summary>, maps: seq<Summary>)
    requires OneActive(rows) && forall k :: 0 <= k < |maps| ==> !maps[k].active
    ensures var former := DeactivateAll(rows + maps, |rows + maps|);
            |former| == |rows + maps| && forall i :: 0 <= i < |former| ==> !former[i].active
  {
    var before := rows + maps;
    forall i | 0 <= i < |before| ensures before[i].active ==> before[i].stage == Reduce {
      if i < |rows| { assert rows[i].active ==> rows[i].stage == Reduce; }
    }
  }

  lemma OneActiveAppended(rows: seq<Summary>, last: Summary)
    requires last.active && last.stage == Reduce && forall i :: 0 <= i < |rows| ==> !rows[i].active
    ensures OneActive(rows + [last])
  {}

  lemma ReduceAppended(rows: seq<Summary>, last: Summary, segments: seq<TurnSegment>)
    requires last.stage == Reduce && last.maps == segments
    ensures LastReduce(rows + [last]) == Some(|rows|)
    ensures Listed(rows + [last]) == Listed(rows) + segments && Passes(rows + [last]) == Passes(rows) + 1
  {
    assert (rows + [last])[..|rows|] == rows;
  }

  // ---- What is eligible ----

  lemma {:induction false} AfterAll(rs: seq<Record>, covered: Option<int>)
    requires covered.Some? ==> forall i :: 0 <= i < |rs| ==> rs[i].event.Some? && rs[i].event.value > covered.value
    ensures After(rs, covered) == rs
  {
    if rs != [] {
      AfterAll(rs[1..], covered);
      assert [rs[0]] + rs[1..] == rs;
    }
  }

  ghost predicate SplitsAt(rs: seq<Record>, covered: Option<int>, from: nat) {
    && from <= |rs| && (forall i :: 0 <= i < |rs| ==> rs[i].event.Some?)
    && (from > 0 ==> covered.Some?)
    && (covered.Some? ==> forall i :: 0 <= i < from ==> rs[i].event.value <= covered.value)
    && (covered.Some? ==> forall i :: from <= i < |rs| ==> rs[i].event.value > covered.value)
  }

  /** Of records with growing ids the open ones are a suffix. */
  lemma SplitExists(rs: seq<Record>, covered: Option<int>) returns (from: nat)
    requires Increasing(rs)
    ensures SplitsAt(rs, covered, from)
  {
    from := 0;
    while from < |rs| && covered.Some? && rs[from].event.value <= covered.value
      invariant from <= |rs| && (from > 0 ==> covered.Some?)
      invariant covered.Some? ==> forall i :: 0 <= i < from ==> rs[i].event.value <= covered.value
    {
      from := from + 1;
    }
  }

  lemma {:induction false} AfterIsSuffix(rs: seq<Record>, covered: Option<int>, from: nat)
    requires SplitsAt(rs, covered, from)
    ensures After(rs, covered) == rs[from..]
  {
    if from == 0 {
      AfterAll(rs, covered);
      assert rs[0..] == rs;
    } else {
      assert forall i :: 0 <= i < |rs| - 1 ==> rs[1..][i] == rs[i + 1];
      AfterIsSuffix(rs[1..], covered, from - 1);
      assert rs[1..][from - 1..] == rs[from..];
    }
  }

  /** The eligible records are a stretch `conversation[from..to]` of the conversation after the covered
      events. It ends `reserve` records before the end, and starts with the first open record unless
      more than 1000 are open. */
  ghost predicate IsStretch(conversation: seq<Record>, covered: int, reserve: int, from: nat, to: nat) {
    && from <= to <= |conversation|
    && (forall i :: from <= i < |conversation| ==> conversation[i].event.Some? && conversation[i].event.value > covered)
    && (reserve > 0 && from < to ==> to == |conversation| - reserve)
    && (reserve > 0 && |conversation| - from > reserve ==> from < to)
    && (reserve <= 0 ==> to == |conversation|)
    && (forall i :: 0 <= i < from && i >= |conversation| - LIST_LIMIT ==>
          conversation[i].event.Some? && conversation[i].event.value <= covered)
  }

  lemma EligibleStretch(conversation: seq<Record>, covered: Option<int>, reserve: int) returns (from: nat, to: nat)
    requires Increasing(conversation)
    ensures IsStretch(conversation, if covered.Some? then covered.value else 0, reserve, from, to)
    ensures from >= |conversation| - LIST_LIMIT
    ensures Eligible(conversation, covered, reserve) == conversation[from..to]
  {
    hide After, IsStretch, Increasing, SplitsAt, Eligible, Newest;
    var newest := Newest(conversation, LIST_LIMIT);
    var skipped := |conversation| - |newest|;
    NewestIs(conversation);
    NewestIncreases(conversation, skipped);
    from := SplitExists(newest, covered);
    AfterIsSuffix(newest, covered, from);
    SplitOfNewest(conversation, covered, reserve, skipped, from);
    DropTwice(conversation, skipped, from);
    from := from + skipped;
    to := StretchEnd(conversation, reserve, from);
    EligibleIs(conversation, covered, reserve, from);
  }

  lemma NewestIs(conversation: seq<Record>)
    ensures var newest := Newest(conversation, LIST_LIMIT);
            && |newest| <= |conversation| && |newest| <= LIST_LIMIT
            && newest == conversation[|conversation| - |newest|..]
            && (|newest| < |conversation| ==> |newest| == LIST_LIMIT)
  {}

  lemma DropTwice<T>(xs: seq<T>, i: nat, j: nat)
    requires i + j <= |xs|
    ensures xs[i..][j..] == xs[i + j..]
  {}

  lemma EligibleIs(conversation: seq<Record>, covered: Option<int>, reserve: int, from: nat)
    requires from <= |conversation| && After(Newest(conversation, LIST_LIMIT), covered) == conversation[from..]
    ensures Eligible(conversation, covered, reserve) == conversation[from..StretchEnd(conversation, reserve, from)]
  {
    hide After, Newest;
    var open, to := conversation[from..], StretchEnd(conversation, reserve, from);
    assert conversation[from..to] == open[..to - from];
  }

  function StretchEnd(conversation: seq<Record>, reserve: int, from: nat): (to: nat)
    requires from <= |conversation|
    ensures from <= to <= |conversation|
  {
    if reserve <= 0 then |conversation| else if |conversation| - from > reserve then |conversation| - reserve else from
  }

  lemma NewestIncreases(conversation: seq<Record>, skipped: nat)
    requires Increasing(conversation) && skipped <= |conversation|
    ensures Increasing(conversation[skipped..])
  {}

  lemma SplitOfNewest(conversation: seq<Record>, covered: Option<int>, reserve: int, skipped: nat, from: nat)
    requires Increasing(conversation) && skipped == |conversation| - |Newest(conversation, LIST_LIMIT)|
    requires SplitsAt(Newest(conversation, LIST_LIMIT), covered, from)
    ensures skipped + from <= |conversation|
    ensures IsStretch(conversation, if covered.Some? then covered.value else 0, reserve, skipped + from,
                      StretchEnd(conversation, reserve, skipped + from))
  {
    var newest, first := Newest(conversation, LIST_LIMIT), skipped + from;
    forall i | first <= i < |conversation|
      ensures conversation[i].event.Some? && conversation[i].event.value > if covered.Some? then covered.value else 0
    {
      assert conversation[i] == newest[i - skipped];
    }
    forall i | 0 <= i < first && i >= |conversation| - LIST_LIMIT
      ensures conversation[i].event.Some? && conversation[i].event.value <= if covered.Some? then covered.value else 0
    {
      assert conversation[i] == newest[i - skipped];
    }
  }
}
