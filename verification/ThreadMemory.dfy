/** A thread's memory as an object: saving messages and running summary passes row by row
    (`src/axiom/memory/service.py:186-210`, `:392-503`, `:539-565`, `src/axiom/memory/store.py:273-360`). */
module ThreadMemory {
  import opened Wrappers
  import opened Conversation
  import opened SummaryPasses
  import opened SummaryRuns
  import opened SummaryConditions

  class Memory {
    /** Rows in the order they were written. */
    var conversation: seq<Record>
    var summaries: seq<Summary>

    function Contents(): Thread
      reads this
    {
      Thread(conversation, summaries)
    }

    constructor ()
      ensures Contents() == Thread([], [])
    {
      conversation, summaries := [], [];
    }

    method SaveConversation(r: Record) returns (saved: bool)
      modifies this`conversation
      ensures Contents() == SayTo(old(Contents()), r)
      ensures saved <==> forall k :: 0 <= k < |old(conversation)| ==> old(conversation)[k].event != r.event
      ensures conversation == if saved then old(conversation) + [r] else old(conversation)
    {
      for i := 0 to |conversation|
        invariant forall k :: 0 <= k < i ==> conversation[k].event != r.event
        invariant conversation == old(conversation)
      {
        if conversation[i].event == r.event { return false; }
      }
      conversation := conversation + [r];
      saved := true;
    }

    method FindActiveSummary() returns (best: Option<nat>)
      ensures best == ActiveSummary(summaries)
      ensures IsBest(summaries, best)
    {
      BestExactly(summaries);
      hide IsBest;
      var low := if |summaries| > SUMMARY_LIMIT then |summaries| - SUMMARY_LIMIT else 0;
      best := None;
      for i := low to |summaries|
        invariant best == BestReduce(summaries, low, i)
      {
        var row := summaries[i];
        if row.active && row.stage == Reduce && !(best.Some? && Ranks(summaries[best.value], row)) {
          best := Some(i);
        }
      }
    }

    method ConversationRecordsForSummary(covered: Option<int>, reserve: int) returns (records: seq<Record>)
      ensures records == Eligible(conversation, covered, reserve)
    {
      var newest := Newest(conversation, LIST_LIMIT);
      var open := OpenRecords(newest, covered);
      if reserve <= 0 { return open; }
      records := if |open| > reserve then open[..|open| - reserve] else [];
    }

    static method OpenRecords(records: seq<Record>, covered: Option<int>) returns (open: seq<Record>)
      ensures open == After(records, covered)
    {
      open := [];
      for i := 0 to |records|
        invariant open + After(records[i..], covered) == After(records, covered)
      {
        var record := records[i];
        assert records[i..][1..] == records[i + 1..];
        ghost var rest := After(records[i + 1..], covered);
        if covered.None? || (record.event.Some? && record.event.value > covered.value) {
          assert (open + [record]) + rest == open + ([record] + rest);
          open := open + [record];
        }
      }
    }

    /** Inserts the row and deactivates every other active reduce row. */
    method SaveActiveSummary(row: Summary) returns (id: nat)
      modifies this`summaries
      ensures id == |old(summaries)| && summaries == DeactivateAll(old(summaries), id) + [row]
    {
      id := |summaries|;
      summaries := summaries + [row];
      for i := 0 to id
        invariant |summaries| == id + 1 && summaries[id] == row
        invariant forall k :: 0 <= k < id ==>
                    summaries[k] == if k < i then Deactivated(old(summaries)[k], id) else old(summaries)[k]
      {
        if summaries[i].stage == Reduce && summaries[i].active {
          summaries := summaries[i := summaries[i].(active := false, supersededBy := Some(id))];
        }
      }
    }

    /** One pass; the summarizer raises in its call number `failure`, if any. */
    method SummarizeThread(tokens: string -> nat, policy: SummaryPolicy, failure: Option<nat>) returns (created: bool)
      modifies this`summaries
      ensures Contents() == Pass(tokens, policy, old(Contents()), failure)
      ensures created == Completes(tokens, policy, old(Contents()), failure)
      ensures !policy.enabled ==> !created && summaries == old(summaries)
      ensures Increasing(conversation) && OneActive(old(summaries)) ==>
                && Summarizes(tokens, policy, old(Contents()), Contents(), failure, created)
                && (failure.None? ==> (created <==> HasToSummarize(policy, old(Contents()))))
    {
      SummarizesExactly(tokens, policy, Contents(), failure);
      hide Pass, Completes, HasToSummarize, MapsDue, Writes, WritesSome, OneActive;
      created := RunPass(tokens, policy, failure);
    }

    method RunPass(tokens: string -> nat, policy: SummaryPolicy, failure: Option<nat>) returns (created: bool)
      modifies this`summaries
      ensures Contents() == Pass(tokens, policy, old(Contents()), failure)
      ensures created == Completes(tokens, policy, old(Contents()), failure)
    {
      hide Eligible, ActiveSummary, Grouped, TurnsFrom;
      var p := Normalized(policy);
      if !p.enabled { return false; }
      var active := FindActiveSummary();
      var covered := if active.Some? then Some(summaries[active.value].end) else None;
      var eligible := ConversationRecordsForSummary(covered, p.recentReserve);
      if |Newest(conversation, LIST_LIMIT)| < p.thresholdMessages { return false; }
      if |eligible| < p.minimumUnsummarized { return false; }
      var segments := SegmentMessages(eligible, tokens, p.mapChunkTokens);
      assert segments == Plan(tokens, policy, Contents());
      if segments == [] { return false; }
      var version := if active.Some? then summaries[active.value].version + 1 else 1;
      var start := if active.Some? then summaries[active.value].start else segments[0].start;
      var failed := SaveMapRows(segments, version, failure);
      if failed { return false; }
      var row := Summary(Reduce, true, version, start, segments[|segments| - 1].end, segments, active, None);
      var id := SaveActiveSummary(row);
      created := true;
    }

    /** Writes a map row per segment until the summarizer raises; `failed` also when the reduce call raises. */
    method SaveMapRows(segments: seq<TurnSegment>, version: int, failure: Option<nat>) returns (failed: bool)
      modifies this`summaries
      ensures failed <==> failure.Some? && failure.value <= |segments|
      ensures summaries == old(summaries) + MapRows(if failed then segments[..failure.value] else segments, version)
    {
      for k := 0 to |segments|
        invariant failure.Some? ==> failure.value >= k
        invariant summaries == old(summaries) + MapRows(segments[..k], version)
      {
        if failure == Some(k) { return true; }
        assert MapRows(segments[..k + 1], version) == MapRows(segments[..k], version) + [MapRow(segments[k], version)];
        summaries := summaries + [MapRow(segments[k], version)];
      }
      assert segments[..|segments|] == segments;
      failed := failure == Some(|segments|);
    }
  }
}
