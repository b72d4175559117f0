/** Conversation messages (`src/axiom/types.py`) and the tool protocol they must respect
    (`_protocol_valid`, `src/axiom/evaluation/context_retention.py:402-416`). */
module Messages {
  import opened Wrappers

  datatype Role = System | User | Assistant | Tool

  datatype ToolCall = ToolCall(id: string, name: string, arguments: string)

  datatype Message = Message(role: Role, content: string, name: Option<string>, toolCallId: Option<string>,
                             toolCalls: seq<ToolCall>)

  function OrEmpty(o: Option<string>): string {
    match o case None => "" case Some(s) => s
  }

  // ---- The protocol ----

  /** Message `i` issues the call `id` as its `j`-th. */
  ghost predicate Issues(ms: seq<Message>, i: int, j: int, id: string) {
    0 <= i < |ms| && 0 <= j < |ms[i].toolCalls| && ms[i].toolCalls[j].id == id
  }

  /** Message `k` is the result of the call `id`. */
  ghost predicate Answers(ms: seq<Message>, k: int, id: string) {
    0 <= k < |ms| && ms[k].role == Tool && OrEmpty(ms[k].toolCallId) == id
  }

  ghost predicate IssuedBefore(ms: seq<Message>, k: int, id: string) {
    exists i, j :: i < k && Issues(ms, i, j, id)
  }

  /** Call ids are nonempty and issued once, results are nonempty and given once, and every result
      follows its call. */
  ghost predicate Protocol(ms: seq<Message>) {
    && (forall i, j, id :: Issues(ms, i, j, id) ==> id != "")
    && (forall i, j, i', j', id :: Issues(ms, i, j, id) && Issues(ms, i', j', id) ==> i == i' && j == j')
    && (forall k, id :: Answers(ms, k, id) ==> id != "" && IssuedBefore(ms, k, id))
    && (forall k, k', id :: Answers(ms, k, id) && Answers(ms, k', id) ==> k == k')
  }

  /** `_protocol_valid`: one pass over the messages with two dictionaries. */
  method ProtocolValid(ms: seq<Message>) returns (valid: bool)
    ensures valid <==> Protocol(ms)
  {
    var calls: map<string, int>, results: map<string, int> := map[], map[];
    for index := 0 to |ms|
      invariant forall i, j, id :: i < index && Issues(ms, i, j, id) ==> id != "" && id in calls && calls[id] == i
      invariant forall i, j, i', j', id ::
                  i < index && i' < index && Issues(ms, i, j, id) && Issues(ms, i', j', id) ==> i == i' && j == j'
      invariant forall id :: id in calls ==> calls[id] < index && exists j :: Issues(ms, calls[id], j, id)
      invariant forall k, id :: k < index && Answers(ms, k, id) ==> id != "" && id in results && results[id] == k
      invariant forall id :: id in results ==> results[id] < index && Answers(ms, results[id], id)
    {
      var message := ms[index];
      for j := 0 to |message.toolCalls|
        invariant forall i, l, id :: Issues(ms, i, l, id) && (i < index || (i == index && l < j)) ==>
                    id != "" && id in calls && calls[id] == i
        invariant forall i, l, i', l', id :: Issues(ms, i, l, id) && Issues(ms, i', l', id) ==>
                    (i < index || (i == index && l < j)) && (i' < index || (i' == index && l' < j)) ==>
                      i == i' && l == l'
        invariant forall id :: id in calls ==>
                    calls[id] <= index && exists l :: Issues(ms, calls[id], l, id) && (calls[id] == index ==> l < j)
      {
        var callId := message.toolCalls[j].id;
        assert Issues(ms, index, j, callId);
        if callId == "" || callId in calls { return false; }
        calls := calls[callId := index];
      }
      if message.role == Tool {
        var callId := OrEmpty(message.toolCallId);
        assert Answers(ms, index, callId);
        if callId == "" || callId in results { return false; }
        results := results[callId := index];
      }
    }
    valid := forall id :: id in results ==> id in calls && calls[id] < results[id];
    if valid {
      forall k, id | Answers(ms, k, id) ensures IssuedBefore(ms, k, id) {
        var j :| Issues(ms, calls[id], j, id);
        assert calls[id] < k;
      }
    } else {
      var id :| id in results && !(id in calls && calls[id] < results[id]);
      assert Answers(ms, results[id], id);
      assert !IssuedBefore(ms, results[id], id);
    }
  }

  // ---- Dropping a prefix ----

  ghost predicate Answered(ms: seq<Message>, n: int, id: string) {
    exists k :: k < n && Answers(ms, k, id)
  }

  /** Every call issued among the first `n` messages is answered among them. */
  ghost predicate Settled(ms: seq<Message>, n: int) {
    forall i, j, id :: i < n && Issues(ms, i, j, id) ==> Answered(ms, n, id)
  }

  /** A list with the same roles, ids and calls keeps to the protocol just as well. */
  ghost predicate SameShape(ms: seq<Message>, ns: seq<Message>) {
    |ms| == |ns| && forall i :: 0 <= i < |ms| ==>
      ms[i].role == ns[i].role && ms[i].toolCallId == ns[i].toolCallId && ms[i].toolCalls == ns[i].toolCalls
  }

  lemma SameShapeSameProtocol(ms: seq<Message>, ns: seq<Message>)
    requires SameShape(ms, ns) && Protocol(ms)
    ensures Protocol(ns)
  {
    forall i, j, id ensures Issues(ms, i, j, id) <==> Issues(ns, i, j, id) {}
    forall k, id ensures Answers(ms, k, id) <==> Answers(ns, k, id) {}
    forall k, id | Answers(ns, k, id) ensures IssuedBefore(ns, k, id) {
      assert Answers(ms, k, id);
      var i, j :| i < k && Issues(ms, i, j, id);
      assert Issues(ns, i, j, id);
    }
  }

  lemma SettledAnswers(ms: seq<Message>, n: nat, k: int, id: string)
    requires Protocol(ms) && Settled(ms, n) && Answers(ms, k, id)
    ensures forall i, j :: i < n && Issues(ms, i, j, id) ==> k < n
  {
    forall i, j | i < n && Issues(ms, i, j, id) ensures k < n { assert Answered(ms, n, id); }
  }

  /** Replacing a settled prefix by one message without protocol content keeps to the protocol. */
  lemma DropSettled(ms: seq<Message>, n: nat, head: Message)
    requires Protocol(ms) && Settled(ms, n) && n <= |ms| && head.role != Tool && head.toolCalls == []
    ensures Protocol([head] + ms[n..])
  {
    var ns := [head] + ms[n..];
    forall i, j, id | Issues(ns, i, j, id) ensures i > 0 && Issues(ms, i - 1 + n, j, id) {}
    forall k, id | Answers(ns, k, id) ensures k > 0 && Answers(ms, k - 1 + n, id) && IssuedBefore(ns, k, id) {
      assert Answers(ms, k - 1 + n, id);
      assert IssuedBefore(ms, k - 1 + n, id);
      var i, j :| i < k - 1 + n && Issues(ms, i, j, id);
      SettledAnswers(ms, n, k - 1 + n, id);
      assert Issues(ns, i - n + 1, j, id);
    }
  }

  /** What is settled stays settled when messages are appended. */
  lemma SettledExtends(ms: seq<Message>, more: seq<Message>, n: nat)
    requires Settled(ms, n) && n <= |ms|
    ensures Settled(ms + more, n)
  {
    forall i, j, id | i < n && Issues(ms + more, i, j, id) ensures Answered(ms + more, n, id) {
      assert Issues(ms, i, j, id);
      assert Answered(ms, n, id);
      var k :| k < n && Answers(ms, k, id);
      assert Answers(ms + more, k, id);
    }
  }
}
