/** Turning resolved references into call edges (`build_call_edges`,
    `src/axiom/rag/call_graph.py:51-105`). */
module CallEdges {
  import opened Wrappers
  import opened Ordering
  import opened CallGraph

  /** Absent symbols are empty. */
  datatype Reference = Reference(
    id: string, filePath: string, language: string, kind: string, enclosing: SymbolId, startLine: int, endLine: int,
    resolved: SymbolId, status: string, confidence: real, reason: Option<string>)

  datatype Verdict = Unsupported | Unresolved | LowConfidence | MissingCaller | MissingCallee | Accepted(edge: CallEdge)

  const MIN_CONFIDENCE := 0.90

  datatype Skips = Skips(unresolved: nat, lowConfidence: nat, unsupported: nat, missingCaller: nat, missingCallee: nat)

  /** The stable id of an edge: a hash of reference, caller, callee and kind. */
  type Digest = (string, SymbolId, SymbolId, string) -> string

  function Judge(digest: Digest, definitions: set<SymbolId>, r: Reference): Verdict {
    if r.kind != "call" && r.kind != "constructor_call" then Unsupported
    else if r.status != "resolved" || r.resolved == "" then Unresolved
    else if r.confidence < MIN_CONFIDENCE then LowConfidence
    else if r.enclosing == "" || r.enclosing !in definitions then MissingCaller
    else if r.resolved !in definitions then MissingCallee
    else Accepted(CallEdge(digest(r.id, r.enclosing, r.resolved, r.kind),
                           r.id, r.enclosing, r.resolved, r.filePath, r.language,
                           r.kind, r.startLine, r.endLine, r.confidence, r.reason))
  }

  predicate ReferenceLe(a: Reference, b: Reference) {
    if a.filePath != b.filePath then StrLe(a.filePath, b.filePath)
    else if a.startLine != b.startLine then a.startLine < b.startLine
    else StrLe(a.id, b.id)
  }

  predicate EdgeLe(a: CallEdge, b: CallEdge) {
    if a.filePath != b.filePath then StrLe(a.filePath, b.filePath)
    else if a.startLine != b.startLine then a.startLine < b.startLine
    else if a.caller != b.caller then StrLe(a.caller, b.caller)
    else StrLe(a.id, b.id)
  }

  function Count(digest: Digest, definitions: set<SymbolId>, rs: seq<Reference>, v: Verdict): nat {
    if rs == [] then 0
    else Count(digest, definitions, rs[..|rs| - 1], v) + if Judge(digest, definitions, rs[|rs| - 1]) == v then 1 else 0
  }

  /** The edge the reference stands for. */
  predicate Gives(digest: Digest, definitions: set<SymbolId>, r: Reference, e: CallEdge) {
    Judge(digest, definitions, r) == Accepted(e)
  }

  /** The edge comes from a reference, and no later reference has the same edge id. */
  ghost predicate IsLatest(digest: Digest, definitions: set<SymbolId>, rs: seq<Reference>, e: CallEdge) {
    exists i :: 0 <= i < |rs| && Gives(digest, definitions, rs[i], e)
                && forall j :: i < j < |rs| ==> !HasId(digest, definitions, rs[j], e.id)
  }

  predicate HasId(digest: Digest, definitions: set<SymbolId>, r: Reference, id: string) {
    var v := Judge(digest, definitions, r);
    v.Accepted? && v.edge.id == id
  }

  /** The dictionary from edge id to edge, its keys in insertion order. */
  ghost predicate Holds(digest: Digest, definitions: set<SymbolId>, rs: seq<Reference>, ids: seq<string>,
                        byId: map<string, CallEdge>) {
    && NoDuplicates(ids) && Elements(ids) == byId.Keys
    && (forall id :: id in byId ==> byId[id].id == id && IsLatest(digest, definitions, rs, byId[id]))
    && (forall r, id :: r in rs && HasId(digest, definitions, r, id) ==> id in byId)
  }

  lemma HoldsOn(digest: Digest, definitions: set<SymbolId>, rs: seq<Reference>, ids: seq<string>,
                byId: map<string, CallEdge>, r: Reference)
    requires Holds(digest, definitions, rs, ids, byId)
    ensures var v := Judge(digest, definitions, r);
            if v.Accepted?
            then Holds(digest, definitions, rs + [r], if v.edge.id in byId then ids else ids + [v.edge.id],
                       byId[v.edge.id := v.edge])
            else Holds(digest, definitions, rs + [r], ids, byId)
  {
    hide Judge;
    var v := Judge(digest, definitions, r);
    forall id | id in byId && !HasId(digest, definitions, r, id)
      ensures IsLatest(digest, definitions, rs + [r], byId[id])
    {
      StillLatest(digest, definitions, rs, byId[id], r);
    }
    if v.Accepted? {
      assert Gives(digest, definitions, (rs + [r])[|rs|], v.edge);
      if v.edge.id !in byId {
        assert v.edge.id !in Elements(ids);
        assert Elements(ids + [v.edge.id]) == Elements(ids) + {v.edge.id};
      }
    }
  }

  lemma StillLatest(digest: Digest, definitions: set<SymbolId>, rs: seq<Reference>, e: CallEdge, r: Reference)
    requires IsLatest(digest, definitions, rs, e) && !HasId(digest, definitions, r, e.id)
    ensures IsLatest(digest, definitions, rs + [r], e)
  {
    hide Judge;
    var i :| 0 <= i < |rs| && Gives(digest, definitions, rs[i], e)
             && forall j :: i < j < |rs| ==> !HasId(digest, definitions, rs[j], e.id);
    var all := rs + [r];
    assert Gives(digest, definitions, all[i], e);
    forall j | i < j < |all| ensures !HasId(digest, definitions, all[j], e.id) {
      assert j < |rs| ==> all[j] == rs[j];
    }
  }

  /** Two latest edges with one id are one edge. */
  lemma LatestIsUnique(digest: Digest, definitions: set<SymbolId>, rs: seq<Reference>, d: CallEdge, e: CallEdge)
    requires IsLatest(digest, definitions, rs, d) && IsLatest(digest, definitions, rs, e) && d.id == e.id
    ensures d == e
  {
    hide Judge;
    var i :| 0 <= i < |rs| && Gives(digest, definitions, rs[i], d)
             && forall j :: i < j < |rs| ==> !HasId(digest, definitions, rs[j], d.id);
    var k :| 0 <= k < |rs| && Gives(digest, definitions, rs[k], e)
             && forall j :: k < j < |rs| ==> !HasId(digest, definitions, rs[j], e.id);
    assert HasId(digest, definitions, rs[i], d.id) && HasId(digest, definitions, rs[k], e.id);
  }

  lemma EdgeLeIsOrder()
    ensures TotalOrder(EdgeLe)
  {
    hide StrLe;
    StrLeIsOrder();
  }

  /** The edges have distinct ids and are exactly the latest edges of the references in their sorted
      order; every reference is either an edge or counted as skipped once. */
  method BuildCallEdges(digest: Digest, definitions: set<SymbolId>, references: seq<Reference>)
    returns (edges: seq<CallEdge>, skips: Skips)
    ensures forall i, j :: 0 <= i < j < |edges| ==> edges[i].id != edges[j].id
    ensures SortedBy(EdgeLe, edges)
    ensures forall e :: e in edges <==> IsLatest(digest, definitions, Sorted(ReferenceLe, references), e)
    ensures skips == SkipsOf(digest, definitions, Sorted(ReferenceLe, references))
    ensures forall e :: e in edges ==> IsFromLast(digest, definitions, references, e)
    ensures forall r :: r in references && IsCall(definitions, r) ==>
              exists e :: e in edges && e.id == digest(r.id, r.enclosing, r.resolved, r.kind)
    ensures forall i, j :: 0 <= i < j < |edges| ==>
              var d, e := edges[i], edges[j];
              if d.filePath != e.filePath then StrLe(d.filePath, e.filePath)
              else if d.startLine != e.startLine then d.startLine < e.startLine
              else if d.caller != e.caller then StrLe(d.caller, e.caller)
              else StrLe(d.id, e.id)
    ensures SkipsAreExact(definitions, references, skips)
  {
    EdgesSpelledOut(digest, definitions, references);
    SkipsSpelledOut(digest, definitions, references);
    edges, skips := CollectEdges(digest, definitions, references);
    EdgeOrder(edges);
  }

  method CollectEdges(digest: Digest, definitions: set<SymbolId>, references: seq<Reference>)
    returns (edges: seq<CallEdge>, skips: Skips)
    ensures forall i, j :: 0 <= i < j < |edges| ==> edges[i].id != edges[j].id
    ensures SortedBy(EdgeLe, edges)
    ensures forall e :: e in edges <==> IsLatest(digest, definitions, Sorted(ReferenceLe, references), e)
    ensures skips == SkipsOf(digest, definitions, Sorted(ReferenceLe, references))
  {
    hide Judge, Holds, Count, ReferenceLe, EdgeLe, IsLatest;
    var rs := Sorted(ReferenceLe, references);
    var ids: seq<string>, byId: map<string, CallEdge> := [], map[];
    skips := Skips(0, 0, 0, 0, 0);
    NothingHolds(digest, definitions);
    for i := 0 to |rs|
      invariant Holds(digest, definitions, rs[..i], ids, byId)
      invariant skips == SkipsOf(digest, definitions, rs[..i])
    {
      var r := rs[i];
      HoldsOn(digest, definitions, rs[..i], ids, byId, r);
      CountOne(digest, definitions, rs, i);
      assert rs[..i + 1] == rs[..i] + [r];
      match Judge(digest, definitions, r) {
        case Unsupported => skips := skips.(unsupported := skips.unsupported + 1);
        case Unresolved => skips := skips.(unresolved := skips.unresolved + 1);
        case LowConfidence => skips := skips.(lowConfidence := skips.lowConfidence + 1);
        case MissingCaller => skips := skips.(missingCaller := skips.missingCaller + 1);
        case MissingCallee => skips := skips.(missingCallee := skips.missingCallee + 1);
        case Accepted(edge) =>
          ids := if edge.id in byId then ids else ids + [edge.id];
          byId := byId[edge.id := edge];
      }
    }
    assert rs[..|rs|] == rs;
    edges := SortedValues(digest, definitions, rs, ids, byId);
  }

  function SkipsOf(digest: Digest, definitions: set<SymbolId>, rs: seq<Reference>): Skips {
    Skips(Count(digest, definitions, rs, Unresolved), Count(digest, definitions, rs, LowConfidence),
          Count(digest, definitions, rs, Unsupported), Count(digest, definitions, rs, MissingCaller),
          Count(digest, definitions, rs, MissingCallee))
  }

  lemma NothingHolds(digest: Digest, definitions: set<SymbolId>)
    ensures Holds(digest, definitions, [], [], map[]) && SkipsOf(digest, definitions, []) == Skips(0, 0, 0, 0, 0)
  {}

  lemma CountOne(digest: Digest, definitions: set<SymbolId>, rs: seq<Reference>, i: nat)
    requires i < |rs|
    ensures forall v :: Count(digest, definitions, rs[..i + 1], v) ==
                        Count(digest, definitions, rs[..i], v) + if Judge(digest, definitions, rs[i]) == v then 1 else 0
  {
    hide Judge;
    assert rs[..i + 1][..i] == rs[..i];
  }

  method SortedValues(digest: Digest, definitions: set<SymbolId>, ghost rs: seq<Reference>, ids: seq<string>,
                      byId: map<string, CallEdge>)
    returns (edges: seq<CallEdge>)
    requires Holds(digest, definitions, rs, ids, byId)
    ensures forall i, j :: 0 <= i < j < |edges| ==> edges[i].id != edges[j].id
    ensures SortedBy(EdgeLe, edges)
    ensures forall e :: e in edges <==> IsLatest(digest, definitions, rs, e)
  {
    hide Judge, EdgeLe, IsLatest, Holds, Values;
    ValuesAreLatest(digest, definitions, rs, ids, byId);
    var values := Values(ids, byId);
    edges := Sorted(EdgeLe, values);
    EdgeLeIsOrder();
    SortedIsSorted(EdgeLe, values);
    SortedIsPermutation(EdgeLe, values);
    SortedIsDistinct(values, edges);
  }

  function Values(ids: seq<string>, byId: map<string, CallEdge>): seq<CallEdge>
    requires forall k :: 0 <= k < |ids| ==> ids[k] in byId
  {
    seq(|ids|, k requires 0 <= k < |ids| => byId[ids[k]])
  }

  /** The edges in the dictionary have distinct ids and are the latest ones. */
  lemma ValuesAreLatest(digest: Digest, definitions: set<SymbolId>, rs: seq<Reference>, ids: seq<string>,
                        byId: map<string, CallEdge>)
    requires Holds(digest, definitions, rs, ids, byId)
    ensures forall k :: 0 <= k < |ids| ==> ids[k] in byId
    ensures var values := Values(ids, byId);
            && (forall k, l :: 0 <= k < l < |values| ==> values[k].id != values[l].id)
            && (forall e :: e in values <==> IsLatest(digest, definitions, rs, e))
  {
    hide Judge, IsLatest, HasId;
    assert forall k :: 0 <= k < |ids| ==> ids[k] in Elements(ids);
    var values := Values(ids, byId);
    forall e ensures e in values <==> IsLatest(digest, definitions, rs, e) {
      if IsLatest(digest, definitions, rs, e) {
        LatestIsGiven(digest, definitions, rs, e);
        LatestIsUnique(digest, definitions, rs, byId[e.id], e);
        assert e.id in Elements(ids);
        var k :| 0 <= k < |ids| && ids[k] == e.id;
        assert values[k] == e;
      }
    }
  }

  lemma SortedIsDistinct(values: seq<CallEdge>, edges: seq<CallEdge>)
    requires multiset(edges) == multiset(values)
    requires (forall i, j :: 0 <= i < j < |values| ==> values[i].id != values[j].id)
    ensures forall i, j :: 0 <= i < j < |edges| ==> edges[i].id != edges[j].id
  {
    NoDuplicatesPermutes(values, edges);
    forall i, j | 0 <= i < j < |edges| ensures edges[i].id != edges[j].id {
      assert edges[i] in multiset(edges) && edges[j] in multiset(edges);
      assert edges[i] in values && edges[j] in values;
    }
  }

  lemma LatestIsGiven(digest: Digest, definitions: set<SymbolId>, rs: seq<Reference>, e: CallEdge)
    requires IsLatest(digest, definitions, rs, e)
    ensures exists r :: r in rs && HasId(digest, definitions, r, e.id)
  {
    hide Judge;
    var i :| 0 <= i < |rs| && Gives(digest, definitions, rs[i], e)
             && forall j :: i < j < |rs| ==> !HasId(digest, definitions, rs[j], e.id);
    assert HasId(digest, definitions, rs[i], e.id);
  }

  /** Accepted references and the five counters together are all references. */
  lemma {:induction false} CountsAddUp(digest: Digest, definitions: set<SymbolId>, rs: seq<Reference>)
    ensures var s := SkipsOf(digest, definitions, rs);
            s.unresolved + s.lowConfidence + s.unsupported + s.missingCaller + s.missingCallee
            + |Accepting(digest, definitions, rs)| == |rs|
  {
    if rs != [] {
      CountsAddUp(digest, definitions, rs[..|rs| - 1]);
    }
  }

  function Accepting(digest: Digest, definitions: set<SymbolId>, rs: seq<Reference>): seq<Reference> {
    if rs == [] then []
    else Accepting(digest, definitions, rs[..|rs| - 1])
         + if Judge(digest, definitions, rs[|rs| - 1]).Accepted? then [rs[|rs| - 1]] else []
  }

  // ---- Edges and counters spelled out ----

  /** A resolved call between defined symbols, confident enough to become an edge. */
  predicate IsCall(definitions: set<SymbolId>, r: Reference) {
    && (r.kind == "call" || r.kind == "constructor_call")
    && r.status == "resolved" && r.confidence >= 0.90
    && r.enclosing != "" && r.enclosing in definitions && r.resolved != "" && r.resolved in definitions
  }

  /** The edge from the enclosing symbol to the resolved one. */
  predicate IsEdgeOf(digest: Digest, r: Reference, e: CallEdge) {
    && e.id == digest(r.id, r.enclosing, r.resolved, r.kind)
    && e.referenceId == r.id && e.caller == r.enclosing && e.callee == r.resolved
    && e.filePath == r.filePath && e.language == r.language && e.kind == r.kind
    && e.startLine == r.startLine && e.endLine == r.endLine
    && e.confidence == r.confidence && e.reason == r.reason
  }

  /** `r` comes no later than `s` by file, line and id. */
  predicate NotAfter(r: Reference, s: Reference) {
    if r.filePath != s.filePath then StrLe(r.filePath, s.filePath)
    else if r.startLine != s.startLine then r.startLine < s.startLine
    else StrLe(r.id, s.id)
  }

  lemma JudgeSpelledOut(digest: Digest, definitions: set<SymbolId>, r: Reference)
    ensures forall e :: Gives(digest, definitions, r, e) <==> IsCall(definitions, r) && IsEdgeOf(digest, r, e)
    ensures forall id :: HasId(digest, definitions, r, id) <==>
                         IsCall(definitions, r) && id == digest(r.id, r.enclosing, r.resolved, r.kind)
  {}

  lemma ReferenceLeIsOrder()
    ensures TotalOrder(ReferenceLe)
  {
    hide StrLe;
    StrLeIsOrder();
  }

  /** A call whose edge has this id. */
  predicate CallsAs(digest: Digest, definitions: set<SymbolId>, r: Reference, id: string) {
    IsCall(definitions, r) && id == digest(r.id, r.enclosing, r.resolved, r.kind)
  }

  /** The edge is that of a call, the last one with its id by file, line and id. */
  ghost predicate IsFromLast(digest: Digest, definitions: set<SymbolId>, references: seq<Reference>, e: CallEdge) {
    exists s :: s in references && IsCall(definitions, s) && IsEdgeOf(digest, s, e)
                && forall r :: r in references && CallsAs(digest, definitions, r, e.id) ==> NotAfter(r, s)
  }

  /** The latest edges are those of the calls, each of the last reference with its id. */
  lemma EdgesSpelledOut(digest: Digest, definitions: set<SymbolId>, references: seq<Reference>)
    ensures var rs := Sorted(ReferenceLe, references);
            && (forall e :: IsLatest(digest, definitions, rs, e) ==> IsFromLast(digest, definitions, references, e))
            && (forall r :: r in references && IsCall(definitions, r) ==> exists e ::
                  IsLatest(digest, definitions, rs, e) && e.id == digest(r.id, r.enclosing, r.resolved, r.kind))
  {
    hide Judge, IsLatest, IsCall, IsEdgeOf, NotAfter, ReferenceLe;
    var rs := Sorted(ReferenceLe, references);
    ReferenceLeIsOrder();
    SortedIsSorted(ReferenceLe, references);
    SortedIsPermutation(ReferenceLe, references);
    forall e | IsLatest(digest, definitions, rs, e) ensures IsFromLast(digest, definitions, references, e) {
      var s := LatestSpelledOut(digest, definitions, rs, e);
    }
    forall r | r in references && IsCall(definitions, r)
      ensures exists e ::
                IsLatest(digest, definitions, rs, e) && e.id == digest(r.id, r.enclosing, r.resolved, r.kind)
    {
      JudgeSpelledOut(digest, definitions, r);
      var e := LatestExists(digest, definitions, rs, r, digest(r.id, r.enclosing, r.resolved, r.kind));
    }
  }

  lemma LatestSpelledOut(digest: Digest, definitions: set<SymbolId>, rs: seq<Reference>, e: CallEdge)
    returns (s: Reference)
    requires SortedBy(ReferenceLe, rs) && IsLatest(digest, definitions, rs, e)
    ensures s in rs && IsCall(definitions, s) && IsEdgeOf(digest, s, e)
    ensures forall r :: r in rs && CallsAs(digest, definitions, r, e.id) ==> NotAfter(r, s)
  {
    hide Judge, IsCall, IsEdgeOf, NotAfter, ReferenceLe, Gives, HasId;
    var i :| 0 <= i < |rs| && Gives(digest, definitions, rs[i], e)
             && forall j :: i < j < |rs| ==> !HasId(digest, definitions, rs[j], e.id);
    s := rs[i];
    JudgeSpelledOut(digest, definitions, s);
    forall r | r in rs && CallsAs(digest, definitions, r, e.id) ensures NotAfter(r, s) {
      var j :| 0 <= j < |rs| && rs[j] == r;
      JudgeSpelledOut(digest, definitions, r);
      OrderSpelledOut(rs, j, i);
    }
  }

  lemma OrderSpelledOut(rs: seq<Reference>, j: nat, i: nat)
    requires SortedBy(ReferenceLe, rs) && j <= i < |rs|
    ensures NotAfter(rs[j], rs[i])
  {
    if j == i { StrLeTotal(rs[i].id, rs[i].id); }
    assert j < i ==> ReferenceLe(rs[j], rs[i]);
  }

  lemma {:induction false} LatestExists(digest: Digest, definitions: set<SymbolId>, rs: seq<Reference>, r: Reference,
                                        id: string)
    returns (e: CallEdge)
    requires r in rs && HasId(digest, definitions, r, id)
    ensures IsLatest(digest, definitions, rs, e) && e.id == id
  {
    hide IsLatest, Judge;
    var init, last := rs[..|rs| - 1], rs[|rs| - 1];
    assert rs == init + [last];
    if HasId(digest, definitions, last, id) {
      e := Judge(digest, definitions, last).edge;
      LastIsLatest(digest, definitions, rs, e);
    } else {
      e := LatestExists(digest, definitions, init, r, id);
      StillLatest(digest, definitions, init, e, last);
    }
  }

  lemma LastIsLatest(digest: Digest, definitions: set<SymbolId>, rs: seq<Reference>, e: CallEdge)
    requires rs != [] && Gives(digest, definitions, rs[|rs| - 1], e)
    ensures IsLatest(digest, definitions, rs, e)
  {}

  lemma EdgeOrder(edges: seq<CallEdge>)
    requires SortedBy(EdgeLe, edges)
    ensures forall i, j :: 0 <= i < j < |edges| ==>
              var d, e := edges[i], edges[j];
              if d.filePath != e.filePath then StrLe(d.filePath, e.filePath)
              else if d.startLine != e.startLine then d.startLine < e.startLine
              else if d.caller != e.caller then StrLe(d.caller, e.caller)
              else StrLe(d.id, e.id)
  {}

  // The places of the references that pass the first one, two, ... of the tests.

  ghost function Calls(references: seq<Reference>): set<int> {
    set i | 0 <= i < |references| && references[i].kind in {"call", "constructor_call"}
  }

  ghost function Resolved(references: seq<Reference>): set<int> {
    set i | i in Calls(references) && references[i].status == "resolved" && references[i].resolved != ""
  }

  ghost function Sure(references: seq<Reference>): set<int> {
    set i | i in Resolved(references) && references[i].confidence >= 0.90
  }

  ghost function FromKnown(definitions: set<SymbolId>, references: seq<Reference>): set<int> {
    set i | i in Sure(references) && references[i].enclosing != "" && references[i].enclosing in definitions
  }

  ghost function ToKnown(definitions: set<SymbolId>, references: seq<Reference>): set<int> {
    set i | i in FromKnown(definitions, references) && references[i].resolved in definitions
  }

  /** Each counter is the number of references that fail its test and pass all earlier ones. */
  ghost predicate SkipsAreExact(definitions: set<SymbolId>, references: seq<Reference>, skips: Skips) {
    && skips.unsupported == |(set i | 0 <= i < |references| && i !in Calls(references))|
    && skips.unresolved == |Calls(references) - Resolved(references)|
    && skips.lowConfidence == |Resolved(references) - Sure(references)|
    && skips.missingCaller == |Sure(references) - FromKnown(definitions, references)|
    && skips.missingCallee == |FromKnown(definitions, references) - ToKnown(definitions, references)|
  }

  lemma {:induction false} CountIsCountIf(digest: Digest, definitions: set<SymbolId>, rs: seq<Reference>, v: Verdict)
    ensures Count(digest, definitions, rs, v) == CountIf(r => Judge(digest, definitions, r) == v, rs)
  {
    hide Judge;
    if rs != [] { CountIsCountIf(digest, definitions, rs[..|rs| - 1], v); }
  }

  lemma CountIsCard(digest: Digest, definitions: set<SymbolId>, references: seq<Reference>, v: Verdict, s: set<int>)
    requires forall i :: i in s <==> 0 <= i < |references| && Judge(digest, definitions, references[i]) == v
    ensures Count(digest, definitions, Sorted(ReferenceLe, references), v) == |s|
  {
    hide Judge;
    var rs := Sorted(ReferenceLe, references);
    CountIsCountIf(digest, definitions, rs, v);
    SortedIsPermutation(ReferenceLe, references);
    CountIfPermutes(r => Judge(digest, definitions, r) == v, rs, references);
    CountIfIsCard(r => Judge(digest, definitions, r) == v, references, s);
  }

  lemma JudgeCases(digest: Digest, definitions: set<SymbolId>, references: seq<Reference>, i: nat)
    requires i < |references|
    ensures var v := Judge(digest, definitions, references[i]);
            && (v == Unsupported <==> i !in Calls(references))
            && (v == Unresolved <==> i in Calls(references) - Resolved(references))
            && (v == LowConfidence <==> i in Resolved(references) - Sure(references))
            && (v == MissingCaller <==> i in Sure(references) - FromKnown(definitions, references))
            && (v == MissingCallee <==> i in FromKnown(definitions, references) - ToKnown(definitions, references))
  {}

  lemma SkipsSpelledOut(digest: Digest, definitions: set<SymbolId>, references: seq<Reference>)
    ensures SkipsAreExact(definitions, references, SkipsOf(digest, definitions, Sorted(ReferenceLe, references)))
  {
    forall i | 0 <= i < |references| { JudgeCases(digest, definitions, references, i); }
    assert forall i :: i in Calls(references) ==> 0 <= i < |references|;
    hide Count, Judge, Calls, Resolved, Sure, FromKnown, ToKnown;
    var calls, resolved, sure := Calls(references), Resolved(references), Sure(references);
    var fromKnown, toKnown := FromKnown(definitions, references), ToKnown(definitions, references);
    CountIsCard(digest, definitions, references, Unsupported, set i | 0 <= i < |references| && i !in calls);
    CountIsCard(digest, definitions, references, Unresolved, calls - resolved);
    CountIsCard(digest, definitions, references, LowConfidence, resolved - sure);
    CountIsCard(digest, definitions, references, MissingCaller, sure - fromKnown);
    CountIsCard(digest, definitions, references, MissingCallee, fromKnown - toKnown);
  }

  /** References that file, line and id do not tell apart keep their order. */
  lemma TiesKeepOrder(references: seq<Reference>, r: Reference)
    ensures var same := (s: Reference) => s.filePath == r.filePath && s.startLine == r.startLine && s.id == r.id;
            Sifted(same, Sorted(ReferenceLe, references)) == Sifted(same, references)
  {
    StrLeTotal(r.id, r.id);
    var same := (s: Reference) => s.filePath == r.filePath && s.startLine == r.startLine && s.id == r.id;
    SortedIsStable(ReferenceLe, same, references);
  }
}
