/** The fact part of the memory store as an object, and runs of its two writing operations
    (`src/axiom/memory/store.py:60-250`). */
module FactStore {
  import opened Wrappers
  import opened Ordering
  import opened Text
  import opened Facts
  import opened FactLineage

  datatype StoreError = IdTaken

  class Store {
    /** Row ids in insertion order, and the committed rows. */
    var ids: seq<RecordId>
    var facts: map<RecordId, Fact>
    /** Ids of rows of the other kinds, which share the primary key. */
    var others: set<RecordId>

    ghost predicate Valid()
      reads this
    {
      Contents().Valid()
    }

    function Contents(): Table
      reads this
    {
      Table(ids, facts)
    }

    constructor ()
      ensures Valid() && Contents() == Table([], map[]) && others == {}
    {
      ids, facts, others := [], map[], {};
    }

    method ActiveRecords(scope: Scope, key: string) returns (active: seq<RecordId>)
      requires Valid()
      ensures active == ActiveIds(ids, facts, scope, key)
    {
      active := [];
      for i := 0 to |ids|
        invariant active == ActiveIds(ids[..i], facts, scope, key)
      {
        assert ids[i] in Elements(ids);
        assert ids[..i + 1][..i] == ids[..i];
        if ActiveFor(facts[ids[i]], scope, key) {
          active := active + [ids[i]];
        }
      }
      assert ids[..|ids|] == ids;
    }

    method Duplicate(fold: char -> string, active: seq<RecordId>, content: string) returns (r: Option<RecordId>)
      requires forall r :: r in active ==> r in facts
      ensures r == FirstEquivalent(fold, active, facts, content)
    {
      for i := 0 to |active|
        invariant FirstEquivalent(fold, active, facts, content) == FirstEquivalent(fold, active[i..], facts, content)
      {
        if Equivalent(fold, facts[active[i]].content, content) {
          return Some(active[i]);
        }
      }
      r := None;
    }

    method NextVersion(active: seq<RecordId>) returns (version: int)
      requires forall r :: r in active ==> r in facts
      ensures version == MaxVersion(active, facts) + 1
    {
      var best := 0;
      for i := 0 to |active|
        invariant best == MaxVersion(active[..i], facts)
      {
        assert active[..i + 1][..i] == active[..i];
        if i == 0 || facts[active[i]].version > best {
          best := facts[active[i]].version;
        }
      }
      assert active[..|active|] == active;
      version := best + 1;
    }

    /** One transaction: rows are rewritten one by one and committed together, or not at all. */
    method SaveFactValue(fold: char -> string, s: SaveRequest) returns (r: Result<RecordId, StoreError>)
      requires Valid()
      modifies this`ids, this`facts
      ensures r.Ok? <==> Save(fold, old(Contents()), others, s).Some?
      ensures r.Ok? ==> Valid() && Contents() == Save(fold, old(Contents()), others, s).value
      ensures r.Ok? ==>
              && r.value in facts && ActiveFor(facts[r.value], s.scope, s.key)
              && (r.value == s.newId || r.value in old(facts))
      ensures r.Err? ==> unchanged(this)
      ensures r.Ok? ==> exists id :: SavedExactly(fold, old(Contents()), Contents(), s, id)
    {
      if Save(fold, Contents(), others, s).Some? { SaveExactly(fold, Contents(), others, s); }
      hide Save, SavedExactly;
      r := CommitFactValue(fold, s);
    }

    method CommitFactValue(fold: char -> string, s: SaveRequest) returns (r: Result<RecordId, StoreError>)
      requires Valid()
      modifies this`ids, this`facts
      ensures r.Ok? <==> Save(fold, old(Contents()), others, s).Some?
      ensures r.Ok? ==> Valid() && Contents() == Save(fold, old(Contents()), others, s).value
      ensures r.Ok? ==>
                && r.value in facts && ActiveFor(facts[r.value], s.scope, s.key)
                && (r.value == s.newId || r.value in old(facts))
      ensures r.Err? ==> unchanged(this)
    {
      hide Equivalent, Strip, SupportingRanges, FirstEquivalent, MaxVersion, ActiveIds;
      ActiveIdsExact(ids, facts, s.scope, s.key);
      var active := ActiveRecords(s.scope, s.key);
      FirstEquivalentExact(fold, active, facts, s.content);
      var duplicate := Duplicate(fold, active, s.content);
      if duplicate.Some? {
        var id := duplicate.value;
        facts := facts[id := Observed(facts[id], s)];
        return Ok(id);
      }
      var version := NextVersion(active);
      var rows := SupersedeRows(active, s.newId, s.now);
      if s.newId in rows || s.newId in others {
        return Err(IdTaken);
      }
      assert s.newId !in Elements(ids);
      facts := rows[s.newId := NewFact(s, version, active)];
      ids := ids + [s.newId];
      assert Elements(ids) == facts.Keys;
      return Ok(s.newId);
    }

    method SupersedeRows(active: seq<RecordId>, newer: RecordId, now: nat) returns (rows: map<RecordId, Fact>)
      requires forall r :: r in active ==> r in facts
      ensures rows == SupersedeAll(facts, active, newer, now)
    {
      rows := facts;
      for i := 0 to |active|
        invariant rows == SupersedeAll(facts, active[..i], newer, now)
      {
        assert forall r :: r in active[..i + 1] <==> r in active[..i] || r == active[i];
        rows := rows[active[i] := Superseded(facts[active[i]], newer, now)];
      }
      assert active[..|active|] == active;
    }

    /** Retracts every matching row and reports how many there were. */
    method RetractFact(q: RetractRequest) returns (count: nat)
      requires Valid()
      modifies this`facts
      ensures Valid() && Contents() == Retract(old(Contents()), q)
      ensures count == |Matching(old(ids), old(facts), q)|
      ensures count == |Meant(old(facts), q)| && Retracts(old(Contents()), Contents(), q)
    {
      RetractMeans(Contents(), q);
      hide Meant, Retracts, Retract, Matching, NoDuplicates, Elements;
      count := RetractRows(q);
    }

    method RetractRows(q: RetractRequest) returns (count: nat)
      requires Valid()
      modifies this`facts
      ensures Valid() && Contents() == Retract(old(Contents()), q)
      ensures count == |Matching(old(ids), old(facts), q)|
    {
      hide Retractable, Retracted, Retract, NoDuplicates, Matching, Elements;
      MatchingStep(ids, facts, q, 0);
      var rows := facts;
      count := 0;
      ghost var gone: set<RecordId> := {};
      for i := 0 to |ids|
        invariant gone == Matching(ids[..i], facts, q) && count == |gone|
        invariant facts == old(facts) && Elements(ids) == facts.Keys && rows.Keys == facts.Keys
        invariant forall r :: r in facts ==> rows[r] == if r in gone then Retracted(facts[r], q.now) else facts[r]
      {
        var r := ids[i];
        ElementsStep(ids, i);
        MemberOf(ids, i);
        MatchingStep(ids, facts, q, i + 1);
        if Retractable(r, facts[r], q) {
          rows := rows[r := Retracted(facts[r], q.now)];
          count := count + 1;
          gone := gone + {r};
        }
      }
      assert ids[..|ids|] == ids;
      assert gone == Matching(ids, facts, q);
      RowsAreRetracted(old(Contents()), q, gone, rows);
      facts := rows;
      assert Contents() == Table(ids, rows);
    }
  }

  /** The active rows of the scope under that id or key, of the category if one is given. */
  function Meant(facts: map<RecordId, Fact>, q: RetractRequest): set<RecordId> {
    set r | r in facts && facts[r].active && facts[r].scope == q.scope
            && (r == q.keyOrId || (if facts[r].key.Some? then facts[r].key.value else "") == q.keyOrId)
            && (q.category.Some? ==> facts[r].category == q.category.value)
  }

  /** Exactly the rows that are meant are marked as retracted and are not active any more. */
  ghost predicate Retracts(t: Table, t': Table, q: RetractRequest) {
    && t'.ids == t.ids && t'.facts.Keys == t.facts.Keys
    && forall r :: r in t.facts ==>
         t'.facts[r] == if r in Meant(t.facts, q)
                        then t.facts[r].(active := false, retracted := true, updatedAt := q.now) else t.facts[r]
  }

  lemma RetractMeans(t: Table, q: RetractRequest)
    requires t.Valid()
    ensures Matching(t.ids, t.facts, q) == Meant(t.facts, q) && Retracts(t, Retract(t, q), q)
  {
    forall r ensures r in t.facts <==> r in t.ids { assert r in t.ids <==> r in Elements(t.ids); }
  }

  /** Those of the given rows that a retraction matches. */
  ghost function Matching(ids: seq<RecordId>, facts: map<RecordId, Fact>, q: RetractRequest): set<RecordId> {
    set r | r in ids && r in facts && Retractable(r, facts[r], q)
  }

  lemma MemberOf(ids: seq<RecordId>, i: nat)
    requires i < |ids|
    ensures ids[i] in Elements(ids)
  {}

  lemma MatchingStep(ids: seq<RecordId>, facts: map<RecordId, Fact>, q: RetractRequest, n: nat)
    requires n <= |ids| && NoDuplicates(ids)
    ensures n == 0 ==> Matching(ids[..n], facts, q) == {}
    ensures 0 < n && ids[n - 1] in facts ==>
              && ids[n - 1] !in Matching(ids[..n - 1], facts, q)
              && Matching(ids[..n], facts, q) ==
                 Matching(ids[..n - 1], facts, q)
                 + if Retractable(ids[n - 1], facts[ids[n - 1]], q) then {ids[n - 1]} else {}
  {
    hide Retractable;
    if n > 0 {
      assert ids[..n] == ids[..n - 1] + [ids[n - 1]];
    }
  }

  lemma RowsAreRetracted(t: Table, q: RetractRequest, gone: set<RecordId>, rows: map<RecordId, Fact>)
    requires t.Valid() && gone == Matching(t.ids, t.facts, q) && rows.Keys == t.facts.Keys
    requires forall r :: r in t.facts ==> rows[r] == if r in gone then Retracted(t.facts[r], q.now) else t.facts[r]
    ensures Retract(t, q) == Table(t.ids, rows)
  {
    hide Retractable, Retracted;
    assert forall r :: r in t.facts ==> r in t.ids by { assert forall r :: r in t.facts ==> r in Elements(t.ids); }
  }

  // ---- Runs ----

  datatype Operation = SaveFact(save: SaveRequest) | RetractFact(retract: RetractRequest)

  /** Whether the operation commits; a save whose id is taken does not. */
  predicate Commits(fold: char -> string, t: Table, others: set<RecordId>, op: Operation) {
    op.SaveFact? ==> Save(fold, t, others, op.save).Some?
  }

  function Step(fold: char -> string, t: Table, others: set<RecordId>, op: Operation): Table {
    if !Commits(fold, t, others, op) then t
    else match op
      case SaveFact(s) => Save(fold, t, others, s).value
      case RetractFact(q) => Retract(t, q)
  }

  function Run(fold: char -> string, others: set<RecordId>, ops: seq<Operation>): Table {
    if ops == [] then Table([], map[])
    else Step(fold, Run(fold, others, ops[..|ops| - 1]), others, ops[|ops| - 1])
  }

  /** The operations of the run that commit. */
  function Committed(fold: char -> string, others: set<RecordId>, ops: seq<Operation>): seq<Operation> {
    if ops == [] then []
    else
      var init, last := ops[..|ops| - 1], ops[|ops| - 1];
      Committed(fold, others, init) + if Commits(fold, Run(fold, others, init), others, last) then [last] else []
  }

  /** The same operations on a plain map. */
  function PlainRun(fold: char -> string, ops: seq<Operation>): PlainMap {
    if ops == [] then map[]
    else
      var m := PlainRun(fold, ops[..|ops| - 1]);
      match ops[|ops| - 1]
      case SaveFact(s) => PlainSave(fold, m, s)
      case RetractFact(q) => PlainRetract(m, q)
  }

  function Saves(ops: seq<Operation>, scope: Scope, key: string): nat {
    if ops == [] then 0
    else
      var last := ops[|ops| - 1];
      Saves(ops[..|ops| - 1], scope, key)
      + if last.SaveFact? && last.save.scope == scope && last.save.key == key then 1 else 0
  }

  /** After any run the active rows are a plain map from (scope, key) to the last value saved and not
      retracted since, and no key has two active rows. */
  lemma {:induction false} RunsActPlainly(fold: char -> string, others: set<RecordId>, ops: seq<Operation>)
    requires IsFolding(fold)
    ensures var t := Run(fold, others, ops);
            t.Valid() && UniqueActive(t) && Shows(fold, t, PlainRun(fold, Committed(fold, others, ops)))
  {
    hide IsFolding, UniqueActive, Shows, Save, Retract, PlainSave, PlainRetract;
    if ops == [] {
      EmptyShows(fold);
    } else {
      var init, last := ops[..|ops| - 1], ops[|ops| - 1];
      RunsActPlainly(fold, others, init);
      var t, done := Run(fold, others, init), Committed(fold, others, init);
      assert done + [] == done;
      if Commits(fold, t, others, last) {
        assert (done + [last])[..|done|] == done;
        match last {
          case SaveFact(s) => SaveActsPlainly(fold, t, others, s, PlainRun(fold, done));
          case RetractFact(q) => RetractActsPlainly(fold, t, q, PlainRun(fold, done));
        }
      }
    }
  }

  lemma EmptyShows(fold: char -> string)
    ensures Table([], map[]).Valid() && UniqueActive(Table([], map[])) && Shows(fold, Table([], map[]), map[])
  {}

  /** After any run supersession is mirrored and versioned, and the observations recorded for a key
      add up to the saves of that key that committed. */
  lemma {:induction false} RunsKeepLineage(fold: char -> string, others: set<RecordId>, ops: seq<Operation>)
    ensures var t := Run(fold, others, ops);
            && t.Valid() && Lineage(t)
            && forall scope, key :: Seen(t.ids, t.facts, scope, key) == Saves(Committed(fold, others, ops), scope, key)
  {
    hide Lineage, Save, Retract;
    if ops == [] {
      EmptyLineage();
    } else {
      var init, last := ops[..|ops| - 1], ops[|ops| - 1];
      RunsKeepLineage(fold, others, init);
      var t, done := Run(fold, others, init), Committed(fold, others, init);
      assert done + [] == done;
      if Commits(fold, t, others, last) {
        assert (done + [last])[..|done|] == done;
        StepKeepsLineage(fold, t, others, last);
        forall scope, key
          ensures Seen(Run(fold, others, ops).ids, Run(fold, others, ops).facts, scope, key) ==
                  Saves(done + [last], scope, key)
        {
          StepIsCounted(fold, t, others, last, scope, key);
        }
      }
    }
  }

  lemma EmptyLineage()
    ensures Lineage(Table([], map[]))
  {}

  lemma StepKeepsLineage(fold: char -> string, t: Table, others: set<RecordId>, op: Operation)
    requires t.Valid() && Lineage(t)
    ensures Step(fold, t, others, op).Valid() && Lineage(Step(fold, t, others, op))
    ensures Continues(t, Step(fold, t, others, op))
  {
    hide Lineage, Save, Retract, ContinuesRow;
    ContinuesItself(t);
    if Commits(fold, t, others, op) {
      match op {
        case SaveFact(s) =>
          SaveKeepsLineage(fold, t, others, s);
          SaveKeepsValid(fold, t, others, s);
        case RetractFact(q) =>
          RetractKeepsLineage(t, q);
          RetractedKeys(t, q);
      }
    }
  }

  lemma ContinuesItself(t: Table)
    ensures Continues(t, t)
  {}

  lemma SaveKeepsValid(fold: char -> string, t: Table, others: set<RecordId>, s: SaveRequest)
    requires t.Valid() && Save(fold, t, others, s).Some?
    ensures Save(fold, t, others, s).value.Valid()
  {
    hide Equivalent, ActiveIds, MaxVersion, FirstEquivalent, Inserted;
    var active := ActiveIds(t.ids, t.facts, s.scope, s.key);
    InsertedRow(t.(facts := t.facts - {s.newId}), s, active, MaxVersion(active, t.facts) + 1, s.newId);
    var t' := Save(fold, t, others, s).value;
    if t'.ids != t.ids {
      assert s.newId !in Elements(t.ids);
      forall r ensures r in t'.facts <==> r in t.facts || r == s.newId {
        InsertedRow(t, s, active, MaxVersion(active, t.facts) + 1, r);
      }
      assert Elements(t'.ids) == Elements(t.ids) + {s.newId};
      assert Elements(t'.ids) == t'.facts.Keys;
    }
  }

  lemma StepIsCounted(fold: char -> string, t: Table, others: set<RecordId>, op: Operation, scope: Scope, key: string)
    requires t.Valid() && Lineage(t) && Commits(fold, t, others, op)
    ensures Seen(Step(fold, t, others, op).ids, Step(fold, t, others, op).facts, scope, key) ==
            Seen(t.ids, t.facts, scope, key)
            + if op.SaveFact? && op.save.scope == scope && op.save.key == key then 1 else 0
  {
    hide Lineage, Save, Retract, Seen;
    match op {
      case SaveFact(s) => SaveIsCounted(fold, t, others, s, scope, key);
      case RetractFact(q) =>
        RetractIsNotCounted(t, q, scope, key);
        RetractedKeys(t, q);
    }
  }

  lemma ContinuesOn(t: Table, u: Table, v: Table)
    requires Continues(t, u) && Continues(u, v)
    ensures Continues(t, v)
  {}

  /** However a run goes on, a row keeps its identity, its first piece of evidence and the row that
      superseded it, and once inactive it is inactive for good. */
  lemma {:induction false} RunsContinue(fold: char -> string, others: set<RecordId>, ops: seq<Operation>, k: nat)
    requires k <= |ops|
    ensures Continues(Run(fold, others, ops[..k]), Run(fold, others, ops))
  {
    hide Continues, Lineage, Step;
    if k == |ops| {
      assert ops[..k] == ops;
      ContinuesItself(Run(fold, others, ops));
    } else {
      var init := ops[..|ops| - 1];
      assert init[..k] == ops[..k];
      RunsContinue(fold, others, init, k);
      RunsKeepLineage(fold, others, init);
      StepKeepsLineage(fold, Run(fold, others, init), others, ops[|ops| - 1]);
      ContinuesOn(Run(fold, others, ops[..k]), Run(fold, others, init), Run(fold, others, ops));
    }
  }

  /** Following `superseded_by` gains at least one version a step, so it never comes back. */
  lemma {:induction false} ChainsGrow(t: Table, chain: seq<RecordId>)
    requires Lineage(t) && chain != [] && forall i :: 0 <= i < |chain| ==> chain[i] in t.facts
    requires forall i :: 0 <= i < |chain| - 1 ==> t.facts[chain[i]].supersededBy == Some(chain[i + 1])
    ensures t.facts[chain[|chain| - 1]].version >= t.facts[chain[0]].version + |chain| - 1
    ensures t.facts[chain[|chain| - 1]].key == t.facts[chain[0]].key
  {
    if |chain| > 1 {
      var init := chain[..|chain| - 1];
      ChainsGrow(t, init);
      assert t.facts[init[|init| - 1]].supersededBy == Some(chain[|chain| - 1]);
    }
  }
}
