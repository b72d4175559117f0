/** Facts as rows of `memory_records`, and what saving and retracting do to the table
    (`src/axiom/memory/store.py:60-250` and `:655-689`). */
module Facts {
  import opened Wrappers
  import opened Ordering
  import opened Text

  type RecordId = string

  datatype Scope = Scope(kind: string, id: string)

  /** Source events of one observation, as given. */
  type EventRange = (Option<int>, Option<int>)

  datatype Fact = Fact(
    scope: Scope, content: string, createdAt: nat, updatedAt: nat, eventStart: Option<int>, eventEnd: Option<int>,
    active: bool, key: Option<string>, category: string, confidence: real, version: int,
    supersedes: seq<RecordId>, supersededBy: Option<RecordId>, retracted: bool,
    observationCount: Option<int>, lastSeen: Option<int>, ranges: seq<EventRange>)

  /** The fact rows in the order they were inserted. */
  datatype Table = Table(ids: seq<RecordId>, facts: map<RecordId, Fact>) {
    ghost predicate Valid() {
      NoDuplicates(ids) && Elements(ids) == facts.Keys
    }
  }

  // ---- Small helpers ----

  function Canonical(fold: char -> string, content: string): seq<string> {
    Words(FoldAll(fold, content))
  }

  predicate Equivalent(fold: char -> string, left: string, right: string) {
    Canonical(fold, left) == Canonical(fold, right)
  }

  function Coalesce<T>(a: Option<T>, b: Option<T>): Option<T> {
    if a.Some? then a else b
  }

  /** `observation_count or 1` */
  function Observations(f: Fact): int {
    match f.observationCount case None => 1 case Some(n) => if n == 0 then 1 else n
  }

  /** `_supporting_ranges`: append if new; beyond 20 keep the first and the last 19. */
  function SupportingRanges(existing: seq<EventRange>, candidate: EventRange): (r: seq<EventRange>)
    ensures 1 <= |r| <= 20
    ensures existing != [] ==> r[0] == existing[0]
    ensures |existing| <= 20 ==> candidate in r
  {
    var ranges := if candidate in existing then existing else existing + [candidate];
    if |ranges| > 20 then
      var kept := ranges[..1] + ranges[|ranges| - 19..];
      assert kept[|kept| - 1] == ranges[|ranges| - 1];
      kept
    else ranges
  }

  datatype SaveRequest = SaveRequest(
    scope: Scope, key: string, category: string, content: string, confidence: real,
    start: Option<int>, end: Option<int>, newId: RecordId, now: nat)

  datatype RetractRequest = RetractRequest(scope: Scope, keyOrId: string, category: Option<string>, now: nat)

  // ---- Saving ----

  predicate ActiveFor(f: Fact, scope: Scope, key: string) {
    f.scope == scope && f.active && f.key == Some(key)
  }

  /** The rows that are active for a key, in table order. */
  function ActiveIds(ids: seq<RecordId>, facts: map<RecordId, Fact>, scope: Scope, key: string): seq<RecordId> {
    if ids == [] then []
    else
      var last := ids[|ids| - 1];
      ActiveIds(ids[..|ids| - 1], facts, scope, key)
      + if last in facts && ActiveFor(facts[last], scope, key) then [last] else []
  }

  /** The first of the given rows whose content is equivalent. */
  function FirstEquivalent(fold: char -> string, ids: seq<RecordId>, facts: map<RecordId, Fact>,
                           content: string): Option<RecordId> {
    if ids == [] then None
    else if ids[0] in facts && Equivalent(fold, facts[ids[0]].content, content) then Some(ids[0])
    else FirstEquivalent(fold, ids[1..], facts, content)
  }

  function MaxVersion(ids: seq<RecordId>, facts: map<RecordId, Fact>): int {
    if ids == [] then 0
    else
      var rest := MaxVersion(ids[..|ids| - 1], facts);
      var last := ids[|ids| - 1];
      if last in facts && (|ids| == 1 || facts[last].version > rest) then facts[last].version else rest
  }

  /** A value seen again: the row is kept and its evidence grows. */
  function Observed(f: Fact, s: SaveRequest): Fact {
    f.(confidence := if s.confidence > f.confidence then s.confidence else f.confidence,
       lastSeen := s.end, observationCount := Some(Observations(f) + 1),
       ranges := SupportingRanges(f.ranges, (s.start, s.end)), updatedAt := s.now,
       eventStart := Coalesce(f.eventStart, s.start), eventEnd := Coalesce(s.end, f.eventEnd))
  }

  function Superseded(f: Fact, newer: RecordId, now: nat): Fact {
    f.(active := false, supersededBy := Some(newer), updatedAt := now)
  }

  function NewFact(s: SaveRequest, version: int, supersedes: seq<RecordId>): Fact {
    Fact(s.scope, Strip(s.content), s.now, s.now, s.start, s.end, true, Some(s.key), s.category, s.confidence, version,
         supersedes, None, false, None, None, SupportingRanges([], (s.start, s.end)))
  }

  function SupersedeAll(facts: map<RecordId, Fact>, ids: seq<RecordId>, newer: RecordId,
                        now: nat): map<RecordId, Fact> {
    map r | r in facts :: if r in ids then Superseded(facts[r], newer, now) else facts[r]
  }

  /** An id that is already taken makes the insertion fail, and the transaction is rolled back. */
  function Save(fold: char -> string, t: Table, taken: set<RecordId>, s: SaveRequest): Option<Table> {
    var active := ActiveIds(t.ids, t.facts, s.scope, s.key);
    match FirstEquivalent(fold, active, t.facts, s.content)
    case Some(r) => if r in t.facts then Some(t.(facts := t.facts[r := Observed(t.facts[r], s)])) else None
    case None =>
      if s.newId in t.facts || s.newId in taken then None
      else Some(Table(
        t.ids + [s.newId],
        Inserted(t, s, active, MaxVersion(active, t.facts) + 1)))
  }

  // ---- Retracting ----

  function KeyText(f: Fact): string {
    match f.key case None => "" case Some(k) => k
  }

  predicate Retractable(r: RecordId, f: Fact, q: RetractRequest) {
    && f.scope == q.scope && f.active && (r == q.keyOrId || KeyText(f) == q.keyOrId)
    && (q.category.None? || f.category == q.category.value)
  }

  function Retracted(f: Fact, now: nat): Fact {
    f.(active := false, retracted := true, updatedAt := now)
  }

  function Retract(t: Table, q: RetractRequest): Table {
    t.(facts := map r | r in t.facts ::
                  if Retractable(r, t.facts[r], q) then Retracted(t.facts[r], q.now) else t.facts[r])
  }

  // ---- The plain map ----

  /** What the active rows say about a key: its value up to case and white space, and where it is recorded. */
  datatype Entry = Entry(value: seq<string>, id: RecordId, category: string)

  type PlainMap = map<(Scope, string), Entry>

  /** No two active rows of one scope share a key. */
  ghost predicate UniqueActive(t: Table) {
    forall r, q, scope, key ::
      r in t.facts && q in t.facts && ActiveFor(t.facts[r], scope, key) && ActiveFor(t.facts[q], scope, key) ==> r == q
  }

  /** The plain map `m` is what the active keyed rows of the table say. */
  ghost predicate Shows(fold: char -> string, t: Table, m: PlainMap) {
    && (forall r, scope, key :: r in t.facts && ActiveFor(t.facts[r], scope, key) ==>
          (scope, key) in m && m[(scope, key)] == Entry(Canonical(fold, t.facts[r].content), r, t.facts[r].category))
    && (forall k :: k in m ==> m[k].id in t.facts && ActiveFor(t.facts[m[k].id], k.0, k.1))
  }

  function PlainSave(fold: char -> string, m: PlainMap, s: SaveRequest): PlainMap {
    var k := (s.scope, s.key);
    if k in m && m[k].value == Canonical(fold, s.content) then m
    else m[k := Entry(Canonical(fold, s.content), s.newId, s.category)]
  }

  function PlainRetract(m: PlainMap, q: RetractRequest): PlainMap {
    map k | k in m && !(k.0 == q.scope && (m[k].id == q.keyOrId || k.1 == q.keyOrId)
                        && (q.category.None? || m[k].category == q.category.value)) :: m[k]
  }

  lemma {:induction false} ActiveIdsExact(ids: seq<RecordId>, facts: map<RecordId, Fact>, scope: Scope, key: string)
    ensures forall r :: r in ActiveIds(ids, facts, scope, key) <==>
              r in ids && r in facts && ActiveFor(facts[r], scope, key)
    ensures NoDuplicates(ids) ==> NoDuplicates(ActiveIds(ids, facts, scope, key))
  {
    if ids != [] {
      var init, last := ids[..|ids| - 1], ids[|ids| - 1];
      assert ids == init + [last];
      ActiveIdsExact(init, facts, scope, key);
    }
  }

  lemma ObservedActsPlainly(fold: char -> string, t: Table, s: SaveRequest, m: PlainMap, r: RecordId)
    requires UniqueActive(t) && Shows(fold, t, m)
    requires r in t.facts && ActiveFor(t.facts[r], s.scope, s.key) && Equivalent(fold, t.facts[r].content, s.content)
    ensures var t' := t.(facts := t.facts[r := Observed(t.facts[r], s)]);
            UniqueActive(t') && Shows(fold, t', PlainSave(fold, m, s))
  {
    hide Canonical, SupportingRanges;
    assert (s.scope, s.key) in m;
  }

  /** The rows after a new value has been saved. */
  function Inserted(t: Table, s: SaveRequest, active: seq<RecordId>, version: int): map<RecordId, Fact> {
    SupersedeAll(t.facts, active, s.newId, s.now)[s.newId := NewFact(s, version, active)]
  }

  /** The active rows are those of other keys, unchanged, and the new one. */
  lemma InsertedActive(t: Table, s: SaveRequest, active: seq<RecordId>, version: int, r: RecordId, scope: Scope,
                       key: string)
    requires s.newId !in t.facts
    requires forall r :: r in active <==> r in t.facts && ActiveFor(t.facts[r], s.scope, s.key)
    ensures var facts' := Inserted(t, s, active, version);
            && facts'.Keys == t.facts.Keys + {s.newId}
            && (r == s.newId ==> (ActiveFor(facts'[r], scope, key) <==> (scope, key) == (s.scope, s.key)))
            && (r in t.facts ==>
                  && (ActiveFor(facts'[r], scope, key) <==>
                      ActiveFor(t.facts[r], scope, key) && (scope, key) != (s.scope, s.key))
                  && (ActiveFor(facts'[r], scope, key) ==> facts'[r] == t.facts[r]))
  {}

  lemma NewActsPlainly(fold: char -> string, t: Table, s: SaveRequest, m: PlainMap, active: seq<RecordId>, version: int)
    requires IsFolding(fold) && UniqueActive(t) && Shows(fold, t, m) && s.newId !in t.facts
    requires forall r :: r in active <==> r in t.facts && ActiveFor(t.facts[r], s.scope, s.key)
    requires forall r :: r in active ==> !Equivalent(fold, t.facts[r].content, s.content)
    ensures var t' := Table(t.ids + [s.newId], Inserted(t, s, active, version));
            UniqueActive(t') && Shows(fold, t', PlainSave(fold, m, s))
  {
    hide Canonical, Strip, SupportingRanges, IsFolding, Inserted, ActiveFor, SupersedeAll, NewFact;
    StripIsCanonical(fold, s.content);
    InsertedNew(fold, t, s, active, version);
    var t' := Table(t.ids + [s.newId], Inserted(t, s, active, version));
    forall r, q, scope, key | r in t'.facts && q in t'.facts
                                && ActiveFor(t'.facts[r], scope, key) && ActiveFor(t'.facts[q], scope, key)
      ensures r == q
    {
      InsertedActive(t, s, active, version, r, scope, key);
      InsertedActive(t, s, active, version, q, scope, key);
    }
    InsertedShows(fold, t, s, m, active, version);
  }

  lemma StripIsCanonical(fold: char -> string, content: string)
    requires IsFolding(fold)
    ensures Canonical(fold, Strip(content)) == Canonical(fold, content)
  {
    StripKeepsWords(fold, content);
  }

  lemma InsertedShows(fold: char -> string, t: Table, s: SaveRequest, m: PlainMap, active: seq<RecordId>, version: int)
    requires Shows(fold, t, m) && s.newId !in t.facts
    requires Canonical(fold, Strip(s.content)) == Canonical(fold, s.content)
    requires forall r :: r in active <==> r in t.facts && ActiveFor(t.facts[r], s.scope, s.key)
    requires forall r :: r in active ==> !Equivalent(fold, t.facts[r].content, s.content)
    ensures Shows(fold, Table(t.ids + [s.newId], Inserted(t, s, active, version)), PlainSave(fold, m, s))
  {
    hide Canonical, Strip, SupportingRanges, Inserted, ActiveFor, SupersedeAll, NewFact;
    InsertedNew(fold, t, s, active, version);
    var t', k := Table(t.ids + [s.newId], Inserted(t, s, active, version)), (s.scope, s.key);
    if k in m {
      assert m[k].id in active;
      assert m[k].value != Canonical(fold, s.content);
    }
    var m' := m[k := Entry(Canonical(fold, s.content), s.newId, s.category)];
    assert PlainSave(fold, m, s) == m';
    forall r, scope, key | r in t'.facts && ActiveFor(t'.facts[r], scope, key)
      ensures (scope, key) in m'
      ensures m'[(scope, key)] == Entry(Canonical(fold, t'.facts[r].content), r, t'.facts[r].category)
    {
      InsertedActive(t, s, active, version, r, scope, key);
    }
    forall j | j in m' ensures m'[j].id in t'.facts && ActiveFor(t'.facts[m'[j].id], j.0, j.1) {
      InsertedActive(t, s, active, version, m'[j].id, j.0, j.1);
    }
  }

  lemma InsertedNew(fold: char -> string, t: Table, s: SaveRequest, active: seq<RecordId>, version: int)
    requires Canonical(fold, Strip(s.content)) == Canonical(fold, s.content)
    ensures var facts' := Inserted(t, s, active, version);
            && facts'.Keys == t.facts.Keys + {s.newId}
            && facts'[s.newId] == NewFact(s, version, active)
            && Canonical(fold, facts'[s.newId].content) == Canonical(fold, s.content)
            && facts'[s.newId].category == s.category
  {}

  lemma FirstEquivalentExact(fold: char -> string, ids: seq<RecordId>, facts: map<RecordId, Fact>, content: string)
    ensures var f := FirstEquivalent(fold, ids, facts, content);
            && (f.Some? ==> f.value in ids && f.value in facts && Equivalent(fold, facts[f.value].content, content))
            && (f.None? ==> forall r :: r in ids && r in facts ==> !Equivalent(fold, facts[r].content, content))
  {
    hide Equivalent;
  }

  /** Saving acts on the plain map as assignment, up to case and white space. */
  lemma SaveActsPlainly(fold: char -> string, t: Table, taken: set<RecordId>, s: SaveRequest, m: PlainMap)
    requires IsFolding(fold) && t.Valid() && UniqueActive(t) && Shows(fold, t, m)
    requires Save(fold, t, taken, s).Some?
    ensures var t' := Save(fold, t, taken, s).value;
            && t'.Valid() && UniqueActive(t') && Shows(fold, t', PlainSave(fold, m, s))
  {
    hide Equivalent, ActiveIds, MaxVersion, UniqueActive, Shows, PlainSave, ActiveFor, FirstEquivalent, IsFolding;
    var active := ActiveIds(t.ids, t.facts, s.scope, s.key);
    ActiveIdsExact(t.ids, t.facts, s.scope, s.key);
    FirstEquivalentExact(fold, active, t.facts, s.content);
    assert forall r :: r in t.facts ==> r in t.ids by { assert forall r :: r in t.facts ==> r in Elements(t.ids); }
    match FirstEquivalent(fold, active, t.facts, s.content) {
      case Some(r) =>
        ObservedActsPlainly(fold, t, s, m, r);
      case None =>
        NewActsPlainly(fold, t, s, m, active, MaxVersion(active, t.facts) + 1);
        assert Elements(t.ids + [s.newId]) == Elements(t.ids) + {s.newId};
        assert s.newId !in Elements(t.ids);
    }
  }

  /** Retracting acts on the plain map as removal. */
  lemma RetractActsPlainly(fold: char -> string, t: Table, q: RetractRequest, m: PlainMap)
    requires t.Valid() && UniqueActive(t) && Shows(fold, t, m)
    ensures Retract(t, q).Valid() && UniqueActive(Retract(t, q)) && Shows(fold, Retract(t, q), PlainRetract(m, q))
  {
    hide Canonical, Retract, Retractable, ActiveFor, PlainRetract;
    var t' := Retract(t, q);
    RetractedShape(t, q);
    forall r, scope, key | r in t.facts
      ensures ActiveFor(t'.facts[r], scope, key) <==>
                ActiveFor(t.facts[r], scope, key) && !Retractable(r, t.facts[r], q)
      ensures ActiveFor(t'.facts[r], scope, key) ==> t'.facts[r] == t.facts[r]
    {
      RetractedActive(t, q, r, scope, key);
    }
    forall k ensures k in PlainRetract(m, q) <==> k in m && !Retractable(m[k].id, t.facts[m[k].id], q)
             ensures k in PlainRetract(m, q) ==> PlainRetract(m, q)[k] == m[k] {
      if k in m { assert ActiveFor(t.facts[m[k].id], k.0, k.1); }
      PlainRetracted(fold, t, q, m, k);
    }
  }

  lemma RetractedShape(t: Table, q: RetractRequest)
    ensures Retract(t, q).ids == t.ids && Retract(t, q).facts.Keys == t.facts.Keys
  {
    hide Retractable;
  }

  lemma RetractedActive(t: Table, q: RetractRequest, r: RecordId, scope: Scope, key: string)
    requires r in t.facts
    ensures var t' := Retract(t, q);
            && r in t'.facts
            && (ActiveFor(t'.facts[r], scope, key) <==>
                ActiveFor(t.facts[r], scope, key) && !Retractable(r, t.facts[r], q))
            && (ActiveFor(t'.facts[r], scope, key) ==> t'.facts[r] == t.facts[r])
  {
    hide Retractable;
  }

  lemma PlainRetracted(fold: char -> string, t: Table, q: RetractRequest, m: PlainMap, k: (Scope, string))
    requires k in m ==>
               m[k].id in t.facts && ActiveFor(t.facts[m[k].id], k.0, k.1) && m[k].category == t.facts[m[k].id].category
    ensures k in PlainRetract(m, q) <==> k in m && !Retractable(m[k].id, t.facts[m[k].id], q)
    ensures k in PlainRetract(m, q) ==> PlainRetract(m, q)[k] == m[k]
  {}
}
