/** How the rows of one fact hang together: supersession, versions, evidence and observation counts
    (`src/axiom/memory/store.py:85-199` and `:673-689`). */
module FactLineage {
  import opened Wrappers
  import opened Ordering
  import opened Text
  import opened Facts

  // ---- Lineage ----

  /** `supersedes` and `superseded_by` mirror each other within one key, versions grow along them, a
      superseded or retracted row is inactive, and the evidence stays bounded. */
  ghost predicate Lineage(t: Table) {
    && (forall r :: r in t.facts && t.facts[r].supersededBy.Some? ==>
          t.facts[r].supersededBy.value in t.facts && r in t.facts[t.facts[r].supersededBy.value].supersedes)
    && (forall n, r :: n in t.facts && r in t.facts[n].supersedes ==>
          r in t.facts && Precedes(t.facts[r], t.facts[n], n))
    && (forall r :: r in t.facts ==> Settled(t.facts[r]))
  }

  predicate Precedes(older: Fact, newer: Fact, newerId: RecordId) {
    && older.supersededBy == Some(newerId) && older.version < newer.version
    && older.scope == newer.scope && older.key == newer.key
  }

  predicate Settled(f: Fact) {
    && (f.supersededBy.Some? || f.retracted ==> !f.active)
    && (f.observationCount.Some? ==> f.observationCount.value >= 1)
    && |f.ranges| <= 20
  }

  /** Nothing that identifies a row ever changes; an inactive row stays inactive, and the first range stays. */
  ghost predicate Continues(t: Table, t': Table) {
    t.ids <= t'.ids && forall r :: r in t.facts ==> r in t'.facts && ContinuesRow(t.facts[r], t'.facts[r])
  }

  predicate ContinuesRow(f: Fact, g: Fact) {
    && g.scope == f.scope && g.key == f.key && g.content == f.content && g.category == f.category
    && g.version == f.version && g.supersedes == f.supersedes && g.createdAt == f.createdAt
    && (!f.active ==> !g.active) && (f.supersededBy.Some? ==> g.supersededBy == f.supersededBy)
    && (f.retracted ==> g.retracted)
    && (f.ranges != [] ==> g.ranges != [] && g.ranges[0] == f.ranges[0])
  }

  lemma {:induction false} MaxVersionExact(ids: seq<RecordId>, facts: map<RecordId, Fact>)
    ensures forall r :: r in ids && r in facts ==> facts[r].version <= MaxVersion(ids, facts)
  {
    if ids != [] {
      var init, last := ids[..|ids| - 1], ids[|ids| - 1];
      assert ids == init + [last];
      MaxVersionExact(init, facts);
    }
  }

  lemma SaveKeepsLineage(fold: char -> string, t: Table, taken: set<RecordId>, s: SaveRequest)
    requires t.Valid() && Lineage(t) && Save(fold, t, taken, s).Some?
    ensures Lineage(Save(fold, t, taken, s).value) && Continues(t, Save(fold, t, taken, s).value)
  {
    hide Equivalent, ActiveIds, MaxVersion, FirstEquivalent, Lineage, Inserted, Strip;
    var active := ActiveIds(t.ids, t.facts, s.scope, s.key);
    ActiveIdsExact(t.ids, t.facts, s.scope, s.key);
    FirstEquivalentExact(fold, active, t.facts, s.content);
    match FirstEquivalent(fold, active, t.facts, s.content) {
      case Some(r) => ObservedKeepsLineage(t, s, r);
      case None =>
        MaxVersionExact(active, t.facts);
        InsertedKeepsLineage(t, s, active, MaxVersion(active, t.facts) + 1);
    }
  }

  lemma ObservedKeepsLineage(t: Table, s: SaveRequest, r: RecordId)
    requires Lineage(t) && r in t.facts
    ensures var t' := t.(facts := t.facts[r := Observed(t.facts[r], s)]); Lineage(t') && Continues(t, t')
  {
    hide Observed, Settled, ContinuesRow;
    ObservedRow(t.facts[r], s);
    forall q | q in t.facts ensures ContinuesRow(t.facts[q], t.facts[q]) { SameRow(t.facts[q]); }
  }

  lemma SameRow(f: Fact)
    ensures ContinuesRow(f, f)
  {}

  lemma ObservedRow(f: Fact, s: SaveRequest)
    ensures var g := Observed(f, s);
            && ContinuesRow(f, g) && (Settled(f) ==> Settled(g))
            && g.supersededBy == f.supersededBy && g.supersedes == f.supersedes
            && g.version == f.version && g.scope == f.scope && g.key == f.key
  {
    hide SupportingRanges;
  }

  /** Row by row, what inserting does. */
  lemma InsertedRow(t: Table, s: SaveRequest, active: seq<RecordId>, version: int, r: RecordId)
    requires s.newId !in t.facts
    ensures var facts' := Inserted(t, s, active, version);
            && (r in facts' <==> r in t.facts || r == s.newId)
            && (r in t.facts ==>
                  facts'[r] == if r in active then Superseded(t.facts[r], s.newId, s.now) else t.facts[r])
            && facts'[s.newId] == NewFact(s, version, active)
  {
    hide SupportingRanges, Strip;
  }

  ghost predicate IsActiveBelow(t: Table, s: SaveRequest, active: seq<RecordId>, version: int) {
    forall r :: r in active ==> r in t.facts && ActiveFor(t.facts[r], s.scope, s.key) && t.facts[r].version < version
  }

  lemma InsertedLinks(t: Table, s: SaveRequest, active: seq<RecordId>, version: int, n: RecordId, r: RecordId)
    requires Lineage(t) && s.newId !in t.facts && IsActiveBelow(t, s, active, version)
    requires var facts' := Inserted(t, s, active, version); n in facts' && r in facts'[n].supersedes
    ensures var facts' := Inserted(t, s, active, version); r in facts' && Precedes(facts'[r], facts'[n], n)
  {
    hide Inserted, SupportingRanges, Strip;
    InsertedRow(t, s, active, version, n);
    InsertedRow(t, s, active, version, r);
  }

  lemma InsertedMirrors(t: Table, s: SaveRequest, active: seq<RecordId>, version: int, r: RecordId)
    requires Lineage(t) && s.newId !in t.facts && IsActiveBelow(t, s, active, version)
    requires r in Inserted(t, s, active, version)
    ensures var facts' := Inserted(t, s, active, version);
            && (facts'[r].supersededBy.Some? ==>
                  facts'[r].supersededBy.value in facts' && r in facts'[facts'[r].supersededBy.value].supersedes)
            && Settled(facts'[r])
            && (r in t.facts ==> ContinuesRow(t.facts[r], facts'[r]))
  {
    hide Inserted, SupportingRanges, Strip;
    InsertedRow(t, s, active, version, r);
    InsertedRow(t, s, active, version, s.newId);
    if r in t.facts && t.facts[r].supersededBy.Some? {
      assert Settled(t.facts[r]) && r !in active;
      InsertedRow(t, s, active, version, t.facts[r].supersededBy.value);
    }
  }

  lemma InsertedKeepsLineage(t: Table, s: SaveRequest, active: seq<RecordId>, version: int)
    requires Lineage(t) && s.newId !in t.facts && IsActiveBelow(t, s, active, version)
    ensures var t' := Table(t.ids + [s.newId], Inserted(t, s, active, version)); Lineage(t') && Continues(t, t')
  {
    hide Inserted, Precedes, Settled, ContinuesRow, IsActiveBelow;
    var t' := Table(t.ids + [s.newId], Inserted(t, s, active, version));
    forall r | r in t'.facts
      ensures t'.facts[r].supersededBy.Some? ==>
                t'.facts[r].supersededBy.value in t'.facts && r in t'.facts[t'.facts[r].supersededBy.value].supersedes
      ensures Settled(t'.facts[r])
    {
      InsertedMirrors(t, s, active, version, r);
    }
    forall n, r | n in t'.facts && r in t'.facts[n].supersedes
      ensures r in t'.facts && Precedes(t'.facts[r], t'.facts[n], n)
    {
      InsertedLinks(t, s, active, version, n, r);
    }
    forall r | r in t.facts ensures r in t'.facts && ContinuesRow(t.facts[r], t'.facts[r]) {
      InsertedRow(t, s, active, version, r);
      InsertedMirrors(t, s, active, version, r);
    }
  }

  lemma RetractedRow(t: Table, q: RetractRequest, r: RecordId)
    requires r in t.facts
    ensures r in Retract(t, q).facts
    ensures Retract(t, q).facts[r] == t.facts[r] || Retract(t, q).facts[r] == Retracted(t.facts[r], q.now)
    ensures Settled(t.facts[r]) ==> Settled(Retract(t, q).facts[r])
    ensures ContinuesRow(t.facts[r], Retract(t, q).facts[r])
    ensures Retract(t, q).facts[r].supersededBy == t.facts[r].supersededBy
    ensures Observations(Retract(t, q).facts[r]) == Observations(t.facts[r])
  {
    hide Retractable;
  }

  lemma RetractKeepsLineage(t: Table, q: RetractRequest)
    requires Lineage(t)
    ensures Lineage(Retract(t, q)) && Continues(t, Retract(t, q))
  {
    hide Retract, Settled, Retracted, Observations;
    var t' := Retract(t, q);
    RetractedKeys(t, q);
    forall r | r in t.facts
      ensures Settled(t'.facts[r]) && ContinuesRow(t.facts[r], t'.facts[r])
      ensures t'.facts[r].supersededBy == t.facts[r].supersededBy
    {
      RetractedRow(t, q, r);
    }
    hide Lineage, ContinuesRow;
    SameLinks(t, t');
  }

  /** Links and settled rows that stay keep the lineage. */
  lemma SameLinks(t: Table, t': Table)
    requires Lineage(t) && t'.facts.Keys == t.facts.Keys
    requires forall r :: r in t.facts ==>
               && Settled(t'.facts[r]) && ContinuesRow(t.facts[r], t'.facts[r])
               && t'.facts[r].supersededBy == t.facts[r].supersededBy
    ensures Lineage(t')
  {
    hide Settled, Precedes, ContinuesRow;
    forall n | n in t.facts ensures t'.facts[n].supersedes == t.facts[n].supersedes {
      LinkStays(t.facts[n], t'.facts[n], t.facts[n], t'.facts[n], n);
    }
    forall n, r | n in t'.facts && r in t'.facts[n].supersedes
      ensures r in t'.facts && Precedes(t'.facts[r], t'.facts[n], n)
    {
      assert r in t.facts[n].supersedes;
      LinkStays(t.facts[r], t'.facts[r], t.facts[n], t'.facts[n], n);
    }
  }

  lemma LinkStays(f: Fact, f': Fact, g: Fact, g': Fact, n: RecordId)
    requires ContinuesRow(f, f') && ContinuesRow(g, g') && f'.supersededBy == f.supersededBy
    ensures g'.supersedes == g.supersedes && (Precedes(f, g, n) ==> Precedes(f', g', n))
  {}

  lemma RetractedKeys(t: Table, q: RetractRequest)
    ensures Retract(t, q).facts.Keys == t.facts.Keys && Retract(t, q).ids == t.ids
  {
    hide Retractable;
  }

  // ---- How often a key was saved ----

  predicate OfKey(f: Fact, scope: Scope, key: string) {
    f.scope == scope && f.key == Some(key)
  }

  /** The observations recorded for a key, over active and inactive rows. */
  function Seen(ids: seq<RecordId>, facts: map<RecordId, Fact>, scope: Scope, key: string): int {
    if ids == [] then 0
    else
      var last := ids[|ids| - 1];
      Seen(ids[..|ids| - 1], facts, scope, key)
      + if last in facts && OfKey(facts[last], scope, key) then Observations(facts[last]) else 0
  }

  /** Rows with the same key and count weigh the same. */
  lemma {:induction false} SeenAgrees(ids: seq<RecordId>, facts: map<RecordId, Fact>, facts': map<RecordId, Fact>,
                                      scope: Scope, key: string)
    requires forall r :: r in ids ==> (r in facts <==> r in facts')
    requires forall r :: r in ids && r in facts ==>
               facts'[r].scope == facts[r].scope && facts'[r].key == facts[r].key
               && Observations(facts'[r]) == Observations(facts[r])
    ensures Seen(ids, facts', scope, key) == Seen(ids, facts, scope, key)
  {
    if ids != [] {
      assert ids[|ids| - 1] in ids;
      SeenAgrees(ids[..|ids| - 1], facts, facts', scope, key);
    }
  }

  lemma {:induction false} SeenUpdate(ids: seq<RecordId>, facts: map<RecordId, Fact>, r: RecordId, f: Fact,
                                      scope: Scope, key: string)
    requires NoDuplicates(ids) && r in ids && r in facts && f.scope == facts[r].scope && f.key == facts[r].key
    ensures Seen(ids, facts[r := f], scope, key) ==
            Seen(ids, facts, scope, key) + if OfKey(f, scope, key) then Observations(f) - Observations(facts[r]) else 0
  {
    var init, last := ids[..|ids| - 1], ids[|ids| - 1];
    assert ids == init + [last];
    if last == r {
      assert r !in init;
      SeenAgrees(init, facts, facts[r := f], scope, key);
    } else {
      SeenUpdate(init, facts, r, f, scope, key);
    }
  }

  lemma InsertedIsCounted(t: Table, s: SaveRequest, active: seq<RecordId>, version: int, scope: Scope, key: string)
    requires t.Valid() && s.newId !in t.facts
    ensures Seen(t.ids + [s.newId], Inserted(t, s, active, version), scope, key) ==
            Seen(t.ids, t.facts, scope, key) + if (scope, key) == (s.scope, s.key) then 1 else 0
  {
    hide Inserted, SupportingRanges, Strip;
    var facts' := Inserted(t, s, active, version);
    forall r | r in t.ids
      ensures r in t.facts && r in facts' && facts'[r].scope == t.facts[r].scope && facts'[r].key == t.facts[r].key
      ensures Observations(facts'[r]) == Observations(t.facts[r])
    {
      assert r in Elements(t.ids);
      InsertedRow(t, s, active, version, r);
    }
    SeenAgrees(t.ids, t.facts, facts', scope, key);
    InsertedRow(t, s, active, version, s.newId);
    assert (t.ids + [s.newId])[..|t.ids|] == t.ids;
  }

  /** Each save adds one observation to its key, and only to that. */
  lemma SaveIsCounted(fold: char -> string, t: Table, taken: set<RecordId>, s: SaveRequest, scope: Scope, key: string)
    requires t.Valid() && Lineage(t) && Save(fold, t, taken, s).Some?
    ensures var t' := Save(fold, t, taken, s).value;
            Seen(t'.ids, t'.facts, scope, key) ==
            Seen(t.ids, t.facts, scope, key) + if (scope, key) == (s.scope, s.key) then 1 else 0
  {
    hide Equivalent, ActiveIds, MaxVersion, FirstEquivalent, Strip, SupportingRanges, Inserted, Lineage, Seen;
    var active := ActiveIds(t.ids, t.facts, s.scope, s.key);
    ActiveIdsExact(t.ids, t.facts, s.scope, s.key);
    FirstEquivalentExact(fold, active, t.facts, s.content);
    match FirstEquivalent(fold, active, t.facts, s.content) {
      case Some(r) =>
        assert Settled(t.facts[r]) by { LineageSettles(t, r); }
        SeenUpdate(t.ids, t.facts, r, Observed(t.facts[r], s), scope, key);
      case None =>
        InsertedIsCounted(t, s, active, MaxVersion(active, t.facts) + 1, scope, key);
    }
  }

  lemma LineageSettles(t: Table, r: RecordId)
    requires Lineage(t) && r in t.facts
    ensures Settled(t.facts[r])
  {}

  lemma RetractIsNotCounted(t: Table, q: RetractRequest, scope: Scope, key: string)
    ensures Seen(t.ids, Retract(t, q).facts, scope, key) == Seen(t.ids, t.facts, scope, key)
  {
    hide Retract;
    RetractedKeys(t, q);
    forall r | r in t.facts
      ensures ContinuesRow(t.facts[r], Retract(t, q).facts[r])
      ensures Observations(Retract(t, q).facts[r]) == Observations(t.facts[r])
    {
      RetractedRow(t, q, r);
    }
    SeenAgrees(t.ids, t.facts, Retract(t, q).facts, scope, key);
  }

  // ---- Saving spelled out ----

  /** A value seen again: the greater confidence, the newest event seen, one observation more, the widened event
      span, and its event range among the supporting ones. */
  ghost predicate SeenAgain(f: Fact, f': Fact, s: SaveRequest) {
    && f' == f.(updatedAt := s.now, confidence := f'.confidence, lastSeen := s.end,
                observationCount := f'.observationCount, ranges := f'.ranges, eventStart := f'.eventStart,
                eventEnd := f'.eventEnd)
    && f'.confidence == (if f.confidence < s.confidence then s.confidence else f.confidence)
    && f'.observationCount ==
       Some(1 + if f.observationCount.Some? && f.observationCount.value != 0 then f.observationCount.value else 1)
    && f'.eventStart == (if f.eventStart.Some? then f.eventStart else s.start)
    && f'.eventEnd == (if s.end.Some? then s.end else f.eventEnd)
    && ((s.start, s.end) in f.ranges && |f.ranges| <= 20 ==> f'.ranges == f.ranges)
    && ((s.start, s.end) !in f.ranges && |f.ranges| < 20 ==> f'.ranges == f.ranges + [(s.start, s.end)])
    && ((s.start, s.end) !in f.ranges && |f.ranges| == 20 ==>
          f'.ranges == [f.ranges[0]] + f.ranges[2..] + [(s.start, s.end)])
  }

  /** A new value is written as an active row that supersedes the given ones; its version follows theirs. */
  ghost predicate IsNewRow(t: Table, f: Fact, s: SaveRequest) {
    && f.scope == s.scope && f.key == Some(s.key) && f.active && !f.retracted && f.supersededBy == None
    && f.content == Strip(s.content) && f.category == s.category && f.confidence == s.confidence
    && f.createdAt == s.now && f.updatedAt == s.now && f.eventStart == s.start && f.eventEnd == s.end
    && f.observationCount == None && f.lastSeen == None && f.ranges == [(s.start, s.end)]
    && (forall r :: r in f.supersedes <==> r in t.facts && ActiveFor(t.facts[r], s.scope, s.key))
    && (forall r :: r in f.supersedes && r in t.facts ==> t.facts[r].version < f.version)
    && if f.supersedes == [] then f.version == 1
       else exists r :: r in f.supersedes && r in t.facts && f.version == t.facts[r].version + 1
  }

  /** Whatever is saved under id `id` is an active row's value seen again, or new: then every row that was active
      for the key is superseded by the new one, and no other row changes. */
  ghost predicate SavedExactly(fold: char -> string, t: Table, t': Table, s: SaveRequest, id: RecordId) {
    if id in t.facts then
      && ActiveFor(t.facts[id], s.scope, s.key)
      && Canonical(fold, t.facts[id].content) == Canonical(fold, s.content)
      && id in t'.facts && t' == Table(t.ids, t.facts[id := t'.facts[id]])
      && SeenAgain(t.facts[id], t'.facts[id], s)
    else
      && id == s.newId && t'.ids == t.ids + [id] && t'.facts.Keys == t.facts.Keys + {id}
      && IsNewRow(t, t'.facts[id], s)
      && forall r :: r in t.facts ==>
           if ActiveFor(t.facts[r], s.scope, s.key)
           then && t'.facts[r] == t.facts[r].(active := false, supersededBy := Some(id), updatedAt := s.now)
                && Canonical(fold, t.facts[r].content) != Canonical(fold, s.content)
           else t'.facts[r] == t.facts[r]
  }

  lemma ObservedExactly(f: Fact, s: SaveRequest)
    ensures SeenAgain(f, Observed(f, s), s)
  {
    if (s.start, s.end) !in f.ranges && |f.ranges| == 20 {
      var ranges := f.ranges + [(s.start, s.end)];
      assert ranges[..1] == [f.ranges[0]] && ranges[2..] == f.ranges[2..] + [(s.start, s.end)];
      assert SupportingRanges(f.ranges, (s.start, s.end)) == [f.ranges[0]] + (f.ranges[2..] + [(s.start, s.end)]);
    }
  }

  lemma {:induction false} MaxVersionHeld(ids: seq<RecordId>, facts: map<RecordId, Fact>)
    requires forall r :: r in ids ==> r in facts
    ensures if ids == [] then MaxVersion(ids, facts) == 0
            else exists r :: r in ids && facts[r].version == MaxVersion(ids, facts)
  {
    if ids != [] {
      var init, last := ids[..|ids| - 1], ids[|ids| - 1];
      assert ids == init + [last];
      MaxVersionHeld(init, facts);
      assert last in ids;
    }
  }

  lemma NewRowExactly(t: Table, s: SaveRequest, active: seq<RecordId>)
    requires forall r :: r in active <==> r in t.facts && ActiveFor(t.facts[r], s.scope, s.key)
    ensures IsNewRow(t, NewFact(s, MaxVersion(active, t.facts) + 1, active), s)
  {
    hide MaxVersion, Strip, ActiveFor;
    MaxVersionExact(active, t.facts);
    MaxVersionHeld(active, t.facts);
    assert [] + [(s.start, s.end)] == [(s.start, s.end)];
  }

  lemma SaveExactly(fold: char -> string, t: Table, taken: set<RecordId>, s: SaveRequest)
    requires t.Valid() && Save(fold, t, taken, s).Some?
    ensures exists id :: SavedExactly(fold, t, Save(fold, t, taken, s).value, s, id)
  {
    hide Equivalent, ActiveIds, MaxVersion, FirstEquivalent, Strip, SupportingRanges, SeenAgain, IsNewRow, Observed,
         NewFact;
    var active := ActiveIds(t.ids, t.facts, s.scope, s.key);
    ActiveIdsExact(t.ids, t.facts, s.scope, s.key);
    FirstEquivalentExact(fold, active, t.facts, s.content);
    assert forall r :: r in t.facts ==> r in t.ids by { assert forall r :: r in t.facts ==> r in Elements(t.ids); }
    match FirstEquivalent(fold, active, t.facts, s.content) {
      case Some(r) =>
        ObservedExactly(t.facts[r], s);
        EquivalentIs(fold, t.facts[r].content, s.content);
        assert SavedExactly(fold, t, Save(fold, t, taken, s).value, s, r);
      case None =>
        NewRowExactly(t, s, active);
        forall r | r in active ensures Canonical(fold, t.facts[r].content) != Canonical(fold, s.content) {
          EquivalentIs(fold, t.facts[r].content, s.content);
        }
        InsertedExactly(fold, t, s, active, MaxVersion(active, t.facts) + 1);
    }
  }

  lemma EquivalentIs(fold: char -> string, left: string, right: string)
    ensures Equivalent(fold, left, right) <==> Canonical(fold, left) == Canonical(fold, right)
  {}

  lemma InsertedExactly(fold: char -> string, t: Table, s: SaveRequest, active: seq<RecordId>, version: int)
    requires s.newId !in t.facts && IsNewRow(t, NewFact(s, version, active), s)
    requires forall r :: r in active <==> r in t.facts && ActiveFor(t.facts[r], s.scope, s.key)
    requires forall r :: r in active ==> Canonical(fold, t.facts[r].content) != Canonical(fold, s.content)
    ensures SavedExactly(fold, t, Table(t.ids + [s.newId], Inserted(t, s, active, version)), s, s.newId)
  {
    hide IsNewRow, NewFact, Canonical, ActiveFor;
  }
}
