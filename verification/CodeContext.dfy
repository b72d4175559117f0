/** Choosing context items: three rounds of keeping the best item per key, then packing them into a
    budget (`src/axiom/rag/context.py:191-208` and `:475-530`). */
module CodeContext {
  import opened Wrappers
  import opened Ordering

  datatype Item = Item(chunkId: string, filePath: string, startLine: int, endLine: int,
      symbolId: Option<string>, content: string,
                       reason: string, seedRank: Option<int>, graphDistance: int, estimatedTokens: nat)

  // ---- Ranking ----

  function Priority(reason: string): int {
    if reason == "search_seed" then 0
    else if reason == "symbol_definition" then 1
    else if reason == "caller" || reason == "callee" then 2
    else if reason == "direct_reference" then 3
    else if reason == "incoming_path" || reason == "outgoing_path" then 4
    else 99
  }

  function SeedRank(item: Item): int {
    match item.seedRank case None => 1_000_000_000 case Some(n) => n
  }

  function SymbolText(item: Item): string {
    match item.symbolId case None => "" case Some(s) => s
  }

  /** The first two parts of the rank. */
  predicate PairLe(a: Item, b: Item) {
    Priority(a.reason) < Priority(b.reason) || (Priority(a.reason) == Priority(b.reason) && SeedRank(a) <= SeedRank(b))
  }

  predicate SamePair(a: Item, b: Item) {
    Priority(a.reason) == Priority(b.reason) && SeedRank(a) == SeedRank(b)
  }

  /** The rest of the rank: distance, place, symbol, chunk. */
  predicate PlaceLe(a: Item, b: Item) {
    if a.graphDistance != b.graphDistance then a.graphDistance < b.graphDistance
    else if a.filePath != b.filePath then StrLe(a.filePath, b.filePath)
    else if a.startLine != b.startLine then a.startLine < b.startLine
    else if a.endLine != b.endLine then a.endLine < b.endLine
    else if SymbolText(a) != SymbolText(b) then StrLe(SymbolText(a), SymbolText(b))
    else StrLe(a.chunkId, b.chunkId)
  }

  predicate RankLe(a: Item, b: Item) {
    PairLe(a, b) && (SamePair(a, b) ==> PlaceLe(a, b))
  }

  /** The reasons, the most important ones first; other reasons come last. */
  function Reasons(): seq<set<string>> {
    [{"search_seed"}, {"symbol_definition"}, {"caller", "callee"}, {"direct_reference"},
     {"incoming_path", "outgoing_path"}]
  }

  ghost predicate MoreImportant(a: string, b: string) {
    exists k :: 0 <= k < |Reasons()| && a in Reasons()[k] && forall l :: 0 <= l <= k ==> b !in Reasons()[l]
  }

  /** `a` comes no later than `b`: by importance of the reason, seed rank, distance, place, symbol and chunk. */
  ghost predicate NoLater(a: Item, b: Item) {
    var x := if a.seedRank.Some? then a.seedRank.value else 1_000_000_000;
    var y := if b.seedRank.Some? then b.seedRank.value else 1_000_000_000;
    var s := if a.symbolId.Some? then a.symbolId.value else "";
    var t := if b.symbolId.Some? then b.symbolId.value else "";
    if MoreImportant(a.reason, b.reason) || MoreImportant(b.reason, a.reason) then MoreImportant(a.reason, b.reason)
    else if x != y then x < y
    else if a.graphDistance != b.graphDistance then a.graphDistance < b.graphDistance
    else if a.filePath != b.filePath then StrLe(a.filePath, b.filePath)
    else if a.startLine != b.startLine then a.startLine < b.startLine
    else if a.endLine != b.endLine then a.endLine < b.endLine
    else if s != t then StrLe(s, t)
    else StrLe(a.chunkId, b.chunkId)
  }

  lemma PriorityGroups(r: string, k: nat)
    requires k < 5
    ensures Reasons()[k] == [{"search_seed"}, {"symbol_definition"}, {"caller", "callee"}, {"direct_reference"},
                             {"incoming_path", "outgoing_path"}][k]
    ensures r in Reasons()[k] <==> Priority(r) == k
  {}

  lemma PriorityIs(r: string)
    ensures 0 <= Priority(r) < 5 || Priority(r) == 99
  {}

  lemma ImportanceExactly(a: string, b: string)
    ensures MoreImportant(a, b) <==> Priority(a) < Priority(b)
  {
    PriorityIs(a);
    PriorityIs(b);
    forall k: nat | k < 5
      ensures (a in Reasons()[k] <==> Priority(a) == k) && (b in Reasons()[k] <==> Priority(b) == k)
    {
      PriorityGroups(a, k);
      PriorityGroups(b, k);
    }
    assert |Reasons()| == 5;
    hide Priority, Reasons;
    if Priority(a) < Priority(b) {
      forall l | 0 <= l <= Priority(a) ensures b !in Reasons()[l] {}
      assert a in Reasons()[Priority(a)];
    }
    if k :| 0 <= k < 5 && a in Reasons()[k] && forall l :: 0 <= l <= k ==> b !in Reasons()[l] {
      var l := Priority(b);
      assert l < 5 ==> b in Reasons()[l];
    }
  }

  lemma RankExactly(a: Item, b: Item)
    ensures RankLe(a, b) <==> NoLater(a, b)
  {
    ImportanceExactly(a.reason, b.reason);
    ImportanceExactly(b.reason, a.reason);
    hide MoreImportant, Priority;
  }

  predicate MoreSpecific(a: Item, b: Item) {
    var x, y := a.endLine - a.startLine, b.endLine - b.startLine;
    x < y || (x == y && !StrLe(b.chunkId, a.chunkId))
  }

  /** `item` under the reason and seed rank of `other`. */
  function Under(item: Item, other: Item): Item {
    item.(reason := other.reason, seedRank := other.seedRank)
  }

  function Best(item: Item, previous: Option<Item>): Item {
    match previous
    case None => item
    case Some(p) =>
      if !RankLe(p, item) then item
      else if MoreSpecific(item, p) then Under(item, p)
      else p
  }

  lemma PlaceLeIsOrder()
    ensures forall a, b :: PlaceLe(a, b) || PlaceLe(b, a)
    ensures forall a, b, c :: PlaceLe(a, b) && PlaceLe(b, c) ==> PlaceLe(a, c)
  {
    hide StrLe;
    StrLeIsOrder();
  }

  lemma RankLeIsOrder()
    ensures TotalOrder(RankLe)
  {
    hide PlaceLe, Priority, SeedRank;
    PlaceLeIsOrder();
  }

  /** Of two items the better one's reason and rank are kept, and otherwise one of the two. */
  lemma BestOfTwo(item: Item, p: Item)
    ensures var best := Best(item, Some(p));
            && PairLe(best, item) && PairLe(best, p)
            && (best == item || best == p || best == Under(item, p))
    ensures var best, width, width' := Best(item, Some(p)), item.endLine - item.startLine, p.endLine - p.startLine;
            best == if !NoLater(p, item) then item
                    else if width < width' || (width == width' && !StrLe(p.chunkId, item.chunkId)) then Under(item, p)
                    else p
  {
    RankExactly(p, item);
    hide PlaceLe, Priority, NoLater;
    RankLeIsOrder();
  }

  // ---- One round ----

  /** A Python dictionary: its keys in the order they were first inserted. */
  datatype Table<!K> = Table(keys: seq<K>, best: map<K, Item>)

  function Put<K>(t: Table<K>, k: K, item: Item): Table<K> {
    if k in t.best then t.(best := t.best[k := Best(item, Some(t.best[k]))])
    else Table(t.keys + [k], t.best[k := item])
  }

  function Round<K>(key: Item -> K, items: seq<Item>): Table<K> {
    if items == [] then Table([], map[])
    else
      var last := items[|items| - 1];
      Put(Round(key, items[..|items| - 1]), key(last), last)
  }

  ghost predicate Sound<K>(t: Table<K>) {
    NoDuplicates(t.keys) && Elements(t.keys) == t.best.Keys
  }

  lemma {:induction false} RoundIsSound<K>(key: Item -> K, items: seq<Item>)
    ensures Sound(Round(key, items))
  {
    if items != [] {
      var t, k := Round(key, items[..|items| - 1]), key(items[|items| - 1]);
      RoundIsSound(key, items[..|items| - 1]);
      if k !in t.best {
        assert k !in Elements(t.keys);
        assert Elements(t.keys + [k]) == Elements(t.keys) + {k};
      }
    }
  }

  function Values<K>(t: Table<K>): seq<Item>
    requires forall k :: k in t.keys ==> k in t.best
  {
    seq(|t.keys|, i requires 0 <= i < |t.keys| => t.best[t.keys[i]])
  }

  lemma SoundHasValues<K>(t: Table<K>)
    requires Sound(t)
    ensures forall k :: k in t.keys <==> k in t.best
  {
    assert forall k :: k in t.keys <==> k in Elements(t.keys);
  }

  ghost function Kept<K>(key: Item -> K, items: seq<Item>): seq<Item> {
    RoundIsSound(key, items);
    SoundHasValues(Round(key, items));
    Values(Round(key, items))
  }

  method KeepBest<K(==)>(items: seq<Item>, key: Item -> K) returns (values: seq<Item>)
    ensures values == Kept(key, items)
  {
    var keys: seq<K>, best: map<K, Item> := [], map[];
    for i := 0 to |items|
      invariant Table(keys, best) == Round(key, items[..i])
    {
      assert items[..i + 1][..i] == items[..i];
      var item := items[i];
      var k := key(item);
      if k in best {
        best := best[k := Best(item, Some(best[k]))];
      } else {
        keys, best := keys + [k], best[k := item];
      }
    }
    assert items[..|items|] == items;
    RoundIsSound(key, items);
    SoundHasValues(Table(keys, best));
    values := [];
    for i := 0 to |keys|
      invariant values == Values(Table(keys, best))[..i]
    {
      assert keys[i] in keys;
      values := values + [best[keys[i]]];
    }
  }

  // ---- What a round keeps ----

  /** The key does not look at the reason or the seed rank. */
  ghost predicate Stable<K(!new)>(key: Item -> K) {
    forall a, b :: key(Under(a, b)) == key(a)
  }

  /** `best` is item `i` under the reason and rank of item `j`. */
  predicate IsMerge(items: seq<Item>, best: Item, i: nat, j: nat) {
    i < |items| && j < |items| && best == Under(items[i], items[j])
  }

  ghost predicate IsFrom<K(!new)>(key: Item -> K, items: seq<Item>, k: K, best: Item) {
    key(best) == k && exists i: nat, j: nat :: IsMerge(items, best, i, j) && key(items[i]) == k && key(items[j]) == k
  }

  ghost predicate Summarizes<K(!new)>(key: Item -> K, items: seq<Item>, t: Table<K>) {
    && (forall i :: 0 <= i < |items| ==> key(items[i]) in t.best && PairLe(t.best[key(items[i])], items[i]))
    && (forall k :: k in t.best ==> IsFrom(key, items, k, t.best[k]))
  }

  lemma {:induction false} RoundSummarizes<K(!new)>(key: Item -> K, items: seq<Item>)
    requires Stable(key)
    ensures Summarizes(key, items, Round(key, items))
  {
    if items != [] {
      var init, last := items[..|items| - 1], items[|items| - 1];
      RoundSummarizes(key, init);
      PutSummarizes(key, init, last, Round(key, init));
      assert items == init + [last];
    }
  }

  lemma PutSummarizes<K(!new)>(key: Item -> K, items: seq<Item>, last: Item, t: Table<K>)
    requires Stable(key) && Summarizes(key, items, t)
    ensures Summarizes(key, items + [last], Put(t, key(last), last))
  {
    hide RankLe, MoreSpecific, Priority, SeedRank, PairLe, IsFrom, Best, Under;
    var all, k := items + [last], key(last);
    var t' := Put(t, k, last);
    PairLeIsOrder();
    if k in t.best {
      BestOfTwo(last, t.best[k]);
      BestIsFrom(key, items, last, t.best[k]);
    } else {
      OnlyIsFrom(key, items, last);
    }
    forall m | m in t'.best ensures IsFrom(key, all, m, t'.best[m]) {
      if m != k { StillFrom(key, items, last, m, t.best[m]); }
    }
    forall i | 0 <= i < |all| ensures key(all[i]) in t'.best && PairLe(t'.best[key(all[i])], all[i]) {
      if i < |items| { assert all[i] == items[i]; }
    }
  }

  lemma PairLeIsOrder()
    ensures forall a :: PairLe(a, a)
    ensures forall a, b, c :: PairLe(a, b) && PairLe(b, c) ==> PairLe(a, c)
  {
    hide Priority;
  }

  lemma OnlyIsFrom<K(!new)>(key: Item -> K, items: seq<Item>, last: Item)
    ensures IsFrom(key, items + [last], key(last), last)
  {
    assert IsMerge(items + [last], last, |items|, |items|);
  }

  lemma StillFrom<K(!new)>(key: Item -> K, items: seq<Item>, last: Item, k: K, best: Item)
    requires IsFrom(key, items, k, best)
    ensures IsFrom(key, items + [last], k, best)
  {
    var i: nat, j: nat :| IsMerge(items, best, i, j) && key(items[i]) == k && key(items[j]) == k;
    assert IsMerge(items + [last], best, i, j);
  }

  lemma BestIsFrom<K(!new)>(key: Item -> K, items: seq<Item>, last: Item, p: Item)
    requires Stable(key) && IsFrom(key, items, key(last), p)
    ensures IsFrom(key, items + [last], key(last), Best(last, Some(p)))
  {
    hide PairLe, PlaceLe, RankLe;
    BestOfTwo(last, p);
    var i: nat, j: nat :| IsMerge(items, p, i, j) && key(items[i]) == key(last) && key(items[j]) == key(last);
    assert IsMerge(items + [last], p, i, j);
    OnlyIsFrom(key, items, last);
    assert IsMerge(items + [last], Under(last, p), |items|, j);
    assert key(Under(last, p)) == key(last);
  }

  /** What distinguishes the items of a round still distinguishes those it keeps, and the key does too. */
  lemma KeptIsDistinct<K(!new), F(!new)>(key: Item -> K, items: seq<Item>, field: Item -> F)
    requires Stable(key) && Stable(field)
    requires forall i, j :: 0 <= i < j < |items| ==> field(items[i]) != field(items[j])
    ensures var kept := Kept(key, items);
            && (forall i, j :: 0 <= i < j < |kept| ==> field(kept[i]) != field(kept[j]))
            && (forall i, j :: 0 <= i < j < |kept| ==> key(kept[i]) != key(kept[j]))
  {
    hide Round, Best;
    KeptHasKeys(key, items);
    var kept := Kept(key, items);
    forall i, j | 0 <= i < j < |kept| ensures field(kept[i]) != field(kept[j]) {
      var a: nat, b: nat :| IsMerge(items, kept[i], a, b) && key(items[a]) == key(kept[i]);
      var c: nat, d: nat :| IsMerge(items, kept[j], c, d) && key(items[c]) == key(kept[j]);
      assert a != c;
      assert field(kept[i]) == field(items[a]) && field(kept[j]) == field(items[c]);
    }
  }

  /** The kept items have different keys, and each is made of items with its key. */
  lemma KeptHasKeys<K(!new)>(key: Item -> K, items: seq<Item>)
    requires Stable(key)
    ensures var kept := Kept(key, items);
            && (forall i :: 0 <= i < |kept| ==> IsFrom(key, items, key(kept[i]), kept[i]))
            && (forall i, j :: 0 <= i < j < |kept| ==> key(kept[i]) != key(kept[j]))
  {
    hide IsFrom;
    var t := Round(key, items);
    RoundIsSound(key, items);
    SoundHasValues(t);
    RoundSummarizes(key, items);
    forall k | k in t.best ensures key(t.best[k]) == k { FromHasKey(key, items, k, t.best[k]); }
    assert forall i :: 0 <= i < |t.keys| ==> t.keys[i] in t.keys;
  }

  lemma FromHasKey<K(!new)>(key: Item -> K, items: seq<Item>, k: K, best: Item)
    requires IsFrom(key, items, k, best)
    ensures key(best) == k
  {}

  /** Every item is represented by a kept one with its key and no worse a reason and rank. */
  lemma KeptRepresents<K(!new)>(key: Item -> K, items: seq<Item>, item: Item)
    requires Stable(key) && item in items
    ensures exists o :: o in Kept(key, items) && key(o) == key(item) && PairLe(o, item)
  {
    hide IsFrom, PairLe;
    var t := Round(key, items);
    RoundIsSound(key, items);
    SoundHasValues(t);
    RoundSummarizes(key, items);
    var i :| 0 <= i < |items| && items[i] == item;
    var k := key(item);
    FromHasKey(key, items, k, t.best[k]);
    var n :| 0 <= n < |t.keys| && t.keys[n] == k;
    assert Kept(key, items)[n] == t.best[k];
  }

  // ---- The three rounds ----

  const ByChunk: Item -> string := (item: Item) => item.chunkId
  const ByRange: Item -> (string, int, int) := (item: Item) => (item.filePath, item.startLine, item.endLine)
  const ByContent: Item -> (string, string) := (item: Item) => (item.filePath, item.content)

  ghost function Deduped(candidates: seq<Item>): seq<Item> {
    Sorted(RankLe, Kept(ByContent, Kept(ByRange, Kept(ByChunk, candidates))))
  }

  method DedupeAndSort(candidates: seq<Item>) returns (items: seq<Item>)
    ensures items == Deduped(candidates)
    ensures forall i, j :: 0 <= i < j < |items| ==> NoLater(items[i], items[j]) && IsOther(items[i], items[j])
    ensures forall c :: c in candidates ==> exists c', c'', o ::
              c' in candidates && c'' in candidates && o in items && StandsFor(c, c', c'', o)
  {
    DedupedIsRanked(candidates);
    DedupedStandsFor(candidates);
    hide NoLater, IsOther, StandsFor;
    var byChunk := KeepBest(candidates, ByChunk);
    var byRange := KeepBest(byChunk, ByRange);
    var byContent := KeepBest(byRange, ByContent);
    items := Sorted(RankLe, byContent);
  }

  ghost predicate Distinct<F(!new)>(field: Item -> F, items: seq<Item>) {
    forall i, j :: 0 <= i < j < |items| ==> field(items[i]) != field(items[j])
  }

  lemma KeysAreStable()
    ensures Stable(ByChunk) && Stable(ByRange) && Stable(ByContent)
  {}

  lemma {:induction false} DistinctPermutes<F(!new)>(field: Item -> F, xs: seq<Item>, ys: seq<Item>)
    requires Distinct(field, xs) && multiset(xs) == multiset(ys)
    ensures Distinct(field, ys)
  {
    assert NoDuplicates(xs);
    NoDuplicatesPermutes(xs, ys);
    forall i, j | 0 <= i < j < |ys| ensures field(ys[i]) != field(ys[j]) {
      assert ys[i] in multiset(ys) && ys[j] in multiset(ys);
      assert ys[i] in multiset(xs) && ys[j] in multiset(xs);
      var a :| 0 <= a < |xs| && xs[a] == ys[i];
      var b :| 0 <= b < |xs| && xs[b] == ys[j];
      assert a != b;
    }
  }

  /** The result is sorted by rank, and no two items share a chunk, a range, or a file and content. */
  lemma DedupedIsDistinct(candidates: seq<Item>)
    ensures var items := Deduped(candidates);
            SortedBy(RankLe, items) && Distinct(ByChunk, items)
            && Distinct(ByRange, items) && Distinct(ByContent, items)
  {
    hide Round, RankLe, Best, Kept, Stable;
    KeysAreStable();
    RankLeIsOrder();
    var chunks := Kept(ByChunk, candidates);
    var ranges := Kept(ByRange, chunks);
    var contents := Kept(ByContent, ranges);
    KeptHasKeys(ByChunk, candidates);
    KeptIsDistinct(ByRange, chunks, ByChunk);
    KeptIsDistinct(ByContent, ranges, ByChunk);
    KeptIsDistinct(ByContent, ranges, ByRange);
    SortedIsSorted(RankLe, contents);
    SortedIsPermutation(RankLe, contents);
    DistinctPermutes(ByChunk, contents, Deduped(candidates));
    DistinctPermutes(ByRange, contents, Deduped(candidates));
    DistinctPermutes(ByContent, contents, Deduped(candidates));
  }

  /** Neither the same chunk, nor the same lines, nor the same text of one file. */
  predicate IsOther(a: Item, b: Item) {
    && a.chunkId != b.chunkId
    && (a.filePath != b.filePath
        || ((a.startLine != b.startLine || a.endLine != b.endLine) && a.content != b.content))
  }

  /** The result `o` stands for the candidate `c`: with a candidate of the same chunk, another of its lines, and
      the text of that one in the same file. It is no less important and has no greater seed rank. */
  ghost predicate StandsFor(c: Item, c': Item, c'': Item, o: Item) {
    && c'.chunkId == c.chunkId
    && c''.filePath == c'.filePath && c''.startLine == c'.startLine && c''.endLine == c'.endLine
    && o.filePath == c''.filePath && o.content == c''.content
    && !MoreImportant(c.reason, o.reason)
    && (!MoreImportant(o.reason, c.reason) ==>
          (if o.seedRank.Some? then o.seedRank.value else 1_000_000_000)
          <= if c.seedRank.Some? then c.seedRank.value else 1_000_000_000)
  }

  lemma DedupedIsRanked(candidates: seq<Item>)
    ensures var items := Deduped(candidates);
            forall i, j :: 0 <= i < j < |items| ==> NoLater(items[i], items[j]) && IsOther(items[i], items[j])
  {
    DedupedIsDistinct(candidates);
    hide RankLe, NoLater, Kept;
    var items := Deduped(candidates);
    forall i, j | 0 <= i < j < |items| ensures NoLater(items[i], items[j]) && IsOther(items[i], items[j]) {
      RankExactly(items[i], items[j]);
      assert ByChunk(items[i]) != ByChunk(items[j]) && ByRange(items[i]) != ByRange(items[j])
             && ByContent(items[i]) != ByContent(items[j]);
    }
  }

  lemma DedupedStandsFor(candidates: seq<Item>)
    ensures forall c :: c in candidates ==> exists c', c'', o ::
              c' in candidates && c'' in candidates && o in Deduped(candidates) && StandsFor(c, c', c'', o)
  {
    hide Round, RankLe, Best, Kept, Stable, Deduped, StandsFor;
    forall c | c in candidates
      ensures exists c', c'', o ::
                c' in candidates && c'' in candidates && o in Deduped(candidates) && StandsFor(c, c', c'', o)
    {
      var c', c'', o := StandIn(candidates, c);
    }
  }

  lemma StandIn(candidates: seq<Item>, c: Item) returns (c': Item, c'': Item, o: Item)
    requires c in candidates
    ensures c' in candidates && c'' in candidates && o in Deduped(candidates) && StandsFor(c, c', c'', o)
  {
    hide Round, RankLe, Best, Kept, Stable, Deduped, PairLe, StandsFor, Under;
    KeysAreStable();
    DedupedRepresents(candidates, c);
    hide MoreImportant;
    o :| o in Deduped(candidates) && Replaced(candidates, c, o);
    var chunks := Kept(ByChunk, candidates);
    var a, b :| a in chunks && ByChunk(a) == ByChunk(c)
                && b in Kept(ByRange, chunks) && ByRange(b) == ByRange(a) && ByContent(o) == ByContent(b);
    var d1, e, d2, d3;
    c', d1 := KeptIsMerged(ByChunk, candidates, a);
    e, d2 := KeptIsMerged(ByRange, chunks, b);
    c'', d3 := KeptIsMerged(ByChunk, candidates, e);
    MergedStandsFor(c, c', d1, a, c'', d3, e, d2, b, o);
  }

  lemma MergedStandsFor(c: Item, c': Item, d1: Item, a: Item, c'': Item, d3: Item, e: Item, d2: Item, b: Item, o: Item)
    requires a == Under(c', d1) && e == Under(c'', d3) && b == Under(e, d2) && PairLe(o, c)
    requires ByChunk(a) == ByChunk(c) && ByRange(b) == ByRange(a) && ByContent(o) == ByContent(b)
    ensures StandsFor(c, c', c'', o)
  {
    ImportanceExactly(o.reason, c.reason);
    ImportanceExactly(c.reason, o.reason);
    hide MoreImportant, Priority;
  }

  /** A result replaces a candidate when they are linked by a shared chunk, then a shared range, then
      shared content. */
  ghost predicate Replaced(candidates: seq<Item>, c: Item, o: Item) {
    exists a, b :: a in Kept(ByChunk, candidates) && ByChunk(a) == ByChunk(c)
          && b in Kept(ByRange, Kept(ByChunk, candidates))
                   && ByRange(b) == ByRange(a) && ByContent(o) == ByContent(b)
  }

  /** The kept item with an item's key has no worse a reason and rank. */
  lemma KeptIsNoWorse<K(!new)>(key: Item -> K, items: seq<Item>, item: Item, o: Item)
    requires Stable(key) && item in items && o in Kept(key, items) && key(o) == key(item)
    ensures PairLe(o, item)
  {
    hide PairLe, Kept, Stable;
    KeptRepresents(key, items, item);
    var best :| best in Kept(key, items) && key(best) == key(item) && PairLe(best, item);
    KeptHasKeys(key, items);
    var i :| 0 <= i < |Kept(key, items)| && Kept(key, items)[i] == o;
    var j :| 0 <= j < |Kept(key, items)| && Kept(key, items)[j] == best;
    assert i == j;
  }

  /** No result that replaces a candidate has a worse reason or seed rank. */
  lemma ReplacedIsNoWorse(candidates: seq<Item>, c: Item, o: Item)
    requires c in candidates && o in Deduped(candidates) && Replaced(candidates, c, o)
    ensures PairLe(o, c)
  {
    hide Round, RankLe, Best, Kept, Stable, PairLe;
    KeysAreStable();
    PairLeIsOrder();
    var chunks := Kept(ByChunk, candidates);
    var ranges := Kept(ByRange, chunks);
    var contents := Kept(ByContent, ranges);
    var a, b :| a in chunks && ByChunk(a) == ByChunk(c)
                && b in ranges && ByRange(b) == ByRange(a) && ByContent(o) == ByContent(b);
    SortedIsPermutation(RankLe, contents);
    assert o in multiset(Deduped(candidates));
    assert o in multiset(contents);
    KeptIsNoWorse(ByChunk, candidates, c, a);
    KeptIsNoWorse(ByRange, chunks, a, b);
    KeptIsNoWorse(ByContent, ranges, b, o);
  }

  /** Every candidate is replaced, and by no result with a worse reason or seed rank. */
  lemma DedupedRepresents(candidates: seq<Item>, c: Item)
    requires c in candidates
    ensures exists o :: o in Deduped(candidates) && Replaced(candidates, c, o)
    ensures forall o :: o in Deduped(candidates) && Replaced(candidates, c, o) ==> PairLe(o, c)
  {
    hide Round, RankLe, Best, Kept, Stable, PairLe;
    forall o | o in Deduped(candidates) && Replaced(candidates, c, o) ensures PairLe(o, c) {
      ReplacedIsNoWorse(candidates, c, o);
    }
    KeysAreStable();
    PairLeIsOrder();
    var chunks := Kept(ByChunk, candidates);
    var ranges := Kept(ByRange, chunks);
    var contents := Kept(ByContent, ranges);
    KeptRepresents(ByChunk, candidates, c);
    var a :| a in chunks && ByChunk(a) == ByChunk(c) && PairLe(a, c);
    KeptRepresents(ByRange, chunks, a);
    var b :| b in ranges && ByRange(b) == ByRange(a) && PairLe(b, a);
    KeptRepresents(ByContent, ranges, b);
    var o :| o in contents && ByContent(o) == ByContent(b) && PairLe(o, b);
    SortedIsPermutation(RankLe, contents);
    assert o in multiset(contents);
    assert o in multiset(Deduped(candidates));
    assert Replaced(candidates, c, o);
  }

  /** Nothing is invented: each result is one candidate under the reason and seed rank of another. */
  lemma DedupedIsMerged(candidates: seq<Item>, o: Item)
    requires o in Deduped(candidates)
    ensures exists c, d :: c in candidates && d in candidates && o == Under(c, d)
  {
    hide Round, RankLe, Best, Kept, Stable, PairLe, Under;
    KeysAreStable();
    var chunks := Kept(ByChunk, candidates);
    var ranges := Kept(ByRange, chunks);
    var contents := Kept(ByContent, ranges);
    SortedIsPermutation(RankLe, contents);
    assert o in multiset(Deduped(candidates));
    assert o in multiset(contents);
    var a, b := KeptIsMerged(ByContent, ranges, o);
    var a1, a2 := KeptIsMerged(ByRange, chunks, a);
    var b1, b2 := KeptIsMerged(ByRange, chunks, b);
    var c, c2 := KeptIsMerged(ByChunk, candidates, a1);
    var d2, d := KeptIsMerged(ByChunk, candidates, b2);
    UnderUnder(o, a, b, a1, a2, b1, b2, c, c2, d2, d);
  }

  lemma UnderUnder(o: Item, a: Item, b: Item, a1: Item, a2: Item, b1: Item, b2: Item, c: Item, c2: Item, d2: Item,
                   d: Item)
    requires o == Under(a, b) && a == Under(a1, a2) && b == Under(b1, b2) && a1 == Under(c, c2) && b2 == Under(d2, d)
    ensures o == Under(c, d)
  {}

  lemma KeptIsMerged<K(!new)>(key: Item -> K, items: seq<Item>, o: Item) returns (c: Item, d: Item)
    requires Stable(key) && o in Kept(key, items)
    ensures c in items && d in items && o == Under(c, d)
  {
    hide Round, Best, Under;
    KeptHasKeys(key, items);
    var n :| 0 <= n < |Kept(key, items)| && Kept(key, items)[n] == o;
    var i: nat, j: nat :| IsMerge(items, o, i, j);
    c, d := items[i], items[j];
  }
}
