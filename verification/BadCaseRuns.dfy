/** Runs of collecting, reviewing and promoting badcases with crashes, what a retry does, and the
    operations as an object's methods (`src/axiom/evaluation/badcases.py:202-283` and `:586-662`). */
module BadCaseRuns {
  import opened Wrappers
  import opened Text
  import opened BadCases

  datatype Operation =
    | Collect(record: BadCase)
    | Judge(id: string, status: Status, note: string)
    | PromoteTo(id: string, p: Path, over: Overrides, crash: bool)

  /** Collected records are pending and promoted nowhere. */
  function Collected(record: BadCase): BadCase {
    record.(status := Pending, note := "", dataset := None, caseId := None)
  }

  function Step(env: Env, w: World, op: Operation): World {
    match op
    case Collect(record) => Save(w, Collected(record))
    case Judge(id, status, note) => Review(env, w, id, status, note).0
    case PromoteTo(id, p, over, crash) => Promote(env, w, id, p, over, crash).0
  }

  function Run(env: Env, w: World, ops: seq<Operation>): World {
    if ops == [] then w else Step(env, Run(env, w, ops[..|ops| - 1]), ops[|ops| - 1])
  }

  predicate CleanIds(ops: seq<Operation>) {
    forall k :: 0 <= k < |ops| && ops[k].Collect? ==> Clean(ops[k].record.id)
  }

  /** What no later step undoes: a promotion stays where it is, and datasets only grow at the end. */
  ghost predicate Keeps(w: World, w': World) {
    && (forall id :: id in w.records && w.records[id].status == Promoted ==>
          id in w'.records && w'.records[id].status == Promoted
          && w'.records[id].dataset == w.records[id].dataset && w'.records[id].caseId == w.records[id].caseId)
    && (forall p :: p in w.files ==> p in w'.files && Extends(w.files[p], w'.files[p]))
  }

  lemma KeepsItself(w: World)
    ensures Keeps(w, w)
  {
    forall p | p in w.files ensures Extends(w.files[p], w.files[p]) { ExtendsItself(w.files[p]); }
  }

  lemma KeepsOn(u: World, v: World, w: World)
    requires Keeps(u, v) && Keeps(v, w)
    ensures Keeps(u, w)
  {
    hide NormalAll;
  }

  lemma SaveKeepsGood(w: World, record: BadCase)
    requires Good(w) && Clean(record.id)
    ensures Good(Save(w, Collected(record))) && Keeps(w, Save(w, Collected(record)))
  {
    hide FileGood, Holds, Clean, Keeps;
    var w' := Save(w, Collected(record));
    forall id | id in w'.records ensures RecordGood(w', id, w'.records[id]) {
      assert id in w.records ==> RecordGood(w, id, w.records[id]);
    }
    SaveKeeps(w, Collected(record));
  }

  lemma SaveKeeps(w: World, record: BadCase)
    ensures Keeps(w, Save(w, record))
  {
    hide Extends;
    forall p | p in w.files ensures Extends(w.files[p], w.files[p]) { ExtendsItself(w.files[p]); }
  }

  lemma ReviewKeepsGood(env: Env, w: World, id: string, status: Status, note: string)
    requires Good(w)
    ensures Good(Review(env, w, id, status, note).0) && Keeps(w, Review(env, w, id, status, note).0)
  {
    hide FileGood, Holds, Clean, Extends, CaseId;
    var w' := Review(env, w, id, status, note).0;
    forall b | b in w'.records ensures RecordGood(w', b, w'.records[b]) {
      assert RecordGood(w, b, w.records[b]);
    }
    forall p | p in w.files ensures Extends(w.files[p], w.files[p]) { ExtendsItself(w.files[p]); }
  }

  /** A promotion touches no record but its own, and that only from APPROVED to PROMOTED. */
  lemma PromoteRecords(env: Env, w: World, id: string, p: Path, over: Overrides, crash: bool)
    ensures var (w', r) := Promote(env, w, id, p, over, crash);
            && w'.records.Keys == w.records.Keys
            && (forall b :: b in w.records && b != id ==> w'.records[b] == w.records[b])
            && (id in w.records && w'.records[id] != w.records[id] ==>
                  w.records[id].status == Approved &&
                  w'.records[id] == w.records[id].(status := Promoted, dataset := Some(p), caseId := Some(CaseId(id))))
  {
    hide CaseId, CaseFor, Load, Find;
  }

  lemma PromoteKeepsGood(env: Env, w: World, id: string, p: Path, over: Overrides, crash: bool)
    requires Good(w)
    ensures Good(Promote(env, w, id, p, over, crash).0) && Keeps(w, Promote(env, w, id, p, over, crash).0)
  {
    hide FileGood, CaseLoads, RecordGood, Clean, CaseId, CaseFor, Load, Find, Append, Extends, Good;
    PromoteRecords(env, w, id, p, over, crash);
    forall q | q in w.files ensures Extends(w.files[q], w.files[q]) { ExtendsItself(w.files[q]); }
    GoodParts(w, p, id);
    if id in w.records && w.records[id].status == Approved && CaseFor(w.records[id], over).Ok? {
      CaseForLoads(w.records[id], over);
      AppendIsGood(env, w, id, p, CaseFor(w.records[id], over).value, crash);
    }
  }

  lemma StepKeepsGood(env: Env, w: World, op: Operation)
    requires Good(w) && (op.Collect? ==> Clean(op.record.id))
    ensures Good(Step(env, w, op)) && Keeps(w, Step(env, w, op))
  {
    hide Good, Keeps, Clean, Save, Review, Promote, Collected;
    match op {
      case Collect(record) => SaveKeepsGood(w, record);
      case Judge(id, status, note) => ReviewKeepsGood(env, w, id, status, note);
      case PromoteTo(id, p, over, crash) => PromoteKeepsGood(env, w, id, p, over, crash);
    }
  }

  /** Over every run with crashes anywhere between the writes: a promoted record's dataset holds its
      case, a dataset holds at most one case per badcase, promotion is terminal, and the earlier cases
      of a dataset keep their order. */
  lemma {:induction false} RunsStayGood(env: Env, w: World, ops: seq<Operation>)
    requires Good(w) && CleanIds(ops)
    ensures Good(Run(env, w, ops)) && Keeps(w, Run(env, w, ops))
  {
    hide Good, Keeps, Step, Clean;
    if ops == [] {
      KeepsItself(w);
    } else {
      var init := ops[..|ops| - 1];
      assert forall k :: 0 <= k < |init| ==> init[k] == ops[k];
      RunsStayGood(env, w, init);
      StepKeepsGood(env, Run(env, w, init), ops[|ops| - 1]);
      KeepsOn(w, Run(env, w, init), Run(env, w, ops));
    }
  }

  // ---- Retrying ----

  lemma HeldIsFound(env: Env, w: World, p: Path, id: string)
    requires Good(w) && p in w.files && Holds(w.files[p], id) && env.isJson(p)
    ensures Load(env, w, p).Ok?
    ensures var found := Find(Load(env, w, p).value, CaseId(id)); found.Some? && found.value.source == Some(id)
  {
    hide CaseLoads, Clean, CaseId, RecordGood, Find, Strip, Good;
    GoodParts(w, p, id);
    HeldIsTheOne(w.files[p], id);
  }

  lemma HeldIsTheOne(cases: seq<Case>, id: string)
    requires FileGood(cases) && Holds(cases, id)
    ensures var found := Find(NormalAll(cases), CaseId(id)); found.Some? && found.value.source == Some(id)
  {
    hide CaseLoads, CaseId, Find, Strip;
    var k :| 0 <= k < |cases| && Strip(cases[k].id) == CaseId(id) && cases[k].source == Some(id);
    FindExact(NormalAll(cases), CaseId(id));
    assert NormalAll(cases)[k].id == CaseId(id);
    var m :| 0 <= m < |cases| && Find(NormalAll(cases), CaseId(id)) == Some(NormalAll(cases)[m])
             && NormalAll(cases)[m].id == CaseId(id);
    assert Strip(cases[m].id) == Strip(cases[k].id);
    assert m == k;
  }

  /** Promoting an approved badcase whose case is already in the dataset completes the promotion and
      leaves the dataset alone, exactly when the dataset's path ends in .json. */
  lemma PromoteHeld(env: Env, w: World, id: string, p: Path, over: Overrides)
    requires Good(w) && id in w.records && w.records[id].status == Approved && CaseFor(w.records[id], over).Ok?
    requires p in w.files && Holds(w.files[p], id)
    ensures var (w', r) := Promote(env, w, id, p, over, false);
            && w'.files == w.files
            && (r.Ok? <==> env.isJson(p))
            && (r.Ok? ==>
                  id in w'.records && w'.records[id].status == Promoted && w'.records[id].dataset == Some(p)
                   && r.value.source == Some(id))
            && (r.Err? ==> w' == w)
  {
    hide Good, Holds, FileGood, CaseLoads, CaseId, Clean, FileLoads, NormalAll, Find;
    GoodParts(w, p, id);
    CaseForIsFor(w.records[id], over);
    if env.isJson(p) {
      HeldIsFound(env, w, p, id);
    }
  }

  lemma CaseForIsFor(record: BadCase, over: Overrides)
    ensures CaseFor(record, over).Ok? ==> CaseFor(record, over).value.id == CaseId(record.id)
  {}

  /** A promotion that crashes between its writes has written its case and left the record approved. */
  lemma CrashedLeaves(env: Env, w: World, id: string, p: Path, over: Overrides)
    requires Good(w) && Promote(env, w, id, p, over, true).1 == Err(Crashed)
    ensures var w' := Promote(env, w, id, p, over, true).0;
            && w'.records == w.records && id in w.records && w.records[id].status == Approved
            && CaseFor(w.records[id], over).Ok?
            && p in w'.files && Holds(w'.files[p], id)
  {
    hide FileGood, CaseLoads, Clean, CaseId, RecordGood, CaseFor, Good, FileLoads, Holds, Extends, Normal;
    GoodParts(w, p, id);
    NoOtherCrash(w.records[id], over);
    CaseForLoads(w.records[id], over);
    var c := CaseFor(w.records[id], over).value;
    if p !in w.files {
      NewFileIsGood(c, id);
    } else {
      FindExact(NormalAll(w.files[p]), c.id);
      match Find(NormalAll(w.files[p]), c.id) {
        case Some(found) => FoundIsHeld(w.files[p], found, id);
        case None => AppendedIsGood(w.files[p], c, id);
      }
    }
  }

  lemma NoOtherCrash(record: BadCase, over: Overrides)
    ensures CaseFor(record, over) != Err(Crashed)
  {}

  /** Retrying after a crash completes the promotion without a second case, exactly when the dataset's
      path ends in .json. */
  lemma RetryCompletes(env: Env, w: World, id: string, p: Path, over: Overrides)
    requires Good(w) && Promote(env, w, id, p, over, true).1 == Err(Crashed)
    ensures var w1 := Promote(env, w, id, p, over, true).0;
            var (w2, r) := Promote(env, w1, id, p, over, false);
            && w2.files == w1.files
            && (r.Ok? <==> env.isJson(p))
            && (r.Ok? ==> id in w2.records && w2.records[id].status == Promoted && w2.records[id].dataset == Some(p))
            && (r.Err? ==> w2 == w1)
  {
    hide Good, Holds, Promote, CaseFor;
    CrashedLeaves(env, w, id, p, over);
    PromoteKeepsGood(env, w, id, p, over, true);
    PromoteHeld(env, Promote(env, w, id, p, over, true).0, id, p, over);
  }

  /** Promoting again where the record was promoted changes nothing, and returns the case exactly when
      the dataset's path ends in .json; anywhere else it is refused. */
  lemma PromoteAgain(env: Env, w: World, id: string, p: Path, over: Overrides, crash: bool)
    requires Good(w) && id in w.records && w.records[id].status == Promoted
    ensures var (w', r) := Promote(env, w, id, p, over, crash);
            && w' == w
            && (r.Ok? <==> w.records[id].dataset == Some(p) && env.isJson(p))
            && (r.Ok? ==> r.value.source == Some(id))
            && (w.records[id].dataset != Some(p) ==> r == Err(AlreadyPromoted))
  {
    hide FileGood, CaseLoads, Clean, CaseId, FileLoads, NormalAll, Find, Holds;
    assert RecordGood(w, id, w.records[id]);
    if w.records[id].dataset == Some(p) && env.isJson(p) {
      HeldIsFound(env, w, p, id);
    }
  }

  /** Every case of the dataset with the id this badcase would use was promoted from this badcase. */
  ghost predicate IdIsFree(cases: seq<Case>, id: string) {
    forall k :: 0 <= k < |cases| && Strip(cases[k].id) == CaseId(id) ==> cases[k].source == Some(id)
  }

  /** An approved badcase that yields a case is promoted exactly when the dataset is new, or can be loaded
      and holds no foreign case under its case id. */
  lemma PromotesExactly(env: Env, w: World, id: string, p: Path, over: Overrides)
    requires Good(w) && id in w.records && w.records[id].status == Approved && CaseFor(w.records[id], over).Ok?
    ensures var (w', r) := Promote(env, w, id, p, over, false);
            && (r.Ok? <==> p !in w.files || (env.isJson(p) && IdIsFree(w.files[p], id)))
            && (r.Ok? ==> id in w'.records && w'.records[id].status == Promoted && w'.records[id].dataset == Some(p))
            && (r.Err? ==> w' == w && r.error == if env.isJson(p) then CaseCollision else UnreadableDataset)
  {
    hide Good, FileGood, CaseLoads, CaseId, Clean, NormalAll, Find, IdIsFree;
    GoodParts(w, p, id);
    CaseForIsFor(w.records[id], over);
    if p in w.files && env.isJson(p) {
      FileGoodLoads(w.files[p]);
      FoundIsFree(w.files[p], id);
    }
  }

  lemma FileGoodLoads(cases: seq<Case>)
    requires FileGood(cases)
    ensures FileLoads(cases)
  {}

  lemma FoundIsFree(cases: seq<Case>, id: string)
    requires FileGood(cases)
    ensures var found := Find(NormalAll(cases), CaseId(id));
            IdIsFree(cases, id) <==> (found.None? || found.value.source == Some(id))
  {
    hide CaseLoads, CaseId, Find, Strip;
    FindExact(NormalAll(cases), CaseId(id));
    forall k | 0 <= k < |cases|
      ensures NormalAll(cases)[k].id == Strip(cases[k].id) && NormalAll(cases)[k].source == cases[k].source
    {}
    match Find(NormalAll(cases), CaseId(id)) {
      case None =>
      case Some(c) =>
        var m :| 0 <= m < |cases| && NormalAll(cases)[m] == c && c.id == CaseId(id);
        assert forall k :: 0 <= k < |cases| && Strip(cases[k].id) == CaseId(id) ==> k == m;
    }
  }

  /** So two badcases whose ids share the characters used in the case id cannot go to one dataset: the
      second promotion is refused and nothing changes. */
  lemma SharedPrefixCollides(env: Env, w: World, id: string, other: string, p: Path, over: Overrides, crash: bool)
    requires Good(w) && id in w.records && w.records[id].status == Approved && CaseFor(w.records[id], over).Ok?
    requires id != other && CaseId(id) == CaseId(other) && p in w.files && Holds(w.files[p], other) && env.isJson(p)
    ensures !IdIsFree(w.files[p], id) && Promote(env, w, id, p, over, crash) == (w, Err(CaseCollision))
  {
    hide Good, FileGood, CaseLoads, CaseId, Clean, FileLoads, NormalAll, Find, Strip;
    GoodParts(w, p, id);
    CaseForIsFor(w.records[id], over);
    HeldIsFound(env, w, p, other);
    var k :| 0 <= k < |w.files[p]| && Strip(w.files[p][k].id) == CaseId(other) && w.files[p][k].source == Some(other);
  }

  // ---- A dataset that cannot be loaded again ----

  function LowerAscii(s: string): string {
    seq(|s|, k requires 0 <= k < |s| => if 'A' <= s[k] <= 'Z' then (s[k] as int + 32) as char else s[k])
  }

  /** The last component of a path. */
  function Name(p: Path): string {
    if p == "" then "" else if p[|p| - 1] == '/' then "" else Name(p[..|p| - 1]) + [p[|p| - 1]]
  }

  /** The suffix of the last component is .json in some case; a name that only consists of it has none. */
  predicate HasJsonSuffix(p: Path) {
    var name := Name(p);
    |name| > 5 && LowerAscii(name[|name| - 5..]) == ".json"
  }

  /** An approved badcase and no dataset yet. */
  function OneApproved(): World {
    var record := BadCase("badcase_1", "task", Expectation(None, ""), [Scorer("exact_match", "")],
                          false, Approved, "", None, None);
    World(map["badcase_1" := record], map[])
  }

  /** Promoting into a new file without the suffix writes it and marks the record; after a crash in
      between, the retry cannot load the file that the first attempt wrote. */
  lemma SuffixIsNotChecked(bound: string -> string)
    ensures var env, w, over := Env(HasJsonSuffix, bound), OneApproved(), Overrides(None, []);
            var w1 := Promote(env, w, "badcase_1", "regression.txt", over, true).0;
            && Good(w) && !HasJsonSuffix("regression.txt")
            && Promote(env, w, "badcase_1", "regression.txt", over, false).1.Ok?
            && Promote(env, w, "badcase_1", "regression.txt", over, true).1 == Err(Crashed)
            && Promote(env, w1, "badcase_1", "regression.txt", over, false) == (w1, Err(UnreadableDataset))
  {
    hide CaseId, Strip, Good;
    OneApprovedIsGood();
    TextHasNoJsonSuffix();
    ApprovedHasCase();
  }

  lemma OneApprovedIsGood()
    ensures Good(OneApproved())
  {
    hide Strip;
    assert "badcase_1"[8..] == "1";
    assert CaseId("badcase_1") == "regression_1";
    StrippedStays("regression_1");
  }

  lemma StrippedStays(s: string)
    requires Stripped(s)
    ensures Strip(s) == s
  {}

  lemma ApprovedHasCase()
    ensures CaseFor(OneApproved().records["badcase_1"], Overrides(None, [])).Ok?
  {
    hide Strip, CaseId;
    StrippedStays("task");
    StrippedStays("exact_match");
  }

  lemma TextHasNoJsonSuffix()
    ensures !HasJsonSuffix("regression.txt")
  {
    NameIsAll("regression.txt");
    assert "regression.txt"[9..] == "n.txt";
    assert LowerAscii("n.txt")[0] == 'n';
  }

  lemma {:induction false} NameIsAll(p: Path)
    requires '/' !in p
    ensures Name(p) == p
  {
    if p != "" {
      assert p[|p| - 1] in p;
      NameIsAll(p[..|p| - 1]);
      assert p == p[..|p| - 1] + [p[|p| - 1]];
    }
  }

  // ---- As an object ----

  class Evaluation {
    /** The badcase store and the dataset files; every assignment is one atomic replacement of a file. */
    var records: map<string, BadCase>
    var files: map<Path, seq<Case>>

    function Contents(): World
      reads this
    {
      World(records, files)
    }

    constructor ()
      ensures Contents() == World(map[], map[])
    {
      records, files := map[], map[];
    }

    method SaveRecord(record: BadCase) returns (saved: BadCase)
      modifies this`records
      ensures Contents() == Save(old(Contents()), record) && record.id in records && saved == records[record.id]
    {
      if record.id !in records {
        records := records[record.id := record];
      }
      saved := records[record.id];
    }

    method UpdateReviewStatus(env: Env, id: string, status: Status, note: string) returns (r: Result<BadCase, Failure>)
      modifies this`records
      ensures (Contents(), r) == Review(env, old(Contents()), id, status, note)
      ensures r == Err(NotFound) <==> id !in old(records)
      ensures id in old(records) ==>
                var before := old(records)[id].status;
                r.Ok? <==> || status == before
                           || (before == Pending && (status == Approved || status == Ignored))
                           || (before == Approved && status == Ignored)
                           || (before == Ignored && status == Approved)
      ensures r.Ok? ==>
                var before := old(records)[id];
                && records == old(records)[id := r.value]
                && r.value == before.(status := status, note := r.value.note)
                && r.value.note == if status == before.status && note in {before.note, ""} then before.note
                                   else env.bound(note)
      ensures r.Err? ==> records == old(records) && r.error in {NotFound, InvalidTransition}
    {
      if id !in records { return Err(NotFound); }
      var record := records[id];
      if status == record.status {
        if note == record.note || note == "" { return Ok(record); }
      } else if !Allowed(record.status, status) {
        return Err(InvalidTransition);
      }
      var updated := record.(status := status, note := env.bound(note));
      records := records[id := updated];
      r := Ok(updated);
    }

    method Mark(id: string, dataset: Path, caseId: string) returns (r: Result<BadCase, Failure>)
      modifies this`records
      ensures (Contents(), r) == MarkPromoted(old(Contents()), id, dataset, caseId)
      ensures r.Ok? <==> id in old(records) && var before := old(records)[id];
                         || before.status == Approved
                         || (before.status == Promoted && before.dataset == Some(dataset)
                             && before.caseId == Some(caseId))
      ensures r.Ok? ==> records == old(records)[id := r.value]
                        && r.value == old(records)[id].(status := Promoted, dataset := Some(dataset),
                                                        caseId := Some(caseId))
      ensures r.Err? ==> records == old(records)
    {
      if id !in records { return Err(NotFound); }
      var record := records[id];
      if record.status == Promoted {
        if record.dataset == Some(dataset) && record.caseId == Some(caseId) { return Ok(record); }
        return Err(AlreadyPromoted);
      }
      if record.status != Approved { return Err(NotApproved); }
      var updated := record.(status := Promoted, dataset := Some(dataset), caseId := Some(caseId));
      records := records[id := updated];
      r := Ok(updated);
    }

    static method FindCase(cases: seq<Case>, id: string) returns (r: Option<Case>)
      ensures r == Find(cases, id)
    {
      for k := 0 to |cases|
        invariant Find(cases, id) == Find(cases[k..], id)
      {
        if cases[k].id == id { return Some(cases[k]); }
      }
      r := None;
    }

    /** The promotion writes the dataset first and the record second; `crash` stops it before the second write. */
    method PromoteBadCase(env: Env, id: string, p: Path, over: Overrides, crash: bool)
      returns (r: Result<Case, Failure>)
      modifies this
      ensures (Contents(), r) == Promote(env, old(Contents()), id, p, over, crash)
    {
      hide CaseFor, CaseId, FileLoads, NormalAll, MarkPromoted, Find;
      if id !in records { return Err(NotFound); }
      var record := records[id];
      var caseId := CaseId(id);
      if record.status == Promoted {
        if record.dataset != Some(p) || record.caseId != Some(caseId) { return Err(AlreadyPromoted); }
        var loaded := Load(env, Contents(), p);
        if loaded.Err? { return Err(loaded.error); }
        var existing := FindCase(loaded.value, caseId);
        return if existing.None? then Err(MissingCase) else Ok(existing.value);
      }
      if record.status != Approved { return Err(NotApproved); }
      var evaluationCase := CaseFor(record, over);
      if evaluationCase.Err? { return Err(evaluationCase.error); }
      var c := evaluationCase.value;
      if p in files {
        var loaded := Load(env, Contents(), p);
        if loaded.Err? { return Err(loaded.error); }
        var existing := FindCase(loaded.value, c.id);
        if existing.Some? {
          if existing.value.source != Some(id) { return Err(CaseCollision); }
          c := existing.value;
        } else {
          files := files[p := loaded.value + [c]];
        }
      } else {
        files := files[p := [c]];
      }
      if crash { return Err(Crashed); }
      var marked := Mark(id, p, caseId);
      r := match marked case Ok(_) => Ok(c) case Err(e) => Err(e);
    }
  }

  /** The case that a first promotion leaves behind in the dataset: the one that came from the badcase already, or a
      new one at the end with the badcase's task, and its expectation unless overridden. */
  lemma PromotedCase(env: Env, w: World, id: string, p: Path, over: Overrides)
    requires id in w.records && w.records[id].id == id && w.records[id].status == Approved
    requires Promote(env, w, id, p, over, false).1.Ok?
    ensures var (w', r) := Promote(env, w, id, p, over, false);
            var c, record := r.value, w.records[id];
            && w'.records ==
               w.records[id := record.(status := Promoted, dataset := Some(p), caseId := Some(CaseId(id)))]
            && p in w'.files && w'.files == w.files[p := w'.files[p]] && c.source == Some(id)
            && if p in w.files && exists k :: 0 <= k < |w.files[p]| && Strip(w.files[p][k].id) == CaseId(id)
               then w'.files == w.files && c in NormalAll(w.files[p])
               else && w'.files[p] == (if p in w.files then NormalAll(w.files[p]) else []) + [c]
                    && c.id == CaseId(id) && c.prompt == record.task && c.scorers != []
                    && c.expected == if over.expected.Some? then over.expected.value else record.expected
  {
    CaseForExactly(w.records[id], over);
    var made := CaseFor(w.records[id], over);
    if made.Ok? && p in w.files && Load(env, w, p).Ok? {
      FindExact(NormalAll(w.files[p]), made.value.id);
      assert forall k :: 0 <= k < |w.files[p]| ==> NormalAll(w.files[p])[k].id == Strip(w.files[p][k].id);
    }
    CaseForIds(w.records[id], over);
    hide CaseFor, CaseId, FileLoads, Strip;
  }

  lemma CaseForIds(record: BadCase, over: Overrides)
    ensures var made := CaseFor(record, over); made.Ok? ==> made.value.id == CaseId(record.id)
  {}
}
