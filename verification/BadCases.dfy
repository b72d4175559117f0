/** Badcase review and promotion into regression datasets, with a crash possible between the two writes
    of a promotion (`src/axiom/evaluation/badcases.py:202-283` and `:586-662`,
    `src/axiom/evaluation/dataset.py:10-24`, `src/axiom/evaluation/models.py:111-146`). */
module BadCases {
  import opened Wrappers
  import opened Text

  type Path = string

  datatype Status = Pending | Approved | Ignored | Promoted

  datatype Scorer = Scorer(kind: string, config: string)

  /** What a case expects; `answer` is singled out because promotion looks for it. */
  datatype Expectation = Expectation(answer: Option<string>, fields: string)

  datatype BadCase = BadCase(id: string, task: string, expected: Expectation, scorers: seq<Scorer>,
      runStatusFailed: bool,
                             status: Status, note: string, dataset: Option<Path>, caseId: Option<string>)

  /** An evaluation case; `source` is the badcase it was promoted from. */
  datatype Case = Case(id: string, name: string, prompt: string,
      source: Option<string>, expected: Expectation, scorers: seq<Scorer>)

  datatype Failure =
    | NotFound | InvalidTransition | AlreadyPromoted | NotApproved | InsufficientExpectation | MissingTask | BlankScorer
    | UnreadableDataset | MissingCase | CaseCollision | Crashed

  /** The record store and the dataset files, as they are on disk. */
  datatype World = World(records: map<string, BadCase>, files: map<Path, seq<Case>>)

  /** `isJson`: the path has a .json suffix. `bound`: the bounded text of a note. */
  datatype Env = Env(isJson: Path -> bool, bound: string -> string)

  // ---- The record store ----

  function Save(w: World, record: BadCase): World {
    if record.id in w.records then w else w.(records := w.records[record.id := record])
  }

  predicate Allowed(before: Status, after: Status) {
    match before
    case Pending => after == Approved || after == Ignored
    case Approved => after == Ignored
    case Ignored => after == Approved
    case Promoted => false
  }

  function Review(env: Env, w: World, id: string, status: Status, note: string): (World, Result<BadCase, Failure>) {
    if id !in w.records then (w, Err(NotFound))
    else
      var record := w.records[id];
      if status == record.status && (note == record.note || note == "") then (w, Ok(record))
      else if status != record.status && !Allowed(record.status, status) then (w, Err(InvalidTransition))
      else
        var updated := record.(status := status, note := env.bound(note));
        (w.(records := w.records[id := updated]), Ok(updated))
  }

  function MarkPromoted(w: World, id: string, dataset: Path, caseId: string): (World, Result<BadCase, Failure>) {
    if id !in w.records then (w, Err(NotFound))
    else
      var record := w.records[id];
      if record.status == Promoted then
        (w, if record.dataset == Some(dataset) && record.caseId == Some(caseId) then Ok(record)
            else Err(AlreadyPromoted))
      else if record.status != Approved then (w, Err(NotApproved))
      else
        var updated := record.(status := Promoted, dataset := Some(dataset), caseId := Some(caseId));
        (w.(records := w.records[id := updated]), Ok(updated))
  }

  // ---- Dataset files ----

  /** What loading makes of a stored case. */
  function Normal(c: Case): Case {
    var id := Strip(c.id);
    c.(id := id, name := if c.name == "" then id else c.name, prompt := Strip(c.prompt),
       scorers := seq(|c.scorers|, k requires 0 <= k < |c.scorers| => c.scorers[k].(kind := Strip(c.scorers[k].kind))))
  }

  function NormalAll(cases: seq<Case>): (r: seq<Case>)
    ensures |r| == |cases| && forall k :: 0 <= k < |cases| ==> r[k] == Normal(cases[k])
  {
    seq(|cases|, k requires 0 <= k < |cases| => Normal(cases[k]))
  }

  predicate CaseLoads(c: Case) {
    Strip(c.id) != "" && Strip(c.prompt) != "" && forall k :: 0 <= k < |c.scorers| ==> Strip(c.scorers[k].kind) != ""
  }

  predicate FileLoads(cases: seq<Case>) {
    && cases != [] && (forall k :: 0 <= k < |cases| ==> CaseLoads(cases[k]))
    && forall j, k :: 0 <= j < k < |cases| ==> Strip(cases[j].id) != Strip(cases[k].id)
  }

  function Load(env: Env, w: World, p: Path): Result<seq<Case>, Failure> {
    if env.isJson(p) && p in w.files && FileLoads(w.files[p]) then Ok(NormalAll(w.files[p])) else Err(UnreadableDataset)
  }

  /** The first case with the id. */
  function Find(cases: seq<Case>, id: string): Option<Case> {
    if cases == [] then None else if cases[0].id == id then Some(cases[0]) else Find(cases[1..], id)
  }

  // ---- Promotion ----

  /** `removeprefix('badcase_')[:16]` behind a fixed prefix. */
  function CaseId(id: string): string {
    var bare := if "badcase_" <= id then id[8..] else id;
    "regression_" + if |bare| > 16 then bare[..16] else bare
  }

  datatype Overrides = Overrides(expected: Option<Expectation>, scorers: seq<Scorer>)

  function ScorerData(record: BadCase, over: Overrides): seq<Scorer> {
    var data := if over.scorers != [] then over.scorers else record.scorers;
    if data != [] then data
    else if record.runStatusFailed then [Scorer("run_status", "COMPLETED")]
    else if over.expected.Some? && over.expected.value.answer.Some?
         then [Scorer("exact_match", over.expected.value.answer.value)]
    else []
  }

  /** The case a promotion would write, or why it cannot. */
  function CaseFor(record: BadCase, over: Overrides): Result<Case, Failure> {
    var data := ScorerData(record, over);
    if data == [] then Err(InsufficientExpectation)
    else if Strip(record.task) == "" then Err(MissingTask)
    else if exists k :: 0 <= k < |data| && Strip(data[k].kind) == "" then Err(BlankScorer)
    else Ok(Case(CaseId(record.id), "Regression from " + record.id, record.task, Some(record.id),
                 if over.expected.Some? then over.expected.value else record.expected,
                 seq(|data|, k requires 0 <= k < |data| => data[k].(kind := Strip(data[k].kind)))))
  }

  /** The second write. A crash comes just before it. */
  function Finish(w: World, id: string, p: Path, c: Case, crash: bool): (World, Result<Case, Failure>) {
    if crash then (w, Err(Crashed))
    else
      var (w', marked) := MarkPromoted(w, id, p, CaseId(id));
      (w', if marked.Ok? then Ok(c) else Err(marked.error))
  }

  function Promote(env: Env, w: World, id: string, p: Path, over: Overrides, crash: bool)
    : (World, Result<Case, Failure>)
  {
    if id !in w.records then (w, Err(NotFound))
    else
      var record := w.records[id];
      if record.status == Promoted then
        if record.dataset == Some(p) && record.caseId == Some(CaseId(id)) then
          match Load(env, w, p)
          case Err(e) => (w, Err(e))
          case Ok(cases) => (w, match Find(cases, CaseId(id)) case None => Err(MissingCase) case Some(c) => Ok(c))
        else (w, Err(AlreadyPromoted))
      else if record.status != Approved then (w, Err(NotApproved))
      else match CaseFor(record, over)
        case Err(e) => (w, Err(e))
        case Ok(c) => Append(env, w, id, p, c, crash)
  }

  /** The first write, unless the dataset already holds the case. */
  function Append(env: Env, w: World, id: string, p: Path, c: Case, crash: bool): (World, Result<Case, Failure>) {
    if p !in w.files then Finish(w.(files := w.files[p := [c]]), id, p, c, crash)
    else match Load(env, w, p)
      case Err(e) => (w, Err(e))
      case Ok(cases) =>
        match Find(cases, c.id)
        case Some(found) => if found.source != Some(id) then (w, Err(CaseCollision)) else Finish(w, id, p, found, crash)
        case None => Finish(w.(files := w.files[p := cases + [c]]), id, p, c, crash)
  }

  // ---- What always holds ----

  /** The case id survives loading. */
  predicate Clean(id: string) {
    Strip(CaseId(id)) == CaseId(id)
  }

  ghost predicate FileGood(cases: seq<Case>) {
    FileLoads(cases) &&
    forall k :: 0 <= k < |cases| && cases[k].source.Some? ==> Strip(cases[k].id) == CaseId(cases[k].source.value)
  }

  predicate Holds(cases: seq<Case>, id: string) {
    exists k :: 0 <= k < |cases| && Strip(cases[k].id) == CaseId(id) && cases[k].source == Some(id)
  }

  /** A promoted record names a dataset that holds its case. */
  predicate RecordGood(w: World, id: string, record: BadCase) {
    && record.id == id && Clean(id)
    && (record.status == Promoted ==>
          && record.dataset.Some? && record.dataset.value in w.files && record.caseId == Some(CaseId(id))
          && Holds(w.files[record.dataset.value], id))
  }

  ghost predicate Good(w: World) {
    && (forall p :: p in w.files ==> FileGood(w.files[p]))
    && (forall id :: id in w.records ==> RecordGood(w, id, w.records[id]))
  }

  /** A dataset holds at most one case of a badcase. */
  lemma OneCasePerBadcase(w: World, p: Path, j: nat, k: nat)
    requires Good(w) && p in w.files && j < |w.files[p]| && k < |w.files[p]|
    requires w.files[p][j].source.Some? && w.files[p][j].source == w.files[p][k].source
    ensures j == k
  {
    assert FileGood(w.files[p]);
  }

  lemma NormalTwice(c: Case)
    ensures Normal(Normal(c)) == Normal(c)
    ensures CaseLoads(c) ==> CaseLoads(Normal(c))
  {
    StripTwice(c.id);
    StripTwice(c.prompt);
    forall k | 0 <= k < |c.scorers| ensures Strip(Strip(c.scorers[k].kind)) == Strip(c.scorers[k].kind) {
      StripTwice(c.scorers[k].kind);
    }
  }

  lemma {:induction false} FindExact(cases: seq<Case>, id: string)
    ensures match Find(cases, id)
            case None => forall k :: 0 <= k < |cases| ==> cases[k].id != id
            case Some(c) => exists k :: 0 <= k < |cases| && cases[k] == c && c.id == id
  {
    if cases != [] && cases[0].id != id {
      FindExact(cases[1..], id);
      match Find(cases[1..], id)
      case None =>
        forall k | 0 <= k < |cases| ensures cases[k].id != id {
          assert k > 0 ==> cases[k] == cases[1..][k - 1];
        }
      case Some(c) =>
        var k :| 0 <= k < |cases| - 1 && cases[1..][k] == c && c.id == id;
        assert cases[k + 1] == c;
    }
  }

  /** The file's cases keep their order, and cases are only added behind them. */
  ghost predicate Extends(before: seq<Case>, after: seq<Case>) {
    NormalAll(before) <= NormalAll(after)
  }

  lemma NormalAllTwice(cases: seq<Case>)
    ensures NormalAll(NormalAll(cases)) == NormalAll(cases)
  {
    forall k | 0 <= k < |cases| ensures Normal(Normal(cases[k])) == Normal(cases[k]) { NormalTwice(cases[k]); }
  }

  /** Appending the new case to the loaded ones. */
  lemma AppendedIsGood(cases: seq<Case>, c: Case, id: string)
    requires FileGood(cases) && CaseLoads(c) && Clean(id) && c.id == CaseId(id) && c.source == Some(id)
    requires forall k :: 0 <= k < |cases| ==> Normal(cases[k]).id != c.id
    ensures FileGood(NormalAll(cases) + [c]) && Holds(NormalAll(cases) + [c], id)
    ensures Extends(cases, NormalAll(cases) + [c])
    ensures forall b: string :: Holds(cases, b) ==> Holds(NormalAll(cases) + [c], b)
  {
    var all := NormalAll(cases) + [c];
    forall k | 0 <= k < |cases|
      ensures all[k] == Normal(cases[k]) && CaseLoads(all[k]) && Strip(all[k].id) == Strip(cases[k].id)
    {
      NormalTwice(cases[k]);
      StripTwice(cases[k].id);
    }
    assert all[|cases|] == c && Strip(c.id) == CaseId(id);
    NormalAllTwice(cases);
    assert NormalAll(all)[..|cases|] == NormalAll(NormalAll(cases));
  }

  lemma NewFileIsGood(c: Case, id: string)
    requires CaseLoads(c) && Clean(id) && c.id == CaseId(id) && c.source == Some(id)
    ensures FileGood([c]) && Holds([c], id)
  {
    assert [c][0] == c;
  }

  /** The case carries the badcase's own task and, unless they are overridden, its expectation and its scorers;
      with neither, a failed run status or an expected answer given now makes a scorer. Without any scorer, task
      or scorer kind there is no case. */
  lemma CaseForExactly(record: BadCase, over: Overrides)
    ensures var scorers := if over.scorers != [] then over.scorers
                           else if record.scorers != [] then record.scorers
                           else if record.runStatusFailed then [Scorer("run_status", "COMPLETED")]
                           else if over.expected.Some? && over.expected.value.answer.Some?
                           then [Scorer("exact_match", over.expected.value.answer.value)] else [];
            match CaseFor(record, over)
            case Err(e) =>
              e == if scorers == [] then InsufficientExpectation
                   else if AllSpace(record.task) then MissingTask else BlankScorer
            case Ok(c) =>
              && scorers != [] && !AllSpace(record.task)
              && c.prompt == record.task && c.source == Some(record.id) && c.name == "Regression from " + record.id
              && c.expected == (if over.expected.Some? then over.expected.value else record.expected)
              && |c.scorers| == |scorers|
              && forall k :: 0 <= k < |scorers| ==>
                   && c.scorers[k].config == scorers[k].config && c.scorers[k].kind == Strip(scorers[k].kind)
                   && !AllSpace(scorers[k].kind)
    ensures CaseFor(record, over) == Err(BlankScorer) ==>
              exists k :: 0 <= k < |ScorerData(record, over)| && AllSpace(ScorerData(record, over)[k].kind)
  {
    var data := ScorerData(record, over);
    var before, after := StripExactly(record.task);
    forall k | 0 <= k < |data| ensures Strip(data[k].kind) == "" <==> AllSpace(data[k].kind) {
      var left, right := StripExactly(data[k].kind);
    }
    hide AllSpace, Strip;
  }

  /** The case a promotion writes can be loaded again. */
  lemma CaseForLoads(record: BadCase, over: Overrides)
    requires CaseFor(record, over).Ok? && Clean(record.id)
    ensures var c := CaseFor(record, over).value;
            CaseLoads(c) && c.id == CaseId(record.id) && c.source == Some(record.id)
  {
    var c, data := CaseFor(record, over).value, ScorerData(record, over);
    forall k | 0 <= k < |c.scorers| ensures Strip(c.scorers[k].kind) != "" {
      StripTwice(data[k].kind);
    }
    assert c.id != "";
  }

  /** One file may be extended under every record. */
  lemma FileReplaced(w: World, p: Path, cases: seq<Case>)
    requires Good(w) && FileGood(cases)
    requires p in w.files ==> forall b: string :: Holds(w.files[p], b) ==> Holds(cases, b)
    ensures Good(w.(files := w.files[p := cases]))
  {
    hide FileGood, Holds, Clean, CaseId;
    var w' := w.(files := w.files[p := cases]);
    forall id | id in w'.records ensures RecordGood(w', id, w'.records[id]) {
      assert RecordGood(w, id, w.records[id]);
    }
  }

  lemma MarkedIsGood(w: World, id: string, p: Path)
    requires Good(w) && p in w.files && Holds(w.files[p], id)
    ensures Good(MarkPromoted(w, id, p, CaseId(id)).0)
  {
    hide FileGood, Holds, Clean, CaseId;
    var w' := MarkPromoted(w, id, p, CaseId(id)).0;
    forall b | b in w'.records ensures RecordGood(w', b, w'.records[b]) {
      assert RecordGood(w, b, w.records[b]);
    }
  }

  /** What the first write of a promotion leaves: a good world whose dataset holds the case. */
  lemma AppendIsGood(env: Env, w: World, id: string, p: Path, c: Case, crash: bool)
    requires Good(w) && id in w.records && CaseLoads(c) && c.id == CaseId(id) && c.source == Some(id)
    ensures Good(Append(env, w, id, p, c, crash).0)
    ensures forall q :: q in w.files ==>
              && q in Append(env, w, id, p, c, crash).0.files
              && Extends(w.files[q], Append(env, w, id, p, c, crash).0.files[q])
  {
    hide FileGood, Holds, Clean, CaseId, CaseLoads, Extends, Normal, MarkPromoted, FileLoads, RecordGood;
    GoodParts(w, p, id);
    forall q | q in w.files ensures Extends(w.files[q], w.files[q]) { ExtendsItself(w.files[q]); }
    MarkKeepsFiles(id, p, CaseId(id));
    if p !in w.files {
      NewFileIsGood(c, id);
      FileReplaced(w, p, [c]);
      MarkedIsGood(w.(files := w.files[p := [c]]), id, p);
    } else if Load(env, w, p).Ok? {
      var cases := w.files[p];
      FindExact(NormalAll(cases), c.id);
      match Find(NormalAll(cases), c.id) {
        case Some(found) =>
          if found.source == Some(id) {
            FoundIsHeld(cases, found, id);
            MarkedIsGood(w, id, p);
          }
        case None =>
          AppendedIsGood(cases, c, id);
          FileReplaced(w, p, NormalAll(cases) + [c]);
          MarkedIsGood(w.(files := w.files[p := NormalAll(cases) + [c]]), id, p);
      }
    }
  }

  lemma GoodParts(w: World, p: Path, id: string)
    requires Good(w)
    ensures p in w.files ==> FileGood(w.files[p])
    ensures id in w.records ==> Clean(id) && w.records[id].id == id
  {}

  lemma ExtendsItself(cases: seq<Case>)
    ensures Extends(cases, cases)
  {}

  lemma MarkKeepsFiles(id: string, p: Path, caseId: string)
    ensures forall w: World :: MarkPromoted(w, id, p, caseId).0.files == w.files
  {}

  lemma FoundIsHeld(cases: seq<Case>, found: Case, id: string)
    requires exists k :: 0 <= k < |cases| && NormalAll(cases)[k] == found && found.id == CaseId(id)
    requires found.source == Some(id)
    ensures Holds(cases, id)
  {}
}
