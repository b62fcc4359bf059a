/** The attestation producer, scripts/generate_n8n_workflow_attestation.py. */
module Attestation {
  import opened Prelude
  import opened Manifest
  import opened Text

  const CLAIM_CONTRACT := "execution-claim-v1"
  const RECEIPT_CONTRACT := "execution-report-v1"
  const CLAIM_OPTIONAL := {"calendar.upsert"}
  const SMOKE_CHECKS := ["eventValidation", "providerReceipt", "receiptBeforeRetry", "credentialCheck"]

  /** What one run of the producer works on. Times are in microseconds. */
  datatype Job = Job(
    manifestSha: string, rows: seq<Row>, workflows: map<string, Fields>, smoke: Value, now: int, maxSmokeAgeDays: int)

  // ---------------------------------------------------------------------------
  // Loading the exports

  function Dicts(items: seq<Value>): (found: seq<Fields>)
    ensures forall f :: f in found <==> Obj(f) in items
  {
    if items == [] then []
    else
      assert items == [items[0]] + items[1..];
      (if items[0].Obj? then [items[0].fields] else []) + Dicts(items[1..])
  }

  /** `workflow_documents` of a file's JSON, or of one that is no JSON; None stands for its
      ValueError. */
  function WorkflowDocuments(raw: Option<Value>): Option<seq<Fields>> {
    match raw
    case None => None
    case Some(Arr(items)) => Some(Dicts(items))
    case Some(Obj(fields)) =>
      if Get(fields, "nodes").Arr? then Some([fields])
      else if Get(fields, "data").Arr? then Some(Dicts(Get(fields, "data").items))
      else None
    case _ => None
  }

  /** The stripped id of an export; falsy ids read as the empty one. */
  function WorkflowId(lib: Library): Fields -> string {
    workflow =>
      var id := Get(workflow, "id");
      PyStrip(if !Truthy(id) then "" else if id.Str? then id.s else lib.text(id))
  }

  function WorkflowIds(idOf: Fields -> string, documents: seq<Fields>): seq<string> {
    seq(|documents|, i requires 0 <= i < |documents| => idOf(documents[i]))
  }

  /** The map holds the first n exports that have an id, under it, and nothing else. */
  ghost predicate Loaded(ids: seq<string>, documents: seq<Fields>, n: nat, workflows: map<string, Fields>)
    requires n <= |ids| == |documents|
  {
    && (forall id | id in workflows :: id != "" && exists i | 0 <= i < n :: ids[i] == id && documents[i] == workflows[id])
    && (forall i | 0 <= i < n && ids[i] != "" :: ids[i] in workflows && workflows[ids[i]] == documents[i])
  }

  /** Export j has an id that an earlier one has. */
  ghost predicate Repeated(ids: seq<string>, j: nat) { j < |ids| && ids[j] != "" && ids[j] in ids[..j] }

  lemma LoadedStep(ids: seq<string>, documents: seq<Fields>, n: nat, found: map<string, Fields>)
    requires n < |ids| == |documents| && Loaded(ids, documents, n, found)
    ensures ids[n] in found <==> Repeated(ids, n)
    ensures ids[n] == "" ==> Loaded(ids, documents, n + 1, found)
    ensures ids[n] != "" && ids[n] !in found ==> Loaded(ids, documents, n + 1, found[ids[n] := documents[n]])
  {
    if ids[n] in found {
      var i :| 0 <= i < n && ids[i] == ids[n];
      assert ids[..n][i] == ids[n];
    }
    if Repeated(ids, n) {
      var i :| 0 <= i < n && ids[..n][i] == ids[n];
      assert ids[i] == ids[n];
    }
  }

  /** The first export with the id of an earlier one has this id. */
  ghost predicate FirstRepeated(ids: seq<string>, id: string) {
    exists j: nat :: Repeated(ids, j) && ids[j] == id && forall i: nat | i < j :: !Repeated(ids, i)
  }

  ghost predicate NoneRepeated(ids: seq<string>) { forall j: nat :: !Repeated(ids, j) }

  /** The exports of all files in order; None if one of them has no supported shape. */
  function DocumentsOf(files: seq<Option<Value>>): Option<seq<Fields>> {
    if files == [] then Some([])
    else
      var n := |files| - 1;
      var before, last := DocumentsOf(files[..n]), WorkflowDocuments(files[n]);
      if before.None? || last.None? then None else Some(before.value + last.value)
  }

  datatype LoadError = BadFile | DuplicateId(id: string)

  /** What the exports load as, none of them with the id of an earlier one. */
  ghost predicate LoadsAs(idOf: Fields -> string, documents: seq<Fields>, workflows: map<string, Fields>) {
    exists ids :: ids == WorkflowIds(idOf, documents) && NoneRepeated(ids) && Loaded(ids, documents, |documents|, workflows)
  }

  /** The first n files load, and what they hold loads as the map. */
  ghost predicate LoadedFiles(idOf: Fields -> string, files: seq<Option<Value>>, n: nat, workflows: map<string, Fields>)
    requires n <= |files|
  {
    exists documents :: DocumentsOf(files[..n]) == Some(documents) && LoadsAs(idOf, documents, workflows)
  }

  /** Where loading fails: the files before n load, and file n is no JSON of a supported
      shape, or the first export whose id was there before is in it. */
  ghost predicate FailsAt(idOf: Fields -> string, files: seq<Option<Value>>, n: nat, error: LoadError) {
    && n < |files| && (exists workflows :: LoadedFiles(idOf, files, n, workflows))
    && match error
       case BadFile => WorkflowDocuments(files[n]).None?
       case DuplicateId(id) =>
         DocumentsOf(files[..n + 1]).Some? && FirstRepeated(WorkflowIds(idOf, DocumentsOf(files[..n + 1]).value), id)
  }

  /** The inner loop, over the exports of one file: those behind the first k. */
  method AddDocuments(idOf: Fields -> string, ghost ids: seq<string>, ghost all: seq<Fields>, ghost k: nat,
                      workflows: map<string, Fields>, documents: seq<Fields>)
    returns (more: Result<map<string, Fields>, string>)
    requires |ids| == |all| == k + |documents| && Loaded(ids, all, k, workflows)
    requires forall n | 0 <= n < |documents| :: AtPlace(idOf, ids, all, k + n, documents[n])
    requires forall j: nat | j < k :: !Repeated(ids, j)
    ensures match more
            case Ok(found) => NoneRepeated(ids) && Loaded(ids, all, |all|, found)
            case Err(id) => FirstRepeated(ids, id)
  {
    var found := workflows;
    for n := 0 to |documents|
      invariant Loaded(ids, all, k + n, found)
      invariant forall j: nat | j < k + n :: !Repeated(ids, j)
    {
      assert AtPlace(idOf, ids, all, k + n, documents[n]);
      LoadedStep(ids, all, k + n, found);
      var id := idOf(documents[n]);
      if id != "" {
        if id in found { return Err(id); }
        found := found[id := documents[n]];
      }
    }
    return Ok(found);
  }

  ghost predicate AtPlace(idOf: Fields -> string, ids: seq<string>, all: seq<Fields>, i: nat, document: Fields) {
    i < |ids| && i < |all| && ids[i] == idOf(document) && all[i] == document
  }

  lemma LoadedPrefix(idOf: Fields -> string, before: seq<Fields>, documents: seq<Fields>, workflows: map<string, Fields>)
    requires LoadsAs(idOf, before, workflows)
    ensures var all := before + documents;
            var ids := WorkflowIds(idOf, all);
            && Loaded(ids, all, |before|, workflows)
            && (forall j: nat | j < |before| :: !Repeated(ids, j))
            && forall n | 0 <= n < |documents| :: AtPlace(idOf, ids, all, |before| + n, documents[n])
  {
    var all := before + documents;
    var ids, was := WorkflowIds(idOf, all), WorkflowIds(idOf, before);
    assert forall i | 0 <= i < |before| :: all[i] == before[i] && ids[i] == was[i];
    forall j: nat | j < |before| ensures !Repeated(ids, j) {
      assert ids[..j] == was[..j];
      assert !Repeated(was, j);
    }
  }

  /** A file whose exports load behind those before, or do not. */
  method AddFile(idOf: Fields -> string, ghost before: seq<Fields>, workflows: map<string, Fields>, documents: seq<Fields>)
    returns (more: Result<map<string, Fields>, string>)
    requires LoadsAs(idOf, before, workflows)
    ensures match more
            case Ok(found) => LoadsAs(idOf, before + documents, found)
            case Err(id) => FirstRepeated(WorkflowIds(idOf, before + documents), id)
  {
    LoadedPrefix(idOf, before, documents, workflows);
    ghost var all := before + documents;
    more := AddDocuments(idOf, WorkflowIds(idOf, all), all, |before|, workflows, documents);
  }

  lemma NothingLoads(idOf: Fields -> string)
    ensures LoadsAs(idOf, [], map[])
  {
    var ids := WorkflowIds(idOf, []);
    assert NoneRepeated(ids) && Loaded(ids, [], 0, map[]);
  }

  lemma NextFile(idOf: Fields -> string, files: seq<Option<Value>>, n: nat, before: seq<Fields>, workflows: map<string, Fields>)
    requires n < |files| && DocumentsOf(files[..n]) == Some(before) && LoadsAs(idOf, before, workflows)
    ensures LoadedFiles(idOf, files, n, workflows)
    ensures match WorkflowDocuments(files[n])
            case None => FailsAt(idOf, files, n, BadFile)
            case Some(documents) => DocumentsOf(files[..n + 1]) == Some(before + documents)
  {
    assert files[..n + 1][..n] == files[..n];
    assert LoadedFiles(idOf, files, n, workflows);
  }

  /** `load_workflows` on the contents of all files in order. */
  method LoadWorkflows(lib: Library, files: seq<Option<Value>>) returns (result: Result<map<string, Fields>, LoadError>)
    ensures match result
            case Ok(workflows) => LoadedFiles(WorkflowId(lib), files, |files|, workflows)
            case Err(error) => exists n :: FailsAt(WorkflowId(lib), files, n, error)
  {
    var idOf := WorkflowId(lib);
    var workflows: map<string, Fields> := map[];
    ghost var before: seq<Fields> := [];
    NothingLoads(idOf);
    for n := 0 to |files|
      invariant DocumentsOf(files[..n]) == Some(before) && LoadsAs(idOf, before, workflows)
    {
      var documents := WorkflowDocuments(files[n]);
      NextFile(idOf, files, n, before, workflows);
      if documents.None? { return Err(BadFile); }
      var more := AddFile(idOf, before, workflows, documents.value);
      if more.Err? {
        assert FailsAt(idOf, files, n, DuplicateId(more.error));
        return Err(DuplicateId(more.error));
      }
      workflows, before := more.value, before + documents.value;
    }
    assert files[..|files|] == files;
    return Ok(workflows);
  }

  /** File i holds the export. */
  predicate Holds(files: seq<Option<Value>>, i: nat, f: Fields) {
    i < |files| && WorkflowDocuments(files[i]).Some? && f in WorkflowDocuments(files[i]).value
  }

  lemma {:induction false} DocumentsAreHeld(files: seq<Option<Value>>, f: Fields)
    requires DocumentsOf(files).Some?
    ensures f in DocumentsOf(files).value <==> exists i :: Holds(files, i, f)
  {
    if files != [] {
      var n := |files| - 1;
      var before, last := files[..n], WorkflowDocuments(files[n]).value;
      DocumentsAreHeld(before, f);
      assert f in DocumentsOf(files).value <==> f in DocumentsOf(before).value || f in last;
      assert forall i: nat :: Holds(before, i, f) <==> i < n && Holds(files, i, f);
      assert f in last <==> Holds(files, n, f);
      assert forall i: nat :: Holds(files, i, f) ==> i < n || i == n;
    }
  }

  /** An id loads to exactly the export of some file that has it, and the empty id to none. */
  lemma LoadedIds(lib: Library, files: seq<Option<Value>>, workflows: map<string, Fields>, id: string, f: Fields)
    requires LoadedFiles(WorkflowId(lib), files, |files|, workflows)
    ensures id in workflows && workflows[id] == f <==> id != "" && WorkflowId(lib)(f) == id && exists i :: Holds(files, i, f)
  {
    var idOf := WorkflowId(lib);
    assert files[..|files|] == files;
    var documents :| DocumentsOf(files) == Some(documents) && LoadsAs(idOf, documents, workflows);
    var ids := WorkflowIds(idOf, documents);
    DocumentsAreHeld(files, f);
    if f in documents {
      var i :| 0 <= i < |documents| && documents[i] == f;
      assert ids[i] == idOf(f);
    }
    if id in workflows {
      var i :| 0 <= i < |ids| && ids[i] == id && documents[i] == workflows[id];
    }
  }

  // ---------------------------------------------------------------------------
  // Facts about one workflow

  function PersistenceSummary(workflow: Fields): Fields {
    var settings := if Get(workflow, "settings").Obj? then Get(workflow, "settings").fields else map[];
    map["saveDataErrorExecution" := Get(settings, "saveDataErrorExecution"),
        "saveDataSuccessExecution" := Get(settings, "saveDataSuccessExecution"),
        "saveManualExecutions" := Get(settings, "saveManualExecutions"),
        "saveExecutionProgress" :=
          if "saveExecutionProgress" in settings then settings["saveExecutionProgress"] else Bool(false)]
  }

  predicate SafePersistence(summary: Fields) {
    && Get(summary, "saveDataErrorExecution") == Str("none")
    && Get(summary, "saveDataSuccessExecution") == Str("none")
    && EqualsFalse(Get(summary, "saveManualExecutions"))
    && (EqualsFalse(Get(summary, "saveExecutionProgress")) || Get(summary, "saveExecutionProgress") == Null)
  }

  predicate FreshAt(tested: int, now: int, maxAgeDays: int) {
    -300 * SECOND <= now - tested <= maxAgeDays * 86400 * SECOND
  }

  /** Some capability other than the optional ones needs the execution claim. */
  predicate RequiresClaim(enabled: bool, caps: set<string>) { enabled && !(caps <= CLAIM_OPTIONAL) }

  /** The smoke evidence of a workflow, whatever the file holds for it. */
  function SmokeResult(job: Job, id: string): Value {
    if job.smoke.Obj? then Get(job.smoke.fields, id) else Null
  }

  predicate IsTrue(fields: Fields, key: string) { Get(fields, key) == Bool(true) }

  /** Smoke evidence that proves a workflow: it names the exact export, it is fresh, and
      every check and contract it needs is there. */
  predicate SmokeProves(lib: Library, job: Job, workflow: Fields, result: Fields, caps: set<string>, claim: bool) {
    && Get(result, "workflowSha256") == Str(lib.sha(Obj(workflow)))
    && Get(result, "testedAt").Str? && lib.parse(Get(result, "testedAt").s).Some?
    && FreshAt(lib.parse(Get(result, "testedAt").s).value, job.now, job.maxSmokeAgeDays)
    && (forall key | key in SMOKE_CHECKS :: IsTrue(result, key))
    && (WELCOME in caps ==> IsTrue(result, "welcomeActivation"))
    && (claim ==> IsTrue(result, "executionClaim"))
    && Get(result, "claimContractVersion") == Str(CLAIM_CONTRACT)
    && Get(result, "receiptContractVersion") == Str(RECEIPT_CONTRACT)
  }

  /** An export that an enabled row may rely on. */
  predicate Proven(lib: Library, job: Job, id: string, caps: set<string>) {
    && id in job.workflows
    && Truthy(Get(job.workflows[id], "active"))
    && SafePersistence(PersistenceSummary(job.workflows[id]))
    && SmokeResult(job, id).Obj?
    && SmokeProves(lib, job, job.workflows[id], SmokeResult(job, id).fields, caps, RequiresClaim(true, caps))
  }

  /** What the producer demands of a workflow the manifest routes to. */
  predicate Attested(lib: Library, job: Job, id: string) {
    var rows := RowsFor(job.rows, id);
    if id !in job.workflows then !AnyEnabled(rows)
    else CapabilitiesOf(rows).Some? && (AnyEnabled(rows) ==> Proven(lib, job, id, CapabilitiesOf(rows).value))
  }

  // ---------------------------------------------------------------------------
  // Failures and the document

  datatype Failure = ExportMissing | NotActive | UnsafePersistence | SmokeMissing | SmokeHash | SmokeStale
                   | SmokeCheck(key: string) | ClaimDrift | ReceiptDrift

  /** `Raised` is a ValueError from a bad timestamp or a bad template capability. */
  datatype BuildError = Raised | Failed(failures: seq<(string, Failure)>)

  function Add(failures: seq<Failure>, bad: bool, f: Failure): seq<Failure> { if bad then failures + [f] else failures }

  /** The failures so far, with those of the first n checks. */
  function FailedChecks(before: seq<Failure>, result: Fields, n: nat): (failures: seq<Failure>)
    requires n <= |SMOKE_CHECKS|
    ensures failures == [] <==> before == [] && forall i | 0 <= i < n :: IsTrue(result, SMOKE_CHECKS[i])
  {
    if n == 0 then before
    else
      Add(FailedChecks(before, result, n - 1), !IsTrue(result, SMOKE_CHECKS[n - 1]), SmokeCheck(SMOKE_CHECKS[n - 1]))
  }

  /** A timestamp that ends the run with a ValueError. */
  predicate BadTimestamp(lib: Library, result: Fields) {
    Get(result, "testedAt").Str? && lib.parse(Get(result, "testedAt").s).None?
  }

  predicate Stale(lib: Library, job: Job, testedAt: Value)
    requires testedAt.Str? ==> lib.parse(testedAt.s).Some?
  {
    !(testedAt.Str? && FreshAt(lib.parse(testedAt.s).value, job.now, job.maxSmokeAgeDays))
  }

  function SmokeFailures(
      lib: Library, job: Job, before: seq<Failure>, sha: string, result: Fields, caps: set<string>, claim: bool)
    : seq<Failure>
    requires !BadTimestamp(lib, result)
  {
    var f := Add(before, Get(result, "workflowSha256") != Str(sha), SmokeHash);
    var f := Add(f, Stale(lib, job, Get(result, "testedAt")), SmokeStale);
    var f := FailedChecks(f, result, |SMOKE_CHECKS|);
    var f := Add(f, WELCOME in caps && !IsTrue(result, "welcomeActivation"), SmokeCheck("welcomeActivation"));
    var f := Add(f, claim && !IsTrue(result, "executionClaim"), SmokeCheck("executionClaim"));
    var f := Add(f, Get(result, "claimContractVersion") != Str(CLAIM_CONTRACT), ClaimDrift);
    Add(f, Get(result, "receiptContractVersion") != Str(RECEIPT_CONTRACT), ReceiptDrift)
  }

  function SmokePublic(result: Fields, caps: set<string>, claim: bool): Fields {
    var public :=
      map["testedAt" := Get(result, "testedAt"),
          "eventValidation" := Bool(IsTrue(result, "eventValidation")),
          "executionClaim" := if claim then Get(result, "executionClaim") else Null,
          "providerReceipt" := Bool(IsTrue(result, "providerReceipt")),
          "receiptBeforeRetry" := Bool(IsTrue(result, "receiptBeforeRetry")),
          "credentialCheck" := Bool(IsTrue(result, "credentialCheck")),
          "claimContractVersion" := Get(result, "claimContractVersion"),
          "receiptContractVersion" := Get(result, "receiptContractVersion")];
    if WELCOME in caps then public["welcomeActivation" := Bool(IsTrue(result, "welcomeActivation"))] else public
  }

  function Strings(items: seq<string>): Value { Arr(seq(|items|, i requires 0 <= i < |items| => Str(items[i]))) }

  /** The published entry of one workflow. */
  function Entry(lib: Library, id: string, workflow: Fields, rows: seq<Row>, caps: set<string>, smoke: Value): Fields {
    map["workflowId" := Str(id),
        "workflowSha256" := Str(lib.sha(Obj(workflow))),
        "events" := Strings(lib.sorted(set r | r in rows :: r.eventType)),
        "capabilities" := Strings(lib.sorted(caps)),
        "enabled" := Bool(AnyEnabled(rows)),
        "active" := Bool(Truthy(Get(workflow, "active"))),
        "nodeTypeCounts" := lib.nodeTypes(workflow),
        "persistence" := Obj(PersistenceSummary(workflow)),
        "smoke" := smoke]
  }

  /** What the loop body does for one workflow: raises, or reports failures and emits
      at most one entry. */
  function Processed(lib: Library, job: Job, id: string): Outcome {
    var rows := RowsFor(job.rows, id);
    var enabled := AnyEnabled(rows);
    if id !in job.workflows then Some((Add([], enabled, ExportMissing), []))
    else if CapabilitiesOf(rows).None? then None
    else
      var workflow, caps, result := job.workflows[id], CapabilitiesOf(rows).value, SmokeResult(job, id);
      var claim := RequiresClaim(enabled, caps);
      if !enabled then Some(([], [Obj(Entry(lib, id, workflow, rows, caps, Null))]))
      else
        var inactive := Add([], !Truthy(Get(workflow, "active")), NotActive);
        var structural := Add(inactive, !SafePersistence(PersistenceSummary(workflow)), UnsafePersistence);
        if !result.Obj? then
          Some((structural + [SmokeMissing], [Obj(Entry(lib, id, workflow, rows, caps, Null))]))
        else if BadTimestamp(lib, result.fields) then None
        else
          Some((SmokeFailures(lib, job, structural, lib.sha(Obj(workflow)), result.fields, caps, claim),
                [Obj(Entry(lib, id, workflow, rows, caps, Obj(SmokePublic(result.fields, caps, claim))))]))
  }

  function Tagged(id: string, failures: seq<Failure>): seq<(string, Failure)> {
    seq(|failures|, i requires 0 <= i < |failures| => (id, failures[i]))
  }

  type Outcome = Option<(seq<Failure>, seq<Value>)>

  function Outcomes(lib: Library, job: Job, ids: seq<string>): seq<Outcome> {
    seq(|ids|, i requires 0 <= i < |ids| => Processed(lib, job, ids[i]))
  }

  /** The failures and the entries of the first n workflows, unless one of them raised. */
  function Gathered(ids: seq<string>, outcomes: seq<Outcome>, n: nat): Option<(seq<(string, Failure)>, seq<Value>)>
    requires n <= |ids| == |outcomes|
  {
    if n == 0 then Some(([], []))
    else
      var before, one := Gathered(ids, outcomes, n - 1), outcomes[n - 1];
      if before.None? || one.None? then None
      else Some((before.value.0 + Tagged(ids[n - 1], one.value.0), before.value.1 + one.value.1))
  }

  /** `now.replace(microsecond=0)` */
  function WholeSecond(t: int): int { t - t % SECOND }

  function Document(lib: Library, job: Job, entries: seq<Value>): Fields {
    map["schemaVersion" := Num(1.0),
        "generatedAt" := Str(lib.show(WholeSecond(job.now))),
        "routeManifestSha256" := Str(job.manifestSha),
        "claimContractVersion" := Str(CLAIM_CONTRACT),
        "receiptContractVersion" := Str(RECEIPT_CONTRACT),
        "workflows" := Arr(entries)]
  }

  function BuildOutcome(lib: Library, job: Job): Result<Value, BuildError> {
    var ids := lib.sorted(Ids(job.rows));
    match Gathered(ids, Outcomes(lib, job, ids), |ids|)
    case None => Err(Raised)
    case Some((failures, entries)) =>
      if failures != [] then Err(Failed(failures)) else Ok(Obj(Document(lib, job, entries)))
  }

  // ---------------------------------------------------------------------------
  // The code

  method GroupRows(rows: seq<Row>) returns (grouped: map<string, seq<Row>>)
    ensures grouped.Keys == Ids(rows)
    ensures forall id | id in grouped :: grouped[id] == RowsFor(rows, id)
  {
    grouped := map[];
    for n := 0 to |rows|
      invariant forall id :: id in grouped <==> id in Ids(rows[..n])
      invariant forall id | id in grouped :: grouped[id] == RowsFor(rows[..n], id)
    {
      var row := rows[n];
      GroupStep(rows, n);
      if row.workflowId != UNAVAILABLE {
        var group := if row.workflowId in grouped then grouped[row.workflowId] else [];
        grouped := grouped[row.workflowId := group + [row]];
      }
    }
    assert rows[..|rows|] == rows;
  }

  /** How one more row changes the groups. */
  lemma GroupStep(rows: seq<Row>, n: nat)
    requires n < |rows|
    ensures var id := rows[n].workflowId;
            Ids(rows[..n + 1]) == if id == UNAVAILABLE then Ids(rows[..n]) else Ids(rows[..n]) + {id}
    ensures forall id :: RowsFor(rows[..n + 1], id) == RowsFor(rows[..n], id) + if rows[n].workflowId == id then [rows[n]] else []
    ensures rows[n].workflowId !in Ids(rows[..n]) && rows[n].workflowId != UNAVAILABLE ==> RowsFor(rows[..n], rows[n].workflowId) == []
  {
    var before, after := rows[..n], rows[..n + 1];
    assert after == before + [rows[n]] && after[..n] == before;
    var found := RowsFor(before, rows[n].workflowId);
    if found != [] { assert found[0] in found; }
  }

  method CheckSmoke(
      lib: Library, job: Job, before: seq<Failure>, sha: string, result: Fields, caps: set<string>, claim: bool)
    returns (failures: Option<seq<Failure>>)
    ensures failures == if BadTimestamp(lib, result) then None
                        else Some(SmokeFailures(lib, job, before, sha, result, caps, claim))
  {
    var found := before;
    var testedAt := Get(result, "testedAt");
    if Get(result, "workflowSha256") != Str(sha) { found := found + [SmokeHash]; }
    if BadTimestamp(lib, result) { return None; }
    if Stale(lib, job, testedAt) { found := found + [SmokeStale]; }
    ghost var early := found;
    for i := 0 to |SMOKE_CHECKS|
      invariant found == FailedChecks(early, result, i)
    {
      if !IsTrue(result, SMOKE_CHECKS[i]) { found := found + [SmokeCheck(SMOKE_CHECKS[i])]; }
    }
    if WELCOME in caps && !IsTrue(result, "welcomeActivation") { found := found + [SmokeCheck("welcomeActivation")]; }
    if claim && !IsTrue(result, "executionClaim") { found := found + [SmokeCheck("executionClaim")]; }
    if Get(result, "claimContractVersion") != Str(CLAIM_CONTRACT) { found := found + [ClaimDrift]; }
    if Get(result, "receiptContractVersion") != Str(RECEIPT_CONTRACT) { found := found + [ReceiptDrift]; }
    return Some(found);
  }

  /** The body of the producer's loop. */
  method ProcessWorkflow(lib: Library, job: Job, id: string, mappings: seq<Row>)
    returns (outcome: Outcome)
    requires mappings == RowsFor(job.rows, id)
    ensures outcome == Processed(lib, job, id)
  {
    var enabled := AnyEnabled(mappings);
    if id !in job.workflows {
      return Some((Add([], enabled, ExportMissing), []));
    }
    var workflow := job.workflows[id];
    var sha, persistence, active := lib.sha(Obj(workflow)), PersistenceSummary(workflow), Truthy(Get(workflow, "active"));
    var capabilities := CapabilitiesOf(mappings);
    if capabilities.None? { return None; }
    var caps := capabilities.value;
    var claim := RequiresClaim(enabled, caps);
    var failures: seq<Failure>, smokePublic: Value := [], Null;
    if enabled {
      if !active { failures := failures + [NotActive]; }
      if !SafePersistence(persistence) { failures := failures + [UnsafePersistence]; }
      var smoke := SmokeResult(job, id);
      if !smoke.Obj? {
        failures := failures + [SmokeMissing];
      } else {
        var found := CheckSmoke(lib, job, failures, sha, smoke.fields, caps, claim);
        if found.None? { return None; }
        failures := found.value;
        smokePublic := Obj(SmokePublic(smoke.fields, caps, claim));
      }
    }
    return Some((failures, [Obj(Entry(lib, id, workflow, mappings, caps, smokePublic))]));
  }

  /** The producer's loop; None stands for a ValueError on the way. */
  method ProcessAll(lib: Library, job: Job, ids: seq<string>, grouped: map<string, seq<Row>>)
    returns (gathered: Option<(seq<(string, Failure)>, seq<Value>)>)
    requires forall id | id in ids :: id in grouped && grouped[id] == RowsFor(job.rows, id)
    ensures gathered == Gathered(ids, Outcomes(lib, job, ids), |ids|)
  {
    var failures: seq<(string, Failure)>, attestations: seq<Value> := [], [];
    ghost var outcomes := Outcomes(lib, job, ids);
    for n := 0 to |ids|
      invariant Gathered(ids, outcomes, n) == Some((failures, attestations))
    {
      var one := ProcessWorkflow(lib, job, ids[n], grouped[ids[n]]);
      assert one == outcomes[n];
      if one.None? {
        RaisedForGood(ids, outcomes, n + 1, |ids|);
        return None;
      }
      failures := failures + Tagged(ids[n], one.value.0);
      attestations := attestations + one.value.1;
    }
    return Some((failures, attestations));
  }

  method BuildAttestation(lib: Library, job: Job) returns (result: Result<Value, BuildError>)
    requires ValidLibrary(lib)
    ensures result == BuildOutcome(lib, job)
  {
    var grouped := GroupRows(job.rows);
    var ids := lib.sorted(grouped.Keys);
    assert Lists(ids, grouped.Keys);
    var gathered := ProcessAll(lib, job, ids, grouped);
    if gathered.None? { return Err(Raised); }
    var (failures, attestations) := gathered.value;
    if failures != [] { return Err(Failed(failures)); }
    return Ok(Obj(Document(lib, job, attestations)));
  }

  lemma {:induction false} RaisedForGood(ids: seq<string>, outcomes: seq<Outcome>, n: nat, m: nat)
    requires n <= m <= |ids| == |outcomes| && Gathered(ids, outcomes, n) == None
    ensures Gathered(ids, outcomes, m) == None
  {
    if n < m { RaisedForGood(ids, outcomes, n, m - 1); }
  }

  // ---------------------------------------------------------------------------
  // When the producer returns

  lemma NoSmokeFailures(
      lib: Library, job: Job, before: seq<Failure>, workflow: Fields, result: Fields, caps: set<string>, claim: bool)
    ensures !BadTimestamp(lib, result) && SmokeFailures(lib, job, before, lib.sha(Obj(workflow)), result, caps, claim) == []
            <==> before == [] && SmokeProves(lib, job, workflow, result, caps, claim)
  {
    assert (forall i | 0 <= i < |SMOKE_CHECKS| :: IsTrue(result, SMOKE_CHECKS[i])) <==> (forall key | key in SMOKE_CHECKS :: IsTrue(result, key));
  }

  predicate Passes(outcome: Outcome) { outcome.Some? && outcome.value.0 == [] }

  /** A workflow passes exactly when it is attested. */
  lemma PassesIffAttested(lib: Library, job: Job, id: string)
    ensures Passes(Processed(lib, job, id)) <==> Attested(lib, job, id)
  {
    var rows := RowsFor(job.rows, id);
    if id in job.workflows && CapabilitiesOf(rows).Some? && SmokeResult(job, id).Obj? {
      var workflow, caps := job.workflows[id], CapabilitiesOf(rows).value;
      var inactive := Add([], !Truthy(Get(workflow, "active")), NotActive);
      var structural := Add(inactive, !SafePersistence(PersistenceSummary(workflow)), UnsafePersistence);
      NoSmokeFailures(lib, job, structural, workflow, SmokeResult(job, id).fields, caps, RequiresClaim(true, caps));
    }
  }

  lemma {:induction false} AllPass(ids: seq<string>, outcomes: seq<Outcome>, n: nat)
    requires n <= |ids| == |outcomes|
    ensures Gathered(ids, outcomes, n).Some? && Gathered(ids, outcomes, n).value.0 == []
            <==> forall i | 0 <= i < n :: Passes(outcomes[i])
  {
    if n > 0 { AllPass(ids, outcomes, n - 1); }
  }

  /** The producer returns a document exactly when every workflow the manifest routes to
      is attested. */
  lemma BuiltIffAttested(lib: Library, job: Job)
    requires ValidLibrary(lib)
    ensures BuildOutcome(lib, job).Ok? <==> forall id | id in Ids(job.rows) :: Attested(lib, job, id)
  {
    var ids := lib.sorted(Ids(job.rows));
    var outcomes := Outcomes(lib, job, ids);
    assert Lists(ids, Ids(job.rows));
    AllPass(ids, outcomes, |ids|);
    forall i | 0 <= i < |ids| ensures Passes(outcomes[i]) <==> Attested(lib, job, ids[i]) {
      PassesIffAttested(lib, job, ids[i]);
    }
    assert (forall i | 0 <= i < |ids| :: Attested(lib, job, ids[i])) <==> (forall id | id in ids :: Attested(lib, job, id));
  }
}
