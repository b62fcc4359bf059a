/** The heartbeat builder, scripts/build_n8n_executor_heartbeat.py, and its agreement
    with the attestation producer. */
module Heartbeat {
  import opened Prelude
  import opened Manifest
  import opened Text
  import A = Attestation

  const MAX_AGE := 14 * 86400 * SECOND
  const EARLIEST := -300 * SECOND

  datatype RowFault = NoWorkflow | NotActive | NoSmoke | CheckUnproven(key: string) | ClaimRefused | BadCapability

  datatype CheckError = NotAnObject | WrongManifest | BadTimestamp | OutOfWindow | NotIterable | Unproven(row: Row, fault: RowFault)

  // ---------------------------------------------------------------------------
  // The checker

  /** `attestation.get("workflows", [])`, as far as iterating over it yields objects. */
  function Items(attestation: Fields): Option<seq<Value>> {
    if "workflows" !in attestation then Some([])
    else
      match attestation["workflows"]
      case Arr(items) => Some(items)
      case Obj(_) => Some([])
      case Str(_) => Some([])
      case _ => None
  }

  predicate Names(item: Value, id: string) { item.Obj? && Get(item.fields, "workflowId") == Str(id) }

  /** The items by workflow id; of several with one id, the last. */
  function ById(items: seq<Value>): (found: map<string, Fields>)
    ensures forall item, id | item in items && Names(item, id) :: id in found
    ensures forall id | id in found :: Obj(found[id]) in items && Names(Obj(found[id]), id)
  {
    if items == [] then map[]
    else
      var n := |items| - 1;
      var before, item := ById(items[..n]), items[n];
      assert items == items[..n] + [item];
      if item.Obj? && Get(item.fields, "workflowId").Str? then before[Get(item.fields, "workflowId").s := item.fields]
      else before
  }

  /** Item i names the id, and no later one does. */
  ghost predicate LastNamed(items: seq<Value>, i: nat, id: string) {
    i < |items| && Names(items[i], id) && forall j: nat | i < j < |items| :: !Names(items[j], id)
  }

  lemma {:induction false} LastItemWins(items: seq<Value>, i: nat, id: string)
    requires LastNamed(items, i, id)
    ensures id in ById(items) && items[i] == Obj(ById(items)[id])
  {
    var n := |items| - 1;
    if i < n {
      assert !Names(items[n], id);
      assert LastNamed(items[..n], i, id);
      LastItemWins(items[..n], i, id);
    }
  }

  function FirstUnproven(smoke: Fields, n: nat): (fault: Option<RowFault>)
    requires n <= |A.SMOKE_CHECKS|
    ensures fault.None? <==> forall i | n <= i < |A.SMOKE_CHECKS| :: A.IsTrue(smoke, A.SMOKE_CHECKS[i])
    decreases |A.SMOKE_CHECKS| - n
  {
    if n == |A.SMOKE_CHECKS| then None
    else if !A.IsTrue(smoke, A.SMOKE_CHECKS[n]) then Some(CheckUnproven(A.SMOKE_CHECKS[n]))
    else FirstUnproven(smoke, n + 1)
  }

  function SmokeFault(row: Row, smoke: Fields): Option<RowFault> {
    if FirstUnproven(smoke, 0).Some? then FirstUnproven(smoke, 0)
    else if RowCapabilities(row).None? then Some(BadCapability)
    else if WELCOME in RowCapabilities(row).value && !A.IsTrue(smoke, "welcomeActivation") then
      Some(CheckUnproven("welcomeActivation"))
    else if Get(smoke, "executionClaim") == Bool(false) then Some(ClaimRefused)
    else None
  }

  /** What is wrong with one row of the manifest. */
  function FaultOf(evidence: map<string, Fields>, row: Row): Option<RowFault> {
    if row.enabled != "1" then None
    else if row.workflowId == "" || row.workflowId == UNAVAILABLE then Some(NoWorkflow)
    else if row.workflowId !in evidence then Some(NotActive)
    else
      var item := evidence[row.workflowId];
      if !A.IsTrue(item, "enabled") || !A.IsTrue(item, "active") then Some(NotActive)
      else if !Get(item, "smoke").Obj? then Some(NoSmoke)
      else SmokeFault(row, Get(item, "smoke").fields)
  }

  function FirstFault(evidence: map<string, Fields>, rows: seq<Row>): (error: Option<CheckError>)
    ensures error.None? <==> forall r | r in rows :: FaultOf(evidence, r).None?
  {
    if rows == [] then None
    else
      assert rows == [rows[0]] + rows[1..];
      match FaultOf(evidence, rows[0])
      case Some(fault) => Some(Unproven(rows[0], fault))
      case None => FirstFault(evidence, rows[1..])
  }

  predicate InWindow(generated: int, now: int) { EARLIEST <= now - generated <= MAX_AGE }

  /** `validate_attestation`; None means that it returns. */
  function ValidateAttestation(lib: Library, manifestSha: string, rows: seq<Row>, attestation: Value, now: int): Option<CheckError> {
    if !attestation.Obj? then Some(NotAnObject)
    else if Get(attestation.fields, "routeManifestSha256") != Str(manifestSha) then Some(WrongManifest)
    else
      var raw := Get(attestation.fields, "generatedAt");
      if !raw.Str? || lib.parse(raw.s).None? then Some(BadTimestamp)
      else if !InWindow(lib.parse(raw.s).value, now) then Some(OutOfWindow)
      else
        match Items(attestation.fields)
        case None => Some(NotIterable)
        case Some(items) => FirstFault(ById(items), rows)
  }

  // ---------------------------------------------------------------------------
  // The heartbeat

  datatype Heartbeat = Heartbeat(
    executorId: string, version: string, manifestSha: string, capabilities: seq<string>,
    attestationSha: string, attestedAt: string, observedAt: string, expiresAt: string)

  datatype HeartbeatError = BadExecutor | BadVersion | BadTtl | EmptyManifest | Rejected(error: CheckError)
                          | BadRow | NoCapabilities

  function EnabledRows(rows: seq<Row>): (found: seq<Row>)
    ensures forall r :: r in found <==> r in rows && r.enabled == "1"
  {
    if rows == [] then []
    else
      assert rows == [rows[0]] + rows[1..];
      (if rows[0].enabled == "1" then [rows[0]] else []) + EnabledRows(rows[1..])
  }

  const MAX_TTL_MINUTES := 120

  predicate FitName(name: string, limit: nat) { PyStrip(name) != "" && |name| <= limit }

  function BuildHeartbeat(
      lib: Library, manifestSha: string, rows: seq<Row>, attestation: Value, attestationSha: string,
      executorId: string, version: string, ttlMinutes: int, now: int)
    : Result<Heartbeat, HeartbeatError>
  {
    if !FitName(executorId, 120) then Err(BadExecutor)
    else if !FitName(version, 80) then Err(BadVersion)
    else if ttlMinutes <= 0 || ttlMinutes > MAX_TTL_MINUTES then Err(BadTtl)
    else if rows == [] then Err(EmptyManifest)
    else
      match ValidateAttestation(lib, manifestSha, rows, attestation, now)
      case Some(error) => Err(Rejected(error))
      case None =>
        match CapabilitiesOf(EnabledRows(rows))
        case None => Err(BadRow)
        case Some(caps) =>
          if lib.sorted(caps) == [] then Err(NoCapabilities)
          else
            Ok(Heartbeat(executorId, version, manifestSha, lib.sorted(caps), attestationSha,
                         Get(attestation.fields, "generatedAt").s,
                         lib.show(A.WholeSecond(now)), lib.show(A.WholeSecond(now + ttlMinutes * 60_000_000))))
  }

  // ---------------------------------------------------------------------------
  // What the checker reads of a produced document

  lemma DocumentFields(lib: Library, job: A.Job, entries: seq<Value>)
    ensures var doc := A.Document(lib, job, entries);
            && Get(doc, "routeManifestSha256") == Str(job.manifestSha)
            && Get(doc, "generatedAt") == Str(lib.show(A.WholeSecond(job.now)))
            && Items(doc) == Some(entries)
  {
  }

  lemma EntryFields(lib: Library, id: string, workflow: Fields, rows: seq<Row>, caps: set<string>, smoke: Value)
    ensures var entry := A.Entry(lib, id, workflow, rows, caps, smoke);
            && Get(entry, "workflowId") == Str(id)
            && Get(entry, "enabled") == Bool(AnyEnabled(rows))
            && Get(entry, "active") == Bool(Truthy(Get(workflow, "active")))
            && Get(entry, "smoke") == smoke
  {
  }

  lemma PublicCheck(result: Fields, caps: set<string>, claim: bool, i: nat)
    requires i < |A.SMOKE_CHECKS|
    ensures A.IsTrue(A.SmokePublic(result, caps, claim), A.SMOKE_CHECKS[i]) == A.IsTrue(result, A.SMOKE_CHECKS[i])
  {
    if i == 0 {
    } else if i == 1 {
    } else if i == 2 {
    } else {
    }
  }

  lemma PublicFields(result: Fields, caps: set<string>, claim: bool)
    ensures var public := A.SmokePublic(result, caps, claim);
            && Get(public, "executionClaim") == (if claim then Get(result, "executionClaim") else Null)
            && (WELCOME in caps ==> Get(public, "welcomeActivation") == Bool(A.IsTrue(result, "welcomeActivation")))
  {
  }

  /** Public smoke evidence made from evidence that proves the workflow satisfies the
      checker for every row of the workflow. */
  lemma ProvenSmokePasses(lib: Library, job: A.Job, workflow: Fields, result: Fields, caps: set<string>, row: Row)
    requires A.SmokeProves(lib, job, workflow, result, caps, A.RequiresClaim(true, caps))
    requires RowCapabilities(row).Some? && RowCapabilities(row).value <= caps
    ensures SmokeFault(row, A.SmokePublic(result, caps, A.RequiresClaim(true, caps))) == None
  {
    var claim := A.RequiresClaim(true, caps);
    PublicFields(result, caps, claim);
    forall i | 0 <= i < |A.SMOKE_CHECKS| ensures A.IsTrue(A.SmokePublic(result, caps, claim), A.SMOKE_CHECKS[i]) {
      assert A.SMOKE_CHECKS[i] in A.SMOKE_CHECKS;
      PublicCheck(result, caps, claim, i);
    }
  }

  /** The entry that the producer emits for a workflow, if it emits one. */
  function Emitted(lib: Library, job: A.Job, id: string): Option<Fields> {
    var rows := RowsFor(job.rows, id);
    if id !in job.workflows || CapabilitiesOf(rows).None? then None
    else
      var caps, result := CapabilitiesOf(rows).value, A.SmokeResult(job, id);
      var public := if AnyEnabled(rows) && result.Obj?
                    then Obj(A.SmokePublic(result.fields, caps, A.RequiresClaim(true, caps))) else Null;
      Some(A.Entry(lib, id, job.workflows[id], rows, caps, public))
  }

  lemma EmittedNames(lib: Library, job: A.Job, id: string)
    ensures Emitted(lib, job, id).Some? ==> Get(Emitted(lib, job, id).value, "workflowId") == Str(id)
  {
  }

  lemma ProcessedEmits(lib: Library, job: A.Job, id: string)
    ensures A.Processed(lib, job, id).Some? ==> A.Processed(lib, job, id).value.1 == EmittedItems(Emitted(lib, job, id))
  {
  }

  /** Items that are emitted for the first n ids, each under its id. */
  ghost predicate EmittedBy(items: seq<Value>, ids: seq<string>, n: nat, emit: string -> Option<Fields>)
    requires n <= |ids|
  {
    && (forall item | item in items :: exists k | 0 <= k < n :: emit(ids[k]).Some? && item == Obj(emit(ids[k]).value))
    && (forall k | 0 <= k < n && emit(ids[k]).Some? :: Obj(emit(ids[k]).value) in items)
  }

  lemma ByIdEmitted(items: seq<Value>, ids: seq<string>, emit: string -> Option<Fields>, k: nat)
    requires EmittedBy(items, ids, |ids|, emit) && k < |ids| && emit(ids[k]).Some?
    requires forall j | 0 <= j < |ids| && emit(ids[j]).Some? :: Get(emit(ids[j]).value, "workflowId") == Str(ids[j])
    ensures ids[k] in ById(items) && ById(items)[ids[k]] == emit(ids[k]).value
  {
    assert Names(Obj(emit(ids[k]).value), ids[k]);
    var found := ById(items)[ids[k]];
    var j :| 0 <= j < |ids| && emit(ids[j]).Some? && Obj(found) == Obj(emit(ids[j]).value);
  }

  function EmittedItems(entry: Option<Fields>): seq<Value> { if entry.Some? then [Obj(entry.value)] else [] }

  lemma EmittedStep(before: seq<Value>, ids: seq<string>, n: nat, emit: string -> Option<Fields>)
    requires n < |ids| && EmittedBy(before, ids, n, emit)
    ensures EmittedBy(before + EmittedItems(emit(ids[n])), ids, n + 1, emit)
  {
    var after := before + EmittedItems(emit(ids[n]));
    forall item | item in after
      ensures exists k | 0 <= k < n + 1 :: emit(ids[k]).Some? && item == Obj(emit(ids[k]).value)
    {
      if item in before {
        var k :| 0 <= k < n && emit(ids[k]).Some? && item == Obj(emit(ids[k]).value);
      }
    }
  }

  lemma {:induction false} GatheredEmitted(
      ids: seq<string>, outcomes: seq<A.Outcome>, n: nat, emit: string -> Option<Fields>)
    requires n <= |ids| == |outcomes| && A.Gathered(ids, outcomes, n).Some?
    requires forall k | 0 <= k < n && outcomes[k].Some? :: outcomes[k].value.1 == EmittedItems(emit(ids[k]))
    ensures EmittedBy(A.Gathered(ids, outcomes, n).value.1, ids, n, emit)
  {
    if n > 0 {
      GatheredEmitted(ids, outcomes, n - 1, emit);
      assert A.Gathered(ids, outcomes, n).value.1 == A.Gathered(ids, outcomes, n - 1).value.1 + EmittedItems(emit(ids[n - 1]));
      EmittedStep(A.Gathered(ids, outcomes, n - 1).value.1, ids, n - 1, emit);
    }
  }

  /** The entries of a produced document. */
  function EntriesOf(lib: Library, job: A.Job): seq<Value>
    requires A.BuildOutcome(lib, job).Ok?
  {
    var ids := lib.sorted(Ids(job.rows));
    A.Gathered(ids, A.Outcomes(lib, job, ids), |ids|).value.1
  }

  lemma BuiltDocument(lib: Library, job: A.Job)
    requires A.BuildOutcome(lib, job).Ok?
    ensures A.BuildOutcome(lib, job).value == Obj(A.Document(lib, job, EntriesOf(lib, job)))
  {
  }

  /** In a produced document, a workflow's id leads to the workflow's own entry. */
  lemma EntriesById(lib: Library, job: A.Job, id: string)
    requires ValidLibrary(lib) && A.BuildOutcome(lib, job).Ok?
    requires id in Ids(job.rows) && Emitted(lib, job, id).Some?
    ensures id in ById(EntriesOf(lib, job)) && ById(EntriesOf(lib, job))[id] == Emitted(lib, job, id).value
  {
    var ids := lib.sorted(Ids(job.rows));
    var emit := k => Emitted(lib, job, k);
    assert Lists(ids, Ids(job.rows));
    var outcomes := A.Outcomes(lib, job, ids);
    forall k | 0 <= k < |ids|
      ensures emit(ids[k]).Some? ==> Get(emit(ids[k]).value, "workflowId") == Str(ids[k])
      ensures outcomes[k].Some? ==> outcomes[k].value.1 == EmittedItems(emit(ids[k]))
    {
      EmittedNames(lib, job, ids[k]);
      ProcessedEmits(lib, job, ids[k]);
    }
    GatheredEmitted(ids, outcomes, |ids|, emit);
    var k :| 0 <= k < |ids| && ids[k] == id;
    ByIdEmitted(EntriesOf(lib, job), ids, emit, k);
  }

  // ---------------------------------------------------------------------------
  // Agreement

  /** Every enabled row names a workflow. */
  predicate NoneUnavailable(rows: seq<Row>) { forall r | r in rows && r.enabled == "1" :: r.workflowId != UNAVAILABLE }

  /** Evidence that the checker accepts for an enabled row. */
  predicate Accepts(item: Fields, row: Row) {
    && A.IsTrue(item, "enabled") && A.IsTrue(item, "active")
    && Get(item, "smoke").Obj? && SmokeFault(row, Get(item, "smoke").fields).None?
  }

  lemma MoreCapabilities(lib: Library, job: A.Job, id: string, caps: set<string>, all: set<string>)
    requires caps <= all && A.Proven(lib, job, id, all)
    ensures A.Proven(lib, job, id, caps)
  {
  }

  /** The entry emitted for a workflow with an enabled row and smoke evidence. */
  lemma EmittedFields(lib: Library, job: A.Job, id: string)
    requires id in job.workflows && CapabilitiesOf(RowsFor(job.rows, id)).Some?
    requires AnyEnabled(RowsFor(job.rows, id)) && A.SmokeResult(job, id).Obj?
    ensures var caps := CapabilitiesOf(RowsFor(job.rows, id)).value;
            && Emitted(lib, job, id).Some?
            && A.IsTrue(Emitted(lib, job, id).value, "enabled")
            && Get(Emitted(lib, job, id).value, "active") == Bool(Truthy(Get(job.workflows[id], "active")))
            && Get(Emitted(lib, job, id).value, "smoke")
               == Obj(A.SmokePublic(A.SmokeResult(job, id).fields, caps, A.RequiresClaim(true, caps)))
  {
    var rows, workflow, result := RowsFor(job.rows, id), job.workflows[id], A.SmokeResult(job, id).fields;
    var caps := CapabilitiesOf(rows).value;
    EntryFields(lib, id, workflow, rows, caps, Obj(A.SmokePublic(result, caps, A.RequiresClaim(true, caps))));
  }

  /** The producer's entry satisfies the checker for every enabled row of the workflow,
      and the export behind it is proven for the row's capabilities. */
  lemma EmittedIsAccepted(lib: Library, job: A.Job, row: Row)
    requires row in job.rows && row.enabled == "1"
    requires row.workflowId in job.workflows && A.Attested(lib, job, row.workflowId)
    ensures RowCapabilities(row).Some? && A.Proven(lib, job, row.workflowId, RowCapabilities(row).value)
    ensures Emitted(lib, job, row.workflowId).Some? && Accepts(Emitted(lib, job, row.workflowId).value, row)
  {
    var id := row.workflowId;
    var rows := RowsFor(job.rows, id);
    assert row in rows;
    var caps, result := CapabilitiesOf(rows).value, A.SmokeResult(job, id).fields;
    MoreCapabilities(lib, job, id, RowCapabilities(row).value, caps);
    EmittedFields(lib, job, id);
    ProvenSmokePasses(lib, job, job.workflows[id], result, caps, row);
  }

  /** What was proven before the producer returned, for an enabled row. */
  lemma ProvenRow(lib: Library, job: A.Job, row: Row)
    requires ValidLibrary(lib) && A.BuildOutcome(lib, job).Ok? && "" !in job.workflows
    requires row in job.rows && row.enabled == "1" && row.workflowId != UNAVAILABLE
    ensures row.workflowId != "" && row.workflowId in job.workflows && A.Attested(lib, job, row.workflowId)
    ensures FaultOf(ById(EntriesOf(lib, job)), row) == None
  {
    A.BuiltIffAttested(lib, job);
    var id := row.workflowId;
    assert id in Ids(job.rows);
    assert row in RowsFor(job.rows, id);
    EmittedIsAccepted(lib, job, row);
    EntriesById(lib, job, id);
  }

  /** The checker accepts a produced document exactly from five minutes before the whole
      second it was generated in to fourteen days after that second, and only if no
      enabled row is left without a workflow. */
  lemma ProducerAndCheckerAgree(lib: Library, job: A.Job, checkedAt: int)
    requires ValidLibrary(lib) && A.BuildOutcome(lib, job).Ok? && "" !in job.workflows
    ensures ValidateAttestation(lib, job.manifestSha, job.rows, A.BuildOutcome(lib, job).value, checkedAt) == None
            <==> NoneUnavailable(job.rows) && InWindow(A.WholeSecond(job.now), checkedAt)
  {
    var entries := EntriesOf(lib, job);
    BuiltDocument(lib, job);
    DocumentFields(lib, job, entries);
    assert lib.parse(lib.show(A.WholeSecond(job.now))) == Some(A.WholeSecond(job.now));
    forall r | r in job.rows
      ensures FaultOf(ById(entries), r).None? <==> r.enabled == "1" ==> r.workflowId != UNAVAILABLE
    {
      if r.enabled == "1" && r.workflowId != UNAVAILABLE { ProvenRow(lib, job, r); }
    }
  }

  /** Up to a second less than fourteen days after generation, a document can be
      refused for its age. */
  lemma FractionShortensTheWindow(lib: Library, job: A.Job)
    requires ValidLibrary(lib) && A.BuildOutcome(lib, job).Ok? && "" !in job.workflows && job.now % SECOND > 0
    ensures ValidateAttestation(lib, job.manifestSha, job.rows, A.BuildOutcome(lib, job).value, job.now + MAX_AGE) != None
  {
    ProducerAndCheckerAgree(lib, job, job.now + MAX_AGE);
  }

  // ---------------------------------------------------------------------------
  // What a heartbeat advertises

  /** Row r is enabled and carries capability c. */
  predicate Carries(r: Row, c: string) {
    r.enabled == "1" && RowCapabilities(r).Some? && c in RowCapabilities(r).value
  }

  /** A capability is advertised exactly when an enabled row carries it, once each. */
  lemma AdvertisesEnabledRows(
      lib: Library, manifestSha: string, rows: seq<Row>, attestation: Value, attestationSha: string,
      executorId: string, version: string, ttlMinutes: int, now: int, h: Heartbeat)
    requires ValidLibrary(lib)
    requires BuildHeartbeat(lib, manifestSha, rows, attestation, attestationSha, executorId, version, ttlMinutes, now) == Ok(h)
    ensures h.capabilities != [] && forall i, j | 0 <= i < j < |h.capabilities| :: h.capabilities[i] != h.capabilities[j]
    ensures forall c :: c in h.capabilities <==> exists r | r in rows :: Carries(r, c)
  {
    var caps := CapabilitiesOf(EnabledRows(rows)).value;
    assert Lists(lib.sorted(caps), caps);
    forall c ensures c in caps <==> exists r | r in rows :: Carries(r, c) {
      if c in caps {
        var r :| r in EnabledRows(rows) && c in RowCapabilities(r).value;
        assert r in rows && Carries(r, c);
      }
      if r :| r in rows && Carries(r, c) {
        assert r in EnabledRows(rows);
      }
    }
  }

  /** Every capability of a heartbeat built on a produced document belongs to an enabled
      row whose export was active, safely persisted, and covered by smoke evidence for its
      exact hash and that row's capabilities. */
  lemma AdvertisedIsProven(
      lib: Library, job: A.Job, attestation: Value, attestationSha: string,
      executorId: string, version: string, ttlMinutes: int, now: int, h: Heartbeat, c: string)
    returns (row: Row)
    requires ValidLibrary(lib) && A.BuildOutcome(lib, job) == Ok(attestation) && "" !in job.workflows
    requires BuildHeartbeat(lib, job.manifestSha, job.rows, attestation, attestationSha, executorId, version, ttlMinutes, now) == Ok(h)
    requires c in h.capabilities
    ensures row in job.rows && Carries(row, c) && A.Proven(lib, job, row.workflowId, RowCapabilities(row).value)
  {
    AdvertisesEnabledRows(lib, job.manifestSha, job.rows, attestation, attestationSha, executorId, version, ttlMinutes, now, h);
    row :| row in job.rows && Carries(row, c);
    ProducerAndCheckerAgree(lib, job, now);
    ProvenRow(lib, job, row);
    EmittedIsAccepted(lib, job, row);
  }

  lemma EnabledCapabilities(lib: Library, job: A.Job)
    requires ValidLibrary(lib) && A.BuildOutcome(lib, job).Ok? && "" !in job.workflows && NoneUnavailable(job.rows)
    ensures var caps := CapabilitiesOf(EnabledRows(job.rows));
            caps.Some? && (lib.sorted(caps.value) != [] <==> AnyEnabled(job.rows))
  {
    forall r | r in EnabledRows(job.rows) ensures RowCapabilities(r).Some? {
      ProvenRow(lib, job, r);
      EmittedIsAccepted(lib, job, r);
    }
    var caps := CapabilitiesOf(EnabledRows(job.rows)).value;
    assert Lists(lib.sorted(caps), caps);
    if r :| r in job.rows && r.enabled == "1" {
      assert r in EnabledRows(job.rows);
      assert r.capability in caps;
    }
    if lib.sorted(caps) != [] {
      assert lib.sorted(caps)[0] in caps;
      var r :| r in EnabledRows(job.rows) && lib.sorted(caps)[0] in RowCapabilities(r).value;
      assert r in job.rows && r.enabled == "1";
    }
  }

  lemma BuiltWhen(
      lib: Library, manifestSha: string, rows: seq<Row>, attestation: Value, attestationSha: string,
      executorId: string, version: string, ttlMinutes: int, now: int)
    ensures BuildHeartbeat(lib, manifestSha, rows, attestation, attestationSha, executorId, version, ttlMinutes, now).Ok?
            <==> && FitName(executorId, 120) && FitName(version, 80) && 1 <= ttlMinutes <= 120
                 && rows != [] && ValidateAttestation(lib, manifestSha, rows, attestation, now).None?
                 && CapabilitiesOf(EnabledRows(rows)).Some? && lib.sorted(CapabilitiesOf(EnabledRows(rows)).value) != []
  {
  }

  /** On a produced document a heartbeat is built exactly when the names and the time to
      live are in bounds, some row is enabled, none of the enabled ones lacks a workflow,
      and the document is in its window. */
  lemma HeartbeatBuiltIff(
      lib: Library, job: A.Job, attestationSha: string, executorId: string, version: string, ttlMinutes: int, now: int)
    requires ValidLibrary(lib) && A.BuildOutcome(lib, job).Ok? && "" !in job.workflows
    ensures BuildHeartbeat(lib, job.manifestSha, job.rows, A.BuildOutcome(lib, job).value, attestationSha, executorId, version, ttlMinutes, now).Ok?
            <==> && FitName(executorId, 120) && FitName(version, 80) && 1 <= ttlMinutes <= 120
                 && AnyEnabled(job.rows) && NoneUnavailable(job.rows) && InWindow(A.WholeSecond(job.now), now)
  {
    ProducerAndCheckerAgree(lib, job, now);
    BuiltWhen(lib, job.manifestSha, job.rows, A.BuildOutcome(lib, job).value, attestationSha, executorId, version, ttlMinutes, now);
    if NoneUnavailable(job.rows) { EnabledCapabilities(lib, job); }
  }
}
