/** What the attestation producer reports when it refuses, told from the fields it read. */
module AttestationFailures {
  import opened Prelude
  import opened Manifest
  import A = Attestation
  import opened Heartbeat
  import opened AttestationFields

  ghost predicate Lacks(smoke: Fields, key: string) { !Says(smoke, key, Bool(true)) }

  /** The check is one that the workflow needs, and the evidence lacks it. */
  ghost predicate CheckFails(job: A.Job, id: string, smoke: Fields, key: string) {
    && Lacks(smoke, key)
    && (key in {"eventValidation", "providerReceipt", "receiptBeforeRetry", "credentialCheck"}
        || (key == "welcomeActivation" && RoutedCarry(job.rows, id, "fan.lifecycle.welcome.v2"))
        || (key == "executionClaim" && NeedsClaim(job.rows, id)))
  }

  ghost predicate SmokeExplains(lib: Library, job: A.Job, id: string, workflow: Fields, smoke: Fields, f: A.Failure) {
    match f
    case SmokeHash => !Says(smoke, "workflowSha256", Str(lib.sha(Obj(workflow))))
    case SmokeStale => !Recent(lib, job, smoke)
    case SmokeCheck(key) => CheckFails(job, id, smoke, key)
    case ClaimDrift => !Says(smoke, "claimContractVersion", Str("execution-claim-v1"))
    case ReceiptDrift => !Says(smoke, "receiptContractVersion", Str("execution-report-v1"))
    case _ => false
  }

  /** What each failure of an enabled workflow means. */
  ghost predicate Explains(lib: Library, job: A.Job, id: string, f: A.Failure) {
    && Enabled(job.rows, id)
    && if f.ExportMissing? then id !in job.workflows
       else
         && id in job.workflows
         && match f
            case NotActive => !IsActive(job.workflows[id])
            case UnsafePersistence => !SavesNothing(job.workflows[id])
            case SmokeMissing => forall smoke :: !HasSmoke(job, id, smoke)
            case _ => exists smoke :: HasSmoke(job, id, smoke) && SmokeExplains(lib, job, id, job.workflows[id], smoke, f)
  }

  /** The run ends with a ValueError: a template that is not allowed, or a time of an enabled
      workflow's evidence that cannot be read. */
  ghost predicate RaisesFor(lib: Library, job: A.Job, id: string) {
    && id in job.workflows
    && ((exists row :: Routed(job.rows, id, row) && !TemplatesAllowed(row))
        || (Enabled(job.rows, id)
            && exists smoke, text :: HasSmoke(job, id, smoke) && Says(smoke, "testedAt", Str(text)) && lib.parse(text) == None))
  }

  lemma AddIs(failures: seq<A.Failure>, bad: bool, f: A.Failure, x: A.Failure)
    ensures x in A.Add(failures, bad, f) <==> x in failures || (bad && x == f)
  {
  }

  lemma {:induction false} FailedChecksAre(before: seq<A.Failure>, smoke: Fields, n: nat, x: A.Failure)
    requires n <= |A.SMOKE_CHECKS|
    ensures x in A.FailedChecks(before, smoke, n)
            <==> x in before || exists i | 0 <= i < n :: x == A.SmokeCheck(A.SMOKE_CHECKS[i]) && !A.IsTrue(smoke, A.SMOKE_CHECKS[i])
  {
    if n > 0 {
      FailedChecksAre(before, smoke, n - 1, x);
      AddIs(A.FailedChecks(before, smoke, n - 1), !A.IsTrue(smoke, A.SMOKE_CHECKS[n - 1]), A.SmokeCheck(A.SMOKE_CHECKS[n - 1]), x);
    }
  }

  lemma FourFailedChecks(before: seq<A.Failure>, smoke: Fields, x: A.Failure)
    ensures x in A.FailedChecks(before, smoke, |A.SMOKE_CHECKS|)
            <==> x in before
                 || (x.SmokeCheck? && Lacks(smoke, x.key)
                     && x.key in {"eventValidation", "providerReceipt", "receiptBeforeRetry", "credentialCheck"})
  {
    var checks := A.SMOKE_CHECKS;
    FailedChecksAre(before, smoke, |checks|, x);
    assert |checks| == 4 && checks[0] == "eventValidation" && checks[1] == "providerReceipt";
    assert checks[2] == "receiptBeforeRetry" && checks[3] == "credentialCheck";
    if x.SmokeCheck? {
      assert x.key in {"eventValidation", "providerReceipt", "receiptBeforeRetry", "credentialCheck"}
             <==> exists i | 0 <= i < 4 :: x.key == checks[i];
    }
  }

  /** One of the failures that the smoke checks add. */
  ghost predicate Added(lib: Library, job: A.Job, sha: string, smoke: Fields, caps: set<string>, claim: bool, x: A.Failure)
    requires !A.BadTimestamp(lib, smoke)
  {
    || (x == A.SmokeHash && Get(smoke, "workflowSha256") != Str(sha))
    || (x == A.SmokeStale && A.Stale(lib, job, Get(smoke, "testedAt")))
    || (x.SmokeCheck? && Lacks(smoke, x.key)
        && x.key in {"eventValidation", "providerReceipt", "receiptBeforeRetry", "credentialCheck"})
    || (x == A.SmokeCheck("welcomeActivation") && WELCOME in caps && !A.IsTrue(smoke, "welcomeActivation"))
    || (x == A.SmokeCheck("executionClaim") && claim && !A.IsTrue(smoke, "executionClaim"))
    || (x == A.ClaimDrift && Get(smoke, "claimContractVersion") != Str(A.CLAIM_CONTRACT))
    || (x == A.ReceiptDrift && Get(smoke, "receiptContractVersion") != Str(A.RECEIPT_CONTRACT))
  }

  lemma SmokeFailuresAdd(
      lib: Library, job: A.Job, before: seq<A.Failure>, sha: string, smoke: Fields, caps: set<string>, claim: bool, x: A.Failure)
    requires !A.BadTimestamp(lib, smoke)
    ensures x in A.SmokeFailures(lib, job, before, sha, smoke, caps, claim)
            <==> x in before || Added(lib, job, sha, smoke, caps, claim, x)
  {
    var stale := A.Stale(lib, job, Get(smoke, "testedAt"));
    var f1 := A.Add(before, Get(smoke, "workflowSha256") != Str(sha), A.SmokeHash);
    var f2 := A.Add(f1, stale, A.SmokeStale);
    FourFailedChecks(f2, smoke, x);
  }

  lemma AddedIs(
      lib: Library, job: A.Job, id: string, workflow: Fields, smoke: Fields, caps: set<string>, x: A.Failure)
    requires !A.BadTimestamp(lib, smoke) && forall c :: c in caps <==> RoutedCarry(job.rows, id, c)
    ensures Added(lib, job, lib.sha(Obj(workflow)), smoke, caps, A.RequiresClaim(true, caps), x)
            <==> SmokeExplains(lib, job, id, workflow, smoke, x)
  {
    assert A.RequiresClaim(true, caps) <==> NeedsClaim(job.rows, id);
    StaleIs(lib, job, smoke);
  }

  lemma SmokeFailuresAre(
      lib: Library, job: A.Job, before: seq<A.Failure>, id: string, workflow: Fields, smoke: Fields, caps: set<string>, x: A.Failure)
    requires !A.BadTimestamp(lib, smoke) && forall c :: c in caps <==> RoutedCarry(job.rows, id, c)
    ensures x in A.SmokeFailures(lib, job, before, lib.sha(Obj(workflow)), smoke, caps, A.RequiresClaim(true, caps))
            <==> x in before || SmokeExplains(lib, job, id, workflow, smoke, x)
  {
    SmokeFailuresAdd(lib, job, before, lib.sha(Obj(workflow)), smoke, caps, A.RequiresClaim(true, caps), x);
    AddedIs(lib, job, id, workflow, smoke, caps, x);
  }

  lemma StaleIs(lib: Library, job: A.Job, smoke: Fields)
    requires !A.BadTimestamp(lib, smoke)
    ensures A.Stale(lib, job, Get(smoke, "testedAt")) <==> !Recent(lib, job, smoke)
  {
  }

  lemma SmokeIs(job: A.Job, id: string)
    ensures A.SmokeResult(job, id).Obj? ==> HasSmoke(job, id, A.SmokeResult(job, id).fields)
    ensures forall smoke | HasSmoke(job, id, smoke) :: A.SmokeResult(job, id) == Obj(smoke)
  {
  }

  /** A workflow raises exactly in these cases. */
  lemma RaisedIff(lib: Library, job: A.Job, id: string)
    ensures A.Processed(lib, job, id) == None <==> RaisesFor(lib, job, id)
  {
    RoutedRows(job.rows, id);
    SmokeIs(job, id);
  }

  /** What the checks of the export add. */
  function Structural(workflow: Fields): seq<A.Failure> {
    A.Add(A.Add([], !Truthy(Get(workflow, "active")), A.NotActive),
          !A.SafePersistence(A.PersistenceSummary(workflow)), A.UnsafePersistence)
  }

  lemma StructuralAre(workflow: Fields, f: A.Failure)
    ensures f in Structural(workflow)
            <==> StructureExplains(workflow, f)
  {
    ActiveIff(workflow);
    SavesNothingIff(workflow);
  }

  /** The export's own part of an explanation. */
  ghost predicate StructureExplains(workflow: Fields, f: A.Failure) {
    (f == A.NotActive && !IsActive(workflow)) || (f == A.UnsafePersistence && !SavesNothing(workflow))
  }

  lemma ExplainsWith(lib: Library, job: A.Job, id: string, f: A.Failure, smoke: Fields)
    requires id in job.workflows && Enabled(job.rows, id) && HasSmoke(job, id, smoke)
    ensures Explains(lib, job, id, f)
            <==> StructureExplains(job.workflows[id], f) || SmokeExplains(lib, job, id, job.workflows[id], smoke, f)
  {
    assert forall other | HasSmoke(job, id, other) :: other == smoke;
  }

  lemma ExplainsWithout(lib: Library, job: A.Job, id: string, f: A.Failure)
    requires id in job.workflows && Enabled(job.rows, id) && forall smoke :: !HasSmoke(job, id, smoke)
    ensures Explains(lib, job, id, f) <==> StructureExplains(job.workflows[id], f) || f == A.SmokeMissing
  {
  }

  lemma ProcessedFailures(lib: Library, job: A.Job, id: string)
    requires id in job.workflows && AnyEnabled(RowsFor(job.rows, id)) && A.Processed(lib, job, id).Some?
    ensures CapabilitiesOf(RowsFor(job.rows, id)).Some?
    ensures var workflow, result := job.workflows[id], A.SmokeResult(job, id);
            var caps := CapabilitiesOf(RowsFor(job.rows, id)).value;
            if result.Obj? then
              && !A.BadTimestamp(lib, result.fields)
              && A.Processed(lib, job, id).value.0
                 == A.SmokeFailures(lib, job, Structural(workflow), lib.sha(Obj(workflow)), result.fields, caps, A.RequiresClaim(true, caps))
            else A.Processed(lib, job, id).value.0 == Structural(workflow) + [A.SmokeMissing]
  {
  }

  lemma EnabledFailures(lib: Library, job: A.Job, id: string, f: A.Failure)
    requires id in job.workflows && Enabled(job.rows, id) && A.Processed(lib, job, id).Some?
    ensures f in A.Processed(lib, job, id).value.0 <==> Explains(lib, job, id, f)
  {
    RoutedRows(job.rows, id);
    SmokeIs(job, id);
    ProcessedFailures(lib, job, id);
    var workflow, caps, result := job.workflows[id], CapabilitiesOf(RowsFor(job.rows, id)).value, A.SmokeResult(job, id);
    StructuralAre(workflow, f);
    if result.Obj? {
      SmokeFailuresAre(lib, job, Structural(workflow), id, workflow, result.fields, caps, f);
      ExplainsWith(lib, job, id, f, result.fields);
    } else {
      ExplainsWithout(lib, job, id, f);
    }
  }

  /** One that does not raise reports exactly the failures that its fields explain. */
  lemma FailureIff(lib: Library, job: A.Job, id: string, f: A.Failure)
    requires A.Processed(lib, job, id).Some?
    ensures f in A.Processed(lib, job, id).value.0 <==> Explains(lib, job, id, f)
  {
    if id in job.workflows && Enabled(job.rows, id) {
      EnabledFailures(lib, job, id, f);
    } else {
      RoutedRows(job.rows, id);
    }
  }

  lemma {:induction false} GatheredAre(ids: seq<string>, outcomes: seq<A.Outcome>, n: nat, id: string, f: A.Failure)
    requires n <= |ids| == |outcomes|
    ensures A.Gathered(ids, outcomes, n) == None <==> exists i | 0 <= i < n :: outcomes[i] == None
    ensures A.Gathered(ids, outcomes, n).Some? ==>
              ((id, f) in A.Gathered(ids, outcomes, n).value.0
               <==> exists i | 0 <= i < n :: ids[i] == id && outcomes[i].Some? && f in outcomes[i].value.0)
  {
    if n > 0 {
      GatheredAre(ids, outcomes, n - 1, id, f);
      if outcomes[n - 1].Some? { TaggedAre(ids[n - 1], outcomes[n - 1].value.0, id, f); }
    }
  }

  lemma TaggedAre(own: string, failures: seq<A.Failure>, id: string, f: A.Failure)
    ensures (id, f) in A.Tagged(own, failures) <==> id == own && f in failures
  {
    if id == own && f in failures {
      var i :| 0 <= i < |failures| && failures[i] == f;
      assert A.Tagged(own, failures)[i] == (id, f);
    }
  }

  /** A ValueError for a bad time or template exactly if some routed workflow raises, and
      otherwise a list of exactly the failures explained. */
  lemma RefusalIff(lib: Library, job: A.Job, id: string, f: A.Failure)
    requires ValidLibrary(lib)
    ensures A.BuildOutcome(lib, job) == Err(A.Raised) <==> exists x :: x in Ids(job.rows) && RaisesFor(lib, job, x)
    ensures A.BuildOutcome(lib, job).Err? && A.BuildOutcome(lib, job).error.Failed? ==>
              ((id, f) in A.BuildOutcome(lib, job).error.failures <==> id in Ids(job.rows) && Explains(lib, job, id, f))
  {
    var ids := lib.sorted(Ids(job.rows));
    var outcomes := A.Outcomes(lib, job, ids);
    assert Lists(ids, Ids(job.rows));
    GatheredAre(ids, outcomes, |ids|, id, f);
    forall i | 0 <= i < |ids|
      ensures outcomes[i] == None <==> RaisesFor(lib, job, ids[i])
      ensures outcomes[i].Some? ==> (f in outcomes[i].value.0 <==> Explains(lib, job, ids[i], f))
    {
      RaisedIff(lib, job, ids[i]);
      if outcomes[i].Some? { FailureIff(lib, job, ids[i], f); }
    }
    if x :| x in Ids(job.rows) && RaisesFor(lib, job, x) {
      var i :| 0 <= i < |ids| && ids[i] == x;
      assert outcomes[i] == None;
    }
    if id in Ids(job.rows) {
      var i :| 0 <= i < |ids| && ids[i] == id;
      assert outcomes[i].Some? ==> (f in outcomes[i].value.0 <==> Explains(lib, job, id, f));
    }
  }
}
