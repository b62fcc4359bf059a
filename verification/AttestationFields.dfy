/** When an attestation is produced, when it is accepted and what a heartbeat then says,
    told from the fields of the manifest's rows, the exports and the JSON documents. */
module AttestationFields {
  import opened Prelude
  import opened Manifest
  import opened Text
  import A = Attestation
  import opened Heartbeat

  // ---------------------------------------------------------------------------
  // Rows

  /** The row's own capability, and the templates it names. */
  ghost predicate Carried(row: Row, c: string) { c == row.capability || NamesTemplate(row, c) }

  /** A row names no template but the welcome, and that only on the lifecycle route. */
  ghost predicate TemplatesAllowed(row: Row) {
    forall t | NamesTemplate(row, t) ::
      && t == "fan.lifecycle.welcome.v2"
      && row.capability == "fan.lifecycle.message" && row.eventType == "crowdrelay.fan_lifecycle.message_requested"
  }

  lemma CapabilitiesAre(row: Row)
    ensures RowCapabilities(row).Some? <==> TemplatesAllowed(row)
    ensures RowCapabilities(row).Some? ==> forall c :: c in RowCapabilities(row).value <==> Carried(row, c)
  {
    RowCapabilitiesAre(row);
    if RowCapabilities(row).None? {
      var t :| Refused(row, t);
      assert NamesTemplate(row, t) && (t != "fan.lifecycle.welcome.v2" || !LifecycleRoute(row));
    } else {
      forall t | NamesTemplate(row, t) ensures t == "fan.lifecycle.welcome.v2" && LifecycleRoute(row) { assert !Refused(row, t); }
    }
  }

  // ---------------------------------------------------------------------------
  // The checker

  ghost predicate NamedBy(item: Value, id: string) { item.Obj? && Says(item.fields, "workflowId", Str(id)) }

  /** The last of the items that name the id has these fields. */
  ghost predicate LastItem(items: seq<Value>, id: string, fields: Fields) {
    exists i: nat :: i < |items| && items[i] == Obj(fields) && NamedBy(items[i], id)
                     && forall j: nat | i < j < |items| :: !NamedBy(items[j], id)
  }

  /** The smoke evidence that the checker wants for an enabled row. */
  ghost predicate SmokeSuffices(row: Row, smoke: Fields) {
    && Says(smoke, "eventValidation", Bool(true)) && Says(smoke, "providerReceipt", Bool(true))
    && Says(smoke, "receiptBeforeRetry", Bool(true)) && Says(smoke, "credentialCheck", Bool(true))
    && (Carried(row, "fan.lifecycle.welcome.v2") ==> Says(smoke, "welcomeActivation", Bool(true)))
    && !Says(smoke, "executionClaim", Bool(false))
  }

  ghost predicate Shown(items: seq<Value>, row: Row) {
    && row.workflowId != "" && row.workflowId != "UNAVAILABLE" && TemplatesAllowed(row)
    && exists fields, smoke ::
         && LastItem(items, row.workflowId, fields) && Says(fields, "enabled", Bool(true)) && Says(fields, "active", Bool(true))
         && Says(fields, "smoke", Obj(smoke)) && SmokeSuffices(row, smoke)
  }

  /** What iterating over `workflows` yields: nothing if the key is missing, and no objects
      from an object or a text. */
  ghost predicate Yields(fields: Fields, items: seq<Value>) {
    if "workflows" !in fields then items == []
    else fields["workflows"] == Arr(items) || (items == [] && (fields["workflows"].Obj? || fields["workflows"].Str?))
  }

  ghost predicate Acceptable(lib: Library, manifestSha: string, rows: seq<Row>, fields: Fields, now: int) {
    && Says(fields, "routeManifestSha256", Str(manifestSha))
    && (exists text, generated ::
          Says(fields, "generatedAt", Str(text)) && lib.parse(text) == Some(generated)
          && -300_000_000 <= now - generated <= 1_209_600_000_000)
    && exists items :: Yields(fields, items) && forall row | row in rows && row.enabled == "1" :: Shown(items, row)
  }

  lemma LastItemIs(items: seq<Value>, id: string, fields: Fields)
    ensures LastItem(items, id, fields) <==> id in ById(items) && ById(items)[id] == fields
  {
    assert forall item :: NamedBy(item, id) <==> Names(item, id);
    if LastItem(items, id, fields) {
      var i: nat :| i < |items| && items[i] == Obj(fields) && NamedBy(items[i], id)
                    && forall j: nat | i < j < |items| :: !NamedBy(items[j], id);
      assert LastNamed(items, i, id);
      LastItemWins(items, i, id);
    }
    if id in ById(items) && ById(items)[id] == fields {
      assert Obj(fields) in items && Names(Obj(fields), id);
      var i := LastNamedIn(items, id, |items|);
      LastItemWins(items, i, id);
    }
  }

  lemma {:induction false} LastNamedIn(items: seq<Value>, id: string, n: nat) returns (i: nat)
    requires n <= |items| && (exists k: nat :: k < n && Names(items[k], id)) && forall j: nat | n <= j < |items| :: !Names(items[j], id)
    ensures LastNamed(items, i, id)
  {
    if Names(items[n - 1], id) { i := n - 1; } else { i := LastNamedIn(items, id, n - 1); }
  }

  lemma SmokeSufficesIff(row: Row, smoke: Fields)
    ensures SmokeFault(row, smoke) == None <==> TemplatesAllowed(row) && SmokeSuffices(row, smoke)
  {
    CapabilitiesAre(row);
    FourChecks(smoke);
  }

  lemma FourChecks(smoke: Fields)
    ensures FirstUnproven(smoke, 0) == None <==>
              && Says(smoke, "eventValidation", Bool(true)) && Says(smoke, "providerReceipt", Bool(true))
              && Says(smoke, "receiptBeforeRetry", Bool(true)) && Says(smoke, "credentialCheck", Bool(true))
  {
    var checks := A.SMOKE_CHECKS;
    assert |checks| == 4 && checks[0] == "eventValidation" && checks[1] == "providerReceipt";
    assert checks[2] == "receiptBeforeRetry" && checks[3] == "credentialCheck";
  }

  /** An item with these fields satisfies the checker for the row. */
  ghost predicate ItemSuffices(row: Row, fields: Fields) {
    && Says(fields, "enabled", Bool(true)) && Says(fields, "active", Bool(true))
    && "smoke" in fields && fields["smoke"].Obj? && TemplatesAllowed(row) && SmokeSuffices(row, fields["smoke"].fields)
  }

  lemma FaultIs(evidence: map<string, Fields>, row: Row)
    requires row.enabled == "1"
    ensures FaultOf(evidence, row) == None <==>
              row.workflowId != "" && row.workflowId != "UNAVAILABLE" && row.workflowId in evidence
              && ItemSuffices(row, evidence[row.workflowId])
  {
    if row.workflowId in evidence {
      var item := evidence[row.workflowId];
      if Get(item, "smoke").Obj? { SmokeSufficesIff(row, Get(item, "smoke").fields); }
    }
  }

  lemma ShownIff(items: seq<Value>, row: Row)
    requires row.enabled == "1"
    ensures FaultOf(ById(items), row) == None <==> Shown(items, row)
  {
    var id := row.workflowId;
    FaultIs(ById(items), row);
    forall fields ensures LastItem(items, id, fields) <==> id in ById(items) && ById(items)[id] == fields {
      LastItemIs(items, id, fields);
    }
    ShownByItem(items, row);
  }

  lemma ShownByItem(items: seq<Value>, row: Row)
    ensures Shown(items, row) <==>
              row.workflowId != "" && row.workflowId != "UNAVAILABLE"
              && exists fields :: LastItem(items, row.workflowId, fields) && ItemSuffices(row, fields)
  {
    if fields: Fields :| LastItem(items, row.workflowId, fields) && ItemSuffices(row, fields) {
      assert Says(fields, "smoke", Obj(fields["smoke"].fields));
    }
    if row.workflowId != "" && row.workflowId != "UNAVAILABLE" && Shown(items, row) {
      var fields, smoke :| LastItem(items, row.workflowId, fields) && Says(fields, "enabled", Bool(true))
                           && Says(fields, "active", Bool(true)) && Says(fields, "smoke", Obj(smoke)) && SmokeSuffices(row, smoke);
      assert ItemSuffices(row, fields);
    }
  }

  /** Whatever the document: it is accepted if and only if it is an object that names this
      manifest, is in its time window, and shows every enabled row's workflow. */
  lemma AcceptedIff(lib: Library, manifestSha: string, rows: seq<Row>, attestation: Value, now: int)
    ensures ValidateAttestation(lib, manifestSha, rows, attestation, now) == None
            <==> attestation.Obj? && Acceptable(lib, manifestSha, rows, attestation.fields, now)
  {
    if attestation.Obj? {
      var fields := attestation.fields;
      assert forall items :: Yields(fields, items) <==> Items(fields) == Some(items);
      if Items(fields).Some? {
        var items := Items(fields).value;
        forall row | row in rows ensures FaultOf(ById(items), row) == None <==> row.enabled == "1" ==> Shown(items, row) {
          if row.enabled == "1" { ShownIff(items, row); }
        }
      }
    }
  }

  // ---------------------------------------------------------------------------
  // The heartbeat

  /** A name with a character that is no white space, within a length. */
  ghost predicate Readable(name: string, limit: nat) { |name| <= limit && exists c | c in name :: !PySpace(c) }

  lemma {:induction false} StrippedToNothing(s: string)
    ensures PyStrip(s) == "" <==> forall c | c in s :: PySpace(c)
    decreases |s|
  {
    if s != "" {
      var n := |s| - 1;
      assert s == [s[0]] + s[1..] && s == s[..n] + [s[n]];
      if PySpace(s[0]) { StrippedToNothing(s[1..]); } else if PySpace(s[n]) { StrippedToNothing(s[..n]); }
    }
  }

  lemma ReadableIs(name: string, limit: nat)
    ensures FitName(name, limit) <==> Readable(name, limit)
  {
    StrippedToNothing(name);
  }

  lemma AcceptedRowsHaveCapabilities(lib: Library, manifestSha: string, rows: seq<Row>, attestation: Value, now: int)
    requires ValidLibrary(lib) && ValidateAttestation(lib, manifestSha, rows, attestation, now) == None
    ensures CapabilitiesOf(EnabledRows(rows)).Some?
    ensures lib.sorted(CapabilitiesOf(EnabledRows(rows)).value) != [] <==> exists row :: row in rows && row.enabled == "1"
  {
    AcceptedIff(lib, manifestSha, rows, attestation, now);
    var items :| Yields(attestation.fields, items) && forall row | row in rows && row.enabled == "1" :: Shown(items, row);
    forall row | row in EnabledRows(rows) ensures RowCapabilities(row).Some? {
      assert Shown(items, row);
      CapabilitiesAre(row);
    }
    var caps := CapabilitiesOf(EnabledRows(rows)).value;
    assert Lists(lib.sorted(caps), caps);
    if row :| row in rows && row.enabled == "1" {
      assert row in EnabledRows(rows);
      assert row.capability in caps && row.capability in lib.sorted(caps);
    }
    if lib.sorted(caps) != [] {
      assert lib.sorted(caps)[0] in caps;
    }
  }

  /** Whatever the attestation: a heartbeat is built if and only if the names can be read, the
      time to live is 1 to 120 minutes, the attestation is acceptable and some row is enabled. */
  lemma BuiltIff(
      lib: Library, manifestSha: string, rows: seq<Row>, attestation: Value, attestationSha: string,
      executorId: string, version: string, ttlMinutes: int, now: int)
    requires ValidLibrary(lib)
    ensures BuildHeartbeat(lib, manifestSha, rows, attestation, attestationSha, executorId, version, ttlMinutes, now).Ok?
            <==> && Readable(executorId, 120) && Readable(version, 80) && 0 < ttlMinutes <= 120
                 && attestation.Obj? && Acceptable(lib, manifestSha, rows, attestation.fields, now)
                 && exists row :: row in rows && row.enabled == "1"
  {
    BuiltWhen(lib, manifestSha, rows, attestation, attestationSha, executorId, version, ttlMinutes, now);
    ReadableIs(executorId, 120);
    ReadableIs(version, 80);
    AcceptedIff(lib, manifestSha, rows, attestation, now);
    if ValidateAttestation(lib, manifestSha, rows, attestation, now) == None {
      AcceptedRowsHaveCapabilities(lib, manifestSha, rows, attestation, now);
    }
  }

  /** What a heartbeat says: who runs it, the digests of the manifest and of the attestation it
      was built on, and the attestation's own time. */
  lemma HeartbeatSays(
      lib: Library, manifestSha: string, rows: seq<Row>, attestation: Value, attestationSha: string,
      executorId: string, version: string, ttlMinutes: int, now: int, h: Heartbeat)
    requires BuildHeartbeat(lib, manifestSha, rows, attestation, attestationSha, executorId, version, ttlMinutes, now) == Ok(h)
    ensures h.executorId == executorId && h.version == version && h.manifestSha == manifestSha && h.attestationSha == attestationSha
    ensures attestation.Obj? && Says(attestation.fields, "routeManifestSha256", Str(manifestSha))
    ensures Says(attestation.fields, "generatedAt", Str(h.attestedAt))
  {
  }

  /** It is made now and expires the time to live later; both are printed in whole seconds. */
  lemma HeartbeatTimes(
      lib: Library, manifestSha: string, rows: seq<Row>, attestation: Value, attestationSha: string,
      executorId: string, version: string, ttlMinutes: int, now: int, h: Heartbeat)
    requires BuildHeartbeat(lib, manifestSha, rows, attestation, attestationSha, executorId, version, ttlMinutes, now) == Ok(h)
    ensures h.observedAt == lib.show(A.WholeSecond(now)) && h.expiresAt == lib.show(A.WholeSecond(now + ttlMinutes * 60_000_000))
  {
  }

  /** The last whole second. */
  lemma WholeSecondBefore(t: int)
    ensures A.WholeSecond(t) <= t < A.WholeSecond(t) + 1_000_000 && exists seconds :: A.WholeSecond(t) == Seconds(seconds)
  {
    assert A.WholeSecond(t) == Seconds(t / 1_000_000);
  }

  function Seconds(n: int): int { n * 1_000_000 }

  /** What it advertises: what the enabled rows carry. */
  lemma HeartbeatAdvertises(
      lib: Library, manifestSha: string, rows: seq<Row>, attestation: Value, attestationSha: string,
      executorId: string, version: string, ttlMinutes: int, now: int, h: Heartbeat)
    requires ValidLibrary(lib)
    requires BuildHeartbeat(lib, manifestSha, rows, attestation, attestationSha, executorId, version, ttlMinutes, now) == Ok(h)
    ensures forall c :: c in h.capabilities <==> exists row | row in rows :: row.enabled == "1" && Carried(row, c)
  {
    AdvertisesEnabledRows(lib, manifestSha, rows, attestation, attestationSha, executorId, version, ttlMinutes, now, h);
    BuiltAccepted(lib, manifestSha, rows, attestation, attestationSha, executorId, version, ttlMinutes, now, h);
    AcceptedRowsHaveCapabilities(lib, manifestSha, rows, attestation, now);
    forall row | row in rows && row.enabled == "1"
      ensures forall c :: Carries(row, c) <==> Carried(row, c)
    {
      assert row in EnabledRows(rows);
      CapabilitiesAre(row);
    }
  }

  lemma BuiltAccepted(
      lib: Library, manifestSha: string, rows: seq<Row>, attestation: Value, attestationSha: string,
      executorId: string, version: string, ttlMinutes: int, now: int, h: Heartbeat)
    requires BuildHeartbeat(lib, manifestSha, rows, attestation, attestationSha, executorId, version, ttlMinutes, now) == Ok(h)
    ensures ValidateAttestation(lib, manifestSha, rows, attestation, now) == None
  {
  }

  lemma WholeSecondIs(lib: Library, t: int)
    requires ValidLibrary(lib)
    ensures lib.parse(lib.show(A.WholeSecond(t))).Some?
    ensures t - 1_000_000 < lib.parse(lib.show(A.WholeSecond(t))).value <= t
  {
    var w := A.WholeSecond(t);
    assert w % SECOND == 0;
    assert lib.parse(lib.show(w)) == Some(w);
  }

  // ---------------------------------------------------------------------------
  // The exports

  ghost predicate HasList(fields: Fields, key: string) { exists items :: Says(fields, key, Arr(items)) }

  /** A file holds the objects of a list, one workflow, or the objects of its `data`. */
  ghost predicate HoldsExport(file: Value, f: Fields) {
    if file.Arr? then Obj(f) in file.items
    else
      && file.Obj?
      && if HasList(file.fields, "nodes") then f == file.fields
         else exists items :: Says(file.fields, "data", Arr(items)) && Obj(f) in items
  }

  lemma DocumentsAre(file: Option<Value>)
    ensures A.WorkflowDocuments(file).Some? <==>
              file.Some? && (file.value.Arr? || (file.value.Obj? && (HasList(file.value.fields, "nodes") || HasList(file.value.fields, "data"))))
    ensures A.WorkflowDocuments(file).Some? ==> forall f :: f in A.WorkflowDocuments(file).value <==> HoldsExport(file.value, f)
  {
    if file.Some? && file.value.Obj? {
      ListIff(file.value.fields, "nodes");
      ListIff(file.value.fields, "data");
    }
  }

  lemma ListIff(fields: Fields, key: string)
    ensures HasList(fields, key) <==> Get(fields, key).Arr?
    ensures HasList(fields, key) ==> Says(fields, key, Arr(Get(fields, key).items))
  {
  }

  /** An export's id: that of its `id` field that stands between white space at both ends, or
      its text if it is none; and the empty one if it is missing, null, false or zero. */
  lemma IdIs(lib: Library, workflow: Fields) returns (before: string, behind: string)
    ensures var id := A.WorkflowId(lib)(workflow);
            && Solid(id) && AllSpace(before) && AllSpace(behind)
            && (forall text | Says(workflow, "id", Str(text)) :: text == before + id + behind)
            && ("id" !in workflow || workflow["id"] in {Null, Bool(false), Num(0.0), Arr([]), Obj(map[])} ==> id == "")
            && (IsOther(workflow) ==> lib.text(workflow["id"]) == before + id + behind)
  {
    var raw := Get(workflow, "id");
    before, behind := StripSplits(if !Truthy(raw) then "" else if raw.Str? then raw.s else lib.text(raw));
  }

  /** The id is there and is neither a text nor falsy. */
  ghost predicate IsOther(workflow: Fields) {
    "id" in workflow && !workflow["id"].Str? && workflow["id"] !in {Null, Bool(false), Num(0.0), Arr([]), Obj(map[])}
  }

  // ---------------------------------------------------------------------------
  // The producer

  ghost predicate Routed(rows: seq<Row>, id: string, row: Row) { row in rows && row.workflowId == id }

  ghost predicate Enabled(rows: seq<Row>, id: string) { exists row :: Routed(rows, id, row) && row.enabled == "1" }

  /** Some row of the workflow carries the capability. */
  ghost predicate RoutedCarry(rows: seq<Row>, id: string, c: string) { exists row :: Routed(rows, id, row) && Carried(row, c) }

  /** They carry more than the one capability that needs no claim. */
  ghost predicate NeedsClaim(rows: seq<Row>, id: string) { exists c :: c != "calendar.upsert" && RoutedCarry(rows, id, c) }

  /** The smoke file holds evidence for the workflow. */
  ghost predicate HasSmoke(job: A.Job, id: string, smoke: Fields) {
    job.smoke.Obj? && Says(job.smoke.fields, id, Obj(smoke))
  }

  /** The evidence is of the last days, and no more than five minutes from the future. */
  ghost predicate Recent(lib: Library, job: A.Job, smoke: Fields) {
    exists text, tested ::
      Says(smoke, "testedAt", Str(text)) && lib.parse(text) == Some(tested)
      && -300_000_000 <= job.now - tested <= job.maxSmokeAgeDays * 86_400_000_000
  }

  ghost predicate IsActive(workflow: Fields) {
    "active" in workflow && workflow["active"] !in {Null, Bool(false), Num(0.0), Str(""), Arr([]), Obj(map[])}
  }

  /** Nothing of an execution is saved. */
  ghost predicate SavesNothing(workflow: Fields) {
    exists settings ::
      && Says(workflow, "settings", Obj(settings))
      && Says(settings, "saveDataErrorExecution", Str("none")) && Says(settings, "saveDataSuccessExecution", Str("none"))
      && "saveManualExecutions" in settings && settings["saveManualExecutions"] in {Bool(false), Num(0.0)}
      && ("saveExecutionProgress" in settings ==> settings["saveExecutionProgress"] in {Bool(false), Num(0.0), Null})
  }

  /** Smoke evidence for the exact export that is recent and shows all that the workflow's
      rows need. */
  ghost predicate SmokeShows(lib: Library, job: A.Job, id: string, workflow: Fields, smoke: Fields) {
    && Says(smoke, "workflowSha256", Str(lib.sha(Obj(workflow))))
    && Recent(lib, job, smoke)
    && Says(smoke, "eventValidation", Bool(true)) && Says(smoke, "providerReceipt", Bool(true))
    && Says(smoke, "receiptBeforeRetry", Bool(true)) && Says(smoke, "credentialCheck", Bool(true))
    && (RoutedCarry(job.rows, id, "fan.lifecycle.welcome.v2") ==> Says(smoke, "welcomeActivation", Bool(true)))
    && (NeedsClaim(job.rows, id) ==> Says(smoke, "executionClaim", Bool(true)))
    && Says(smoke, "claimContractVersion", Str("execution-claim-v1"))
    && Says(smoke, "receiptContractVersion", Str("execution-report-v1"))
  }

  /** What a workflow that the manifest routes to must be. */
  ghost predicate Fit(lib: Library, job: A.Job, id: string) {
    && (id in job.workflows ==> forall row | Routed(job.rows, id, row) :: TemplatesAllowed(row))
    && (Enabled(job.rows, id) ==>
          && id in job.workflows && IsActive(job.workflows[id]) && SavesNothing(job.workflows[id])
          && exists evidence, smoke ::
               job.smoke == Obj(evidence) && Says(evidence, id, Obj(smoke)) && SmokeShows(lib, job, id, job.workflows[id], smoke))
  }

  lemma RoutedRows(rows: seq<Row>, id: string)
    ensures forall row :: row in RowsFor(rows, id) <==> Routed(rows, id, row)
    ensures AnyEnabled(RowsFor(rows, id)) <==> Enabled(rows, id)
    ensures CapabilitiesOf(RowsFor(rows, id)).Some? <==> forall row | Routed(rows, id, row) :: TemplatesAllowed(row)
    ensures CapabilitiesOf(RowsFor(rows, id)).Some? ==>
              forall c :: c in CapabilitiesOf(RowsFor(rows, id)).value <==> RoutedCarry(rows, id, c)
  {
    var routed := RowsFor(rows, id);
    forall row | row in routed
      ensures RowCapabilities(row).Some? <==> TemplatesAllowed(row)
      ensures RowCapabilities(row).Some? ==> forall c :: c in RowCapabilities(row).value <==> Carried(row, c)
    {
      CapabilitiesAre(row);
    }
  }

  lemma ActiveIff(workflow: Fields)
    ensures Truthy(Get(workflow, "active")) <==> IsActive(workflow)
  {
  }

  lemma SavesNothingIff(workflow: Fields)
    ensures A.SafePersistence(A.PersistenceSummary(workflow)) <==> SavesNothing(workflow)
  {
    var summary := A.PersistenceSummary(workflow);
    if Get(workflow, "settings").Obj? {
      var settings := Get(workflow, "settings").fields;
      assert Says(workflow, "settings", Obj(settings));
    }
  }

  lemma FourSmokeChecks(smoke: Fields)
    ensures (forall key | key in A.SMOKE_CHECKS :: A.IsTrue(smoke, key)) <==>
              && Says(smoke, "eventValidation", Bool(true)) && Says(smoke, "providerReceipt", Bool(true))
              && Says(smoke, "receiptBeforeRetry", Bool(true)) && Says(smoke, "credentialCheck", Bool(true))
  {
    FourChecks(smoke);
    var checks := A.SMOKE_CHECKS;
    assert (forall key | key in checks :: A.IsTrue(smoke, key)) <==> (forall i | 0 <= i < |checks| :: A.IsTrue(smoke, checks[i]));
  }

  lemma RecentIff(lib: Library, job: A.Job, smoke: Fields)
    ensures Recent(lib, job, smoke) <==>
              Get(smoke, "testedAt").Str? && lib.parse(Get(smoke, "testedAt").s).Some?
              && A.FreshAt(lib.parse(Get(smoke, "testedAt").s).value, job.now, job.maxSmokeAgeDays)
  {
  }

  lemma SmokeShowsIff(lib: Library, job: A.Job, id: string, workflow: Fields, smoke: Fields, caps: set<string>)
    requires forall c :: c in caps <==> RoutedCarry(job.rows, id, c)
    ensures A.SmokeProves(lib, job, workflow, smoke, caps, A.RequiresClaim(true, caps)) <==> SmokeShows(lib, job, id, workflow, smoke)
  {
    FourSmokeChecks(smoke);
    assert A.RequiresClaim(true, caps) <==> NeedsClaim(job.rows, id);
    RecentIff(lib, job, smoke);
  }

  /** A workflow passes the producer's checks if and only if it is fit. */
  lemma AttestedIff(lib: Library, job: A.Job, id: string)
    ensures A.Attested(lib, job, id) <==> Fit(lib, job, id)
  {
    RoutedRows(job.rows, id);
    if id in job.workflows && CapabilitiesOf(RowsFor(job.rows, id)).Some? {
      var workflow, caps := job.workflows[id], CapabilitiesOf(RowsFor(job.rows, id)).value;
      ActiveIff(workflow);
      SavesNothingIff(workflow);
      var result := A.SmokeResult(job, id);
      if result.Obj? {
        SmokeShowsIff(lib, job, id, workflow, result.fields, caps);
        assert job.smoke == Obj(job.smoke.fields) && Says(job.smoke.fields, id, Obj(result.fields));
      }
    }
  }

  /** A document is produced if and only if every workflow that a row routes to is fit. */
  lemma ProducedIff(lib: Library, job: A.Job)
    requires ValidLibrary(lib)
    ensures A.BuildOutcome(lib, job).Ok?
            <==> forall row | row in job.rows && row.workflowId != "UNAVAILABLE" :: Fit(lib, job, row.workflowId)
  {
    A.BuiltIffAttested(lib, job);
    forall id ensures A.Attested(lib, job, id) <==> Fit(lib, job, id) { AttestedIff(lib, job, id); }
    if forall row | row in job.rows && row.workflowId != "UNAVAILABLE" :: Fit(lib, job, row.workflowId) {
      forall id | id in Ids(job.rows) ensures Fit(lib, job, id) {}
    }
  }

  /** What a produced document says: its time, the manifest's digest, the contracts. */
  lemma DocumentSays(lib: Library, job: A.Job)
    requires ValidLibrary(lib) && A.BuildOutcome(lib, job).Ok?
    ensures var document := A.BuildOutcome(lib, job).value;
            && document.Obj? && Says(document.fields, "routeManifestSha256", Str(job.manifestSha))
            && Says(document.fields, "claimContractVersion", Str("execution-claim-v1"))
            && Says(document.fields, "receiptContractVersion", Str("execution-report-v1"))
            && exists text, generated ::
                 Says(document.fields, "generatedAt", Str(text)) && lib.parse(text) == Some(generated)
                 && job.now - 1_000_000 < generated <= job.now
  {
    BuiltDocument(lib, job);
    WholeSecondIs(lib, job.now);
    assert Says(A.Document(lib, job, EntriesOf(lib, job)), "generatedAt", Str(lib.show(A.WholeSecond(job.now))));
  }

  /** And of a workflow that a row routes to and that has an export: the export's digest, the
      events and capabilities of its rows, and whether one of them is enabled. */
  lemma EntrySays(lib: Library, job: A.Job, id: string)
    requires ValidLibrary(lib) && A.BuildOutcome(lib, job).Ok?
    requires id in Ids(job.rows) && id in job.workflows
    ensures var entries := EntriesOf(lib, job);
            && Says(A.BuildOutcome(lib, job).value.fields, "workflows", Arr(entries))
            && exists entry :: LastItem(entries, id, entry) && EntryIs(lib, job, id, entry)
  {
    BuiltDocument(lib, job);
    var entry := EntryInDocument(lib, job, id);
    EmittedEntry(lib, job, id);
  }

  /** Texts only, each of them once. */
  ghost predicate Texts(items: seq<Value>) {
    (forall v | v in items :: v.Str?) && forall i, j | 0 <= i < j < |items| :: items[i] != items[j]
  }

  /** Exactly the events that route to the workflow. */
  ghost predicate EventsOf(rows: seq<Row>, id: string, items: seq<Value>) {
    Texts(items) && forall e :: Str(e) in items <==> exists row :: Routed(rows, id, row) && row.eventType == e
  }

  /** Exactly what its rows carry. */
  ghost predicate CarriedBy(rows: seq<Row>, id: string, items: seq<Value>) {
    Texts(items) && forall c :: Str(c) in items <==> RoutedCarry(rows, id, c)
  }

  ghost predicate EntryIs(lib: Library, job: A.Job, id: string, entry: Fields)
    requires id in job.workflows
  {
    && Says(entry, "workflowSha256", Str(lib.sha(Obj(job.workflows[id]))))
    && Says(entry, "enabled", Bool(Enabled(job.rows, id))) && Says(entry, "active", Bool(IsActive(job.workflows[id])))
    && (exists events :: Says(entry, "events", Arr(events)) && EventsOf(job.rows, id, events))
    && exists caps :: Says(entry, "capabilities", Arr(caps)) && CarriedBy(job.rows, id, caps)
  }

  lemma StringsAre(items: seq<string>)
    ensures var texts := A.Strings(items).items;
            && (forall v | v in texts :: v.Str?) && (forall e :: Str(e) in texts <==> e in items)
            && ((forall i, j | 0 <= i < j < |items| :: items[i] != items[j]) ==> Texts(texts))
  {
    var texts := A.Strings(items).items;
    forall e ensures Str(e) in texts <==> e in items {
      if e in items {
        var i :| 0 <= i < |items| && items[i] == e;
        assert texts[i] == Str(e);
      }
    }
  }

  lemma SortedTexts(lib: Library, members: set<string>)
    requires ValidLibrary(lib)
    ensures var texts := A.Strings(lib.sorted(members)).items; Texts(texts) && forall e :: Str(e) in texts <==> e in members
  {
    assert Lists(lib.sorted(members), members);
    StringsAre(lib.sorted(members));
  }

  lemma EmittedEntry(lib: Library, job: A.Job, id: string)
    requires ValidLibrary(lib) && id in job.workflows && CapabilitiesOf(RowsFor(job.rows, id)).Some?
    ensures Emitted(lib, job, id).Some? && EntryIs(lib, job, id, Emitted(lib, job, id).value)
  {
    var rows, entry := RowsFor(job.rows, id), Emitted(lib, job, id).value;
    var caps, events := CapabilitiesOf(rows).value, set row | row in rows :: row.eventType;
    RoutedRows(job.rows, id);
    ActiveIff(job.workflows[id]);
    SortedTexts(lib, caps);
    SortedTexts(lib, events);
    assert EventsOf(job.rows, id, A.Strings(lib.sorted(events)).items);
    assert CarriedBy(job.rows, id, A.Strings(lib.sorted(caps)).items);
    EntryKeys(lib, id, job.workflows[id], rows, caps, Get(entry, "smoke"));
    EntryFields(lib, id, job.workflows[id], rows, caps, Get(entry, "smoke"));
    SmokeOfEntry(lib, job, id);
  }

  lemma EntryKeys(lib: Library, id: string, workflow: Fields, rows: seq<Row>, caps: set<string>, smoke: Value)
    ensures var entry := A.Entry(lib, id, workflow, rows, caps, smoke);
            && Says(entry, "workflowSha256", Str(lib.sha(Obj(workflow))))
            && Says(entry, "events", A.Strings(lib.sorted(set row | row in rows :: row.eventType)))
            && Says(entry, "capabilities", A.Strings(lib.sorted(caps)))
            && "enabled" in entry && "active" in entry
  {
  }

  lemma SmokeOfEntry(lib: Library, job: A.Job, id: string)
    requires id in job.workflows && CapabilitiesOf(RowsFor(job.rows, id)).Some?
    ensures Emitted(lib, job, id).Some?
    ensures var rows, entry := RowsFor(job.rows, id), Emitted(lib, job, id).value;
            entry == A.Entry(lib, id, job.workflows[id], rows, CapabilitiesOf(rows).value, Get(entry, "smoke"))
  {
  }

  // ---------------------------------------------------------------------------
  // The evidence that a document shows

  ghost predicate HasSetting(workflow: Fields, key: string) {
    "settings" in workflow && workflow["settings"].Obj? && key in workflow["settings"].fields
  }

  /** A setting of the workflow, or null. */
  function Setting(workflow: Fields, key: string): Value {
    if "settings" in workflow && workflow["settings"].Obj? && key in workflow["settings"].fields
    then workflow["settings"].fields[key] else Null
  }

  /** The settings that decide what is saved, as they are; progress is not saved by default. */
  ghost predicate ShowsSettings(workflow: Fields, shown: Fields) {
    && Says(shown, "saveDataErrorExecution", Setting(workflow, "saveDataErrorExecution"))
    && Says(shown, "saveDataSuccessExecution", Setting(workflow, "saveDataSuccessExecution"))
    && Says(shown, "saveManualExecutions", Setting(workflow, "saveManualExecutions"))
    && Says(shown, "saveExecutionProgress",
            if HasSetting(workflow, "saveExecutionProgress") then Setting(workflow, "saveExecutionProgress") else Bool(false))
  }

  lemma SummaryShows(workflow: Fields)
    ensures ShowsSettings(workflow, A.PersistenceSummary(workflow))
  {
  }

  /** The public part of evidence that shows all that the workflow's rows need. */
  ghost predicate ShowsEvidence(job: A.Job, id: string, smoke: Fields, public: Fields) {
    && "testedAt" in smoke && Says(public, "testedAt", smoke["testedAt"])
    && Says(public, "eventValidation", Bool(true)) && Says(public, "providerReceipt", Bool(true))
    && Says(public, "receiptBeforeRetry", Bool(true)) && Says(public, "credentialCheck", Bool(true))
    && Says(public, "executionClaim", if NeedsClaim(job.rows, id) then Bool(true) else Null)
    && Says(public, "claimContractVersion", Str("execution-claim-v1"))
    && Says(public, "receiptContractVersion", Str("execution-report-v1"))
    && if RoutedCarry(job.rows, id, "fan.lifecycle.welcome.v2") then Says(public, "welcomeActivation", Bool(true))
       else "welcomeActivation" !in public
  }

  lemma PublicIs(smoke: Fields, caps: set<string>, claim: bool)
    ensures var public := A.SmokePublic(smoke, caps, claim);
            && Says(public, "testedAt", Get(smoke, "testedAt"))
            && Says(public, "eventValidation", Bool(A.IsTrue(smoke, "eventValidation")))
            && Says(public, "providerReceipt", Bool(A.IsTrue(smoke, "providerReceipt")))
            && Says(public, "receiptBeforeRetry", Bool(A.IsTrue(smoke, "receiptBeforeRetry")))
            && Says(public, "credentialCheck", Bool(A.IsTrue(smoke, "credentialCheck")))
            && Says(public, "executionClaim", if claim then Get(smoke, "executionClaim") else Null)
            && Says(public, "claimContractVersion", Get(smoke, "claimContractVersion"))
            && Says(public, "receiptContractVersion", Get(smoke, "receiptContractVersion"))
            && if WELCOME in caps then Says(public, "welcomeActivation", Bool(A.IsTrue(smoke, "welcomeActivation")))
               else "welcomeActivation" !in public
  {
  }

  lemma EvidenceShown(lib: Library, job: A.Job, id: string, workflow: Fields, smoke: Fields, caps: set<string>)
    requires SmokeShows(lib, job, id, workflow, smoke) && forall c :: c in caps <==> RoutedCarry(job.rows, id, c)
    ensures ShowsEvidence(job, id, smoke, A.SmokePublic(smoke, caps, A.RequiresClaim(true, caps)))
  {
    assert A.RequiresClaim(true, caps) <==> NeedsClaim(job.rows, id);
    PublicIs(smoke, caps, A.RequiresClaim(true, caps));
  }

  ghost predicate ShowsPublic(job: A.Job, id: string, entry: Fields) {
    exists smoke, public :: HasSmoke(job, id, smoke) && Says(entry, "smoke", Obj(public)) && ShowsEvidence(job, id, smoke, public)
  }

  /** The settings that decide what is saved and, if the workflow is enabled, the public part
      of its evidence. */
  ghost predicate ShowsDetails(job: A.Job, id: string, entry: Fields)
    requires id in job.workflows
  {
    && (exists shown :: Says(entry, "persistence", Obj(shown)) && ShowsSettings(job.workflows[id], shown))
    && if Enabled(job.rows, id) then ShowsPublic(job, id, entry) else Says(entry, "smoke", Null)
  }

  /** In a produced document the entry of a workflow with an export shows these. */
  lemma EntryShows(lib: Library, job: A.Job, id: string)
    requires ValidLibrary(lib) && A.BuildOutcome(lib, job).Ok? && id in Ids(job.rows) && id in job.workflows
    ensures exists entry :: LastItem(EntriesOf(lib, job), id, entry) && ShowsDetails(job, id, entry)
  {
    var entry := EntryInDocument(lib, job, id);
    EntryDetails(lib, job, id);
  }

  lemma EntryInDocument(lib: Library, job: A.Job, id: string) returns (entry: Fields)
    requires ValidLibrary(lib) && A.BuildOutcome(lib, job).Ok? && id in Ids(job.rows) && id in job.workflows
    ensures A.Attested(lib, job, id) && CapabilitiesOf(RowsFor(job.rows, id)).Some?
    ensures Emitted(lib, job, id) == Some(entry) && LastItem(EntriesOf(lib, job), id, entry)
  {
    A.BuiltIffAttested(lib, job);
    assert A.Attested(lib, job, id);
    SmokeOfEntry(lib, job, id);
    EntriesById(lib, job, id);
    entry := Emitted(lib, job, id).value;
    LastItemIs(EntriesOf(lib, job), id, entry);
  }

  lemma EntryDetails(lib: Library, job: A.Job, id: string)
    requires id in job.workflows && CapabilitiesOf(RowsFor(job.rows, id)).Some? && A.Attested(lib, job, id)
    ensures Emitted(lib, job, id).Some? && ShowsDetails(job, id, Emitted(lib, job, id).value)
  {
    RoutedRows(job.rows, id);
    SummaryShows(job.workflows[id]);
    EmittedShows(lib, job, id);
    if Enabled(job.rows, id) { PublicShown(lib, job, id); }
  }

  lemma PublicShown(lib: Library, job: A.Job, id: string)
    requires id in job.workflows && CapabilitiesOf(RowsFor(job.rows, id)).Some? && A.Attested(lib, job, id) && Enabled(job.rows, id)
    ensures Emitted(lib, job, id).Some? && ShowsPublic(job, id, Emitted(lib, job, id).value)
  {
    RoutedRows(job.rows, id);
    EmittedShows(lib, job, id);
    var smoke := EvidenceOf(lib, job, id);
    EvidenceShown(lib, job, id, job.workflows[id], smoke, CapabilitiesOf(RowsFor(job.rows, id)).value);
  }

  lemma EvidenceOf(lib: Library, job: A.Job, id: string) returns (smoke: Fields)
    requires A.Attested(lib, job, id) && Enabled(job.rows, id)
    ensures id in job.workflows && HasSmoke(job, id, smoke) && A.SmokeResult(job, id) == Obj(smoke)
    ensures SmokeShows(lib, job, id, job.workflows[id], smoke)
  {
    AttestedIff(lib, job, id);
    var evidence, found :| job.smoke == Obj(evidence) && Says(evidence, id, Obj(found)) && SmokeShows(lib, job, id, job.workflows[id], found);
    smoke := found;
  }

  lemma EmittedShows(lib: Library, job: A.Job, id: string)
    requires id in job.workflows && CapabilitiesOf(RowsFor(job.rows, id)).Some?
    ensures Emitted(lib, job, id).Some?
    ensures var entry, caps, result := Emitted(lib, job, id).value, CapabilitiesOf(RowsFor(job.rows, id)).value, A.SmokeResult(job, id);
            && Says(entry, "persistence", Obj(A.PersistenceSummary(job.workflows[id])))
            && Says(entry, "smoke", if AnyEnabled(RowsFor(job.rows, id)) && result.Obj?
                                    then Obj(A.SmokePublic(result.fields, caps, A.RequiresClaim(true, caps))) else Null)
  {
  }
}
