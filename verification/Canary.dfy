/** The Rekor canary, scripts/rekor-canary.py: arm the rollback, enable a feature flag,
    wait for a confirmed batch, and undo the change when anything fails or a signal
    arrives. */
module Canary {
  import opened Prelude
  import opened Manifest

  // ---------------------------------------------------------------------------
  // Calls and what becomes of them

  datatype Error = Failure | Signal(signum: int)

  /** Everything a run does that the outside can answer, fail or interrupt. `Report` is
      the final print, and `Leave` the `finally` block. */
  datatype Request = Ready | Meta | ReadFlag | Processing | SetFlag(value: bool) | CreateBatch | Poll(batch: string)
                   | ReadEntry(url: string, id: string) | Report | Leave

  /** A reply; an error before the request took effect; or an error although the request
      reached the server, which applies what reaches it in order. */
  datatype Fate = Reply(payload: Value) | Before(error: Error) | Late(error: Error)

  datatype Event = Event(request: Request, fate: Fate)

  function ErrorOf(fate: Fate): Option<Error> {
    match fate
    case Reply(_) => None
    case Before(error) => Some(error)
    case Late(error) => Some(error)
  }

  /** A signal arrived. */
  predicate Cut(fate: Fate) { ErrorOf(fate).Some? && ErrorOf(fate).value.Signal? }

  function ErrorIn<T>(r: Result<T, Error>): Option<Error> { match r case Ok(_) => None case Err(error) => Some(error) }

  /** A signal is the last thing that happens, and the error it raises the one that goes on;
      any other error goes on without a signal. */
  ghost predicate Halts(log: seq<Event>, error: Option<Error>) {
    if error.Some? && error.value.Signal? then
      && log != [] && ErrorOf(log[|log| - 1].fate) == error
      && forall i | 0 <= i < |log| - 1 :: !Cut(log[i].fate)
    else forall i | 0 <= i < |log| :: !Cut(log[i].fate)
  }

  lemma HaltsMore(log: seq<Event>, e: Event, error: Option<Error>)
    requires Halts(log, None) && (ErrorOf(e.fate) == error || (ErrorOf(e.fate) == None && error == Some(Failure)))
    ensures Halts(log + [e], error)
  {
  }

  /** Events that do not ask to set the flag, and no report that came through. */
  ghost predicate Quiet(es: seq<Event>) {
    forall i | 0 <= i < |es| :: !es[i].request.SetFlag? && !(es[i].request.Report? && es[i].fate.Reply?)
  }

  /** A request to set the flag reached the server. */
  predicate Sets(e: Event, value: bool) { e.request == SetFlag(value) && !e.fate.Before? }

  ghost predicate Reached(log: seq<Event>, value: bool) { exists i | 0 <= i < |log| :: Sets(log[i], value) }

  lemma QuietReached(before: seq<Event>, es: seq<Event>, value: bool)
    requires Quiet(es)
    ensures Reached(before + es, value) <==> Reached(before, value)
  {
    var log := before + es;
    assert forall i | 0 <= i < |before| :: log[i] == before[i];
    if i :| 0 <= i < |before| && Sets(before[i], value) { assert Sets(log[i], value); }
  }

  lemma AppendReached(before: seq<Event>, e: Event, value: bool)
    ensures Reached(before + [e], value) <==> Reached(before, value) || Sets(e, value)
  {
    var log := before + [e];
    assert log[|before|] == e && forall i | 0 <= i < |before| :: log[i] == before[i];
    if i :| 0 <= i < |before| && Sets(before[i], value) { assert Sets(log[i], value); }
  }

  // ---------------------------------------------------------------------------
  // Replies

  function BuildOf(payload: Value): Value { if payload.Obj? then Get(payload.fields, "gitSha") else Null }

  predicate SaysBuild(payload: Value, sha: string) { BuildOf(payload) == Str(sha) }

  predicate SaysReady(payload: Value) { payload.Obj? && Get(payload.fields, "status") == Str("ready") }

  predicate NoBatches(payload: Value) { payload == Arr([]) }

  const FLAG := "external_proof_anchoring_enabled"

  /** The first item of the flag's name decides. */
  function FlagOf(items: seq<Value>): Option<bool> {
    if items == [] then None
    else if items[0].Obj? && Get(items[0].fields, "key") == Str(FLAG) then
      (match Get(items[0].fields, "enabled") case Bool(b) => Some(b) case _ => None)
    else FlagOf(items[1..])
  }

  function FlagIn(payload: Value): Option<bool> { if payload.Arr? then FlagOf(payload.items) else None }

  function BatchIn(payload: Value): Option<string> {
    var batch := if payload.Obj? then Get(payload.fields, "batch") else Null;
    if batch.Obj? && Get(batch.fields, "id").Str? then Some(Get(batch.fields, "id").s) else None
  }

  predicate StartsWith(s: string, prefix: string) { |prefix| <= |s| && s[..|prefix|] == prefix }

  predicate HexId(id: string) {
    64 <= |id| <= 128 && forall i | 0 <= i < |id| :: '0' <= id[i] <= '9' || 'a' <= id[i] <= 'f'
  }

  /** The coordinates of a confirmed batch's Rekor entry, with everything else the canary
      demands of the batch. */
  function Coordinates(safeUrl: string -> bool, payload: Value): Option<(string, string)> {
    if !payload.Obj? then None
    else
      var kind, url := Get(payload.fields, "anchor_kind"), Get(payload.fields, "anchor_url");
      var id, signer := Get(payload.fields, "anchor_entry_id"), Get(payload.fields, "signer_fingerprint");
      if kind != Str("sigstore.rekor.v1") || !url.Str? || !id.Str? || !signer.Str? then None
      else if !StartsWith(signer.s, "sha256:") || !safeUrl(url.s) || !HexId(id.s) then None
      else Some((url.s, id.s))
  }

  /** `entry_id in payload` */
  predicate HasEntry(payload: Value, id: string) {
    match payload
    case Obj(fields) => id in fields
    case Arr(items) => Str(id) in items
    case Str(s) => exists k | 0 <= k <= |s| :: StartsWith(s[k..], id)
    case _ => false
  }

  datatype Status = Succeeded | Failed | Dead | InProgress | Other

  function StatusOf(payload: Value): Status {
    var status := if payload.Obj? then Get(payload.fields, "status") else Null;
    if status == Str("confirmed") then Succeeded
    else if status == Str("failed") then Failed
    else if status == Str("dead") then Dead
    else if status == Str("processing") then InProgress
    else Other
  }

  function Observed(payload: Value): seq<Value> {
    if payload.Obj? then
      [Get(payload.fields, "status"), Get(payload.fields, "attempts"), Get(payload.fields, "max_attempts"),
       Get(payload.fields, "last_error_kind"), Get(payload.fields, "available_at")]
    else [Null, Null, Null, Null, Null]
  }

  /** How the replies are read. */
  datatype Checks = Checks(
    ready: Value -> bool,
    build: Value -> bool,
    noBatches: Value -> bool,
    flagIn: Value -> Option<bool>,
    batchIn: Value -> Option<string>,
    observed: Value -> seq<Value>,
    status: Value -> Status,
    coordinates: Value -> Option<(string, string)>,
    hasEntry: (Value, string) -> bool)

  /** The canary's own reading, for the expected build. */
  function CanaryChecks(sha: string, safeUrl: string -> bool): Checks {
    Checks(SaysReady, payload => SaysBuild(payload, sha), NoBatches, FlagIn, BatchIn, Observed, StatusOf,
           payload => Coordinates(safeUrl, payload), HasEntry)
  }

  // ---------------------------------------------------------------------------
  // The outside

  /** What becomes of the n-th request, made while the server's flag is as given. */
  type Outside = (nat, Request, bool) -> Fate

  /** A list of flags that has this one tells how it is set. */
  ghost predicate Honest(c: Checks, fate: Outside) {
    forall n: nat, enabled: bool | fate(n, ReadFlag, enabled).Reply? ::
      c.flagIn(fate(n, ReadFlag, enabled).payload) in {None, Some(enabled)}
  }

  /** A reply that lets the run go on; anything may become of the report, of a request to
      undo the change and of the `finally` block. */
  predicate Accepted(c: Checks, request: Request, enabled: bool, fate: Fate) {
    request.Report? || request.Leave? || request == SetFlag(false)
    || (fate.Reply?
        && match request
           case Ready => c.ready(fate.payload)
           case Meta => c.build(fate.payload)
           case ReadFlag => c.flagIn(fate.payload) == Some(enabled)
           case Processing => c.noBatches(fate.payload)
           case CreateBatch => c.batchIn(fate.payload).Some?
           case Poll(_) => c.status(fate.payload) == Succeeded && c.coordinates(fate.payload).Some?
           case ReadEntry(_, id) => c.hasEntry(fate.payload, id)
           case _ => true)
  }

  ghost predicate AllAccepted(c: Checks, fate: Outside) {
    forall n, request, enabled :: Accepted(c, request, enabled, fate(n, request, enabled))
  }

  ghost predicate AlwaysReports(fate: Outside) { forall n, enabled :: fate(n, Report, enabled).Reply? }

  ghost predicate NeverReports(fate: Outside) { forall n, enabled :: !fate(n, Report, enabled).Reply? }

  /** A request to disable the flag never reaches the server. */
  ghost predicate NeverUndoes(fate: Outside) {
    forall n, request, enabled | request == SetFlag(false) :: fate(n, request, enabled) == Before(Failure)
  }

  lemma NeverUndone(fate: Outside, n: nat, request: Request, enabled: bool)
    requires NeverUndoes(fate)
    ensures request == SetFlag(false) ==> fate(n, request, enabled) == Before(Failure)
  {
  }

  /** Three looks at the clock in a row show less than either timeout. */
  ghost predicate Quick(clock: nat -> int, timeout: int, readyTimeout: int) {
    forall n: nat :: clock(n + 1) < clock(n) + readyTimeout && clock(n + 2) < clock(n) + timeout
  }

  // ---------------------------------------------------------------------------
  // What a successful run has seen

  predicate Replied(e: Event, request: Request) { e.request == request && e.fate.Reply? }

  predicate ReadySeen(c: Checks, e: Event) { Replied(e, Ready) && c.ready(e.fate.payload) }

  predicate BuildSeen(c: Checks, e: Event) { Replied(e, Meta) && c.build(e.fate.payload) }

  predicate NoneSeen(c: Checks, e: Event) { Replied(e, Processing) && c.noBatches(e.fate.payload) }

  predicate FlagSeen(c: Checks, e: Event, value: bool) { Replied(e, ReadFlag) && c.flagIn(e.fate.payload) == Some(value) }

  /** A batch seen confirmed, with coordinates. */
  predicate ConfirmedSeen(c: Checks, e: Event) {
    e.request.Poll? && e.fate.Reply? && c.status(e.fate.payload) == Succeeded && c.coordinates(e.fate.payload).Some?
  }

  /** Its Rekor entry seen in the log. */
  predicate EntrySeen(c: Checks, e: Event, at: (string, string)) {
    Replied(e, ReadEntry(at.0, at.1)) && c.hasEntry(e.fate.payload, at.1)
  }

  /** Probes until one says ready, then the exact build, the flag, and no batch in
      progress, in front of everything else; the build check is event k. */
  predicate Preflighted(c: Checks, log: seq<Event>, k: nat, enabled: bool) {
    && 0 < k && k + 3 <= |log|
    && (forall i | 0 <= i < k :: log[i].request == Ready)
    && ReadySeen(c, log[k - 1]) && BuildSeen(c, log[k]) && FlagSeen(c, log[k + 1], enabled) && NoneSeen(c, log[k + 2])
  }

  ghost predicate Preflight(c: Checks, log: seq<Event>, enabled: bool) { exists k :: Preflighted(c, log, k, enabled) }

  /** A confirmed batch's Rekor entry, the exact build again, no batch in progress, and
      the flag read back as enabled. */
  predicate Verified(c: Checks, at: (string, string), es: seq<Event>) {
    |es| == 4 && EntrySeen(c, es[0], at) && BuildSeen(c, es[1]) && NoneSeen(c, es[2]) && FlagSeen(c, es[3], true)
  }

  /** Event k saw the batch confirmed, and what is behind it verifies everything. */
  predicate VerifiedFrom(c: Checks, es: seq<Event>, k: nat) {
    k < |es| && ConfirmedSeen(c, es[k]) && Verified(c, c.coordinates(es[k].fate.payload).value, es[k + 1..])
  }

  ghost predicate EndsVerified(c: Checks, es: seq<Event>) { exists k :: VerifiedFrom(c, es, k) }

  lemma VerifiedBehind(c: Checks, seen: Event, es: seq<Event>)
    requires ConfirmedSeen(c, seen) && Verified(c, c.coordinates(seen.fate.payload).value, es)
    ensures EndsVerified(c, [seen] + es)
  {
    assert ([seen] + es)[1..] == es;
    assert VerifiedFrom(c, [seen] + es, 0);
  }

  lemma EndsVerifiedBehind(c: Checks, before: seq<Event>, es: seq<Event>)
    requires EndsVerified(c, es)
    ensures EndsVerified(c, before + es)
  {
    var k :| VerifiedFrom(c, es, k);
    assert (before + es)[|before| + k + 1..] == es[k + 1..];
    assert VerifiedFrom(c, before + es, |before| + k);
  }

  /** The body of the run came to its report. */
  predicate Reported(body: seq<Event>) { body != [] && Replied(body[|body| - 1], Report) }

  lemma PreflightKept(c: Checks, before: seq<Event>, es: seq<Event>, enabled: bool)
    requires Preflight(c, before, enabled)
    ensures Preflight(c, before + es, enabled)
  {
    var k :| Preflighted(c, before, k, enabled);
    assert forall i | 0 <= i < |before| :: (before + es)[i] == before[i];
    assert Preflighted(c, before + es, k, enabled);
  }

  ghost predicate Increasing(clock: nat -> int) { forall m: nat, n: nat | m < n :: clock(m) < clock(n) }

  const SIGINT := 2

  /** What was seen of the batch last, and when it changed. */
  datatype Progress = Progress(last: Option<seq<Value>>, at: int)

  /** `Escaped`: an exception left `main`. */
  datatype Exit = Returned(code: int) | Escaped

  // ---------------------------------------------------------------------------
  // What a run amounts to

  /** What happened before `finally`: the preflight checks; the request to enable the
      flag, if it was off; what came after; how the `try` block ended; and the request to
      undo the change, if that was called for. */
  datatype Body = Body(prepared: seq<Event>, armed: Option<Event>, rest: seq<Event>, result: Result<(), Error>, undone: Option<Event>)

  function Only(e: Option<Event>): seq<Event> { if e.Some? then [e.value] else [] }

  function EventsOf(b: Body): seq<Event> { TriedEvents(b) + Only(b.undone) }

  predicate Hit(e: Option<Event>) { e.Some? && !e.value.fate.Before? }

  /** Everything verified in front of the report. */
  ghost predicate CompletedBy(c: Checks, es: seq<Event>) {
    exists head, last :: es == head + [last] && Replied(last, Report) && Quiet(head) && EndsVerified(c, head)
  }

  /** Preflight checks in front, and everything verified in front of the report. */
  ghost predicate SucceededOf(c: Checks, b: Body, enabled: bool) {
    Preflight(c, b.prepared, enabled) && CompletedBy(c, b.rest)
  }

  /** What the `try` block does, and where it leaves the flag to settle. */
  ghost predicate TriedOf(c: Checks, b: Body, enabled: bool, settled: bool) {
    && Quiet(b.prepared)
    && (b.armed.Some? ==> b.armed.value.request == SetFlag(true) && !enabled)
    && settled == (enabled || Hit(b.armed)) && Halts(TriedEvents(b), ErrorIn(b.result))
    && if b.result.Ok? then SucceededOf(c, b, enabled) && settled else Quiet(b.rest)
  }

  function TriedEvents(b: Body): seq<Event> { b.prepared + Only(b.armed) + b.rest }

  /** The log of the `try` block. */
  ghost predicate TryOf(c: Checks, log: seq<Event>, enabled: bool, settled: bool, armed: bool, result: Result<(), Error>) {
    exists b :: TriedOf(c, b, enabled, settled) && log == TriedEvents(b) && b.armed.Some? == armed && b.result == result
  }

  /** The body of a run that found the flag like this, and left it to settle like that. */
  ghost predicate BodyOf(c: Checks, b: Body, enabled: bool, settled: bool) {
    && TriedOf(c, b, enabled, enabled || Hit(b.armed))
    && (b.undone.Some? <==> b.result.Err? && b.armed.Some?)
    && (b.undone.Some? ==> b.undone.value.request == SetFlag(false))
    && settled == (!Hit(b.undone) && (enabled || Hit(b.armed)))
  }

  function CodeOf(error: Error): int { if error.Signal? then if error.signum == SIGINT then 130 else 143 else 1 }

  predicate Interrupted(e: Option<Event>) { e.Some? && Cut(e.value.fate) }

  /** How `main` would be left, but for its `finally` block. */
  function ExitBefore(result: Result<(), Error>, undone: Option<Event>): Exit {
    if Interrupted(undone) then Escaped else if result.Ok? then Returned(0) else Returned(CodeOf(result.error))
  }

  /** The exits behind a message that the flag is restored. */
  predicate SaysRestored(exit: Exit) { exit in {Returned(1), Returned(130), Returned(143)} }

  function ExitAfter(exit: Exit, leave: Fate): Exit { if leave.Reply? then exit else Escaped }

  /** The log in front of the `finally` block. */
  ghost predicate ProtectedOf(c: Checks, log: seq<Event>, enabled: bool, settled: bool, exit: Exit) {
    exists b :: BodyOf(c, b, enabled, settled) && log == EventsOf(b) && exit == ExitBefore(b.result, b.undone)
  }

  /** The log of a whole run that found the flag like this, left it to settle like that,
      and ended so. */
  ghost predicate RunOf(c: Checks, log: seq<Event>, enabled: bool, settled: bool, exit: Exit) {
    exists b, leave :: BodyOf(c, b, enabled, settled) && Ends(log, b, leave, exit)
  }

  predicate Ends(log: seq<Event>, b: Body, leave: Fate, exit: Exit) {
    log == EventsOf(b) + [Event(Leave, leave)] && exit == ExitAfter(ExitBefore(b.result, b.undone), leave)
  }

  lemma OnlyReached(before: seq<Event>, e: Option<Event>)
    ensures Reached(before + Only(e), true) <==> Reached(before, true) || (e.Some? && Sets(e.value, true))
    ensures Reached(before + Only(e), false) <==> Reached(before, false) || (e.Some? && Sets(e.value, false))
  {
    if e.Some? {
      AppendReached(before, e.value, true);
      AppendReached(before, e.value, false);
    } else {
      assert before + Only(e) == before;
    }
  }

  lemma CompletedReached(c: Checks, before: seq<Event>, es: seq<Event>, value: bool)
    requires CompletedBy(c, es)
    ensures Reached(before + es, value) <==> Reached(before, value)
  {
    var head, last :| es == head + [last] && Replied(last, Report) && Quiet(head) && EndsVerified(c, head);
    QuietReached(before, head, value);
    AppendReached(before + head, last, value);
    assert before + es == before + head + [last];
  }

  lemma TriedReached(c: Checks, b: Body, enabled: bool, settled: bool)
    requires BodyOf(c, b, enabled, settled)
    ensures var tried := b.prepared + Only(b.armed) + b.rest;
            !Reached(tried, false) && (Reached(tried, true) <==> Hit(b.armed))
  {
    var armed := b.prepared + Only(b.armed);
    OnlyReached(b.prepared, b.armed);
    if b.result.Ok? {
      CompletedReached(c, armed, b.rest, true);
      CompletedReached(c, armed, b.rest, false);
    } else {
      QuietReached(armed, b.rest, true);
      QuietReached(armed, b.rest, false);
    }
  }

  lemma RunReached(c: Checks, b: Body, enabled: bool, settled: bool, leave: Fate)
    requires BodyOf(c, b, enabled, settled)
    ensures var log := EventsOf(b) + [Event(Leave, leave)];
            (Reached(log, true) <==> Hit(b.armed)) && (Reached(log, false) <==> Hit(b.undone))
  {
    TriedReached(c, b, enabled, settled);
    OnlyReached(b.prepared + Only(b.armed) + b.rest, b.undone);
    OnlyReached(EventsOf(b), Some(Event(Leave, leave)));
  }

  /** A run returns 0 only after the exact build, the flag as it was and no batch in
      progress had been seen in front of everything else, and then a confirmed batch, its
      Rekor entry, the exact build again, no batch in progress and the flag enabled as the
      last things before the report; and the flag settles to enabled. */
  lemma ZeroIsVerified(c: Checks, log: seq<Event>, enabled: bool, settled: bool)
    requires RunOf(c, log, enabled, settled, Returned(0))
    ensures Preflight(c, log, enabled) && settled
    ensures |log| >= 2 && Replied(log[|log| - 2], Report) && EndsVerified(c, log[..|log| - 2])
  {
    var b, leave :| BodyOf(c, b, enabled, settled) && Ends(log, b, leave, Returned(0));
    var head, last :| b.rest == head + [last] && Replied(last, Report) && Quiet(head) && EndsVerified(c, head);
    SplitLog(b, head, last, leave);
    PiecesVerified(c, log, b.prepared, Only(b.armed), head, last, leave, enabled);
  }

  lemma PiecesVerified(c: Checks, log: seq<Event>, prepared: seq<Event>, armed: seq<Event>, head: seq<Event>, last: Event, leave: Fate, enabled: bool)
    requires Preflight(c, prepared, enabled) && EndsVerified(c, head) && Replied(last, Report)
    requires log == prepared + armed + head + [last, Event(Leave, leave)]
    ensures Preflight(c, log, enabled)
    ensures |log| >= 2 && Replied(log[|log| - 2], Report) && EndsVerified(c, log[..|log| - 2])
  {
    var front, tail := prepared + armed, [last, Event(Leave, leave)];
    assert log == prepared + (armed + head + tail) && log[..|log| - 2] == front + head;
    PreflightKept(c, prepared, armed + head + tail, enabled);
    EndsVerifiedBehind(c, front, head);
  }

  lemma SplitLog(b: Body, head: seq<Event>, last: Event, leave: Fate)
    requires b.rest == head + [last] && b.undone.None?
    ensures var log, front, tail := EventsOf(b) + [Event(Leave, leave)], b.prepared + Only(b.armed), [last, Event(Leave, leave)];
            log == front + head + tail && log == b.prepared + (Only(b.armed) + head + tail)
  {
  }

  /** Any run that does not return 0 leaves the flag to settle as it was found, exactly
      when enabling it never reached the server, or undoing it did. */
  lemma RestoredIff(c: Checks, log: seq<Event>, enabled: bool, settled: bool, exit: Exit)
    requires RunOf(c, log, enabled, settled, exit) && exit != Returned(0)
    ensures settled == enabled <==> enabled || !Reached(log, true) || Reached(log, false)
  {
    var b, leave :| BodyOf(c, b, enabled, settled) && Ends(log, b, leave, exit);
    RunReached(c, b, enabled, settled, leave);
  }

  /** Where it is left changed, either the request to undo never reached the server, or
      the run had succeeded and its `finally` block was interrupted: nothing then tries to
      undo the change, though the run does not return 0. */
  lemma LeftChanged(c: Checks, log: seq<Event>, enabled: bool, settled: bool, exit: Exit) returns (last: Event)
    requires RunOf(c, log, enabled, settled, exit) && exit != Returned(0) && settled != enabled
    ensures |log| >= 2 && last == log[|log| - 2]
    ensures (last.request == SetFlag(false) && last.fate.Before?) || (Replied(last, Report) && exit == Escaped)
  {
    var b, leave :| BodyOf(c, b, enabled, settled) && Ends(log, b, leave, exit);
    if b.undone.Some? {
      last := b.undone.value;
    } else {
      var head, report :| b.rest == head + [report] && Replied(report, Report) && Quiet(head) && EndsVerified(c, head);
      last := report;
      SplitLog(b, head, last, leave);
    }
  }

  /** Exactly when a failed run leaves the flag changed: it was off, enabling it reached
      the server, and the last thing in front of the `finally` block was the report of a
      run that had succeeded, or a request to undo that never reached the server. */
  lemma LeftChangedIff(c: Checks, log: seq<Event>, enabled: bool, settled: bool, exit: Exit)
    requires RunOf(c, log, enabled, settled, exit) && exit != Returned(0)
    ensures settled != enabled <==> !enabled && Reached(log, true) && |log| >= 2 && NotUndone(log[|log| - 2])
  {
    var b, leave :| BodyOf(c, b, enabled, settled) && Ends(log, b, leave, exit);
    RunReached(c, b, enabled, settled, leave);
    if settled != enabled {
      var last := LeftChanged(c, log, enabled, settled, exit);
    } else if !enabled && Reached(log, true) {
      LastUndoes(b, leave);
    }
  }

  predicate NotUndone(e: Event) { Replied(e, Report) || (e.request == SetFlag(false) && e.fate.Before?) }

  lemma LastUndoes(b: Body, leave: Fate)
    requires b.undone.Some?
    ensures var log := EventsOf(b) + [Event(Leave, leave)]; |log| >= 2 && log[|log| - 2] == b.undone.value
  {
  }

  lemma Continue(c: Checks, before: seq<Event>, es: seq<Event>)
    requires Quiet(before) && Quiet(es)
    ensures Quiet(before + es) && (EndsVerified(c, es) ==> EndsVerified(c, before + es))
  {
    if EndsVerified(c, es) { EndsVerifiedBehind(c, before, es); }
  }

  lemma Reports(c: Checks, es: seq<Event>, last: Event)
    requires Quiet(es) && EndsVerified(c, es) && last.request == Report
    ensures if last.fate.Reply? then CompletedBy(c, es + [last]) else Quiet(es + [last])
  {
  }

  /** What the `try` block does behind the preflight checks. */
  ghost predicate ActedOf(c: Checks, es: seq<Event>, enabled: bool, settled: bool, result: Result<(), Error>) {
    exists armed, rest :: Acted(c, armed, rest, enabled, settled, result) && es == Only(armed) + rest
  }

  ghost predicate Acted(c: Checks, armed: Option<Event>, rest: seq<Event>, enabled: bool, settled: bool, result: Result<(), Error>) {
    && armed.Some? == !enabled && (armed.Some? ==> armed.value.request == SetFlag(true))
    && settled == (enabled || Hit(armed))
    && if result.Ok? then CompletedBy(c, rest) && settled else Quiet(rest)
  }

  lemma ActedBy(c: Checks, armed: Option<Event>, rest: seq<Event>, enabled: bool, result: Result<(), Error>)
    requires armed.Some? == !enabled && (armed.Some? ==> armed.value.request == SetFlag(true))
    requires if result.Ok? then CompletedBy(c, rest) && (enabled || Hit(armed)) else Quiet(rest)
    ensures ActedOf(c, Only(armed) + rest, enabled, enabled || Hit(armed), result)
  {
    assert Acted(c, armed, rest, enabled, enabled || Hit(armed), result);
  }

  lemma NotActed(c: Checks, armed: Option<Event>, enabled: bool, result: Result<(), Error>)
    requires armed.Some? == !enabled && (armed.Some? ==> armed.value.request == SetFlag(true)) && result.Err?
    ensures ActedOf(c, Only(armed), enabled, enabled || Hit(armed), result)
  {
    assert Only(armed) + [] == Only(armed);
    ActedBy(c, armed, [], enabled, result);
  }

  lemma Regroup(before: seq<Event>, a: seq<Event>, b: seq<Event>)
    ensures (before + a) + b == before + (a + b)
  {
  }

  lemma TriedJoin(b: Body, es: seq<Event>)
    requires es == Only(b.armed) + b.rest
    ensures b.prepared + es == TriedEvents(b)
  {
  }

  lemma TryBy(c: Checks, log: seq<Event>, prepared: seq<Event>, es: seq<Event>, enabled: bool, settled: bool, result: Result<(), Error>)
    requires log == prepared + es && Halts(log, ErrorIn(result))
    requires Quiet(prepared) && Preflight(c, prepared, enabled) && ActedOf(c, es, enabled, settled, result)
    ensures TryOf(c, log, enabled, settled, !enabled, result)
  {
    var armed, rest :| Acted(c, armed, rest, enabled, settled, result) && es == Only(armed) + rest;
    var b := Body(prepared, armed, rest, result, None);
    TriedJoin(b, es);
    assert TriedOf(c, b, enabled, settled);
  }

  lemma NotTried(c: Checks, prepared: seq<Event>, enabled: bool, result: Result<(), Error>)
    requires Quiet(prepared) && result.Err? && Halts(prepared, ErrorIn(result))
    ensures TryOf(c, prepared, enabled, enabled, false, result)
  {
    var b := Body(prepared, None, [], result, None);
    assert prepared == TriedEvents(b);
    assert TriedOf(c, b, enabled, enabled);
  }

  lemma OkSettles(c: Checks, log: seq<Event>, enabled: bool, settled: bool, armed: bool, result: Result<(), Error>)
    requires TryOf(c, log, enabled, settled, armed, result) && result.Ok?
    ensures settled
  {
  }

  lemma ProtectedBy(c: Checks, tried: seq<Event>, undone: Option<Event>, enabled: bool, before: bool, armed: bool, result: Result<(), Error>)
    requires TryOf(c, tried, enabled, before, armed, result) && (undone.Some? <==> result.Err? && armed)
    requires undone.Some? ==> undone.value.request == SetFlag(false)
    ensures ProtectedOf(c, tried + Only(undone), enabled, before && !Hit(undone), ExitBefore(result, undone))
  {
    var b :| TriedOf(c, b, enabled, before) && tried == TriedEvents(b) && b.armed.Some? == armed && b.result == result;
    assert BodyOf(c, b.(undone := undone), enabled, before && !Hit(undone));
  }

  lemma RunBy(c: Checks, log: seq<Event>, leave: Fate, enabled: bool, settled: bool, exit: Exit)
    requires ProtectedOf(c, log, enabled, settled, exit)
    ensures RunOf(c, log + [Event(Leave, leave)], enabled, settled, ExitAfter(exit, leave))
  {
    var b :| BodyOf(c, b, enabled, settled) && log == EventsOf(b) && exit == ExitBefore(b.result, b.undone);
    assert Ends(log + [Event(Leave, leave)], b, leave, ExitAfter(exit, leave));
  }

  // ---------------------------------------------------------------------------
  // The run

  class Run {
    const checks: Checks
    const timeout: int
    const readyTimeout: int
    const stalled: int
    const fate: Outside
    /** What the n-th look at the clock shows. */
    const clock: nat -> int

    /** The server's flag, and the requests it has yet to apply. */
    var flag: bool
    var queue: seq<bool>
    var calls: nat
    var looks: nat
    var flagMutated: bool
    var previousFlagState: bool
    ghost var log: seq<Event>

    constructor (checks: Checks, timeout: int, readyTimeout: int, stalled: int,
                 fate: Outside, clock: nat -> int, enabled: bool)
      ensures this.fate == fate && this.clock == clock && this.checks == checks
      ensures this.timeout == timeout && this.readyTimeout == readyTimeout
      ensures flag == enabled && queue == [] && log == [] && !flagMutated
    {
      this.checks, this.timeout, this.readyTimeout, this.stalled := checks, timeout, readyTimeout, stalled;
      this.fate, this.clock, calls, looks := fate, clock, 0, 0;
      flag, queue, flagMutated, previousFlagState, log := enabled, [], false, false, [];
    }

    /** The flag once the server has applied everything that reached it. */
    predicate Settled()
      reads this
    {
      if queue == [] then flag else queue[|queue| - 1]
    }

    /** The clock runs, and the flag is never misreported. */
    ghost predicate Valid() { Increasing(clock) && Honest(checks, fate) }

    /** Nothing fails up to the report. */
    ghost predicate Calm() { AllAccepted(checks, fate) && Quick(clock, timeout, readyTimeout) }

    ghost predicate Printing() { AlwaysReports(fate) }

    ghost predicate Mute() { NeverReports(fate) }

    ghost predicate Unheard() { NeverUndoes(fate) }

    /** What becomes of the next request. */
    method Next(request: Request) returns (f: Fate)
      modifies `calls, `log
      ensures log == old(log) + [Event(request, f)] && f == fate(old(calls), request, flag)
      ensures Calm() ==> Accepted(checks, request, flag, f)
    {
      f := fate(calls, request, flag);
      calls := calls + 1;
      log := log + [Event(request, f)];
    }

    /** A request that does not set the flag. */
    method Ask(request: Request) returns (reply: Result<Value, Error>, ghost e: Event)
      requires !request.SetFlag?
      requires Halts(log, None)
      modifies `calls, `log
      ensures log == old(log) + [e] && e == Event(request, fate(old(calls), request, flag))
      ensures match reply case Ok(payload) => e.fate == Reply(payload) case Err(error) => ErrorOf(e.fate) == Some(error)
      ensures Calm() ==> Accepted(checks, request, flag, e.fate)
      ensures Halts(log, ErrorIn(reply))
    {
      var f := Next(request);
      e := Event(request, f);
      HaltsMore(old(log), e, ErrorOf(f));
      match f
      case Reply(payload) => reply := Ok(payload);
      case Before(error) => reply := Err(error);
      case Late(error) => reply := Err(error);
    }

    /** `set_flag`: a reply comes after the server has applied all that reached it. */
    method SetFlagTo(value: bool) returns (r: Result<(), Error>, ghost e: Event)
      modifies `flag, `queue, `calls, `log
      ensures log == old(log) + [e] && e.request == SetFlag(value)
      ensures Settled() == if e.fate.Before? then old(Settled()) else value
      ensures r.Ok? ==> e.fate.Reply? && flag == value && queue == []
      ensures r.Err? ==> ErrorOf(e.fate) == Some(r.error)
      ensures Calm() && value ==> r.Ok?
      ensures Unheard() && !value ==> e.fate == Before(Failure)
    {
      if NeverUndoes(fate) { NeverUndone(fate, calls, SetFlag(value), flag); }
      var f := Next(SetFlag(value));
      e := Event(SetFlag(value), f);
      match f
      case Reply(_) =>
        flag, queue := value, [];
        r := Ok(());
      case Before(error) => r := Err(error);
      case Late(error) =>
        queue := queue + [value];
        r := Err(error);
    }

    /** The error of a request, or the failure to accept its reply. */
    static function FailedBy(e: Event): Result<(), Error> {
      Err(match ErrorOf(e.fate) case Some(error) => error case None => Failure)
    }

    method RequireExactBuild() returns (r: Result<(), Error>, ghost e: Event)
      requires Halts(log, None)
      modifies `calls, `log
      ensures log == old(log) + [e] && e.request == Meta
      ensures r == if BuildSeen(checks, e) then Ok(()) else FailedBy(e)
      ensures Calm() ==> r.Ok?
      ensures Halts(log, ErrorIn(r))
    {
      var meta;
      meta, e := Ask(Meta);
      r := if meta.Err? then Err(meta.error) else if checks.build(meta.value) then Ok(()) else Err(Failure);
    }

    method RequireNoProcessing() returns (r: Result<(), Error>, ghost e: Event)
      requires Halts(log, None)
      modifies `calls, `log
      ensures log == old(log) + [e] && e.request == Processing
      ensures r == if NoneSeen(checks, e) then Ok(()) else FailedBy(e)
      ensures Calm() ==> r.Ok?
      ensures Halts(log, ErrorIn(r))
    {
      var batches;
      batches, e := Ask(Processing);
      r := if batches.Err? then Err(batches.error) else if checks.noBatches(batches.value) then Ok(()) else Err(Failure);
    }

    /** The flag as the server tells it. */
    method CurrentFlag() returns (r: Result<bool, Error>, ghost e: Event)
      requires Valid()
      requires Halts(log, None)
      modifies `calls, `log
      ensures log == old(log) + [e] && e.request == ReadFlag
      ensures r.Ok? ==> FlagSeen(checks, e, r.value) && r.value == flag
      ensures r.Err? ==> Err(r.error) == FailedBy(e) && (e.fate.Reply? ==> checks.flagIn(e.fate.payload).None?)
      ensures Calm() ==> r.Ok?
      ensures Halts(log, ErrorIn(r))
    {
      var payload;
      payload, e := Ask(ReadFlag);
      if payload.Err? { return Err(payload.error), e; }
      var state := checks.flagIn(payload.value);
      r := if state.Some? then Ok(state.value) else Err(Failure);
    }

    method Now() returns (now: int)
      modifies `looks
      ensures now == clock(old(looks)) && looks == old(looks) + 1
    {
      now := clock(looks);
      looks := looks + 1;
    }

    /** Probes until one says ready or is cut short by a signal, or the time is over. */
    method WaitReady() returns (r: Result<(), Error>, ghost es: seq<Event>)
      requires Valid()
      requires Halts(log, None)
      modifies `calls, `log, `looks
      ensures log == old(log) + es && forall i | 0 <= i < |es| :: es[i].request == Ready
      ensures forall i | 0 <= i < |es| - 1 :: !ReadySeen(checks, es[i]) && !Cut(es[i].fate)
      ensures r.Ok? <==> es != [] && ReadySeen(checks, es[|es| - 1])
      ensures r.Err? && r.error.Signal? <==> es != [] && Cut(es[|es| - 1].fate)
      ensures r.Err? && r.error.Signal? ==> ErrorOf(es[|es| - 1].fate) == Some(r.error)
      ensures r == Err(Failure) ==> looks > 0 && clock(looks - 1) >= clock(old(looks)) + readyTimeout
      ensures Calm() ==> r.Ok?
      ensures Halts(log, ErrorIn(r))
    {
      es := [];
      var start := Now();
      var deadline := start + readyTimeout;
      var now := Now();
      while now < deadline
        invariant log == old(log) + es && forall i | 0 <= i < |es| :: es[i].request == Ready
        invariant forall i | 0 <= i < |es| :: !ReadySeen(checks, es[i]) && !Cut(es[i].fate)
        invariant looks > 0 && now == clock(looks - 1) && Halts(log, None)
        invariant Calm() ==> now < deadline
        decreases deadline - now
      {
        var ready, e := Ask(Ready);
        es := es + [e];
        assert log == old(log) + es;
        if ready.Ok? && checks.ready(ready.value) { return Ok(()), es; }
        if ready.Err? && ready.error.Signal? { return Err(ready.error), es; }
        now := Now();
      }
      return Err(Failure), es;
    }

    /** Up to the preflight checks. */
    method Prepare() returns (r: Result<(), Error>, ghost es: seq<Event>)
      requires Valid()
      requires Halts(log, None)
      modifies `calls, `log, `looks, `previousFlagState
      ensures log == old(log) + es && Quiet(es)
      ensures r.Ok? ==> Preflight(checks, es, flag) && previousFlagState == flag
      ensures Calm() ==> r.Ok?
      ensures Halts(log, ErrorIn(r))
    {
      r, es := WaitReady();
      if r.Err? { return; }
      var build, e1 := RequireExactBuild();
      es := es + [e1];
      if build.Err? { return build, es; }
      var state, e2 := CurrentFlag();
      es := es + [e2];
      if state.Err? { return Err(state.error), es; }
      previousFlagState := state.value;
      var none, e3 := RequireNoProcessing();
      es := es + [e3];
      assert none.Ok? ==> Preflighted(checks, es, |es| - 3, flag);
      return none, es;
    }

    /** `verify_rekor_entry` */
    method VerifyEntry(at: (string, string)) returns (r: Result<(), Error>, ghost e: Event)
      requires Halts(log, None)
      modifies `calls, `log
      ensures log == old(log) + [e] && e.request == ReadEntry(at.0, at.1)
      ensures r == if EntrySeen(checks, e, at) then Ok(()) else FailedBy(e)
      ensures Calm() ==> r.Ok?
      ensures Halts(log, ErrorIn(r))
    {
      var payload;
      payload, e := Ask(ReadEntry(at.0, at.1));
      r := if payload.Err? then Err(payload.error) else if checks.hasEntry(payload.value, at.1) then Ok(()) else Err(Failure);
    }

    /** The checks after confirmation. */
    method VerifyConfirmed(at: (string, string)) returns (r: Result<(), Error>, ghost es: seq<Event>)
      requires Valid()
      requires Halts(log, None)
      modifies `calls, `log
      ensures log == old(log) + es && Quiet(es)
      ensures r.Ok? ==> Verified(checks, at, es) && flag
      ensures Calm() && flag ==> r.Ok?
      ensures Halts(log, ErrorIn(r))
    {
      var entry, e0 := VerifyEntry(at);
      es := [e0];
      if entry.Err? { return entry, es; }
      var build, e1 := RequireExactBuild();
      es := [e0, e1];
      if build.Err? { return build, es; }
      var none, e2 := RequireNoProcessing();
      es := [e0, e1, e2];
      if none.Err? { return none, es; }
      var enabled, e3 := CurrentFlag();
      es := [e0, e1, e2, e3];
      if enabled.Err? { return Err(enabled.error), es; }
      if !enabled.value { return Err(Failure), es; }
      return Ok(()), es;
    }

    static predicate Passed(verdict: Option<Result<(), Error>>) { verdict.Some? && verdict.value.Ok? }

    /** What a poll's reply leads to; None means another round. A confirmed batch is
        verified, a failed or dead one ends the run, and so does one that is in progress
        but did not move for too long. */
    ghost predicate Judged(current: Value, at: int, verdict: Option<Result<(), Error>>, es: seq<Event>)
      reads this
    {
      match checks.status(current)
      case Succeeded =>
        && verdict.Some?
        && (checks.coordinates(current).None? ==> verdict.value == Err(Failure) && es == [])
        && (Passed(verdict) ==> checks.coordinates(current).Some? && Verified(checks, checks.coordinates(current).value, es) && flag)
      case InProgress =>
        es == [] && looks > 0 && verdict == if clock(looks - 1) - at >= stalled then Some(Err(Failure)) else None
      case Other => es == [] && verdict.None?
      case _ => es == [] && verdict == Some(Err(Failure))
    }

    method Judge(current: Value, at: int) returns (verdict: Option<Result<(), Error>>, ghost es: seq<Event>)
      requires Valid()
      requires Halts(log, None)
      modifies `calls, `log, `looks
      ensures log == old(log) + es && Quiet(es) && looks >= old(looks)
      ensures Judged(current, at, verdict, es)
      ensures Calm() && flag && checks.coordinates(current).Some? && checks.status(current) == Succeeded ==> Passed(verdict)
      ensures Halts(log, if verdict.Some? then ErrorIn(verdict.value) else None)
    {
      es := [];
      match checks.status(current)
      case Succeeded =>
        var coordinates := checks.coordinates(current);
        if coordinates.None? { return Some(Err(Failure)), es; }
        var r;
        r, es := VerifyConfirmed(coordinates.value);
        verdict := Some(r);
      case Failed => verdict := Some(Err(Failure));
      case Dead => verdict := Some(Err(Failure));
      case InProgress =>
        var now := Now();
        verdict := if now - at >= stalled then Some(Err(Failure)) else None;
      case Other => verdict := None;
    }

    /** One round of the polling loop. The time of progress stays while replies look alike. */
    method Poll(batch: string, progress: Progress)
      returns (verdict: Option<Result<(), Error>>, next: Progress, ghost e: Event, ghost rest: seq<Event>)
      requires Valid()
      requires Halts(log, None)
      modifies `calls, `log, `looks
      ensures log == old(log) + [e] + rest && Quiet(rest) && e.request == Request.Poll(batch) && looks >= old(looks)
      ensures match e.fate
              case Reply(current) =>
                && next.last == Some(checks.observed(current)) && (progress.last == next.last ==> next == progress)
                && Judged(current, next.at, verdict, rest)
              case _ => verdict == Some(FailedBy(e)) && rest == []
      ensures Calm() && flag ==> Passed(verdict)
      ensures Halts(log, if verdict.Some? then ErrorIn(verdict.value) else None)
    {
      next, rest := progress, [];
      var reply;
      reply, e := Ask(Request.Poll(batch));
      if reply.Err? { return Some(Err(reply.error)), next, e, []; }
      var current := reply.value;
      if next.last != Some(checks.observed(current)) {
        var now := Now();
        next := Progress(Some(checks.observed(current)), now);
      }
      verdict, rest := Judge(current, next.at);
    }

    lemma PollVerifies(e: Event, at: int, verdict: Option<Result<(), Error>>, rest: seq<Event>)
      requires e.request.Poll? && e.fate.Reply? && Judged(e.fate.payload, at, verdict, rest) && Passed(verdict)
      ensures EndsVerified(checks, [e] + rest) && flag
    {
      VerifiedBehind(checks, e, rest);
    }

    /** The polling loop, up to the report. */
    method Watch(batch: string) returns (r: Result<(), Error>, ghost es: seq<Event>)
      requires Valid()
      requires Halts(log, None)
      modifies `calls, `log, `looks
      ensures log == old(log) + es && Quiet(es)
      ensures r.Ok? ==> EndsVerified(checks, es) && flag
      ensures Calm() && flag ==> r.Ok?
      ensures Halts(log, ErrorIn(r))
    {
      es := [];
      var start := Now();
      var deadline := start + timeout;
      var at := Now();
      var progress := Progress(None, at);
      var now := Now();
      while now < deadline
        invariant log == old(log) + es && Quiet(es)
        invariant looks > 0 && now == clock(looks - 1) && Halts(log, None)
        invariant Calm() && flag ==> now < deadline
        decreases deadline - now
      {
        var verdict, next, e, rest := Poll(batch, progress);
        ghost var before, round := es, [e] + rest;
        progress, es := next, before + round;
        assert log == old(log) + es;
        Continue(checks, before, round);
        if verdict.Some? {
          if Passed(verdict) { PollVerifies(e, next.at, verdict, rest); Continue(checks, before, round); }
          return verdict.value, es;
        }
        now := Now();
      }
      return Err(Failure), es;
    }

    /** Arms the rollback, then enables the flag, unless it was enabled before. */
    method Arm() returns (r: Result<(), Error>, ghost armed: Option<Event>)
      requires queue == [] && !flagMutated && previousFlagState == flag
      requires Halts(log, None)
      modifies `flag, `queue, `calls, `log, `flagMutated
      ensures log == old(log) + Only(armed) && flagMutated == armed.Some? == !old(flag)
      ensures armed.Some? ==> armed.value.request == SetFlag(true)
      ensures Settled() == (old(flag) || Hit(armed))
      ensures r.Ok? ==> Settled() && flag
      ensures Calm() ==> r.Ok?
      ensures Halts(log, ErrorIn(r))
    {
      if previousFlagState { return Ok(()), None; }
      flagMutated := true;
      ghost var e;
      r, e := SetFlagTo(true);
      HaltsMore(old(log), e, ErrorIn(r));
      armed := Some(e);
    }

    method Create() returns (r: Result<string, Error>, ghost e: Event)
      requires Halts(log, None)
      modifies `calls, `log
      ensures log == old(log) + [e] && Quiet([e]) && e.request == CreateBatch
      ensures match r case Ok(batch) => e.fate.Reply? && checks.batchIn(e.fate.payload) == Some(batch) case Err(error) => Err(error) == FailedBy(e)
      ensures Calm() ==> r.Ok?
      ensures Halts(log, ErrorIn(r))
    {
      var created;
      created, e := Ask(CreateBatch);
      if created.Err? { return Err(created.error), e; }
      var batch := checks.batchIn(created.value);
      r := if batch.None? then Err(Failure) else Ok(batch.value);
    }

    /** Creates the batch and waits until it is verified. */
    method CreateAndWatch() returns (r: Result<(), Error>, ghost es: seq<Event>)
      requires Valid()
      requires Halts(log, None)
      modifies `calls, `log, `looks
      ensures log == old(log) + es && Quiet(es)
      ensures r.Ok? ==> EndsVerified(checks, es) && flag
      ensures Calm() && flag ==> r.Ok?
      ensures Halts(log, ErrorIn(r))
    {
      var created, e := Create();
      if created.Err? { return Err(created.error), [e]; }
      ghost var watched;
      r, watched := Watch(created.value);
      es := [e] + watched;
      assert log == old(log) + es;
      Continue(checks, [e], watched);
    }

    /** The batch, and the report on it. */
    method Complete() returns (r: Result<(), Error>, ghost es: seq<Event>)
      requires Valid()
      requires Halts(log, None)
      modifies `calls, `log, `looks
      ensures log == old(log) + es
      ensures r.Ok? ==> CompletedBy(checks, es) && flag
      ensures r.Err? ==> Quiet(es)
      ensures Calm() && flag && Printing() ==> r.Ok?
      ensures Mute() ==> r.Err?
      ensures Halts(log, ErrorIn(r))
    {
      ghost var head;
      r, head := CreateAndWatch();
      es := head;
      if r.Err? { return; }
      var report, last := Ask(Report);
      es := head + [last];
      assert log == old(log) + es;
      Reports(checks, head, last);
      r := if report.Ok? then Ok(()) else Err(report.error);
    }

    /** What comes behind the preflight checks. */
    method Act() returns (r: Result<(), Error>, ghost es: seq<Event>)
      requires Valid() && queue == [] && !flagMutated && previousFlagState == flag
      requires Halts(log, None)
      modifies `flag, `queue, `calls, `log, `looks, `flagMutated
      ensures log == old(log) + es && flagMutated == !old(flag)
      ensures ActedOf(checks, es, old(flag), Settled(), r)
      ensures Calm() && Printing() ==> r.Ok?
      ensures Mute() ==> r.Err?
      ensures Calm() ==> Settled()
      ensures Halts(log, ErrorIn(r))
    {
      ghost var armed;
      r, armed := Arm();
      es := Only(armed);
      if r.Err? {
        NotActed(checks, armed, old(flag), r);
        return;
      }
      ghost var tail;
      r, tail := Complete();
      es := Only(armed) + tail;
      Regroup(old(log), Only(armed), tail);
      ActedBy(checks, armed, tail, old(flag), r);
    }

    /** The `try` block, from a server that has applied everything. */
    method Attempt() returns (r: Result<(), Error>)
      requires Valid() && log == [] && queue == [] && !flagMutated
      modifies `flag, `queue, `calls, `log, `looks, `flagMutated, `previousFlagState
      ensures flagMutated ==> !previousFlagState
      ensures TryOf(checks, log, old(flag), Settled(), flagMutated, r)
      ensures Calm() && Printing() ==> r.Ok?
      ensures Mute() ==> r.Err?
      ensures Calm() ==> Settled() && flagMutated == !old(flag)
    {
      ghost var enabled, prepared, es := flag, [], [];
      r, prepared := Prepare();
      assert log == prepared;
      if r.Err? {
        NotTried(checks, log, enabled, r);
        return;
      }
      r, es := Act();
      ghost var settled := Settled();
      assert log == prepared + es && flagMutated == !enabled;
      TryBy(checks, log, prepared, es, enabled, settled, r);
    }

    /** The `except` block: undoes the change if there was one. A failure to undo is
        swallowed, a signal is not. */
    method RollBack(error: Error) returns (exit: Exit, ghost undone: Option<Event>)
      modifies `flag, `queue, `calls, `log
      ensures log == old(log) + Only(undone) && (undone.Some? <==> flagMutated)
      ensures undone.Some? ==> undone.value.request == SetFlag(previousFlagState)
      ensures Settled() == if Hit(undone) then previousFlagState else old(Settled())
      ensures Unheard() && !previousFlagState ==> !Hit(undone) && !Interrupted(undone)
      ensures exit == if Interrupted(undone) then Escaped else Returned(CodeOf(error))
    {
      exit, undone := Returned(CodeOf(error)), None;
      if flagMutated {
        var r, e := SetFlagTo(previousFlagState);
        undone := Some(e);
        if r.Err? && r.error.Signal? { exit := Escaped; }
      }
    }

    /** The `try` block with its handler. */
    method Protected() returns (exit: Exit)
      requires Valid() && log == [] && queue == [] && !flagMutated
      modifies `flag, `queue, `calls, `log, `looks, `flagMutated, `previousFlagState
      ensures ProtectedOf(checks, log, old(flag), Settled(), exit)
      ensures Calm() && Printing() ==> Settled() && exit == Returned(0)
      ensures Calm() && Mute() && Unheard() ==> Settled() && SaysRestored(exit)
    {
      ghost var enabled := flag;
      var r := Attempt();
      ghost var tried, before, armed, undone := log, Settled(), flagMutated, None;
      exit := Returned(0);
      if r.Err? {
        exit, undone := RollBack(r.error);
      } else {
        OkSettles(checks, tried, enabled, before, armed, r);
      }
      assert log == tried + Only(undone) && Settled() == (before && !Hit(undone));
      ProtectedBy(checks, tried, undone, enabled, before, armed, r);
    }

    /** The whole run. If nothing fails, it enables the flag and returns 0, unless its
        `finally` block is interrupted. */
    method RunCanary() returns (exit: Exit)
      requires Valid() && log == [] && queue == [] && !flagMutated
      modifies `flag, `queue, `calls, `log, `looks, `flagMutated, `previousFlagState
      ensures RunOf(checks, log, old(flag), Settled(), exit)
      ensures Calm() && Printing() ==> Settled() && exists n, enabled :: exit == ExitAfter(Returned(0), fate(n, Leave, enabled))
      ensures Calm() && Mute() && Unheard() ==>
                Settled() && exists n, enabled, before :: SaysRestored(before) && exit == ExitAfter(before, fate(n, Leave, enabled))
    {
      exit := Protected();
      ghost var before, unwound := log, exit;
      var f := Next(Leave);
      if !f.Reply? { exit := Escaped; }
      RunBy(checks, before, f, old(flag), Settled(), unwound);
    }
  }
}
