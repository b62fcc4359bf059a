/** What a finished run of the canary has read, and the runs of a server that answers
    everything well. */
module CanaryRuns {
  import opened Prelude
  import opened Manifest
  import opened Canary
  import opened CanaryReplies

  // ---------------------------------------------------------------------------
  // What a return of 0 stands for

  /** The replies in front of everything else: ready, the exact build, the flag, no batch
      in progress. */
  ghost predicate ReadsBefore(log: seq<Event>, k: nat, sha: string, enabled: bool) {
    && 0 < k && k + 3 <= |log|
    && Replied(log[k - 1], Ready) && IsReady(log[k - 1].fate.payload)
    && Replied(log[k], Meta) && IsBuild(log[k].fate.payload, sha)
    && Replied(log[k + 1], ReadFlag) && TellsFlag(log[k + 1].fate.payload, enabled)
    && Replied(log[k + 2], Processing) && log[k + 2].fate.payload == Arr([])
  }

  /** The last things a run reads: a confirmed batch with safe coordinates, its entry in
      the log, the exact build again, no batch in progress, and the flag enabled. Then it
      reports and leaves. */
  ghost predicate ReadsBehind(log: seq<Event>, p: nat, sha: string, safeUrl: string -> bool, url: string, id: string) {
    && |log| == p + 7
    && log[p].request.Poll? && log[p].fate.Reply?
    && HasStatus(log[p].fate.payload, "confirmed") && HasCoordinates(safeUrl, log[p].fate.payload, url, id)
    && Replied(log[p + 1], ReadEntry(url, id)) && HoldsEntry(log[p + 1].fate.payload, id)
    && Replied(log[p + 2], Meta) && IsBuild(log[p + 2].fate.payload, sha)
    && Replied(log[p + 3], Processing) && log[p + 3].fate.payload == Arr([])
    && Replied(log[p + 4], ReadFlag) && TellsFlag(log[p + 4].fate.payload, true)
    && Replied(log[p + 5], Report) && log[p + 6].request == Leave
  }

  lemma BeforeIsRead(sha: string, safeUrl: string -> bool, log: seq<Event>, k: nat, enabled: bool)
    requires Preflighted(CanaryChecks(sha, safeUrl), log, k, enabled)
    ensures ReadsBefore(log, k, sha, enabled)
  {
    FlagInIff(log[k + 1].fate.payload, enabled);
  }

  lemma BehindIsRead(sha: string, safeUrl: string -> bool, log: seq<Event>, p: nat, at: (string, string), es: seq<Event>)
    requires |log| == p + 7 && log[p].request.Poll? && log[p].fate.Reply? && es == log[p + 1..p + 5]
    requires StatusOf(log[p].fate.payload) == Succeeded && Coordinates(safeUrl, log[p].fate.payload) == Some(at)
    requires Verified(CanaryChecks(sha, safeUrl), at, es)
    requires Replied(log[p + 5], Report) && log[p + 6].request == Leave
    ensures ReadsBehind(log, p, sha, safeUrl, at.0, at.1)
  {
    assert es[0] == log[p + 1] && es[1] == log[p + 2] && es[2] == log[p + 3] && es[3] == log[p + 4];
    StatusIff(log[p].fate.payload);
    CoordinatesIff(safeUrl, log[p].fate.payload, at.0, at.1);
    EntryIsRead(sha, safeUrl, es[0], at);
    ChecksAreRead(sha, safeUrl, es);
  }

  lemma EntryIsRead(sha: string, safeUrl: string -> bool, e: Event, at: (string, string))
    requires EntrySeen(CanaryChecks(sha, safeUrl), e, at)
    ensures Replied(e, ReadEntry(at.0, at.1)) && HoldsEntry(e.fate.payload, at.1)
  {
    HoldsEntryIff(e.fate.payload, at.1);
  }

  lemma ChecksAreRead(sha: string, safeUrl: string -> bool, es: seq<Event>)
    requires var c := CanaryChecks(sha, safeUrl); |es| == 4 && BuildSeen(c, es[1]) && NoneSeen(c, es[2]) && FlagSeen(c, es[3], true)
    ensures Replied(es[1], Meta) && IsBuild(es[1].fate.payload, sha)
    ensures Replied(es[2], Processing) && es[2].fate.payload == Arr([])
    ensures Replied(es[3], ReadFlag) && TellsFlag(es[3].fate.payload, true)
  {
    FlagInIff(es[3].fate.payload, true);
  }

  /** A run that returns 0 has read all of this, in this order; and everything it sent in
      front of the first build check was a readiness probe. */
  lemma ZeroHasRead(sha: string, safeUrl: string -> bool, log: seq<Event>, enabled: bool, settled: bool)
    returns (k: nat, p: nat, url: string, id: string)
    requires RunOf(CanaryChecks(sha, safeUrl), log, enabled, settled, Returned(0))
    ensures settled && k + 3 <= p
    ensures forall i | 0 <= i < k :: i < |log| && log[i].request == Ready
    ensures ReadsBefore(log, k, sha, enabled) && ReadsBehind(log, p, sha, safeUrl, url, id)
  {
    var c, at := CanaryChecks(sha, safeUrl), ("", "");
    k, p, at := ZeroEvents(c, log, enabled, settled);
    url, id := at.0, at.1;
    BeforeIsRead(sha, safeUrl, log, k, enabled);
    BehindIsRead(sha, safeUrl, log, p, at, log[p + 1..p + 5]);
    PollBehind(log, k, p);
  }

  lemma ZeroEvents(c: Checks, log: seq<Event>, enabled: bool, settled: bool) returns (k: nat, p: nat, at: (string, string))
    requires RunOf(c, log, enabled, settled, Returned(0))
    ensures settled && Preflighted(c, log, k, enabled)
    ensures |log| == p + 7 && ConfirmedSeen(c, log[p]) && c.coordinates(log[p].fate.payload) == Some(at)
    ensures Verified(c, at, log[p + 1..p + 5]) && Replied(log[p + 5], Report) && log[p + 6].request == Leave
  {
    ZeroIsVerified(c, log, enabled, settled);
    LeavesLast(c, log, enabled, settled, Returned(0));
    k :| Preflighted(c, log, k, enabled);
    var body := log[..|log| - 2];
    p :| VerifiedFrom(c, body, p);
    at := c.coordinates(body[p].fate.payload).value;
    assert body[p + 1..] == log[p + 1..p + 5];
  }

  lemma LeavesLast(c: Checks, log: seq<Event>, enabled: bool, settled: bool, exit: Exit)
    requires RunOf(c, log, enabled, settled, exit)
    ensures log != [] && log[|log| - 1].request == Leave
  {
  }

  lemma PollBehind(log: seq<Event>, k: nat, p: nat)
    requires k + 3 <= |log| && p < |log| && log[p].request.Poll?
    requires forall i | 0 <= i < k :: log[i].request == Ready
    requires log[k].request == Meta && log[k + 1].request == ReadFlag && log[k + 2].request == Processing
    ensures k + 3 <= p
  {
    assert p >= k && p != k && p != k + 1 && p != k + 2;
  }

  /** The canary against any server that tells the truth about the flag, whatever fails, is
      lost or is interrupted. */
  method RunOn(sha: string, safeUrl: string -> bool, timeout: int, readyTimeout: int, stalled: int,
               fate: Outside, clock: nat -> int, enabled: bool)
    returns (exit: Exit, settled: bool, ghost log: seq<Event>)
    requires TruthfulServer(fate) && Increasing(clock)
    ensures RunOf(CanaryChecks(sha, safeUrl), log, enabled, settled, exit)
  {
    var run := new Run(CanaryChecks(sha, safeUrl), timeout, readyTimeout, stalled, fate, clock, enabled);
    TruthfulIsHonest(sha, safeUrl, fate);
    exit := run.RunCanary();
    settled := run.Settled();
    log := run.log;
  }

  // ---------------------------------------------------------------------------
  // Runs of a server that answers well

  /** A confirmed batch with its entry. */
  function ConfirmedBatch(url: string, id: string): Value {
    Obj(map["status" := Str("confirmed"), "anchor_kind" := Str("sigstore.rekor.v1"), "anchor_url" := Str(url),
            "anchor_entry_id" := Str(id), "signer_fingerprint" := Str("sha256:")])
  }

  /** A server that answers everything well, as long as it may. */
  function WellUntil(sha: string, url: string, id: string, broken: map<Request, Fate>, request: Request, enabled: bool): Fate {
    if request in broken then broken[request] else Answer(sha, url, id, request, enabled)
  }

  function Answer(sha: string, url: string, id: string, request: Request, enabled: bool): Fate {
    match request
    case Ready => Reply(Obj(map["status" := Str("ready")]))
    case Meta => Reply(Obj(map["gitSha" := Str(sha)]))
    case ReadFlag => Reply(Arr([Obj(map["key" := Str(FLAG), "enabled" := Bool(enabled)])]))
    case Processing => Reply(Arr([]))
    case SetFlag(_) => Reply(Null)
    case CreateBatch => Reply(Obj(map["batch" := Obj(map["id" := Str("b")])]))
    case Poll(_) => Reply(ConfirmedBatch(url, id))
    case ReadEntry(_, entry) => Reply(Obj(map[entry := Null]))
    case Report => Reply(Null)
    case Leave => Reply(Null)
  }

  lemma ConfirmedBatchHasCoordinates(safeUrl: string -> bool, url: string, id: string)
    requires safeUrl(url) && HexId(id)
    ensures StatusOf(ConfirmedBatch(url, id)) == Succeeded && Coordinates(safeUrl, ConfirmedBatch(url, id)) == Some((url, id))
  {
    assert StartsWith("sha256:", "sha256:");
  }

  lemma AnswersAccepted(sha: string, safeUrl: string -> bool, url: string, id: string, request: Request, enabled: bool)
    requires safeUrl(url) && HexId(id)
    ensures Accepted(CanaryChecks(sha, safeUrl), request, enabled, Answer(sha, url, id, request, enabled))
  {
    ConfirmedBatchHasCoordinates(safeUrl, url, id);
    if request == ReadFlag {
      var item := Obj(map["key" := Str(FLAG), "enabled" := Bool(enabled)]);
      assert FlagOf([item]) == Some(enabled);
    }
  }

  function Well(sha: string, url: string, id: string, broken: map<Request, Fate>): Outside {
    (n, request, enabled) => WellUntil(sha, url, id, broken, request, enabled)
  }

  function Ticks(): nat -> int { n => n }

  /** What is broken does not keep the run from its report. */
  predicate OnlyLast(broken: map<Request, Fate>) { broken.Keys <= {Report, SetFlag(false), Leave} }

  lemma WellIsCalm(sha: string, safeUrl: string -> bool, url: string, id: string, broken: map<Request, Fate>)
    requires safeUrl(url) && HexId(id) && OnlyLast(broken)
    ensures var c, fate := CanaryChecks(sha, safeUrl), Well(sha, url, id, broken);
            AllAccepted(c, fate) && Honest(c, fate)
  {
    var c, fate := CanaryChecks(sha, safeUrl), Well(sha, url, id, broken);
    forall n: nat, request, enabled ensures Accepted(c, request, enabled, fate(n, request, enabled)) {
      AnswersAccepted(sha, safeUrl, url, id, request, enabled);
      assert request in broken ==> request in {Report, SetFlag(false), Leave};
    }
  }

  /** Whatever build is expected, and wherever the log is: a run in which nothing fails
      enables the flag, and then a signal in the `finally` block makes it leave with an
      exception, and nothing undoes the change. */
  method LeaveInterrupted(sha: string, safeUrl: string -> bool, url: string, id: string)
    returns (exit: Exit, ghost log: seq<Event>)
    requires safeUrl(url) && HexId(id)
    ensures exit == Escaped && RunOf(CanaryChecks(sha, safeUrl), log, false, true, exit)
  {
    var broken := map[Leave := Before(Signal(SIGINT))];
    var run := new Run(CanaryChecks(sha, safeUrl), 15, 15, 30, Well(sha, url, id, broken), Ticks(), false);
    WellIsCalm(sha, safeUrl, url, id, broken);
    exit := run.RunCanary();
    log := run.log;
  }

  // ---------------------------------------------------------------------------
  // Exits

  /** Reports that came through. */
  predicate Told(e: Event) { e.request.Report? && e.fate.Reply? }

  /** A signal arrived somewhere else than at the request to undo the change. */
  ghost predicate SignalledBy(log: seq<Event>, signum: int) {
    exists i :: 0 <= i < |log| && log[i].request != SetFlag(false) && ErrorOf(log[i].fate) == Some(Signal(signum))
  }

  /** A signal arrived at the request to undo the change. */
  ghost predicate UndoCut(log: seq<Event>) { exists i :: 0 <= i < |log| && log[i].request == SetFlag(false) && Cut(log[i].fate) }

  ghost predicate AnyTold(es: seq<Event>) { exists i :: 0 <= i < |es| && Told(es[i]) }

  ghost predicate NoneUndoes(es: seq<Event>) { forall i | 0 <= i < |es| :: es[i].request != SetFlag(false) }

  lemma TellsApart(a: seq<Event>, b: seq<Event>)
    ensures AnyTold(a + b) <==> AnyTold(a) || AnyTold(b)
    ensures NoneUndoes(a + b) <==> NoneUndoes(a) && NoneUndoes(b)
  {
    var es := a + b;
    assert forall i | 0 <= i < |a| :: es[i] == a[i];
    assert forall i | 0 <= i < |b| :: es[|a| + i] == b[i];
    if i :| 0 <= i < |b| && Told(b[i]) { assert Told(es[|a| + i]); }
    if i :| 0 <= i < |a| && Told(a[i]) { assert Told(es[i]); }
    if NoneUndoes(es) {
      forall i | 0 <= i < |b| ensures b[i].request != SetFlag(false) { assert es[|a| + i].request != SetFlag(false); }
    }
  }

  lemma CompletedTells(c: Checks, es: seq<Event>)
    requires CompletedBy(c, es)
    ensures AnyTold(es) && NoneUndoes(es)
  {
    var head, last :| es == head + [last] && Replied(last, Report) && Quiet(head) && EndsVerified(c, head);
    TellsApart(head, [last]);
    assert Told([last][0]);
  }

  /** The `try` block never asks to undo, and tells of a success exactly if it is one. */
  lemma TriedTells(c: Checks, b: Body, enabled: bool, settled: bool)
    requires TriedOf(c, b, enabled, settled)
    ensures NoneUndoes(TriedEvents(b)) && (AnyTold(TriedEvents(b)) <==> b.result.Ok?)
  {
    TellsApart(b.prepared, Only(b.armed));
    TellsApart(b.prepared + Only(b.armed), b.rest);
    if b.result.Ok? { CompletedTells(c, b.rest); }
  }

  /** The last of these events is the signal, if the error is one. */
  lemma HaltsTells(es: seq<Event>, error: Option<Error>, signum: int)
    requires Halts(es, error) && NoneUndoes(es)
    ensures SignalledBy(es, signum) <==> error == Some(Signal(signum))
  {
    if error == Some(Signal(signum)) { assert es[|es| - 1].request != SetFlag(false); }
  }

  /** What a log tells, from the parts of it. */
  lemma LogTells(tried: seq<Event>, undone: Option<Event>, leave: Fate, signum: int)
    requires NoneUndoes(tried) && (undone.Some? ==> undone.value.request == SetFlag(false))
    ensures var log := tried + Only(undone) + [Event(Leave, leave)];
            && (UndoCut(log) <==> Interrupted(undone)) && (AnyTold(log) <==> AnyTold(tried))
            && (leave.Reply? ==> (SignalledBy(log, signum) <==> SignalledBy(tried, signum)))
  {
    var before, log := tried + Only(undone), tried + Only(undone) + [Event(Leave, leave)];
    TellsApart(tried, Only(undone));
    TellsApart(before, [Event(Leave, leave)]);
    assert forall i | 0 <= i < |tried| :: log[i] == tried[i];
    assert undone.Some? ==> log[|tried|] == undone.value;
    if SignalledBy(tried, signum) {
      var i :| 0 <= i < |tried| && tried[i].request != SetFlag(false) && ErrorOf(tried[i].fate) == Some(Signal(signum));
      assert log[i].request != SetFlag(false);
    }
  }

  /** How a run ends, told from its log: an exception leaves it exactly if a signal arrives
      at the request to undo the change or something breaks into the `finally` block; and
      otherwise it returns 0 behind its report, 130 or 143 if a signal ended it, and 1. */
  lemma ExitIs(c: Checks, log: seq<Event>, enabled: bool, settled: bool, exit: Exit)
    requires RunOf(c, log, enabled, settled, exit)
    ensures log != [] && log[|log| - 1].request == Leave
    ensures exit == Escaped <==> !log[|log| - 1].fate.Reply? || UndoCut(log)
    ensures exit.Returned? ==> exit.code in {0, 1, 130, 143}
    ensures exit.Returned? ==> (exit.code == 0 <==> AnyTold(log)) && (exit.code == 130 <==> SignalledBy(log, 2))
    ensures exit.Returned? ==> (exit.code == 143 <==> exists signum :: signum != 2 && SignalledBy(log, signum))
  {
    var b, leave :| BodyOf(c, b, enabled, settled) && Ends(log, b, leave, exit);
    var tried, error := TriedEvents(b), ErrorIn(b.result);
    TriedTells(c, b, enabled, enabled || Hit(b.armed));
    forall signum
      ensures (UndoCut(log) <==> Interrupted(b.undone)) && (AnyTold(log) <==> AnyTold(tried))
      ensures leave.Reply? ==> (SignalledBy(log, signum) <==> error == Some(Signal(signum)))
    {
      LogTells(tried, b.undone, leave, signum);
      HaltsTells(tried, error, signum);
    }
    assert SignalledBy(log, 2) || !SignalledBy(log, 2);
    ExitCodes(b.result, b.undone, leave);
    assert exit == ExitAfter(ExitBefore(b.result, b.undone), leave);
  }

  lemma ExitCodes(result: Result<(), Error>, undone: Option<Event>, leave: Fate)
    ensures var exit := ExitAfter(ExitBefore(result, undone), leave);
            && (exit == Escaped <==> !leave.Reply? || Interrupted(undone))
            && (exit.Returned? ==>
                  && exit.code in {0, 1, 130, 143}
                  && (exit.code == 0 <==> result.Ok?) && (exit.code == 130 <==> ErrorIn(result) == Some(Signal(2)))
                  && (exit.code == 143 <==> ErrorIn(result).Some? && ErrorIn(result).value.Signal? && ErrorIn(result).value.signum != 2))
  {
  }

  // ---------------------------------------------------------------------------
  // What a failed run says

  /** A run whose exit stands behind the message that the flag is restored. The message is
      right exactly when enabling never reached the server, or undoing did. */
  lemma SaysRestoredTrulyIff(c: Checks, log: seq<Event>, enabled: bool, settled: bool, exit: Exit)
    requires RunOf(c, log, enabled, settled, exit) && SaysRestored(exit)
    ensures settled == enabled <==> enabled || !Reached(log, true) || Reached(log, false)
  {
    RestoredIff(c, log, enabled, settled, exit);
  }

  lemma WellIsLost(sha: string, url: string, id: string, broken: map<Request, Fate>)
    requires broken == map[Report := Before(Failure), SetFlag(false) := Before(Failure)]
    ensures var fate := Well(sha, url, id, broken);
            NeverReports(fate) && NeverUndoes(fate) && forall n, enabled :: fate(n, Leave, enabled).Reply?
  {
  }

  /** Printing the report fails, and the request to undo the change is lost: the run says
      that the flag is restored, and leaves it enabled. */
  method UndoLost(sha: string, safeUrl: string -> bool, url: string, id: string)
    returns (exit: Exit, ghost log: seq<Event>)
    requires safeUrl(url) && HexId(id)
    ensures SaysRestored(exit) && RunOf(CanaryChecks(sha, safeUrl), log, false, true, exit)
  {
    var broken := map[Report := Before(Failure), SetFlag(false) := Before(Failure)];
    var run := new Run(CanaryChecks(sha, safeUrl), 15, 15, 30, Well(sha, url, id, broken), Ticks(), false);
    WellIsCalm(sha, safeUrl, url, id, broken);
    WellIsLost(sha, url, id, broken);
    exit := run.RunCanary();
    log := run.log;
  }
}
