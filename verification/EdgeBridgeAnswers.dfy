/** What the edge bridge answers, told from the calls before and their answers alone: who
    holds a key, whether its event is done, and when either is forgotten. */
module EdgeBridgeAnswers {
  import opened Prelude
  import opened EdgeBridge
  import opened EdgeBridgeRuns

  // ---------------------------------------------------------------------------
  // What the answers so far say of a key

  /** The claim that holds a key, or the claim and the commit behind a finished event. */
  datatype KeyState = Free | Held(claim: nat) | Finished(claim: nat, commit: nat)

  /** The two sweeps run in front of the transaction of every verified event. */
  predicate SweepsFinished(call: Call) {
    call.VerifyAndClaim? && call.event.Some? && call.fault != AtCommittedSweep
  }

  predicate SweepsHeld(call: Call) { SweepsFinished(call) && call.fault != AtAbandonedSweep }

  /** Call s forgets a claim made at the given time. */
  predicate ForgetsClaim(cfg: Config, s: Call, claimed: int) {
    SweepsHeld(s) && s.now - claimed > 86400 && s.now - claimed > 8 * cfg.lease
  }

  predicate ForgetsCommit(cfg: Config, s: Call, committed: int) {
    SweepsFinished(s) && s.now - committed > cfg.retention
  }

  predicate Recorded(r: Run, state: KeyState) {
    match state
    case Free => true
    case Held(p) => p < |r.calls|
    case Finished(p, q) => p < |r.calls| && q < |r.calls|
  }

  /** What is left of it behind the sweeps of a call. */
  function AfterSweeps(r: Run, state: KeyState, s: Call): KeyState
    requires Recorded(r, state)
  {
    match state
    case Free => Free
    case Held(p) => if ForgetsClaim(r.cfg, s, r.calls[p].now) then Free else state
    case Finished(_, q) => if ForgetsCommit(r.cfg, s, r.calls[q].now) then Free else state
  }

  function StateOf(r: Run, j: nat, key: string): (state: KeyState)
    requires j <= |r.calls| == |r.outs|
    ensures Recorded(r, state)
  {
    if j == 0 then Free
    else
      var before, call, out := StateOf(r, j - 1, key), r.calls[j - 1], r.outs[j - 1];
      if out.Claimed? && out.key == key then Held(j - 1)
      else if call.Commit? && call.key == key && out == CommitOk(false) && before.Held? then Finished(before.claim, j - 1)
      else if call.Release? && call.key == key && out == ReleaseOk(false) then Free
      else AfterSweeps(r, before, call)
  }

  // ---------------------------------------------------------------------------
  // The table holds nothing else

  /** Call p claimed the key for an event. */
  ghost predicate IsClaim(r: Run, p: nat, key: string) {
    && p < |r.calls| == |r.outs| && r.calls[p].VerifyAndClaim? && r.calls[p].event.Some?
    && r.sha(r.calls[p].event.value) == key && ClaimedAt(r, p, key) && r.outs[p].token == r.calls[p].token
  }

  /** The row of a key, or that there is none. */
  ghost predicate RowIs(r: Run, t: Table, key: string, state: KeyState) {
    match state
    case Free => key !in t
    case Held(p) =>
      && IsClaim(r, p, key) && key in t
      && t[key] == Row(r.sha("event:" + r.calls[p].event.value), Inflight, Some(r.calls[p].token), None, r.calls[p].now, None, r.calls[p].now)
    case Finished(p, q) =>
      && IsClaim(r, p, key) && key in t && q < |r.calls| && r.calls[q].Commit?
      && t[key] == Row(r.sha("event:" + r.calls[p].event.value), Committed, None, Some(r.sha(r.calls[q].token)), r.calls[p].now,
                       Some(r.calls[q].now), r.calls[q].now)
  }

  lemma {:induction false} TableIsRecord(r: Run, j: nat, key: string)
    requires ValidRun(r) && j <= |r.calls|
    ensures RowIs(r, r.tables[j], key, StateOf(r, j, key))
  {
    if j > 0 {
      TableIsRecord(r, j - 1, key);
      match r.calls[j - 1]
      case VerifyAndClaim(_, _, _, _) => ClaimRecorded(r, j - 1, key);
      case Commit(_, _, _, _) => CommitRecorded(r, j - 1, key);
      case Release(_, _, _, _) => ReleaseRecorded(r, j - 1, key);
    }
  }

  lemma CommitRecorded(r: Run, i: nat, key: string)
    requires ValidRun(r) && i < |r.calls| && r.calls[i].Commit?
    requires RowIs(r, r.tables[i], key, StateOf(r, i, key))
    ensures RowIs(r, r.tables[i + 1], key, StateOf(r, i + 1, key))
  {
    assert StepsTo(r, i);
  }

  lemma ReleaseRecorded(r: Run, i: nat, key: string)
    requires ValidRun(r) && i < |r.calls| && r.calls[i].Release?
    requires RowIs(r, r.tables[i], key, StateOf(r, i, key))
    ensures RowIs(r, r.tables[i + 1], key, StateOf(r, i + 1, key))
  {
    assert StepsTo(r, i);
  }

  lemma SweptRow(r: Run, t: Table, key: string, state: KeyState, s: Call)
    requires r.cfg.Valid() && RowIs(r, t, key, state) && SweepsHeld(s)
    ensures RowIs(r, Swept(r.cfg, t, s.now), key, AfterSweeps(r, state, s))
  {
  }

  lemma ClaimRecorded(r: Run, i: nat, key: string)
    requires ValidRun(r) && i < |r.calls| && r.calls[i].VerifyAndClaim?
    requires RowIs(r, r.tables[i], key, StateOf(r, i, key))
    ensures RowIs(r, r.tables[i + 1], key, StateOf(r, i + 1, key))
  {
    assert StepsTo(r, i);
    if SweepsHeld(r.calls[i]) { SweptRow(r, r.tables[i], key, StateOf(r, i, key), r.calls[i]); }
  }

  // ---------------------------------------------------------------------------
  // Every answer

  /** The event of claim p, seen again under another id with the same key. */
  ghost predicate OtherEvent(r: Run, p: nat, event: string) {
    && p < |r.calls| && r.calls[p].VerifyAndClaim? && r.calls[p].event.Some?
    && r.sha("event:" + r.calls[p].event.value) != r.sha("event:" + event)
  }

  /** A verified event is claimed if its key is free, or held for a lease or longer; it is
      busy within the lease and a duplicate once it is finished. */
  lemma ClaimAnswer(r: Run, m: nat, event: string)
    requires ValidRun(r) && m < |r.calls| && r.calls[m].VerifyAndClaim? && r.calls[m].fault == NoFault
    requires r.calls[m].event == Some(event)
    ensures var key, token, now := r.sha(event), r.calls[m].token, r.calls[m].now;
            r.outs[m] ==
              match AfterSweeps(r, StateOf(r, m, key), r.calls[m])
              case Free => Claimed(key, token, false)
              case Held(p) =>
                if OtherEvent(r, p, event) then HashCollision
                else if now - r.calls[p].now >= r.cfg.lease then Claimed(key, token, true)
                else Busy(key)
              case Finished(p, _) => if OtherEvent(r, p, event) then HashCollision else Duplicate(key)
  {
    var key := r.sha(event);
    TableIsRecord(r, m, key);
    assert StepsTo(r, m);
    SweptRow(r, r.tables[m], key, StateOf(r, m, key), r.calls[m]);
  }

  predicate HexDigit(c: char) { '0' <= c <= '9' || 'a' <= c <= 'f' || 'A' <= c <= 'F' }

  /** 64 lower-case hex digits, and 36 hex digits and hyphens. */
  predicate WellFormed(key: string, token: string) {
    && |key| == 64 && (forall i | 0 <= i < 64 :: HexDigit(key[i]) && !('A' <= key[i] <= 'F'))
    && |token| == 36 && forall i | 0 <= i < 36 :: HexDigit(token[i]) || token[i] == '-'
  }

  lemma IdentityForm(key: string, token: string)
    ensures ValidIdentity(key, token) <==> WellFormed(key, token)
  {
    assert forall c :: AnyHex(c) <==> HexDigit(c);
    assert forall c :: LowerHex(c) <==> HexDigit(c) && !('A' <= c <= 'F');
  }

  /** A commit is done for the token that holds the key, repeated for one with the digest of
      the token that committed it, and refused otherwise. */
  lemma CommitAnswer(r: Run, m: nat)
    requires ValidRun(r) && m < |r.calls| && r.calls[m].Commit? && r.calls[m].fault == NoFault
    ensures var key, token := r.calls[m].key, r.calls[m].token;
            r.outs[m] ==
              if !WellFormed(key, token) then Refused(InvalidIdentity)
              else
                match StateOf(r, m, key)
                case Free => Refused(ClaimMissing)
                case Held(p) => if token == r.calls[p].token then CommitOk(false) else Refused(NotOwned)
                case Finished(_, q) =>
                  if r.sha(token) == r.sha(r.calls[q].token) then CommitOk(true) else Refused(AlreadyCommitted)
  {
    var key, token := r.calls[m].key, r.calls[m].token;
    TableIsRecord(r, m, key);
    IdentityForm(key, token);
    assert StepsTo(r, m);
    if StateOf(r, m, key).Finished? { DigestsEqualExactly(r.sha(r.calls[StateOf(r, m, key).commit].token), r.sha(token)); }
  }

  /** A release is done for the token that holds the key or for a key nobody holds, and
      refused otherwise. */
  lemma ReleaseAnswer(r: Run, m: nat)
    requires ValidRun(r) && m < |r.calls| && r.calls[m].Release? && r.calls[m].fault == NoFault
    ensures var key, token := r.calls[m].key, r.calls[m].token;
            r.outs[m] ==
              if !WellFormed(key, token) then Refused(InvalidIdentity)
              else
                match StateOf(r, m, key)
                case Free => ReleaseOk(true)
                case Held(p) => if token == r.calls[p].token then ReleaseOk(false) else Refused(NotOwned)
                case Finished(_, _) => Refused(AlreadyCommitted)
  {
    TableIsRecord(r, m, r.calls[m].key);
    IdentityForm(r.calls[m].key, r.calls[m].token);
    assert StepsTo(r, m);
  }

  /** A database operation that fails makes the call throw, if the call gets to it: a sweep,
      BEGIN, the read or the end of the transaction always, the write if there is one. */
  lemma FaultAnswer(r: Run, m: nat)
    requires ValidRun(r) && m < |r.calls| && r.calls[m].fault != NoFault
    ensures match r.calls[m]
            case VerifyAndClaim(event, _, _, fault) =>
              if event.None? then r.outs[m] == Rejected
              else if fault != AtWrite then r.outs[m] == Threw
              else !r.outs[m].Claimed?
            case Commit(key, token, _, fault) => FailedAnswer(key, token, fault, r.outs[m])
            case Release(key, token, _, fault) => FailedAnswer(key, token, fault, r.outs[m])
  {
    assert StepsTo(r, m);
    if !r.calls[m].VerifyAndClaim? { IdentityForm(r.calls[m].key, r.calls[m].token); }
  }

  ghost predicate FailedAnswer(key: string, token: string, fault: Fault, out: Outcome) {
    if !WellFormed(key, token) then out == Refused(InvalidIdentity)
    else if fault in {AtBegin, AtRead, AtEnd} then out == Threw
    else fault == AtWrite ==> out != CommitOk(false) && out != ReleaseOk(false)
  }

  // ---------------------------------------------------------------------------
  // What is granted

  /** Claim p of the key is the last, and was neither committed nor released before call m. */
  ghost predicate Pending(r: Run, p: nat, m: nat, key: string) {
    && LastClaim(r, m, key, p) && m <= |r.calls|
    && forall i | p < i < m :: !CommittedAt(r, i, key) && !ReleasedAt(r, i, key)
  }

  /** One of the calls behind p and before m forgets the claim. */
  ghost predicate ForgottenBy(r: Run, p: nat, m: nat) {
    p < |r.calls| && exists i | p < i < m <= |r.calls| :: ForgetsClaim(r.cfg, r.calls[i], r.calls[p].now)
  }

  lemma {:induction false} PendingState(r: Run, p: nat, m: nat, key: string)
    requires ValidRun(r) && Pending(r, p, m, key)
    ensures StateOf(r, m, key) == if ForgottenBy(r, p, m) then Free else Held(p)
    decreases m
  {
    if m == p + 1 {
      assert !ForgottenBy(r, p, m);
    } else {
      assert Pending(r, p, m - 1, key);
      PendingState(r, p, m - 1, key);
      assert !ClaimedAt(r, m - 1, key) && !CommittedAt(r, m - 1, key) && !ReleasedAt(r, m - 1, key);
      assert ForgottenBy(r, p, m) <==> ForgottenBy(r, p, m - 1) || ForgetsClaim(r.cfg, r.calls[m - 1], r.calls[p].now);
    }
  }

  lemma ClaimIs(r: Run, p: nat, key: string)
    requires ValidRun(r) && ClaimedAt(r, p, key)
    ensures IsClaim(r, p, key)
  {
    TableIsRecord(r, p + 1, key);
    assert StateOf(r, p + 1, key) == Held(p);
  }

  /** An event whose worker died is handed out again as soon as the lease has passed, and
      not before; the new claim says that it is reclaimed unless the old one was swept. */
  lemma ExpiredLeaseIsReclaimed(r: Run, p: nat, m: nat, key: string)
    requires ValidRun(r) && Pending(r, p, m, key) && m < |r.calls|
    requires r.calls[m].VerifyAndClaim? && r.calls[p].VerifyAndClaim? && r.calls[m].event == r.calls[p].event
    requires r.calls[m].fault == NoFault
    ensures r.outs[m] ==
              if r.calls[m].now < r.calls[p].now + r.cfg.lease then Busy(key)
              else Claimed(key, r.calls[m].token, !ForgottenBy(r, p, m + 1))
  {
    ClaimIs(r, p, key);
    PendingState(r, p, m, key);
    ClaimAnswer(r, m, r.calls[m].event.value);
    assert ForgottenBy(r, p, m + 1) <==> ForgottenBy(r, p, m) || ForgetsClaim(r.cfg, r.calls[m], r.calls[p].now);
    if ForgottenBy(r, p, m + 1) {
      var i :| p < i < m + 1 && ForgetsClaim(r.cfg, r.calls[i], r.calls[p].now);
    }
  }

  /** The holder's own commit is done, until the claim is forgotten or the key claimed again. */
  lemma HolderCommits(r: Run, p: nat, m: nat, key: string)
    requires ValidRun(r) && Pending(r, p, m, key) && m < |r.calls| && !ForgottenBy(r, p, m)
    requires r.calls[m].Commit? && r.calls[m].key == key && r.calls[m].token == r.outs[p].token
    requires r.calls[m].fault == NoFault && WellFormed(key, r.calls[m].token)
    ensures r.outs[m] == CommitOk(false)
  {
    PendingState(r, p, m, key);
    TableIsRecord(r, m, key);
    CommitAnswer(r, m);
  }

  /** And so is its release. */
  lemma HolderReleases(r: Run, p: nat, m: nat, key: string)
    requires ValidRun(r) && Pending(r, p, m, key) && m < |r.calls| && !ForgottenBy(r, p, m)
    requires r.calls[m].Release? && r.calls[m].key == key && r.calls[m].token == r.outs[p].token
    requires r.calls[m].fault == NoFault && WellFormed(key, r.calls[m].token)
    ensures r.outs[m] == ReleaseOk(false)
  {
    PendingState(r, p, m, key);
    TableIsRecord(r, m, key);
    ReleaseAnswer(r, m);
  }

  /** A key without a row is claimed, be it new, released or forgotten. */
  lemma FreeKeyIsClaimed(r: Run, m: nat, event: string)
    requires ValidRun(r) && m < |r.calls| && r.calls[m].VerifyAndClaim? && r.calls[m].fault == NoFault
    requires r.calls[m].event == Some(event) && r.sha(event) !in r.tables[m]
    ensures r.outs[m] == Claimed(r.sha(event), r.calls[m].token, false)
  {
    TableIsRecord(r, m, r.sha(event));
    ClaimAnswer(r, m, event);
  }

  /** Behind a release the key is free until it is claimed again. */
  lemma {:induction false} ReleasedIsFree(r: Run, i: nat, m: nat, key: string)
    requires ValidRun(r) && ReleasedAt(r, i, key) && i < m <= |r.calls|
    requires forall j | i < j < m :: !ClaimedAt(r, j, key)
    ensures key !in r.tables[m]
    decreases m
  {
    if m > i + 1 { ReleasedIsFree(r, i, m - 1, key); }
    assert StateOf(r, m, key) == Free by {
      if m > i + 1 {
        TableIsRecord(r, m - 1, key);
        assert !ClaimedAt(r, m - 1, key);
      }
    }
    TableIsRecord(r, m, key);
  }

  /** A run that redelivers the event of a dead worker as soon as the lease has passed. */
  lemma DeadWorkersEventIsReclaimed(cfg: Config, sha: Sha, event: string, token: string, token': string) returns (r: Run)
    requires cfg.Valid() && token != token'
    ensures ValidRun(r) && r.cfg == cfg && r.sha == sha
    ensures r.calls == [VerifyAndClaim(Some(event), token, 0, NoFault), VerifyAndClaim(Some(event), token', cfg.lease, NoFault)]
    ensures r.outs == [Claimed(sha(event), token, false), Claimed(sha(event), token', true)]
  {
    var key, hash := sha(event), sha("event:" + event);
    var calls := [VerifyAndClaim(Some(event), token, 0, NoFault), VerifyAndClaim(Some(event), token', cfg.lease, NoFault)];
    var tables: seq<Table> := [map[], map[key := FreshRow(hash, token, 0)], map[key := FreshRow(hash, token', cfg.lease)]];
    r := Run(cfg, sha, calls, tables, [Claimed(key, token, false), Claimed(key, token', true)]);
    assert Swept(cfg, map[], 0) == map[];
    assert StepsTo(r, 0);
    assert Swept(cfg, tables[1], cfg.lease) == tables[1];
    assert StepsTo(r, 1);
  }
}
