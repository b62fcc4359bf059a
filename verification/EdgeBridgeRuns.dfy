/** What the edge bridge promises over whole runs: any number of calls, in any
    order, with any database operation failing, under a clock that never goes back
    and `crypto.randomUUID` tokens that never repeat. */
module EdgeBridgeRuns {
  import opened Prelude
  import opened EdgeBridge

  datatype Run = Run(cfg: Config, sha: Sha, calls: seq<Call>, tables: seq<Table>, outs: seq<Outcome>)

  /** Call i takes table i to table i + 1. */
  ghost predicate StepsTo(r: Run, i: nat)
    requires i < |r.calls| && |r.tables| == |r.calls| + 1 && |r.outs| == |r.calls|
  {
    StepOf(r.cfg, r.sha, r.tables[i], r.calls[i]) == Step(r.tables[i + 1], r.outs[i])
  }

  ghost predicate ValidRun(r: Run) {
    && r.cfg.Valid()
    && |r.tables| == |r.calls| + 1 && |r.outs| == |r.calls|
    && r.tables[0] == map[]
    && (forall i | 0 <= i < |r.calls| :: StepsTo(r, i))
    && (forall i, j | 0 <= i < j < |r.calls| :: r.calls[i].now <= r.calls[j].now)
    && (forall i, j | 0 <= i < j < |r.calls| && r.calls[i].VerifyAndClaim? && r.calls[j].VerifyAndClaim? ::
          r.calls[i].token != r.calls[j].token)
  }

  /** Call i handed out a claim on `key`. */
  ghost predicate ClaimedAt(r: Run, i: int, key: string) {
    0 <= i < |r.outs| && r.outs[i].Claimed? && r.outs[i].key == key
  }

  /** Call i committed `key` for the first time. */
  ghost predicate CommittedAt(r: Run, i: int, key: string) {
    0 <= i < |r.calls| && 0 <= i < |r.outs| && r.calls[i].Commit? && r.calls[i].key == key && r.outs[i] == CommitOk(false)
  }

  /** Call i released `key`, deleting its row. */
  ghost predicate ReleasedAt(r: Run, i: int, key: string) {
    0 <= i < |r.calls| && 0 <= i < |r.outs| && r.calls[i].Release? && r.calls[i].key == key && r.outs[i] == ReleaseOk(false)
  }

  // ---------------------------------------------------------------------------
  // One step

  /** An in-flight row has a token, no committed hash and one timestamp; a committed
      row has no token; and both hashes of a row come from one event id. */
  ghost predicate WellFormedRow(sha: Sha, key: string, row: Row) {
    && (row.status == Inflight ==>
          row.claimToken.Some? && row.committedTokenHash == None && row.committedAt == None
          && row.updatedAt == row.claimedAt)
    && (row.status == Committed ==>
          row.claimToken == None && row.committedTokenHash.Some? && row.committedAt == Some(row.updatedAt)
          && row.claimedAt <= row.updatedAt)
    && exists eventId :: key == KeyOf(sha, eventId) && row.eventIdHash == EventHashOf(sha, eventId)
  }

  /** Every row is well formed and was written no later than `now`. */
  ghost predicate Inv(sha: Sha, t: Table, now: int) {
    forall k | k in t :: WellFormedRow(sha, k, t[k]) && t[k].updatedAt <= now
  }

  /** How one call can change the row of one key. */
  datatype Change = Kept | Fresh | SweptCommitted | SweptAbandoned | NewlyCommitted | Deleted

  ghost predicate RowChange(cfg: Config, sha: Sha, t: Table, call: Call, s: Step, k: string, c: Change) {
    match c
    case Kept => (k in t <==> k in s.table) && (k in t ==> s.table[k] == t[k])
    case Fresh =>
      && s.outcome.Claimed? && s.outcome.key == k && call.VerifyAndClaim? && s.outcome.token == call.token
      && call.event.Some? && k == KeyOf(sha, call.event.value)
      && k in s.table && s.table[k] == FreshRow(EventHashOf(sha, call.event.value), call.token, call.now)
      && (k in t ==>
            if t[k].status == Committed then t[k].updatedAt < call.now - cfg.retention
            else call.now - t[k].claimedAt >= cfg.lease || t[k].updatedAt < call.now - cfg.AbandonedAge())
    case SweptCommitted =>
      call.VerifyAndClaim? && k in t && k !in s.table && t[k].status == Committed
      && t[k].updatedAt < call.now - cfg.retention
    case SweptAbandoned =>
      call.VerifyAndClaim? && k in t && k !in s.table && t[k].status == Inflight
      && t[k].updatedAt < call.now - cfg.AbandonedAge()
    case NewlyCommitted =>
      call.Commit? && call.key == k && s.outcome == CommitOk(false) && Owns(t, k, call.token)
      && k in s.table && s.table[k] == t[k].(status := Committed, claimToken := None,
           committedTokenHash := Some(sha(call.token)), committedAt := Some(call.now), updatedAt := call.now)
    case Deleted =>
      call.Release? && call.key == k && s.outcome == ReleaseOk(false) && Owns(t, k, call.token) && k !in s.table
  }

  /** The change a successful call reports for its own key. */
  ghost predicate Reported(call: Call, out: Outcome, k: string, c: Change) {
    && (out.Claimed? && out.key == k ==> c == Fresh)
    && (call.Commit? && call.key == k && out == CommitOk(false) ==> c == NewlyCommitted)
    && (call.Release? && call.key == k && out == ReleaseOk(false) ==> c == Deleted)
  }

  lemma RowChangeOf(cfg: Config, sha: Sha, t: Table, call: Call, k: string) returns (c: Change)
    ensures var s := StepOf(cfg, sha, t, call);
            RowChange(cfg, sha, t, call, s, k, c) && Reported(call, s.outcome, k, c)
  {
    match call
    case VerifyAndClaim(_, _, _, _) => c := ClaimChangeOf(cfg, sha, t, call, k);
    case Commit(_, _, _, _) =>
      c := if call.key == k && CommitStep(sha, t, call).outcome == CommitOk(false) then NewlyCommitted else Kept;
    case Release(_, _, _, _) =>
      c := if call.key == k && ReleaseStep(t, call).outcome == ReleaseOk(false) then Deleted else Kept;
  }

  lemma ClaimChangeOf(cfg: Config, sha: Sha, t: Table, call: Call, k: string) returns (c: Change)
    requires call.VerifyAndClaim?
    ensures var s := ClaimStep(cfg, sha, t, call);
            RowChange(cfg, sha, t, call, s, k, c) && Reported(call, s.outcome, k, c)
  {
    var s := ClaimStep(cfg, sha, t, call);
    if s.outcome.Claimed? && s.outcome.key == k { return Fresh; }
    if k in s.table || k !in t { return Kept; }
    return if t[k].status == Committed then SweptCommitted else SweptAbandoned;
  }

  lemma StepKeepsInv(cfg: Config, sha: Sha, t: Table, call: Call, now: int)
    requires Inv(sha, t, now) && now <= call.now
    ensures Inv(sha, StepOf(cfg, sha, t, call).table, call.now)
  {
    var t' := StepOf(cfg, sha, t, call).table;
    forall k | k in t' ensures WellFormedRow(sha, k, t'[k]) && t'[k].updatedAt <= call.now {
      var c := RowChangeOf(cfg, sha, t, call, k);
      ChangeKeepsRow(cfg, sha, t, call, StepOf(cfg, sha, t, call), k, c, now);
    }
  }

  lemma ChangeKeepsRow(cfg: Config, sha: Sha, t: Table, call: Call, s: Step, k: string, c: Change, now: int)
    requires RowChange(cfg, sha, t, call, s, k, c) && k in s.table && now <= call.now
    requires k in t ==> WellFormedRow(sha, k, t[k]) && t[k].updatedAt <= now
    ensures WellFormedRow(sha, k, s.table[k]) && s.table[k].updatedAt <= call.now
  {
    if c == Fresh {
      var e := call.event.value;
      assert k == KeyOf(sha, e) && s.table[k].eventIdHash == EventHashOf(sha, e);
    } else if c == NewlyCommitted {
      var e :| k == KeyOf(sha, e) && t[k].eventIdHash == EventHashOf(sha, e);
      assert s.table[k].eventIdHash == EventHashOf(sha, e);
    }
  }

  /** A committed row survives every call except the sweep of an expired one. */
  lemma CommittedRowOnlySwept(cfg: Config, sha: Sha, t: Table, call: Call, k: string)
    requires cfg.Valid() && k in t && t[k].status == Committed
    requires WellFormedRow(sha, k, t[k])
    ensures var s := StepOf(cfg, sha, t, call);
            (k in s.table && s.table[k] == t[k])
            || (call.VerifyAndClaim? && call.now > t[k].updatedAt + cfg.retention
                && (k !in s.table || (s.outcome == Claimed(k, call.token, false) && s.table[k].claimedAt == call.now)))
  {
    var c := RowChangeOf(cfg, sha, t, call, k);
  }

  // ---------------------------------------------------------------------------
  // Whole runs

  function LastNow(r: Run, i: nat): int
    requires i <= |r.calls|
  {
    if i > 0 then r.calls[i - 1].now else if |r.calls| > 0 then r.calls[0].now else 0
  }

  lemma {:induction false} AlwaysWellFormed(r: Run, i: nat)
    requires ValidRun(r) && i <= |r.calls|
    ensures Inv(r.sha, r.tables[i], LastNow(r, i))
  {
    if i > 0 {
      AlwaysWellFormed(r, i - 1);
      assert StepsTo(r, i - 1);
      StepKeepsInv(r.cfg, r.sha, r.tables[i - 1], r.calls[i - 1], LastNow(r, i - 1));
    }
  }

  lemma ChangeAt(r: Run, i: nat, k: string) returns (c: Change)
    requires ValidRun(r) && i < |r.calls|
    ensures RowChange(r.cfg, r.sha, r.tables[i], r.calls[i], Step(r.tables[i + 1], r.outs[i]), k, c)
    ensures Reported(r.calls[i], r.outs[i], k, c)
  {
    assert StepsTo(r, i);
    c := RowChangeOf(r.cfg, r.sha, r.tables[i], r.calls[i], k);
  }

  /** The hashes of a row are those of an event id that an earlier call presented. */
  lemma {:induction false} RowSource(r: Run, j: nat, key: string) returns (p: nat)
    requires ValidRun(r) && j <= |r.calls| && key in r.tables[j]
    ensures p < j && r.calls[p].VerifyAndClaim? && r.calls[p].event.Some?
    ensures key == KeyOf(r.sha, r.calls[p].event.value)
    ensures r.tables[j][key].eventIdHash == EventHashOf(r.sha, r.calls[p].event.value)
    decreases j
  {
    var c := ChangeAt(r, j - 1, key);
    if c == Fresh {
      p := j - 1;
    } else {
      p := RowSource(r, j - 1, key);
    }
  }

  /** Two calls of the run presented different event ids with one SHA-256. */
  ghost predicate EventIdsCollide(r: Run, p: int, i: int) {
    && 0 <= p < i < |r.calls| && r.calls[p].VerifyAndClaim? && r.calls[i].VerifyAndClaim?
    && r.calls[p].event.Some? && r.calls[i].event.Some? && r.calls[p].event != r.calls[i].event
    && r.sha(r.calls[p].event.value) == r.sha(r.calls[i].event.value)
  }

  /** `claim_hash_collision` is never returned, short of two presented event ids with
      one SHA-256. */
  lemma HashCollisionNeedsShaCollision(r: Run, i: nat) returns (p: nat)
    requires ValidRun(r) && i < |r.calls| && r.outs[i] == HashCollision
    ensures EventIdsCollide(r, p, i)
  {
    assert StepsTo(r, i);
    p := RowSource(r, i, KeyOf(r.sha, r.calls[i].event.value));
  }

  lemma {:induction false} CommittedUntilSwept(r: Run, i: nat, j: nat, key: string)
    requires ValidRun(r) && CommittedAt(r, i, key) && i < j <= |r.calls|
    ensures key in r.tables[i + 1] && r.tables[i + 1][key].status == Committed
    ensures r.tables[i + 1][key].committedTokenHash == Some(r.sha(r.calls[i].token))
    ensures (key in r.tables[j] && r.tables[j][key] == r.tables[i + 1][key])
            || r.calls[j - 1].now > r.calls[i].now + r.cfg.retention
    decreases j
  {
    var first := ChangeAt(r, i, key);
    if j > i + 1 {
      CommittedUntilSwept(r, i, j - 1, key);
      var c := ChangeAt(r, j - 1, key);
    }
  }

  /** Two first-time commits of one claim key are more than the retention apart. */
  lemma CommitsMoreThanRetentionApart(r: Run, i: nat, j: nat, key: string)
    requires ValidRun(r) && CommittedAt(r, i, key) && CommittedAt(r, j, key) && i < j
    ensures r.calls[j].now > r.calls[i].now + r.cfg.retention
  {
    CommittedUntilSwept(r, i, j, key);
    var c := ChangeAt(r, j, key);
  }

  /** A claim holds its key until its lease ends, unless it is released. */
  lemma {:induction false} ClaimHeldForLease(r: Run, i: nat, j: nat, key: string)
    requires ValidRun(r) && ClaimedAt(r, i, key) && i < j <= |r.calls|
    requires forall m | i < m < j :: !ReleasedAt(r, m, key)
    ensures r.calls[j - 1].now >= r.calls[i].now + r.cfg.lease
            || (key in r.tables[j]
                && (r.tables[j][key].status == Inflight ==>
                      r.tables[j][key].claimToken == Some(r.outs[i].token)
                      && r.tables[j][key].claimedAt == r.calls[i].now == r.tables[j][key].updatedAt)
                && (r.tables[j][key].status == Committed ==>
                      r.tables[j][key].committedTokenHash == Some(r.sha(r.outs[i].token))
                      && r.tables[j][key].updatedAt >= r.calls[i].now))
    decreases j
  {
    if j == i + 1 {
      var c := ChangeAt(r, i, key);
    } else {
      ClaimHeldForLease(r, i, j - 1, key);
      var c := ChangeAt(r, j - 1, key);
      assert !ReleasedAt(r, j - 1, key);
    }
  }

  /** Two claims of one key with no release of it between them are at least the lease
      apart, whichever way the key was freed. */
  lemma ClaimsAtLeastLeaseApart(r: Run, i: nat, j: nat, key: string)
    requires ValidRun(r) && ClaimedAt(r, i, key) && ClaimedAt(r, j, key) && i < j
    requires forall m | i < m < j :: !ReleasedAt(r, m, key)
    ensures r.calls[j].now >= r.calls[i].now + r.cfg.lease
  {
    ClaimHeldForLease(r, i, j, key);
    var c := ChangeAt(r, j, key);
  }

  /** Call p is the last claim on `key` before table j. */
  ghost predicate LastClaim(r: Run, j: int, key: string, p: int) {
    0 <= p < j && ClaimedAt(r, p, key) && forall m | p < m < j :: !ClaimedAt(r, m, key)
  }

  lemma ClaimReturnsItsToken(r: Run, i: nat, key: string)
    requires ValidRun(r) && ClaimedAt(r, i, key)
    ensures r.calls[i].VerifyAndClaim? && r.outs[i].token == r.calls[i].token
    ensures key in r.tables[i + 1] && r.tables[i + 1][key].status == Inflight
    ensures r.tables[i + 1][key].claimToken == Some(r.outs[i].token)
  {
    assert StepsTo(r, i);
  }

  /** The token of an in-flight row is the one the last claim of its key handed out. */
  lemma {:induction false} InflightSource(r: Run, j: nat, key: string) returns (p: nat)
    requires ValidRun(r) && j <= |r.calls|
    requires key in r.tables[j] && r.tables[j][key].status == Inflight
    ensures LastClaim(r, j, key, p) && r.tables[j][key].claimToken == Some(r.outs[p].token)
    decreases j
  {
    var c := ChangeAt(r, j - 1, key);
    if ClaimedAt(r, j - 1, key) {
      p := j - 1;
      ClaimReturnsItsToken(r, p, key);
    } else {
      p := InflightSource(r, j - 1, key);
    }
  }

  /** The hash of a committed row is that of the token that committed it, and the key
      has not been claimed again since. */
  lemma {:induction false} CommittedSource(r: Run, j: nat, key: string) returns (q: nat)
    requires ValidRun(r) && j <= |r.calls|
    requires key in r.tables[j] && r.tables[j][key].status == Committed
    ensures q < j && CommittedAt(r, q, key) && Owns(r.tables[q], key, r.calls[q].token)
    ensures r.tables[j][key].committedTokenHash == Some(r.sha(r.calls[q].token))
    ensures forall m | q <= m < j :: !ClaimedAt(r, m, key)
    decreases j
  {
    var c := ChangeAt(r, j - 1, key);
    if c == NewlyCommitted {
      q := j - 1;
    } else {
      q := CommittedSource(r, j - 1, key);
    }
  }

  /** No row anywhere is held by a token whose claim has been superseded. */
  lemma SupersededTokenOwnsNothing(r: Run, i: nat, k: nat, m: nat, key: string, other: string)
    requires ValidRun(r) && ClaimedAt(r, i, key) && ClaimedAt(r, k, key) && i < k < m <= |r.calls|
    ensures !Owns(r.tables[m], other, r.outs[i].token)
  {
    if Owns(r.tables[m], other, r.outs[i].token) {
      var p := InflightSource(r, m, other);
      ClaimReturnsItsToken(r, i, key);
      ClaimReturnsItsToken(r, p, other);
      assert false;
    }
  }

  /** Fencing: once the key of a claim has been claimed again, no commit or release
      with the superseded token changes the table, on any key. Such a commit is even
      answered `ok` only if a different token with its SHA-256 was committed before. */
  lemma SupersededTokenIsFenced(r: Run, i: nat, k: nat, m: nat, key: string)
    requires ValidRun(r) && ClaimedAt(r, i, key) && ClaimedAt(r, k, key) && i < k < m < |r.calls|
    requires (r.calls[m].Commit? || r.calls[m].Release?) && r.calls[m].token == r.outs[i].token
    ensures r.tables[m + 1] == r.tables[m]
    ensures r.outs[m].CommitOk? ==>
              r.outs[m] == CommitOk(true)
              && exists q :: CommittedAt(r, q, r.calls[m].key) && q < m && r.calls[q].token != r.calls[m].token
                             && r.sha(r.calls[q].token) == r.sha(r.calls[m].token)
  {
    var on := r.calls[m].key;
    SupersededTokenOwnsNothing(r, i, k, m, key, on);
    assert StepsTo(r, m);
    if r.outs[m] == CommitOk(true) {
      var q := CommittedSource(r, m, on);
      DigestsEqualExactly(r.tables[m][on].committedTokenHash.value, r.sha(r.calls[m].token));
      if r.calls[q].token == r.calls[m].token {
        var p := InflightSource(r, q, on);
        ClaimReturnsItsToken(r, i, key);
        ClaimReturnsItsToken(r, p, on);
        assert false;
      }
    }
  }

  /** Within the retention of a commit its row stays, and stays committed. */
  lemma RowStaysForRetention(r: Run, i: nat, m: nat, key: string)
    requires ValidRun(r) && CommittedAt(r, i, key) && i < m <= |r.calls|
    requires r.calls[m - 1].now <= r.calls[i].now + r.cfg.retention
    ensures key in r.tables[m] && r.tables[m][key].status == Committed
  {
    CommittedUntilSwept(r, i, m, key);
  }

  lemma {:induction false} SameRowWhileCommitted(r: Run, i: nat, m: nat, key: string)
    requires ValidRun(r) && CommittedAt(r, i, key) && i < m <= |r.calls|
    requires forall j | i < j <= m :: key in r.tables[j] && r.tables[j][key].status == Committed
    ensures r.tables[m][key] == r.tables[i + 1][key]
    decreases m
  {
    if m > i + 1 {
      SameRowWhileCommitted(r, i, m - 1, key);
      var c := ChangeAt(r, m - 1, key);
    }
  }

  /** For as long as the committed row exists, the winner's repeated commit is
      idempotent, every other token's commit is refused, and so is every release. */
  lemma WinnerRepeatsOthersRefused(r: Run, i: nat, m: nat, key: string)
    requires ValidRun(r) && CommittedAt(r, i, key) && i < m < |r.calls|
    requires forall j | i < j <= m :: key in r.tables[j] && r.tables[j][key].status == Committed
    requires (r.calls[m].Commit? || r.calls[m].Release?) && r.calls[m].key == key && r.calls[m].fault == NoFault
    requires ValidIdentity(key, r.calls[m].token)
    ensures r.tables[m + 1] == r.tables[m]
    ensures r.calls[m].Release? ==> r.outs[m] == Refused(AlreadyCommitted)
    ensures r.calls[m].Commit? ==>
              r.outs[m] == if r.sha(r.calls[m].token) == r.sha(r.calls[i].token) then CommitOk(true)
                           else Refused(AlreadyCommitted)
  {
    SameRowWhileCommitted(r, i, m, key);
    CommittedUntilSwept(r, i, i + 1, key);
    DigestsEqualExactly(r.sha(r.calls[i].token), r.sha(r.calls[m].token));
    assert StepsTo(r, m);
  }

  /** Within the retention of a commit the same event is only ever a duplicate. */
  lemma RedeliveryIsDuplicate(r: Run, i: nat, m: nat, key: string)
    requires ValidRun(r) && CommittedAt(r, i, key) && i < m < |r.calls|
    requires r.calls[m].VerifyAndClaim? && r.calls[m].event.Some? && KeyOf(r.sha, r.calls[m].event.value) == key
    requires r.calls[m].now <= r.calls[i].now + r.cfg.retention && r.calls[m].fault == NoFault
    ensures r.outs[m] == Duplicate(key) || exists p :: EventIdsCollide(r, p, m)
  {
    CommittedUntilSwept(r, i, m + 1, key);
    CommittedUntilSwept(r, i, m, key);
    assert StepsTo(r, m);
    if r.outs[m] == HashCollision {
      var p := HashCollisionNeedsShaCollision(r, m);
    }
  }

  // ---------------------------------------------------------------------------
  // Calls that fail

  ghost predicate Failed(o: Outcome) { o.Threw? || o.Refused? || o.HashCollision? }

  /** A failed commit or release leaves the table as it was. A failed claim leaves it
      swept: the two deletions run before `BEGIN` and are not undone. */
  lemma FailedCallKeepsTable(cfg: Config, sha: Sha, t: Table, call: Call)
    requires Failed(StepOf(cfg, sha, t, call).outcome)
    ensures var t' := StepOf(cfg, sha, t, call).table;
            if call.VerifyAndClaim? then
              forall k :: if k in t'
                          then k in t && t'[k] == t[k]
                          else k in t ==> IsStale(t[k], Committed, call.now - cfg.retention)
                                          || IsStale(t[k], Inflight, call.now - cfg.AbandonedAge())
            else t' == t
  {
  }

  ghost predicate NoneStale(t: Table, status: Status, cutoff: int) { forall k | k in t :: !IsStale(t[k], status, cutoff) }

  /** Exactly when a claim that fails leaves the table unchanged: when its first sweep
      failed, or neither sweep that ran found anything to delete. */
  lemma FailedClaimKeepsTableIff(cfg: Config, sha: Sha, t: Table, call: Call)
    requires call.VerifyAndClaim? && Failed(StepOf(cfg, sha, t, call).outcome)
    ensures StepOf(cfg, sha, t, call).table == t <==>
            call.fault == AtCommittedSweep
            || (NoneStale(t, Committed, call.now - cfg.retention)
                && (call.fault == AtAbandonedSweep || NoneStale(t, Inflight, call.now - cfg.AbandonedAge())))
  {
    var t' := StepOf(cfg, sha, t, call).table;
    if t' == t && call.fault != AtCommittedSweep {
      forall k | k in t ensures !IsStale(t[k], Committed, call.now - cfg.retention) { assert k in t'; }
      forall k | k in t && call.fault != AtAbandonedSweep ensures !IsStale(t[k], Inflight, call.now - cfg.AbandonedAge()) {
        assert k in t';
      }
    }
  }

  /** A run whose last call throws and changes the table all the same, for any events and
      any two tokens: an event is claimed and committed, and after the retention `BEGIN` of
      another claim fails, behind the sweep that has deleted the row. */
  lemma ThrowingClaimCanChangeTable(cfg: Config, sha: Sha, eventId: string, token: string, other: string, token': string)
    returns (r: Run)
    requires cfg.Valid() && ValidIdentity(KeyOf(sha, eventId), token) && token != token'
    ensures ValidRun(r) && r.cfg == cfg && r.sha == sha && |r.calls| == 3
    ensures r.calls[2] == VerifyAndClaim(Some(other), token', cfg.retention + 1, AtBegin) && r.outs[2] == Threw
    ensures r.tables[2].Keys == {KeyOf(sha, eventId)} && r.tables[3] == map[]
  {
    var key, hash := KeyOf(sha, eventId), EventHashOf(sha, eventId);
    var row := FreshRow(hash, token, 0);
    var committed := row.(status := Committed, claimToken := None, committedTokenHash := Some(sha(token)), committedAt := Some(0));
    var calls := [VerifyAndClaim(Some(eventId), token, 0, NoFault), Commit(key, token, 0, NoFault),
                  VerifyAndClaim(Some(other), token', cfg.retention + 1, AtBegin)];
    var tables: seq<Table> := [map[], map[key := row], map[key := committed], map[]];
    r := Run(cfg, sha, calls, tables, [Claimed(key, token, false), CommitOk(false), Threw]);
    assert Swept(cfg, map[], 0) == map[];
    assert StepsTo(r, 0);
    assert StepsTo(r, 1);
    assert Swept(cfg, tables[2], cfg.retention + 1) == map[];
    assert StepsTo(r, 2);
  }
}
