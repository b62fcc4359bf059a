/** The edge bridge's claim table (ops/edge/bridge.js): one SQLite table, three
    calls, two retention sweeps. `StepOf` says what one call does to the table;
    class `Bridge` is the code that does it, one database operation at a time. */
module EdgeBridge {
  import opened Prelude

  datatype Status = Inflight | Committed

  /** One row of `event_claims`; the primary key is the key of the map that holds it. */
  datatype Row = Row(eventIdHash: string, status: Status, claimToken: Option<string>,
                     committedTokenHash: Option<string>, claimedAt: int,
                     committedAt: Option<int>, updatedAt: int)

  type Table = map<string, Row>

  predicate LowerHex(c: char) { '0' <= c <= '9' || 'a' <= c <= 'f' }

  predicate AnyHex(c: char) { LowerHex(c) || 'A' <= c <= 'F' }

  predicate LowerHex64(s: string) { |s| == 64 && forall i | 0 <= i < 64 :: LowerHex(s[i]) }

  predicate AnyHex64(s: string) { |s| == 64 && forall i | 0 <= i < 64 :: AnyHex(s[i]) }

  /** What a hex-encoded SHA-256 looks like. Nothing else is assumed of the hash:
      results that need collision freedom name the collision instead. */
  type Digest = s: string | LowerHex64(s) witness seq(64, i => '0')

  type Sha = string -> Digest

  function Lower(c: char): char {
    if c == 'A' then 'a' else if c == 'B' then 'b' else if c == 'C' then 'c'
    else if c == 'D' then 'd' else if c == 'E' then 'e' else if c == 'F' then 'f' else c
  }

  /** `safeEqualHex`: both sides are 64 hex digits and decode to the same bytes. */
  predicate SafeEqualHex(left: string, right: string) {
    AnyHex64(left) && AnyHex64(right) && forall i | 0 <= i < 64 :: Lower(left[i]) == Lower(right[i])
  }

  lemma DigestsEqualExactly(left: Digest, right: Digest)
    ensures SafeEqualHex(left, right) <==> left == right
  {
    if SafeEqualHex(left, right) {
      forall i | 0 <= i < 64 ensures left[i] == right[i] {
        assert Lower(left[i]) == Lower(right[i]);
      }
    }
  }

  /** The configured lease and retention, in seconds. */
  datatype Config = Config(lease: int, retention: int) {
    predicate Valid() { 60 <= lease <= 7200 && 86400 <= retention <= 365 * 86400 }

    function AbandonedAge(): int { if lease * 8 > 86400 then lease * 8 else 86400 }
  }

  /** `integerEnv`, on the value as `Number` parses it; None stands for no integer. */
  function IntegerEnv(parsed: Option<int>, min: int, max: int): Option<int> {
    if parsed.None? || parsed.value < min || parsed.value > max then None else parsed
  }

  /** The settings read at start-up, which throws on any outside its range. */
  function LoadConfig(lease: Option<int>, retention: Option<int>): (r: Option<Config>)
    ensures r.Some? <==> lease.Some? && retention.Some? && 60 <= lease.value <= 7200 && 86400 <= retention.value <= 31536000
    ensures r.Some? ==> r.value.Valid()
    ensures r.Some? ==> r.value == Config(lease.value, retention.value)
  {
    match (IntegerEnv(lease, 60, 7200), IntegerEnv(retention, 86400, 365 * 86400))
    case (Some(l), Some(k)) => Some(Config(l, k))
    case _ => None
  }

  /** Which database operation of the call throws, if any. */
  datatype Fault = NoFault | AtCommittedSweep | AtAbandonedSweep | AtBegin | AtRead | AtWrite | AtEnd

  datatype Call =
    | VerifyAndClaim(event: Option<string>, token: string, now: int, fault: Fault) // event: the verified envelope's id
    | Commit(key: string, token: string, now: int, fault: Fault)
    | Release(key: string, token: string, now: int, fault: Fault)

  datatype Reason = InvalidIdentity | ClaimMissing | AlreadyCommitted | NotOwned

  datatype Outcome =
    | Rejected
    | Claimed(key: string, token: string, reclaimed: bool)
    | Duplicate(key: string)
    | Busy(key: string)
    | HashCollision
    | CommitOk(idempotent: bool)
    | ReleaseOk(idempotent: bool)
    | Refused(reason: Reason)
    | Threw

  datatype Step = Step(table: Table, outcome: Outcome)

  function KeyOf(sha: Sha, eventId: string): string { sha(eventId) }

  function EventHashOf(sha: Sha, eventId: string): string { sha("event:" + eventId) }

  predicate IsStale(row: Row, status: Status, cutoff: int) { row.status == status && row.updatedAt < cutoff }

  /** `DELETE FROM event_claims WHERE status=? AND updated_at<?` */
  function Sweep(t: Table, status: Status, cutoff: int): Table {
    map k | k in t && !IsStale(t[k], status, cutoff) :: t[k]
  }

  function FreshRow(eventIdHash: string, token: string, now: int): Row {
    Row(eventIdHash, Inflight, Some(token), None, now, None, now)
  }

  /** The rows `UPDATE`/`DELETE ... WHERE claim_key=? AND status='inflight' AND claim_token=?` selects. */
  predicate Owns(t: Table, key: string, token: string) {
    key in t && t[key].status == Inflight && t[key].claimToken == Some(token)
  }

  predicate ValidIdentity(key: string, token: string) {
    LowerHex64(key) && |token| == 36 && forall i | 0 <= i < 36 :: AnyHex(token[i]) || token[i] == '-'
  }

  /** The table the transaction of `verifyAndClaim` starts from. */
  function Swept(cfg: Config, t: Table, now: int): Table {
    Sweep(Sweep(t, Committed, now - cfg.retention), Inflight, now - cfg.AbandonedAge())
  }

  function ClaimInTransaction(cfg: Config, sha: Sha, t: Table, eventId: string, token: string, now: int): Step {
    var key, hash := KeyOf(sha, eventId), EventHashOf(sha, eventId);
    if key !in t then Step(t[key := FreshRow(hash, token, now)], Claimed(key, token, false))
    else if t[key].eventIdHash != hash then Step(t, HashCollision)
    else if t[key].status == Committed then Step(t, Duplicate(key))
    else if now - t[key].claimedAt >= cfg.lease then
      Step(t[key := FreshRow(hash, token, now)], Claimed(key, token, true))
    else Step(t, Busy(key))
  }

  /** The transaction, whose failure at any operation undoes all of it. */
  function Transacted(cfg: Config, sha: Sha, t: Table, eventId: string, token: string, now: int, fault: Fault): Step {
    var s := ClaimInTransaction(cfg, sha, t, eventId, token, now);
    if fault in {AtBegin, AtRead, AtEnd} || (fault == AtWrite && s.outcome.Claimed?) then Step(t, Threw) else s
  }

  function ClaimStep(cfg: Config, sha: Sha, t: Table, call: Call): Step
    requires call.VerifyAndClaim?
  {
    if call.event.None? then Step(t, Rejected)
    else if call.fault == AtCommittedSweep then Step(t, Threw)
    else if call.fault == AtAbandonedSweep then Step(Sweep(t, Committed, call.now - cfg.retention), Threw)
    else
      Transacted(cfg, sha, Swept(cfg, t, call.now), call.event.value, call.token, call.now, call.fault)
  }

  function CommitStep(sha: Sha, t: Table, call: Call): Step
    requires call.Commit?
  {
    if !ValidIdentity(call.key, call.token) then Step(t, Refused(InvalidIdentity))
    else if call.fault in {AtBegin, AtRead} then Step(t, Threw)
    else if call.key in t && t[call.key].status == Inflight && call.fault == AtWrite then Step(t, Threw)
    else if call.fault == AtEnd then Step(t, Threw)
    else if call.key !in t then Step(t, Refused(ClaimMissing))
    else
      var row := t[call.key];
      if row.status == Committed then
        if row.committedTokenHash.Some? && SafeEqualHex(row.committedTokenHash.value, sha(call.token))
        then Step(t, CommitOk(true)) else Step(t, Refused(AlreadyCommitted))
      else if Owns(t, call.key, call.token) then
        Step(t[call.key := row.(status := Committed, claimToken := None, committedTokenHash := Some(sha(call.token)),
                                committedAt := Some(call.now), updatedAt := call.now)], CommitOk(false))
      else Step(t, Refused(NotOwned))
  }

  function ReleaseStep(t: Table, call: Call): Step
    requires call.Release?
  {
    if !ValidIdentity(call.key, call.token) then Step(t, Refused(InvalidIdentity))
    else if call.fault in {AtBegin, AtRead} then Step(t, Threw)
    else if call.key in t && t[call.key].status == Inflight && call.fault == AtWrite then Step(t, Threw)
    else if call.fault == AtEnd then Step(t, Threw)
    else if call.key !in t then Step(t, ReleaseOk(true))
    else if t[call.key].status == Committed then Step(t, Refused(AlreadyCommitted))
    else if Owns(t, call.key, call.token) then Step(t - {call.key}, ReleaseOk(false))
    else Step(t, Refused(NotOwned))
  }

  /** What one call does to the table, and what it returns or throws. */
  function StepOf(cfg: Config, sha: Sha, t: Table, call: Call): Step {
    match call
    case VerifyAndClaim(_, _, _, _) => ClaimStep(cfg, sha, t, call)
    case Commit(_, _, _, _) => CommitStep(sha, t, call)
    case Release(_, _, _, _) => ReleaseStep(t, call)
  }

  /** The bridge process. A JavaScript exception is an outcome (`Threw` for the
      database's own, `Refused` for `errorWithStatus`), and `Caught` is the shared
      `catch` clause: roll back if a transaction is still open, then rethrow. */
  class Bridge {
    const cfg: Config
    const sha: Sha
    var rows: Table
    var savepoint: Option<Table> // the table at BEGIN, while a transaction is open

    /** Start-up, on whatever rows the database holds. */
    constructor (cfg: Config, sha: Sha, existing: Table)
      ensures this.cfg == cfg && this.sha == sha && rows == existing && savepoint == None
    {
      this.cfg, this.sha, rows, savepoint := cfg, sha, existing, None;
    }

    /** Start-up on what the database holds, refused if `PRAGMA quick_check` finds fault. */
    static method Start(cfg: Config, sha: Sha, existing: Table, sound: bool) returns (bridge: Bridge?)
      ensures bridge == null <==> !sound
      ensures bridge != null ==> fresh(bridge) && bridge.cfg == cfg && bridge.sha == sha
      ensures bridge != null ==> bridge.rows == existing && bridge.savepoint == None
    {
      bridge := null;
      if sound { bridge := new Bridge(cfg, sha, existing); }
    }

    method Rollback()
      modifies this`rows, this`savepoint
      ensures savepoint == None
      ensures rows == if old(savepoint).Some? then old(savepoint).value else old(rows)
    {
      if savepoint.Some? {
        rows := savepoint.value;
        savepoint := None;
      }
    }

    /** Runs COMMIT; when it throws, the transaction stays open for `Caught`. */
    method EndTransaction(fault: Fault, success: Outcome) returns (out: Outcome)
      modifies this`savepoint
      ensures if fault == AtEnd then out == Threw && savepoint == old(savepoint)
              else out == success && savepoint == None
    {
      if fault == AtEnd { return Threw; }
      savepoint := None;
      return success;
    }

    /** Runs ROLLBACK inside the `try`, then throws or returns `failure`. */
    method AbortTransaction(fault: Fault, failure: Outcome) returns (out: Outcome)
      modifies this`rows, this`savepoint
      ensures rows == if fault != AtEnd && old(savepoint).Some? then old(savepoint).value else old(rows)
      ensures savepoint == if fault == AtEnd then old(savepoint) else None
      ensures out == if fault == AtEnd then Threw else failure
    {
      if fault == AtEnd { return Threw; }
      Rollback();
      return failure;
    }

    method Caught(thrown: Outcome) returns (out: Outcome)
      modifies this`rows, this`savepoint
      ensures savepoint == None && out == thrown
      ensures rows == if old(savepoint).Some? then old(savepoint).value else old(rows)
    {
      Rollback();
      return thrown;
    }

    /** Every row of the status last written before the cutoff goes, and every other row
        stays as it is. */
    method DeleteStale(status: Status, cutoff: int)
      modifies this`rows
      ensures forall k :: k in rows <==> k in old(rows) && (old(rows)[k].status == status ==> old(rows)[k].updatedAt >= cutoff)
      ensures forall k | k in rows :: rows[k] == old(rows)[k]
    {
      rows := Sweep(rows, status, cutoff);
    }

    method TryClaim(eventId: string, token: string, now: int, fault: Fault) returns (out: Outcome)
      requires savepoint == Some(rows) && fault != AtBegin
      modifies this`rows, this`savepoint
      ensures savepoint == None || (savepoint == Some(old(rows)) && out == Threw)
      ensures var s := Transacted(cfg, sha, old(rows), eventId, token, now, fault);
              out == s.outcome && (savepoint == None ==> rows == s.table)
    {
      var key, hash := sha(eventId), sha("event:" + eventId);
      if fault == AtRead { return Threw; }
      if key !in rows {
        if fault == AtWrite { return Threw; }
        rows := rows[key := FreshRow(hash, token, now)];
        out := EndTransaction(fault, Claimed(key, token, false));
        return;
      }
      var row := rows[key];
      if row.eventIdHash != hash {
        out := AbortTransaction(fault, HashCollision);
        return;
      }
      if row.status == Committed {
        out := EndTransaction(fault, Duplicate(key));
        return;
      }
      if now - row.claimedAt >= cfg.lease {
        if fault == AtWrite { return Threw; }
        rows := rows[key := row.(status := Inflight, claimToken := Some(token), committedTokenHash := None,
                                 claimedAt := now, committedAt := None, updatedAt := now)];
        out := EndTransaction(fault, Claimed(key, token, true));
        return;
      }
      out := EndTransaction(fault, Busy(key));
    }

    /** `BEGIN IMMEDIATE`, the `try` block and its `catch`. */
    method ClaimTransaction(eventId: string, token: string, now: int, fault: Fault) returns (out: Outcome)
      requires savepoint == None
      modifies this`rows, this`savepoint
      ensures savepoint == None
      ensures Step(rows, out) == Transacted(cfg, sha, old(rows), eventId, token, now, fault)
    {
      if fault == AtBegin { return Threw; }
      savepoint := Some(rows);
      out := TryClaim(eventId, token, now, fault);
      if out == Threw { out := Caught(out); }
    }

    method VerifyAndClaim(event: Option<string>, token: string, now: int, fault: Fault) returns (out: Outcome)
      requires savepoint == None
      modifies this`rows, this`savepoint
      ensures savepoint == None
      ensures Step(rows, out) == StepOf(cfg, sha, old(rows), Call.VerifyAndClaim(event, token, now, fault))
    {
      if event.None? { return Rejected; }
      if fault == AtCommittedSweep { return Threw; }
      DeleteStale(Committed, now - cfg.retention);
      assert rows == Sweep(old(rows), Committed, now - cfg.retention);
      if fault == AtAbandonedSweep { return Threw; }
      DeleteStale(Inflight, now - cfg.AbandonedAge());
      assert rows == Swept(cfg, old(rows), now);
      out := ClaimTransaction(event.value, token, now, fault);
    }

    method TryCommit(key: string, token: string, now: int, fault: Fault) returns (out: Outcome)
      requires savepoint == Some(rows) && ValidIdentity(key, token) && fault != AtBegin
      modifies this`rows, this`savepoint
      ensures savepoint == None || (savepoint == Some(old(rows)) && out == Threw)
      ensures var s := CommitStep(sha, old(rows), Call.Commit(key, token, now, fault));
              out == s.outcome && (savepoint == None ==> rows == s.table)
    {
      var tokenHash := sha(token);
      if fault == AtRead { return Threw; }
      if key !in rows {
        out := AbortTransaction(fault, Refused(ClaimMissing));
        return;
      }
      var row := rows[key];
      if row.status == Committed {
        if row.committedTokenHash.Some? && SafeEqualHex(row.committedTokenHash.value, tokenHash) {
          out := EndTransaction(fault, CommitOk(true));
          return;
        }
        out := AbortTransaction(fault, Refused(AlreadyCommitted));
        return;
      }
      if fault == AtWrite { return Threw; }
      var changes := 0;
      if Owns(rows, key, token) {
        rows := rows[key := row.(status := Committed, claimToken := None, committedTokenHash := Some(tokenHash),
                                 committedAt := Some(now), updatedAt := now)];
        changes := 1;
      }
      if changes != 1 {
        out := AbortTransaction(fault, Refused(NotOwned));
        return;
      }
      out := EndTransaction(fault, CommitOk(false));
    }

    method Commit(key: string, token: string, now: int, fault: Fault) returns (out: Outcome)
      requires savepoint == None
      modifies this`rows, this`savepoint
      ensures savepoint == None
      ensures Step(rows, out) == StepOf(cfg, sha, old(rows), Call.Commit(key, token, now, fault))
    {
      if !ValidIdentity(key, token) { return Refused(InvalidIdentity); }
      if fault == AtBegin { return Threw; }
      savepoint := Some(rows);
      out := TryCommit(key, token, now, fault);
      if out.Threw? || out.Refused? { out := Caught(out); }
    }

    method TryRelease(key: string, token: string, now: int, fault: Fault) returns (out: Outcome)
      requires savepoint == Some(rows) && ValidIdentity(key, token) && fault != AtBegin
      modifies this`rows, this`savepoint
      ensures savepoint == None || (savepoint == Some(old(rows)) && out == Threw)
      ensures var s := ReleaseStep(old(rows), Call.Release(key, token, now, fault));
              out == s.outcome && (savepoint == None ==> rows == s.table)
    {
      if fault == AtRead { return Threw; }
      if key !in rows {
        out := EndTransaction(fault, ReleaseOk(true));
        return;
      }
      if rows[key].status == Committed {
        out := AbortTransaction(fault, Refused(AlreadyCommitted));
        return;
      }
      if fault == AtWrite { return Threw; }
      var changes := 0;
      if Owns(rows, key, token) {
        rows := rows - {key};
        changes := 1;
      }
      if changes != 1 {
        out := AbortTransaction(fault, Refused(NotOwned));
        return;
      }
      out := EndTransaction(fault, ReleaseOk(false));
    }

    method Release(key: string, token: string, now: int, fault: Fault) returns (out: Outcome)
      requires savepoint == None
      modifies this`rows, this`savepoint
      ensures savepoint == None
      ensures Step(rows, out) == StepOf(cfg, sha, old(rows), Call.Release(key, token, now, fault))
    {
      if !ValidIdentity(key, token) { return Refused(InvalidIdentity); }
      if fault == AtBegin { return Threw; }
      savepoint := Some(rows);
      out := TryRelease(key, token, now, fault);
      if out.Threw? || out.Refused? { out := Caught(out); }
    }
  }
}
