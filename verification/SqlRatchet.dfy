/** The baseline of SQL writes in the HTTP layer (the comparison in
    scripts/api-sql-ratchet.py). */
module SqlRatchet {
  /** Writes by file; a measurement has no zero entries. */
  type Counts = map<string, int>

  function Count(counts: Counts, path: string): int { if path in counts then counts[path] else 0 }

  predicate Measurement(current: Counts) { forall p | p in current :: current[p] > 0 }

  function Min(a: int, b: int): int { if a <= b then a else b }

  /** Files with writes that nobody allowed. */
  function Failing(allowed: Counts, current: Counts): set<string> {
    set p | p in current && (p !in allowed || current[p] > allowed[p])
  }

  function Stale(allowed: Counts, current: Counts): set<string> {
    set p | p in allowed && Count(current, p) < allowed[p]
  }

  /** The baseline that `--write-baseline` leaves. */
  function Lowered(allowed: Counts, current: Counts): Counts {
    map p | p in allowed && Count(current, p) > 0 :: Min(allowed[p], Count(current, p))
  }

  class Ratchet {
    var maxWrites: Counts

    constructor (allowed: Counts)
      ensures maxWrites == allowed
    {
      maxWrites := allowed;
    }

    method Compare(current: Counts) returns (failures: set<string>)
      ensures failures == Failing(maxWrites, current)
    {
      failures := {};
      var rest := current.Keys;
      while rest != {}
        invariant rest <= current.Keys
        invariant failures == set p | p in Failing(maxWrites, current) && p !in rest
      {
        var path :| path in rest;
        rest := rest - {path};
        if path !in maxWrites {
          failures := failures + {path};
        } else if current[path] > maxWrites[path] {
          failures := failures + {path};
        }
      }
    }

    /** One run; what is stale counts only if nothing failed, and writing always
        succeeds. */
    method Run(current: Counts, write: bool) returns (ok: bool)
      modifies this
      ensures write ==> ok && maxWrites == Lowered(old(maxWrites), current)
      ensures !write ==> maxWrites == old(maxWrites)
      ensures !write ==> (ok <==> Failing(maxWrites, current) == {} && Stale(maxWrites, current) == {})
    {
      var failures := Compare(current);
      var stale := Stale(maxWrites, current);
      if write {
        maxWrites := Lowered(maxWrites, current);
        return true;
      }
      if stale != {} && failures == {} { failures := stale; }
      ok := failures == {};
    }
  }

  predicate Passes(allowed: Counts, current: Counts) { Failing(allowed, current) == {} && Stale(allowed, current) == {} }

  /** A check passes exactly when every file has as many writes as its entry says, and
      files without writes have no positive entry. */
  lemma PassesIffEqual(allowed: Counts, current: Counts)
    requires Measurement(current)
    ensures Passes(allowed, current)
            <==> forall p :: if p in current then p in allowed && allowed[p] == current[p] else Count(allowed, p) <= 0
  {
    if Passes(allowed, current) {
      forall p ensures if p in current then p in allowed && allowed[p] == current[p] else Count(allowed, p) <= 0 {
        assert p !in Failing(allowed, current) && p !in Stale(allowed, current);
      }
    }
  }

  /** Writing the baseline leaves every growth failure standing, and no new one. */
  lemma WriteKeepsFailures(allowed: Counts, current: Counts)
    requires Measurement(current)
    ensures Failing(Lowered(allowed, current), current) == Failing(allowed, current)
  {
    var after := Lowered(allowed, current);
    forall p ensures p in Failing(after, current) <==> p in Failing(allowed, current) { }
  }

  /** Afterwards nothing is stale, the entries left are those of files that have writes, and
      writing again changes nothing. */
  lemma WriteClearsStale(allowed: Counts, current: Counts)
    ensures Stale(Lowered(allowed, current), current) == {}
    ensures forall p :: p in Lowered(allowed, current) <==> p in allowed && p in current && current[p] > 0
    ensures Lowered(Lowered(allowed, current), current) == Lowered(allowed, current)
  {
  }

  /** The baseline after a sequence of writes against these measurements. */
  function After(allowed: Counts, measured: seq<Counts>): Counts {
    if measured == [] then allowed
    else Lowered(After(allowed, measured[..|measured| - 1]), measured[|measured| - 1])
  }

  lemma {:induction false} BaselineOnlyShrinks(allowed: Counts, measured: seq<Counts>)
    ensures var now := After(allowed, measured); forall p | p in now :: p in allowed && now[p] <= allowed[p]
  {
    if measured != [] { BaselineOnlyShrinks(allowed, measured[..|measured| - 1]); }
  }

  /** Whatever was measured and written on the way, when a check passes no file has more
      writes than the first baseline reviewed for it, or than any measurement the
      baseline was lowered to since. */
  lemma WritesNeverGrow(allowed: Counts, measured: seq<Counts>, current: Counts, p: string, k: nat)
    requires Measurement(current) && Passes(After(allowed, measured), current) && p in current
    ensures p in allowed && current[p] <= allowed[p]
    ensures k < |measured| ==> current[p] <= Count(measured[k], p)
  {
    BaselineOnlyShrinks(allowed, measured);
    PassesIffEqual(After(allowed, measured), current);
    if k < |measured| { LoweredBound(allowed, measured, p, k); }
  }

  lemma {:induction false} LoweredBound(allowed: Counts, measured: seq<Counts>, p: string, k: nat)
    requires k < |measured| && p in After(allowed, measured)
    ensures After(allowed, measured)[p] <= Count(measured[k], p)
  {
    if k < |measured| - 1 {
      var shorter := measured[..|measured| - 1];
      assert shorter[k] == measured[k];
      LoweredBound(allowed, shorter, p, k);
    }
  }
}
