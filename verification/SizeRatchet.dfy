/** The source size ratchet (scripts/source-size-ratchet.py): one run over a tree of
    files, and what a baseline keeps over many runs. */
module SizeRatchet {
  const THRESHOLD: nat := 1200

  /** Files by path with their line counts. */
  type Files = map<string, nat>

  type Records = map<string, int>

  /** Which paths the walk looks at: a source extension, outside ignored directories. */
  type Filter = string -> bool

  function Lines(files: Files, path: string): nat { if path in files then files[path] else 0 }

  function Min(a: int, b: int): int { if a <= b then a else b }

  // ---------------------------------------------------------------------------
  // What a run finds

  function NewLarge(tracked: Records, files: Files, scanned: Filter): set<string> {
    set p | p in files && scanned(p) && files[p] > THRESHOLD && p !in tracked
  }

  function Exceeded(tracked: Records, allowance: int, files: Files): set<string> {
    set p | p in tracked && Lines(files, p) > tracked[p] + allowance
  }

  function Stale(tracked: Records, allowance: int, files: Files): set<string> {
    set p | p in tracked && (Lines(files, p) <= THRESHOLD || Lines(files, p) + allowance < tracked[p])
  }

  /** The records that `--write-baseline` leaves. */
  function Lowered(tracked: Records, files: Files): Records {
    map p | p in tracked && Lines(files, p) > THRESHOLD :: Min(tracked[p], Lines(files, p))
  }

  /** The files that grew without review. */
  function Growth(tracked: Records, allowance: int, files: Files, scanned: Filter): set<string> {
    NewLarge(tracked, files, scanned) + Exceeded(tracked, allowance, files)
  }

  predicate Passes(tracked: Records, allowance: int, files: Files, scanned: Filter) {
    Growth(tracked, allowance, files, scanned) == {} && Stale(tracked, allowance, files) == {}
  }

  // ---------------------------------------------------------------------------
  // The code

  class Ratchet {
    const allowance: int
    var maxLines: Records

    constructor (records: Records, allowanceLines: int)
      ensures maxLines == records && allowance == allowanceLines
    {
      maxLines, allowance := records, allowanceLines;
    }

    /** The walk over the tree. */
    method Walk(files: Files, scanned: Filter) returns (errors: set<string>)
      ensures errors == NewLarge(maxLines, files, scanned)
    {
      errors := {};
      var rest := files.Keys;
      while rest != {}
        invariant rest <= files.Keys
        invariant errors == set p | p in NewLarge(maxLines, files, scanned) && p !in rest
      {
        var path :| path in rest;
        rest := rest - {path};
        if scanned(path) {
          if files[path] > THRESHOLD {
            if path !in maxLines { errors := errors + {path}; }
          }
        }
      }
    }

    /** The loop over the recorded files. */
    method Compare(files: Files) returns (errors: set<string>, lowered: Records, stale: set<string>)
      ensures errors == Exceeded(maxLines, allowance, files)
      ensures lowered == Lowered(maxLines, files)
      ensures stale == Stale(maxLines, allowance, files)
    {
      errors, lowered, stale := {}, map[], {};
      var rest := maxLines.Keys;
      while rest != {}
        invariant rest <= maxLines.Keys
        invariant errors == set p | p in Exceeded(maxLines, allowance, files) && p !in rest
        invariant lowered == map p | p in Lowered(maxLines, files) && p !in rest :: Lowered(maxLines, files)[p]
        invariant stale == set p | p in Stale(maxLines, allowance, files) && p !in rest
      {
        var path :| path in rest;
        rest := rest - {path};
        var maximum, lines := maxLines[path], Lines(files, path);
        if lines > maximum + allowance { errors := errors + {path}; }
        if lines > THRESHOLD { lowered := lowered[path := Min(maximum, lines)]; }
        if lines <= THRESHOLD {
          stale := stale + {path};
        } else if lines + allowance < maximum {
          stale := stale + {path};
        }
      }
    }

    /** One run: with `--write-baseline` the records are replaced and the run succeeds
        whatever it found. */
    method Run(files: Files, scanned: Filter, write: bool) returns (ok: bool)
      modifies this
      ensures write ==> ok && maxLines == Lowered(old(maxLines), files)
      ensures !write ==> maxLines == old(maxLines) && (ok <==> Passes(maxLines, allowance, files, scanned))
    {
      var errors := Walk(files, scanned);
      var exceeded, lowered, stale := Compare(files);
      errors := errors + exceeded;
      if write {
        maxLines := lowered;
        return true;
      }
      ok := stale == {} && errors == {};
    }
  }

  // ---------------------------------------------------------------------------
  // One run

  /** A check passes exactly when every large file it sees is recorded, and every record
      is of a large file within the allowance of it on either side. */
  lemma PassesIff(tracked: Records, allowance: int, files: Files, scanned: Filter)
    ensures Passes(tracked, allowance, files, scanned)
            <==> && (forall p | p in files && scanned(p) && files[p] > 1200 :: p in tracked)
                 && (forall p | p in tracked ::
                       Lines(files, p) > 1200 && tracked[p] - allowance <= Lines(files, p) <= tracked[p] + allowance)
  {
    if Passes(tracked, allowance, files, scanned) {
      forall p | p in files && scanned(p) && files[p] > THRESHOLD ensures p in tracked {
        assert p !in Growth(tracked, allowance, files, scanned);
      }
      forall p | p in tracked
        ensures Lines(files, p) > THRESHOLD && tracked[p] - allowance <= Lines(files, p) <= tracked[p] + allowance
      {
        assert p !in Growth(tracked, allowance, files, scanned) && p !in Stale(tracked, allowance, files);
      }
    }
  }

  /** Writing the baseline twice is writing it once. */
  lemma WriteIsIdempotent(tracked: Records, files: Files)
    ensures Lowered(Lowered(tracked, files), files) == Lowered(tracked, files)
  {
  }

  /** Writing the baseline clears what is stale, exactly when the allowance does not make
      a record stale that equals its file. */
  lemma WriteClearsStale(tracked: Records, allowance: int, files: Files)
    ensures Stale(Lowered(tracked, files), allowance, files) == {}
            <==> allowance >= 0 || forall p | p in tracked && Lines(files, p) > THRESHOLD :: tracked[p] <= Lines(files, p) + allowance
  {
    var after := Lowered(tracked, files);
    forall p ensures p in Stale(after, allowance, files)
                     <==> p in tracked && Lines(files, p) > THRESHOLD && allowance < 0 && tracked[p] > Lines(files, p) + allowance
    {
    }
    if forall p | p in tracked && Lines(files, p) > THRESHOLD :: tracked[p] <= Lines(files, p) + allowance {
      assert forall p :: p !in Stale(after, allowance, files);
    } else if allowance < 0 {
      var p :| p in tracked && Lines(files, p) > THRESHOLD && tracked[p] > Lines(files, p) + allowance;
      assert p in Stale(after, allowance, files);
    }
  }

  /** A recorded file that outgrew its record without being large. */
  predicate SmallAndExceeded(tracked: Records, allowance: int, files: Files, p: string) {
    p in tracked && tracked[p] + allowance < Lines(files, p) <= THRESHOLD
  }

  lemma GrowthAfterWrite(tracked: Records, allowance: nat, files: Files, scanned: Filter, p: string)
    ensures p in Growth(Lowered(tracked, files), allowance, files, scanned)
            <==> p in Growth(tracked, allowance, files, scanned) && !SmallAndExceeded(tracked, allowance, files, p)
  {
  }

  /** Writing the baseline leaves the growth failures as they were, exactly when no
      recorded file outgrew its record while staying at or below the threshold: the
      record of such a file is dropped, and the failure with it. */
  lemma WriteKeepsGrowthIff(tracked: Records, allowance: nat, files: Files, scanned: Filter)
    ensures Growth(Lowered(tracked, files), allowance, files, scanned) == Growth(tracked, allowance, files, scanned)
            <==> forall p :: !SmallAndExceeded(tracked, allowance, files, p)
  {
    var before, after := Growth(tracked, allowance, files, scanned), Growth(Lowered(tracked, files), allowance, files, scanned);
    forall p ensures p in after <==> p in before && !SmallAndExceeded(tracked, allowance, files, p) {
      GrowthAfterWrite(tracked, allowance, files, scanned, p);
    }
    if p :| SmallAndExceeded(tracked, allowance, files, p) { assert p in before && p !in after; }
    if forall p :: !SmallAndExceeded(tracked, allowance, files, p) {
      forall p ensures p in after <==> p in before { }
      assert after == before;
    }
  }

  /** A record of 100 lines, no allowance and a file of 500: the check fails, and behind a
      write it passes. */
  lemma SmallOutgrownRecordDropped(p: string, scanned: Filter)
    ensures var tracked, files := map[p := 100], map[p := 500];
            && SmallAndExceeded(tracked, 0, files, p)
            && Growth(tracked, 0, files, scanned) == {p}
            && Passes(Lowered(tracked, files), 0, files, scanned)
  {
    var tracked, files := map[p := 100], map[p := 500];
    assert Lines(files, p) == 500;
    assert Lowered(tracked, files) == map[];
    assert forall q :: q in Growth(tracked, 0, files, scanned) <==> q == p;
    assert Growth(map[], 0, files, scanned) == {} && Stale(map[], 0, files) == {};
  }

  /** After a write the same files pass a check, unless they had grown. */
  lemma WriteThenPasses(tracked: Records, allowance: nat, files: Files, scanned: Filter)
    requires Growth(tracked, allowance, files, scanned) == {}
    ensures Passes(Lowered(tracked, files), allowance, files, scanned)
  {
    WriteClearsStale(tracked, allowance, files);
    forall p ensures p !in Growth(Lowered(tracked, files), allowance, files, scanned) {
      GrowthAfterWrite(tracked, allowance, files, scanned, p);
      assert p !in Growth(tracked, allowance, files, scanned);
    }
  }

  // ---------------------------------------------------------------------------
  // Many runs

  datatype Step = Edit(files: Files) | WriteBaseline | Check

  /** The records and the files after some steps. */
  datatype State = State(records: Records, files: Files)

  function After(s: State, steps: seq<Step>): State {
    if steps == [] then s
    else
      var before, last := After(s, steps[..|steps| - 1]), steps[|steps| - 1];
      match last
      case Edit(files) => before.(files := files)
      case WriteBaseline => before.(records := Lowered(before.records, before.files))
      case Check => before
  }

  /** Records are only ever lowered or dropped. */
  lemma {:induction false} RecordsOnlyShrink(s: State, steps: seq<Step>)
    ensures forall p | p in After(s, steps).records :: p in s.records && After(s, steps).records[p] <= s.records[p]
  {
    if steps != [] { RecordsOnlyShrink(s, steps[..|steps| - 1]); }
  }

  /** Every record is of a large file, as in every baseline that starts that way. */
  predicate AllLarge(records: Records) { forall p | p in records :: records[p] > THRESHOLD }

  lemma {:induction false} RecordsStayLarge(s: State, steps: seq<Step>)
    requires AllLarge(s.records)
    ensures AllLarge(After(s, steps).records)
  {
    if steps != [] { RecordsStayLarge(s, steps[..|steps| - 1]); }
  }

  /** From such records no write of any run hides a growth failure, or adds one. */
  lemma WritesKeepGrowth(s: State, steps: seq<Step>, allowance: nat, scanned: Filter)
    requires AllLarge(s.records)
    ensures var now, next := After(s, steps), After(s, steps + [WriteBaseline]);
            && next.files == now.files
            && Growth(next.records, allowance, next.files, scanned) == Growth(now.records, allowance, now.files, scanned)
  {
    var now := After(s, steps);
    assert (steps + [WriteBaseline])[..|steps|] == steps;
    RecordsStayLarge(s, steps);
    WriteKeepsGrowthIff(now.records, allowance, now.files, scanned);
    assert forall p :: !SmallAndExceeded(now.records, allowance, now.files, p);
  }

  /** However files are edited and baselines written, whenever a check passes a file that
      was recorded at first, and that the walk sees, has at most its first record plus
      one allowance, or is not large. */
  lemma SlackNeverCompounds(s: State, steps: seq<Step>, allowance: nat, scanned: Filter, p: string)
    requires p in s.records && scanned(p)
    requires var now := After(s, steps); Passes(now.records, allowance, now.files, scanned)
    ensures var lines := Lines(After(s, steps).files, p); lines <= 1200 || lines <= s.records[p] + allowance
  {
    var now := After(s, steps);
    RecordsOnlyShrink(s, steps);
    PassesIff(now.records, allowance, now.files, scanned);
  }

  /** A file that the walk does not see is bound by its record alone: dropped once, it may
      grow to any size. */
  lemma UnseenFileEscapes(p: string, record: nat, size: nat, scanned: Filter, allowance: nat)
    requires !scanned(p)
    ensures var s := State(map[p := record], map[]);
            var now := After(s, [WriteBaseline, Edit(map[p := size])]);
            Passes(now.records, allowance, now.files, scanned) && Lines(now.files, p) == size
  {
    var s := State(map[p := record], map[]);
    var steps := [WriteBaseline, Edit(map[p := size])];
    assert steps[..1] == [WriteBaseline] && [WriteBaseline][..0] == [];
    assert After(s, [WriteBaseline]) == State(Lowered(s.records, s.files), s.files);
    assert After(s, steps) == State(map[], map[p := size]);
    PassesIff(map[], allowance, map[p := size], scanned);
  }
}
