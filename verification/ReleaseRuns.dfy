/** What the release commands do to the state files wherever they are stopped, and over
    whole runs of them. */
module ReleaseRuns {
  import opened Prelude
  import opened ReleaseReceipts

  // ---------------------------------------------------------------------------
  // One command

  /** The state files behind the first k operations of a command, temporary files aside. */
  function Effect(d: Dir, c: Command, k: nat): Dir {
    match c
    case Begin(releaseId, facts, started) => if k < 3 then d else d.(pending := Whole(Started(releaseId, facts, started)))
    case Record(_, phase, entry) =>
      if !d.pending.Whole? || k < 3 then d else d.(pending := Whole(Recorded(d.pending.receipt, phase, entry)))
    case Finalize(_, at, finalizedAt) => if !d.pending.Whole? then d else Rotated(d, Finalized(d.pending.receipt, at, finalizedAt), k)
    case RollBack(releaseId, at, result, finalizedAt) =>
      if d.pending.Torn? || k < 3 then d
      else
        var data := RolledBack(d, releaseId, at, result, finalizedAt);
        d.(receipts := d.receipts[data.releaseId := Whole(data)], pending := if k < 4 then d.pending else Absent)
  }

  /** The operations that copying the current file takes. */
  function Copies(d: Dir): nat { if d.current.Absent? then 0 else 2 }

  /** The operation of a finalize that replaces the current file is its last but one. */
  function Replaces(d: Dir): nat { 6 + Copies(d) }

  function Rotated(d: Dir, data: Receipt, k: nat): Dir {
    d.(receipts := if k < 3 then d.receipts else d.receipts[data.releaseId := Whole(data)],
       previous := if d.current.Absent? || k < 4 then d.previous else if k == 4 then Torn else d.current,
       current := if k < Replaces(d) then d.current else Whole(data),
       pending := if k <= Replaces(d) then d.pending else Absent)
  }

  /** The same state files; the temporary ones are the old ones, and at most one more. */
  ghost predicate SameFiles(d: Dir, d': Dir, temps: seq<File>) {
    && d'.(temps := d.temps) == d
    && (d'.temps == temps || (|d'.temps| == |temps| + 1 && d'.temps[..|temps|] == temps))
  }

  function Partial(data: Receipt, k: nat): seq<File> { if k == 0 then [] else if k == 1 then [Torn] else [Whole(data)] }

  lemma WriteThrough(d: Dir, target: Target, data: Receipt, rest: seq<Op>, k: nat)
    ensures ApplySome(d, WriteOps(target, data) + rest, k)
            == if k < 3 then d.(temps := d.temps + Partial(data, k)) else ApplySome(Put(d, target, Whole(data)), rest, k - 3)
  {
    var fill, move := [FillTemp(data)] + ([Rename(target)] + rest), [Rename(target)] + rest;
    assert WriteOps(target, data) + rest == [MakeTemp] + fill;
    if k == 0 {
      assert d.temps + [] == d.temps;
    } else {
      FirstThen(d, MakeTemp, fill, k);
      var made := d.(temps := d.temps + [Torn]);
      if k >= 2 {
        FirstThen(made, FillTemp(data), move, k - 1);
        FilledAndMoved(d, target, data);
        if k >= 3 { FirstThen(d.(temps := d.temps + [Whole(data)]), Rename(target), rest, k - 2); }
      }
    }
  }

  lemma FirstThen(d: Dir, op: Op, rest: seq<Op>, k: nat)
    requires k > 0
    ensures ApplySome(d, [op] + rest, k) == ApplySome(Apply(d, op), rest, k - 1)
  {
    assert ([op] + rest)[1..] == rest;
  }

  lemma FilledAndMoved(d: Dir, target: Target, data: Receipt)
    ensures Apply(d.(temps := d.temps + [Torn]), FillTemp(data)) == d.(temps := d.temps + [Whole(data)])
    ensures Apply(d.(temps := d.temps + [Whole(data)]), Rename(target)) == Put(d, target, Whole(data))
  {
    assert (d.temps + [Torn])[..|d.temps|] == d.temps && (d.temps + [Whole(data)])[..|d.temps|] == d.temps;
  }

  lemma CopyThrough(d: Dir, rest: seq<Op>, k: nat)
    requires !d.current.Absent?
    ensures ApplySome(d, CopyOps(d.current) + rest, k)
            == if k == 0 then d
               else if k == 1 then d.(previous := Torn)
               else ApplySome(d.(previous := d.current), rest, k - 2)
  {
    var ops := [EmptyPrevious] + ([FillPrevious] + rest);
    assert CopyOps(d.current) + rest == ops;
    assert ops[1..] == [FillPrevious] + rest && ([FillPrevious] + rest)[1..] == rest;
  }

  lemma RemoveThrough(d: Dir, k: nat)
    ensures ApplySome(d, [RemovePending], k) == if k == 0 then d else d.(pending := Absent)
  {
    assert [RemovePending][1..] == [];
  }

  /** The writing of current, and the end of a finalize. */
  lemma LastThrough(d: Dir, data: Receipt, k: nat)
    ensures SameFiles(d.(current := if k < 3 then d.current else Whole(data), pending := if k < 4 then d.pending else Absent),
                      ApplySome(d, WriteOps(ToCurrent, data) + [RemovePending], k), d.temps)
    ensures k >= 3 ==> ApplySome(d, WriteOps(ToCurrent, data) + [RemovePending], k).temps == d.temps
  {
    WriteThrough(d, ToCurrent, data, [RemovePending], k);
    if k >= 3 { RemoveThrough(Put(d, ToCurrent, Whole(data)), k - 3); }
  }

  lemma FinalizeThrough(d: Dir, data: Receipt, k: nat)
    ensures SameFiles(Rotated(d, data, k), ApplySome(d, FinalizeOps(d.current, data), k), d.temps)
    ensures k > Replaces(d) ==> ApplySome(d, FinalizeOps(d.current, data), k).temps == d.temps
  {
    var last := WriteOps(ToCurrent, data) + [RemovePending];
    WriteThrough(d, ToReceipt(data.releaseId), data, CopyOps(d.current) + last, k);
    if k >= 3 {
      var filed := Put(d, ToReceipt(data.releaseId), Whole(data));
      if d.current.Absent? {
        assert CopyOps(d.current) + last == last;
        LastThrough(filed, data, k - 3);
      } else {
        CopyThrough(filed, last, k - 3);
        if k >= 5 { LastThrough(filed.(previous := d.current), data, k - 5); }
      }
    }
  }

  lemma RollBackThrough(d: Dir, data: Receipt, k: nat)
    ensures var ops := WriteOps(ToReceipt(data.releaseId), data) + [RemovePending];
            && SameFiles(if k < 3 then d else d.(receipts := d.receipts[data.releaseId := Whole(data)], pending := if k < 4 then d.pending else Absent),
                         ApplySome(d, ops, k), d.temps)
            && (k >= 3 ==> ApplySome(d, ops, k).temps == d.temps)
  {
    WriteThrough(d, ToReceipt(data.releaseId), data, [RemovePending], k);
    if k >= 3 { RemoveThrough(Put(d, ToReceipt(data.releaseId), Whole(data)), k - 3); }
  }

  lemma PendingThrough(d: Dir, data: Receipt, k: nat)
    ensures SameFiles(if k < 3 then d else d.(pending := Whole(data)), ApplySome(d, WriteOps(ToPending, data), k), d.temps)
    ensures k >= 3 ==> ApplySome(d, WriteOps(ToPending, data), k).temps == d.temps
  {
    assert WriteOps(ToPending, data) + [] == WriteOps(ToPending, data);
    WriteThrough(d, ToPending, data, [], k);
  }

  lemma OpsThrough(d: Dir, c: Command, k: nat)
    requires OpsOf(d, c).Some?
    ensures SameFiles(Effect(d, c, k), ApplySome(d, OpsOf(d, c).value, k), d.temps)
    ensures k >= |OpsOf(d, c).value| ==> ApplySome(d, OpsOf(d, c).value, k).temps == d.temps
  {
    match c
    case Begin(releaseId, facts, started) => PendingThrough(d, Started(releaseId, facts, started), k);
    case Record(_, phase, entry) => PendingThrough(d, Recorded(d.pending.receipt, phase, entry), k);
    case Finalize(_, at, finalizedAt) => FinalizeThrough(d, Finalized(d.pending.receipt, at, finalizedAt), k);
    case RollBack(releaseId, at, result, finalizedAt) => RollBackThrough(d, RolledBack(d, releaseId, at, result, finalizedAt), k);
  }

  /** Whatever stops a command, and whenever: the state files are as `Effect` says. An
      exception leaves no temporary file behind, a crash at most one. */
  lemma CutIs(d: Dir, c: Command, k: nat, raises: bool)
    ensures SameFiles(Effect(d, c, k), Cut(d, c, k, raises), d.temps)
    ensures raises ==> Cut(d, c, k, raises).temps == d.temps
  {
    if OpsOf(d, c).Some? { OpsThrough(d, c, k); }
  }

  /** Whatever is no finalize of a pending release leaves current and previous alone. */
  lemma OthersKeep(d: Dir, c: Command, k: nat, raises: bool)
    requires !(c.Finalize? && d.pending.Whole?)
    ensures Cut(d, c, k, raises).current == d.current && Cut(d, c, k, raises).previous == d.previous
  {
    CutIs(d, c, k, raises);
  }

  /** No command takes more operations. */
  const ALL := 9

  lemma CompleteIs(d: Dir, c: Command)
    ensures SameFiles(Effect(d, c, ALL), Complete(d, c), d.temps) && Complete(d, c).temps == d.temps
  {
    if OpsOf(d, c).Some? {
      var n := |OpsOf(d, c).value|;
      OpsThrough(d, c, n);
      assert Effect(d, c, n) == Effect(d, c, ALL);
    }
  }

  /** A command that gets to do all its operations is complete. */
  lemma DoneIsComplete(d: Dir, c: Command, k: nat, raises: bool)
    requires ExitOf(d, c, k) == Done
    ensures Cut(d, c, k, raises) == Complete(d, c)
  {
    var n := |OpsOf(d, c).value|;
    OpsThrough(d, c, k);
    OpsThrough(d, c, n);
    assert Effect(d, c, k) == Effect(d, c, n);
  }

  // ---------------------------------------------------------------------------
  // Runs

  /** A crash behind some operations, or an exception. */
  datatype Stop = Stop(after: nat, raises: bool)

  /** A command, and what stops it, if anything does. */
  datatype Step = Step(command: Command, stop: Option<Stop>)

  function Next(d: Dir, s: Step): Dir {
    match s.stop
    case None => Complete(d, s.command)
    case Some(stop) => Cut(d, s.command, stop.after, stop.raises)
  }

  const EMPTY := Dir(Absent, Absent, Absent, map[], [])

  function After(run: seq<Step>): Dir {
    if run == [] then EMPTY else Next(After(run[..|run| - 1]), run[|run| - 1])
  }

  predicate CrashFree(run: seq<Step>) { forall s | s in run :: s.stop.None? }

  function Operations(s: Step): nat { if s.stop.None? then ALL else s.stop.value.after }

  lemma NextIs(d: Dir, s: Step)
    ensures SameFiles(Effect(d, s.command, Operations(s)), Next(d, s), d.temps)
    ensures !Crashes(s) ==> Next(d, s).temps == d.temps
  {
    if s.stop.None? { CompleteIs(d, s.command); } else { CutIs(d, s.command, s.stop.value.after, s.stop.value.raises); }
  }

  predicate Crashes(s: Step) { s.stop.Some? && !s.stop.value.raises }

  function Written(d: Dir, c: Command, k: nat): seq<Receipt> {
    if c.Finalize? && d.pending.Whole? && k >= 3 then [Finalized(d.pending.receipt, c.at, c.finalizedAt)] else []
  }

  /** The finalised receipts of a run that got to their files, in order. */
  function Finals(run: seq<Step>): seq<Receipt> {
    if run == [] then []
    else
      var before, s := run[..|run| - 1], run[|run| - 1];
      Finals(before) + Written(After(before), s.command, Operations(s))
  }

  function LastOf(finals: seq<Receipt>, back: nat): File {
    if back < |finals| then Whole(finals[|finals| - 1 - back]) else Absent
  }

  /** A receipt of a release that is still under way, and a finalised one. */
  predicate Unfinished(r: Receipt) { r.rollback.None? && r.finalizedAt.None? && "pending" in r.phases }

  predicate IsFinal(r: Receipt) { r.rollback.None? && r.finalizedAt.Some? && "finalized" in r.phases }

  ghost predicate NeverTorn(d: Dir, finals: seq<Receipt>) {
    && (d.pending.Absent? || (d.pending.Whole? && Unfinished(d.pending.receipt)))
    && (d.current.Absent? || (d.current.Whole? && d.current.receipt in finals))
    && (d.previous.Whole? ==> d.previous.receipt in finals)
    && (d.current.Absent? ==> d.previous.Absent?)
    && (forall id | id in d.receipts :: d.receipts[id].Whole? && d.receipts[id].receipt.releaseId == id)
    && (d.current.Whole? ==> d.current.receipt.releaseId in d.receipts)
    && (forall r | r in finals :: IsFinal(r))
  }

  lemma EffectNeverTorn(d: Dir, c: Command, k: nat, finals: seq<Receipt>)
    requires NeverTorn(d, finals)
    ensures NeverTorn(Effect(d, c, k), finals + Written(d, c, k))
  {
  }

  /** With a crash or an exception at any operation of any command, among them those of a
      write through a temporary file: current is absent or exactly a finalised receipt, as
      is previous unless it was being copied; pending is absent or an unfinished release's;
      and every receipt on file is whole and its own release's. */
  lemma {:induction false} CurrentIsNeverTorn(run: seq<Step>)
    ensures NeverTorn(After(run), Finals(run))
  {
    if run != [] {
      var before, s := run[..|run| - 1], run[|run| - 1];
      CurrentIsNeverTorn(before);
      NextIs(After(before), s);
      EffectNeverTorn(After(before), s.command, Operations(s), Finals(before));
    }
  }

  function CrashCount(run: seq<Step>): nat {
    if run == [] then 0 else CrashCount(run[..|run| - 1]) + if Crashes(run[|run| - 1]) then 1 else 0
  }

  /** Temporary files are left behind by crashes alone, one by each at most. */
  lemma {:induction false} TempsAreOfCrashes(run: seq<Step>)
    ensures |After(run).temps| <= CrashCount(run)
  {
    if run != [] {
      TempsAreOfCrashes(run[..|run| - 1]);
      NextIs(After(run[..|run| - 1]), run[|run| - 1]);
    }
  }

  ghost predicate Rotation(d: Dir, finals: seq<Receipt>) {
    d.current == LastOf(finals, 0) && d.previous == LastOf(finals, 1)
  }

  lemma LastOfSnoc(finals: seq<Receipt>, r: Receipt)
    ensures LastOf(finals + [r], 0) == Whole(r) && LastOf(finals + [r], 1) == LastOf(finals, 0)
  {
  }

  lemma EffectRotates(d: Dir, c: Command, finals: seq<Receipt>)
    requires Rotation(d, finals)
    ensures Rotation(Effect(d, c, ALL), finals + Written(d, c, ALL))
  {
    if c.Finalize? && d.pending.Whole? {
      LastOfSnoc(finals, Finalized(d.pending.receipt, c.at, c.finalizedAt));
    } else {
      assert finals + Written(d, c, ALL) == finals;
    }
  }

  /** Without a crash, current is the receipt finalised last, whatever its status, and
      previous the one finalised before it. */
  lemma {:induction false} CurrentAndPrevious(run: seq<Step>)
    requires CrashFree(run)
    ensures Rotation(After(run), Finals(run))
  {
    if run != [] {
      var before, s := run[..|run| - 1], run[|run| - 1];
      assert s in run && forall t | t in before :: t in run;
      CurrentAndPrevious(before);
      NextIs(After(before), s);
      EffectRotates(After(before), s.command, Finals(before));
    }
  }

  // ---------------------------------------------------------------------------
  // What is said of the commands

  lemma CompleteFinalize(d: Dir, releaseId: string, at: Phase, finalizedAt: string)
    requires d.pending.Whole?
    ensures var d' := Complete(d, Finalize(releaseId, at, finalizedAt));
            && d'.current == Whole(Finalized(d.pending.receipt, at, finalizedAt)) && d'.pending == Absent
            && d'.previous == if d.current.Absent? then d.previous else d.current
  {
    CompleteIs(d, Finalize(releaseId, at, finalizedAt));
  }

  /** Finalizing a release makes its receipt current exactly if it is the pending one,
      whatever release the command names. */
  lemma FinalizeNamesPendingIff(d: Dir, releaseId: string, at: Phase, finalizedAt: string)
    requires d.pending.Whole?
    ensures var d' := Complete(d, Finalize(releaseId, at, finalizedAt));
            d'.current.Whole? && (d'.current.receipt.releaseId == releaseId <==> d.pending.receipt.releaseId == releaseId)
  {
    CompleteFinalize(d, releaseId, at, finalizedAt);
  }

  /** And so does recording a phase. */
  lemma PhaseNamesPendingIff(d: Dir, releaseId: string, phase: string, entry: Phase)
    requires d.pending.Whole?
    ensures var d' := Complete(d, Record(releaseId, phase, entry));
            && d'.pending.Whole? && phase in d'.pending.receipt.phases && d'.pending.receipt.phases[phase] == entry
            && (d'.pending.receipt.releaseId == releaseId <==> d.pending.receipt.releaseId == releaseId)
  {
    CompleteIs(d, Record(releaseId, phase, entry));
  }

  /** One more command. */
  lemma AfterOneMore(run: seq<Step>, s: Step)
    ensures After(run + [s]) == Next(After(run), s)
  {
    assert (run + [s])[..|run|] == run;
  }

  function Released(releaseId: string, at: Phase, finalizedAt: string): seq<Step> {
    [Step(Begin(releaseId, map[], at), None), Step(Finalize(releaseId, at, finalizedAt), None)]
  }

  /** A release that begins and is finalised takes the place of the current one. */
  lemma ReleasedOnTop(run: seq<Step>, releaseId: string, at: Phase, finalizedAt: string)
    ensures var d, d' := After(run), After(run + Released(releaseId, at, finalizedAt));
            && d'.current == Whole(Finalized(Started(releaseId, map[], at), at, finalizedAt)) && d'.pending == Absent
            && d'.previous == if d.current.Absent? then d.previous else d.current
  {
    var s, s' := Step(Begin(releaseId, map[], at), None), Step(Finalize(releaseId, at, finalizedAt), None);
    assert run + Released(releaseId, at, finalizedAt) == run + [s] + [s'];
    AfterOneMore(run, s);
    AfterOneMore(run + [s], s');
    NextIs(After(run), s);
    NextIs(After(run + [s]), s');
  }

  const NOW := Phase("2026-01-01T00:00:00Z", "pass", "")

  /** The id that `finalize` requires is not looked at: a run that begins one release and
      finalises another makes the first one current. */
  lemma FinalizeOfAnother(begun: string, named: string)
    requires begun != named
    ensures var d := After([Step(Begin(begun, map[], NOW), None), Step(Finalize(named, NOW, NOW.timestamp), None)]);
            d.current.Whole? && d.current.receipt.releaseId == begun && d.pending == Absent
  {
    var s, s' := Step(Begin(begun, map[], NOW), None), Step(Finalize(named, NOW, NOW.timestamp), None);
    assert [s, s'] == [] + [s] + [s'];
    AfterOneMore([], s);
    AfterOneMore([s], s');
    NextIs(EMPTY, s);
    CompleteFinalize(After([s]), named, NOW, NOW.timestamp);
  }

  /** A rollback makes the previous receipt current exactly if it was that already. */
  lemma RollBackRestoresIff(d: Dir, c: Command)
    requires c.RollBack?
    ensures Complete(d, c).previous == d.previous
    ensures Complete(d, c).current == d.previous <==> d.current == d.previous
  {
    CompleteIs(d, c);
  }

  lemma LastTwoSame(finals: seq<Receipt>)
    ensures LastOf(finals, 0) == LastOf(finals, 1)
            <==> |finals| == 0 || (|finals| >= 2 && finals[|finals| - 1] == finals[|finals| - 2])
  {
  }

  /** Which is so, without crashes, if nothing was ever finalised, or the same receipt
      twice in a row. */
  lemma RunRollBackRestoresIff(run: seq<Step>, c: Command)
    requires CrashFree(run) && c.RollBack?
    ensures var finals, n := Finals(run), |Finals(run)|;
            After(run + [Step(c, None)]).current == After(run).previous
            <==> n == 0 || (n >= 2 && finals[n - 1] == finals[n - 2])
  {
    AfterOneMore(run, Step(c, None));
    RollBackRestoresIff(After(run), c);
    CurrentAndPrevious(run);
    LastTwoSame(Finals(run));
  }

  /** Two releases, and a third that is rolled back: the second stays current. */
  lemma RollBackKeepsCurrent(first: string, second: string, third: string)
    requires first != second
    ensures var run := Released(first, NOW, NOW.timestamp) + Released(second, NOW, NOW.timestamp)
                       + [Step(Begin(third, map[], NOW), None), Step(RollBack(third, NOW, NOW, NOW.timestamp), None)];
            var d := After(run);
            && d.current.Whole? && d.current.receipt.releaseId == second
            && d.previous.Whole? && d.previous.receipt.releaseId == first
  {
    var one := Released(first, NOW, NOW.timestamp);
    var two := one + Released(second, NOW, NOW.timestamp);
    var s, s' := Step(Begin(third, map[], NOW), None), Step(RollBack(third, NOW, NOW, NOW.timestamp), None);
    assert [] + one == one && two + [s, s'] == two + [s] + [s'];
    ReleasedOnTop([], first, NOW, NOW.timestamp);
    ReleasedOnTop(one, second, NOW, NOW.timestamp);
    AfterOneMore(two, s);
    AfterOneMore(two + [s], s');
    NextIs(After(two), s);
    NextIs(After(two + [s]), s');
  }

  /** The status given to the last finalize of a run that found a pending release. */
  function LastStatus(run: seq<Step>): Option<string> {
    if run == [] then None
    else
      var before, c := run[..|run| - 1], run[|run| - 1].command;
      if c.Finalize? && After(before).pending.Whole? then Some(c.at.status) else LastStatus(before)
  }

  /** Without crashes, current is a passed release exactly if that status was "pass". */
  lemma {:induction false} CurrentPassedIff(run: seq<Step>)
    requires CrashFree(run)
    ensures var current := After(run).current;
            if LastStatus(run).None? then current == Absent
            else current.Whole? && "finalized" in current.receipt.phases
                 && (current.receipt.phases["finalized"].status == "pass" <==> LastStatus(run) == Some("pass"))
  {
    if run != [] {
      var before, s := run[..|run| - 1], run[|run| - 1];
      assert s in run && forall t | t in before :: t in run;
      CurrentPassedIff(before);
      NextIs(After(before), s);
    }
  }

  /** A failed release becomes current like any other. */
  lemma FailedBecomesCurrent(releaseId: string)
    ensures var d := After(Released(releaseId, NOW.(status := "fail"), NOW.timestamp));
            && d.current.Whole? && d.current.receipt.releaseId == releaseId
            && "finalized" in d.current.receipt.phases && d.current.receipt.phases["finalized"].status == "fail"
  {
    var fail := NOW.(status := "fail");
    assert [] + Released(releaseId, fail, NOW.timestamp) == Released(releaseId, fail, NOW.timestamp);
    ReleasedOnTop([], releaseId, fail, NOW.timestamp);
  }

  // ---------------------------------------------------------------------------
  // What a receipt records

  /** Call i got to its write. */
  predicate Took(run: seq<Step>, i: nat)
    requires i < |run|
  {
    Operations(run[i]) >= 3
  }

  /** From the `pending` at b on, up to i, nothing but phases was recorded. */
  ghost predicate Underway(run: seq<Step>, b: nat, i: nat) {
    && b < i <= |run| && run[b].command.Begin? && Took(run, b)
    && forall j: nat | b < j < i && Took(run, j) :: run[j].command.Record?
  }

  /** Call j is the last one before i to record the phase. */
  ghost predicate LastRecord(run: seq<Step>, b: nat, i: nat, j: nat, phase: string) {
    && b < j < i <= |run| && Took(run, j) && run[j].command.Record? && run[j].command.phase == phase
    && forall m: nat | j < m < i && Took(run, m) && run[m].command.Record? :: run[m].command.phase != phase
  }

  ghost predicate NeverRecorded(run: seq<Step>, b: nat, i: nat, phase: string) {
    forall j: nat :: !LastRecord(run, b, i, j, phase)
  }

  /** The receipt has the id and the facts given to `pending`, its start, and the last entry
      recorded for every phase since. */
  ghost predicate Records(run: seq<Step>, b: nat, i: nat, r: Receipt)
    requires b < |run| && run[b].command.Begin?
  {
    var begin := run[b].command;
    && r.releaseId == begin.releaseId && r.facts == begin.facts && r.rollback == None
    && (forall j: nat, phase | LastRecord(run, b, i, j, phase) :: phase in r.phases && r.phases[phase] == run[j].command.entry)
    && forall phase | NeverRecorded(run, b, i, phase) ::
         if phase == "pending" then phase in r.phases && r.phases[phase] == begin.started else phase !in r.phases
  }

  lemma AfterIs(run: seq<Step>, i: nat)
    requires i < |run|
    ensures SameFiles(Effect(After(run[..i]), run[i].command, Operations(run[i])), After(run[..i + 1]), After(run[..i]).temps)
  {
    assert run[..i + 1][..i] == run[..i];
    NextIs(After(run[..i]), run[i]);
  }

  lemma {:induction false} PendingRecords(run: seq<Step>, b: nat, i: nat)
    requires Underway(run, b, i)
    ensures var pending := After(run[..i]).pending;
            pending.Whole? && pending.receipt.finalizedAt == None && Records(run, b, i, pending.receipt)
    decreases i
  {
    AfterIs(run, i - 1);
    if i == b + 1 {
      assert forall phase :: NeverRecorded(run, b, i, phase);
    } else {
      assert Underway(run, b, i - 1);
      PendingRecords(run, b, i - 1);
      RecordsOneMore(run, b, i - 1, After(run[..i - 1]).pending.receipt);
    }
  }

  /** The phase that step i records, if it records one. */
  function OwnPhase(run: seq<Step>, i: nat): Option<string>
    requires i < |run|
  {
    if Took(run, i) && run[i].command.Record? then Some(run[i].command.phase) else None
  }

  lemma LastRecordMoves(run: seq<Step>, b: nat, i: nat, j: nat, phase: string)
    requires b < i < |run|
    ensures LastRecord(run, b, i + 1, j, phase)
            <==> if OwnPhase(run, i) == Some(phase) then j == i else LastRecord(run, b, i, j, phase)
  {
  }

  lemma RecordsOneMore(run: seq<Step>, b: nat, i: nat, r: Receipt)
    requires Underway(run, b, i + 1) && b < i && Records(run, b, i, r)
    ensures var s := run[i];
            Records(run, b, i + 1, if Took(run, i) then Recorded(r, s.command.phase, s.command.entry) else r)
  {
    var r' := if Took(run, i) then Recorded(r, run[i].command.phase, run[i].command.entry) else r;
    forall j: nat, phase | LastRecord(run, b, i + 1, j, phase)
      ensures phase in r'.phases && r'.phases[phase] == run[j].command.entry
    {
      LastRecordMoves(run, b, i, j, phase);
    }
    forall phase | NeverRecorded(run, b, i + 1, phase)
      ensures if phase == "pending" then phase in r'.phases && r'.phases[phase] == run[b].command.started else phase !in r'.phases
    {
      NeverRecordedMoves(run, b, i, phase);
    }
  }

  lemma NeverRecordedMoves(run: seq<Step>, b: nat, i: nat, phase: string)
    requires b < i < |run| && NeverRecorded(run, b, i + 1, phase)
    ensures OwnPhase(run, i) != Some(phase) && NeverRecorded(run, b, i, phase)
  {
    forall j: nat ensures LastRecord(run, b, i + 1, j, phase)
                          <==> if OwnPhase(run, i) == Some(phase) then j == i else LastRecord(run, b, i, j, phase)
    {
      LastRecordMoves(run, b, i, j, phase);
    }
    assert !LastRecord(run, b, i + 1, i, phase);
  }

  /** The receipt of a release rolled back while it is under way: as it was recorded, with the
      reason; and current stays. */
  lemma RolledBackRecords(run: seq<Step>, b: nat, f: nat)
    requires f < |run| && Underway(run, b, f) && run[f].command.RollBack? && Operations(run[f]) >= 3
    ensures var d, c, id := After(run[..f + 1]), run[f].command, run[b].command.releaseId;
            && d.current == After(run[..f]).current && id in d.receipts && d.receipts[id].Whole?
            && exists r :: Records(run, b, f, r)
                 && d.receipts[id].receipt == r.(phases := r.phases["rollback" := c.at], rollback := Some(c.result), finalizedAt := Some(c.finalizedAt))
  {
    PendingRecords(run, b, f);
    AfterIs(run, f);
    assert Records(run, b, f, After(run[..f]).pending.receipt);
  }

  /** A finalize that replaces current makes that the receipt of the release begun last: with
      the facts given to `pending`, the phases recorded since, and its own status. */
  lemma CurrentRecords(run: seq<Step>, b: nat, f: nat)
    requires f < |run| && Underway(run, b, f) && run[f].command.Finalize?
    requires Operations(run[f]) >= Replaces(After(run[..f]))
    ensures var current, c := After(run[..f + 1]).current, run[f].command;
            && current.Whole? && current.receipt.finalizedAt == Some(c.finalizedAt)
            && "finalized" in current.receipt.phases && current.receipt.phases["finalized"] == c.at
            && exists r :: Records(run, b, f, r)
                 && current.receipt == r.(phases := r.phases["finalized" := c.at], finalizedAt := Some(c.finalizedAt))
  {
    PendingRecords(run, b, f);
    AfterIs(run, f);
    assert Records(run, b, f, After(run[..f]).pending.receipt);
  }

  // ---------------------------------------------------------------------------
  // After a finalize that was stopped

  /** A finalize leaves previous and current naming different releases exactly when the
      pending release was not the current one already. */
  lemma PreviousIsAnotherReleaseIff(d: Dir, releaseId: string, at: Phase, finalizedAt: string)
    requires d.pending.Whole? && d.current.Whole?
    ensures var d' := Complete(d, Finalize(releaseId, at, finalizedAt));
            && d'.previous.Whole? && d'.current.Whole?
            && (d'.previous.receipt.releaseId != d'.current.receipt.releaseId
                <==> d.pending.receipt.releaseId != d.current.receipt.releaseId)
  {
    CompleteFinalize(d, releaseId, at, finalizedAt);
  }

  /** A finalize that was stopped and is run again makes up for it, also for the first
      release, unless it had replaced current: then previous is the same release. */
  lemma RetryLosesPreviousIff(d: Dir, c: Command, k: nat, raises: bool, again: Command)
    requires c.Finalize? && again.Finalize? && d.pending.Whole? && k <= Replaces(d)
    ensures var stopped := Cut(d, c, k, raises);
            var d' := Complete(stopped, again);
            && d'.current == Whole(Finalized(d.pending.receipt, again.at, again.finalizedAt)) && d'.pending == Absent
            && d'.previous == if k == Replaces(d) then Whole(Finalized(d.pending.receipt, c.at, c.finalizedAt))
                              else if d.current.Absent? then d.previous else d.current
  {
    CutIs(d, c, k, raises);
    CompleteFinalize(Cut(d, c, k, raises), again.releaseId, again.at, again.finalizedAt);
  }

  /** Such a run: previous is lost to the release that is current. */
  lemma RetryLosesPrevious(first: string, second: string)
    ensures var run := Released(first, NOW, NOW.timestamp)
                       + [Step(Begin(second, map[], NOW), None), Step(Finalize(second, NOW, NOW.timestamp), Some(Stop(8, false))),
                          Step(Finalize(second, NOW, NOW.timestamp), None)];
            var d := After(run);
            && d.current.Whole? && d.current.receipt.releaseId == second
            && d.previous.Whole? && d.previous.receipt.releaseId == second
  {
    var one := Released(first, NOW, NOW.timestamp);
    var s, s', s'' := Step(Begin(second, map[], NOW), None), Step(Finalize(second, NOW, NOW.timestamp), Some(Stop(8, false))),
                      Step(Finalize(second, NOW, NOW.timestamp), None);
    assert [] + one == one && one + [s, s', s''] == one + [s] + [s'] + [s''];
    ReleasedOnTop([], first, NOW, NOW.timestamp);
    AfterOneMore(one, s);
    AfterOneMore(one + [s], s');
    AfterOneMore(one + [s] + [s'], s'');
    NextIs(After(one), s);
    RetryLosesPreviousIff(After(one + [s]), s'.command, 8, false, s''.command);
  }

  /** A deployment whose finalize is stopped is rolled back, with the same release id. The
      rolled-back release is then current exactly if the finalize had replaced current. */
  lemma RolledBackIsCurrentIff(d: Dir, at: Phase, finalizedAt: string, k: nat, raises: bool, rollback: Command)
    requires d.pending.Whole? && !d.current.Torn?
    requires d.current.Whole? ==> d.current.receipt.releaseId != d.pending.receipt.releaseId
    requires rollback.RollBack? && rollback.releaseId == d.pending.receipt.releaseId
    ensures var releaseId := d.pending.receipt.releaseId;
            var d' := Complete(Cut(d, Finalize(releaseId, at, finalizedAt), k, raises), rollback);
            && d'.pending == Absent && releaseId in d'.receipts && IsRolledBack(d'.receipts[releaseId], releaseId)
            && (d'.current.Whole? && d'.current.receipt.releaseId == releaseId <==> k >= Replaces(d))
  {
    CutIs(d, Finalize(d.pending.receipt.releaseId, at, finalizedAt), k, raises);
    CompleteIs(Cut(d, Finalize(d.pending.receipt.releaseId, at, finalizedAt), k, raises), rollback);
  }

  predicate IsRolledBack(file: File, releaseId: string) {
    file.Whole? && file.receipt.releaseId == releaseId && file.receipt.rollback.Some?
  }

  /** Such a run: one release, and a second whose finalize is stopped in front of its last
      operation and rolled back. */
  lemma RolledBackReleaseStaysCurrent(first: string, second: string)
    requires first != second
    ensures var run := Released(first, NOW, NOW.timestamp)
                       + [Step(Begin(second, map[], NOW), None), Step(Finalize(second, NOW, NOW.timestamp), Some(Stop(8, false))),
                          Step(RollBack(second, NOW, NOW, NOW.timestamp), None)];
            var d := After(run);
            && d.current.Whole? && d.current.receipt.releaseId == second
            && second in d.receipts && IsRolledBack(d.receipts[second], second)
  {
    var one := Released(first, NOW, NOW.timestamp);
    var s, s', s'' := Step(Begin(second, map[], NOW), None), Step(Finalize(second, NOW, NOW.timestamp), Some(Stop(8, false))),
                      Step(RollBack(second, NOW, NOW, NOW.timestamp), None);
    assert [] + one == one && one + [s, s', s''] == one + [s] + [s'] + [s''];
    ReleasedOnTop([], first, NOW, NOW.timestamp);
    AfterOneMore(one, s);
    AfterOneMore(one + [s], s');
    AfterOneMore(one + [s] + [s'], s'');
    NextIs(After(one), s);
    RolledBackIsCurrentIff(After(one + [s]), NOW, NOW.timestamp, 8, false, s''.command);
  }

  // ---------------------------------------------------------------------------
  // The receipts on file

  /** The file of the current release's own receipt holds the current receipt. */
  predicate OnFile(d: Dir) {
    d.current.Whole? && d.current.receipt.releaseId in d.receipts && d.receipts[d.current.receipt.releaseId] == d.current
  }

  /** Whether it does after one more command, stopped anywhere or not. */
  function OnFileAfter(d: Dir, c: Command, k: nat, before: bool): bool
    requires d.current.Whole?
  {
    var id := d.current.receipt.releaseId;
    match c
    case Finalize(_, at, finalizedAt) =>
      if !d.pending.Whole? || k < 3 then before
      else if k >= Replaces(d) then true
      else if d.pending.receipt.releaseId == id then Finalized(d.pending.receipt, at, finalizedAt) == d.current.receipt
      else before
    case RollBack(releaseId, _, _, _) =>
      before && (d.pending.Torn? || k < 3 || (if d.pending.Whole? then d.pending.receipt.releaseId else releaseId) != id)
    case _ => before
  }

  /** A finalize that gets to replacing current puts its receipt on file. What takes it off
      is a rollback of the current release, and a finalize of it, with other times, that is
      stopped in between. */
  lemma OnFileIff(d: Dir, c: Command, k: nat)
    requires d.current.Whole? && d.current.receipt.rollback.None?
    ensures OnFile(Effect(d, c, k)) == OnFileAfter(d, c, k, OnFile(d))
  {
  }

  function OnFileThrough(run: seq<Step>): bool {
    if run == [] then false
    else
      var before, s := run[..|run| - 1], run[|run| - 1];
      var d := After(before);
      if d.current.Whole? then OnFileAfter(d, s.command, Operations(s), OnFileThrough(before))
      else s.command.Finalize? && d.pending.Whole? && Operations(s) >= Replaces(d)
  }

  /** So in any run the current receipt is on file exactly as these conditions add up. */
  lemma {:induction false} RunOnFileIff(run: seq<Step>)
    ensures OnFile(After(run)) == OnFileThrough(run)
  {
    if run != [] {
      var before, s := run[..|run| - 1], run[|run| - 1];
      RunOnFileIff(before);
      CurrentIsNeverTorn(before);
      NextIs(After(before), s);
      if After(before).current.Whole? { OnFileIff(After(before), s.command, Operations(s)); }
    }
  }

  /** A rollback behind a finished release overwrites its receipt with a minimal one. */
  lemma RollBackOverwritesReceipt(releaseId: string)
    ensures var d := After(Released(releaseId, NOW, NOW.timestamp) + [Step(RollBack(releaseId, NOW, NOW, NOW.timestamp), None)]);
            && d.current.Whole? && d.current.receipt.releaseId == releaseId && !OnFile(d)
            && releaseId in d.receipts && IsRolledBack(d.receipts[releaseId], releaseId)
            && d.receipts[releaseId].receipt.facts == map[]
  {
    var one, s := Released(releaseId, NOW, NOW.timestamp), Step(RollBack(releaseId, NOW, NOW, NOW.timestamp), None);
    assert [] + one == one;
    ReleasedOnTop([], releaseId, NOW, NOW.timestamp);
    AfterOneMore(one, s);
    NextIs(After(one), s);
  }
}
