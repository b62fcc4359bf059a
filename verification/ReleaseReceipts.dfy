/** Release receipts (scripts/release_receipt.py): commands that write, rename, copy and
    remove a few files, any of which operations may be the last before a crash. */
module ReleaseReceipts {
  import opened Prelude

  datatype Phase = Phase(timestamp: string, status: string, note: string)

  datatype Receipt = Receipt(
    releaseId: string, facts: map<string, string>, phases: map<string, Phase>, rollback: Option<Phase>, finalizedAt: Option<string>)

  /** A file; `Torn` is one that is empty or whose writing was cut short. */
  datatype File = Absent | Torn | Whole(receipt: Receipt)

  /** The state files, the receipts by release, and temporary files with names of their
      own, the newest last. */
  datatype Dir = Dir(pending: File, current: File, previous: File, receipts: map<string, File>, temps: seq<File>)

  // ---------------------------------------------------------------------------
  // File operations

  /** What a temporary file is renamed over. */
  datatype Target = ToPending | ToCurrent | ToReceipt(id: string)

  datatype Op = MakeTemp | FillTemp(data: Receipt) | Rename(target: Target)
              | EmptyPrevious | FillPrevious | RemovePending

  function Put(d: Dir, target: Target, file: File): Dir {
    match target
    case ToPending => d.(pending := file)
    case ToCurrent => d.(current := file)
    case ToReceipt(id) => d.(receipts := d.receipts[id := file])
  }

  /** A rename moves the newest temporary file as it is, whole or not. */
  function Apply(d: Dir, op: Op): Dir {
    var n := |d.temps|;
    match op
    case MakeTemp => d.(temps := d.temps + [Torn])
    case FillTemp(data) => if n == 0 then d else d.(temps := d.temps[..n - 1] + [Whole(data)])
    case Rename(target) => if n == 0 then d else Put(d.(temps := d.temps[..n - 1]), target, d.temps[n - 1])
    case EmptyPrevious => d.(previous := Torn)
    case FillPrevious => d.(previous := d.current)
    case RemovePending => d.(pending := Absent)
  }

  /** The first k of some operations, one after the other. */
  function ApplySome(d: Dir, ops: seq<Op>, k: nat): Dir
    decreases |ops|
  {
    if ops == [] || k == 0 then d else ApplySome(Apply(d, ops[0]), ops[1..], k - 1)
  }

  // ---------------------------------------------------------------------------
  // Commands

  /** The release id given to `phase` and `finalize` is required, and not looked at. */
  datatype Command = Begin(releaseId: string, facts: map<string, string>, started: Phase)
                   | Record(releaseId: string, phase: string, entry: Phase)
                   | Finalize(releaseId: string, at: Phase, finalizedAt: string)
                   | RollBack(releaseId: string, at: Phase, result: Phase, finalizedAt: string)

  function Started(releaseId: string, facts: map<string, string>, started: Phase): Receipt {
    Receipt(releaseId, facts, map["pending" := started], None, None)
  }

  function Recorded(r: Receipt, phase: string, entry: Phase): Receipt { r.(phases := r.phases[phase := entry]) }

  function Finalized(r: Receipt, at: Phase, finalizedAt: string): Receipt {
    r.(phases := r.phases["finalized" := at], finalizedAt := Some(finalizedAt))
  }

  /** The receipt of a failed release: the pending one, or a minimal one. */
  function RolledBack(d: Dir, releaseId: string, at: Phase, result: Phase, finalizedAt: string): Receipt {
    var r := if d.pending.Whole? then d.pending.receipt else Receipt(releaseId, map[], map[], None, None);
    r.(phases := r.phases["rollback" := at], rollback := Some(result), finalizedAt := Some(finalizedAt))
  }

  /** `atomic_write_json` */
  function WriteOps(target: Target, data: Receipt): seq<Op> { [MakeTemp, FillTemp(data), Rename(target)] }

  /** `shutil.copy2` of the current file, if there is one. */
  function CopyOps(current: File): seq<Op> { if current.Absent? then [] else [EmptyPrevious, FillPrevious] }

  function FinalizeOps(current: File, data: Receipt): seq<Op> {
    WriteOps(ToReceipt(data.releaseId), data) + (CopyOps(current) + (WriteOps(ToCurrent, data) + [RemovePending]))
  }

  /** The file operations of a command, or None if it ends with an error at once. */
  function OpsOf(d: Dir, c: Command): Option<seq<Op>> {
    if d.pending.Torn? && !c.Begin? then None
    else
      match c
      case Begin(releaseId, facts, started) => Some(WriteOps(ToPending, Started(releaseId, facts, started)))
      case Record(_, phase, entry) =>
        if d.pending.Absent? then None else Some(WriteOps(ToPending, Recorded(d.pending.receipt, phase, entry)))
      case Finalize(_, at, finalizedAt) =>
        if d.pending.Absent? then None else Some(FinalizeOps(d.current, Finalized(d.pending.receipt, at, finalizedAt)))
      case RollBack(releaseId, at, result, finalizedAt) =>
        var data := RolledBack(d, releaseId, at, result, finalizedAt);
        Some(WriteOps(ToReceipt(data.releaseId), data) + [RemovePending])
  }

  /** An exception removes the temporary file at hand, a crash leaves it. */
  function Stopped(raises: bool, before: Dir, after: Dir): Dir {
    if raises then after.(temps := before.temps) else after
  }

  /** A command that a crash or an exception stops behind k file operations. */
  function Cut(d: Dir, c: Command, k: nat, raises: bool): Dir {
    match OpsOf(d, c)
    case None => d
    case Some(ops) => Stopped(raises, d, ApplySome(d, ops, k))
  }

  function Complete(d: Dir, c: Command): Dir {
    match OpsOf(d, c)
    case None => d
    case Some(ops) => ApplySome(d, ops, |ops|)
  }

  // ---------------------------------------------------------------------------
  // The code

  datatype Exit = Done | Refused | CutShort

  /** An error at once, or all operations done, or not. */
  function ExitOf(d: Dir, c: Command, operations: nat): Exit {
    match OpsOf(d, c)
    case None => Refused
    case Some(ops) => if operations >= |ops| then Done else CutShort
  }

  /** The state directory of a process that lives for some more file operations; the next
      one then kills it, or raises. */
  class StateDir {
    var dir: Dir
    var left: nat
    const raises: bool

    constructor (d: Dir, operations: nat, raises: bool)
      ensures dir == d && left == operations && this.raises == raises
    {
      dir, left, this.raises := d, operations, raises;
    }

    /** The next file operation of some that are left to do. */
    method Do(op: Op, ghost rest: seq<Op>) returns (alive: bool)
      modifies this
      ensures alive == (old(left) > 0)
      ensures if alive then dir == Apply(old(dir), op) && left == old(left) - 1 else dir == old(dir) && left == 0
      ensures alive ==> ApplySome(dir, rest, left) == ApplySome(old(dir), [op] + rest, old(left))
      ensures !alive ==> dir == ApplySome(old(dir), [op] + rest, old(left))
    {
      assert ([op] + rest)[1..] == rest;
      if left == 0 { return false; }
      dir, left := Apply(dir, op), left - 1;
      return true;
    }

    /** `atomic_write_json`: the target changes in one step, from what it was to the data. */
    method AtomicWrite(target: Target, data: Receipt, ghost rest: seq<Op>) returns (alive: bool)
      modifies this
      ensures alive == (old(left) >= 3) && (alive ==> left == old(left) - 3)
      ensures alive ==> dir == Put(old(dir), target, Whole(data))
      ensures alive ==> ApplySome(dir, rest, left) == ApplySome(old(dir), WriteOps(target, data) + rest, old(left))
      ensures !alive ==> dir == Stopped(raises, old(dir), ApplySome(old(dir), WriteOps(target, data) + rest, old(left)))
    {
      ghost var fill, move := [FillTemp(data)] + ([Rename(target)] + rest), [Rename(target)] + rest;
      assert WriteOps(target, data) + rest == [MakeTemp] + fill;
      alive := Do(MakeTemp, fill);
      if !alive { return; }
      alive := Do(FillTemp(data), move);
      if alive { alive := Do(Rename(target), rest); }
      if !alive && raises { dir := dir.(temps := dir.temps[..|dir.temps| - 1]); }
    }

    method Pending(releaseId: string, facts: map<string, string>, started: Phase) returns (exit: Exit)
      modifies this
      ensures dir == Cut(old(dir), Begin(releaseId, facts, started), old(left), raises)
      ensures exit == ExitOf(old(dir), Begin(releaseId, facts, started), old(left))
    {
      var receipt := Started(releaseId, facts, started);
      assert WriteOps(ToPending, receipt) + [] == WriteOps(ToPending, receipt);
      var alive := AtomicWrite(ToPending, receipt, []);
      exit := if alive then Done else CutShort;
    }

    method RecordPhase(releaseId: string, phase: string, entry: Phase) returns (exit: Exit)
      modifies this
      ensures dir == Cut(old(dir), Record(releaseId, phase, entry), old(left), raises)
      ensures exit == ExitOf(old(dir), Record(releaseId, phase, entry), old(left))
    {
      if !dir.pending.Whole? { return Refused; }
      var pending := Recorded(dir.pending.receipt, phase, entry);
      assert WriteOps(ToPending, pending) + [] == WriteOps(ToPending, pending);
      var alive := AtomicWrite(ToPending, pending, []);
      exit := if alive then Done else CutShort;
    }

    method CopyCurrent(ghost rest: seq<Op>) returns (alive: bool)
      modifies this
      ensures var n := |CopyOps(old(dir).current)|; alive == (old(left) >= n) && (alive ==> left == old(left) - n)
      ensures alive ==> dir == if old(dir).current.Absent? then old(dir) else old(dir).(previous := old(dir).current)
      ensures alive ==> ApplySome(dir, rest, left) == ApplySome(old(dir), CopyOps(old(dir).current) + rest, old(left))
      ensures !alive ==> dir.temps == old(dir).temps && dir == ApplySome(old(dir), CopyOps(old(dir).current) + rest, old(left))
    {
      if dir.current.Absent? {
        assert CopyOps(dir.current) + rest == rest;
        return true;
      }
      assert CopyOps(dir.current) + rest == [EmptyPrevious] + ([FillPrevious] + rest);
      alive := Do(EmptyPrevious, [FillPrevious] + rest);
      if alive { alive := Do(FillPrevious, rest); }
    }

    method UnlinkPending() returns (alive: bool)
      modifies this
      ensures dir == ApplySome(old(dir), [RemovePending], old(left)) && dir.temps == old(dir).temps
      ensures alive == (old(left) >= 1)
    {
      assert [RemovePending] + [] == [RemovePending];
      alive := Do(RemovePending, []);
    }

    /** Rotation: current becomes previous, pending becomes current. */
    method FinalizeRelease(releaseId: string, at: Phase, finalizedAt: string) returns (exit: Exit)
      modifies this
      ensures dir == Cut(old(dir), Finalize(releaseId, at, finalizedAt), old(left), raises)
      ensures exit == ExitOf(old(dir), Finalize(releaseId, at, finalizedAt), old(left))
    {
      if !dir.pending.Whole? { return Refused; }
      var pending := Finalized(dir.pending.receipt, at, finalizedAt);
      ghost var last := WriteOps(ToCurrent, pending) + [RemovePending];
      var alive := AtomicWrite(ToReceipt(pending.releaseId), pending, CopyOps(dir.current) + last);
      if !alive { return CutShort; }
      alive := CopyCurrent(last);
      if !alive { return CutShort; }
      alive := AtomicWrite(ToCurrent, pending, [RemovePending]);
      if !alive { return CutShort; }
      alive := UnlinkPending();
      exit := if alive then Done else CutShort;
    }

    method RollBackRelease(releaseId: string, at: Phase, result: Phase, finalizedAt: string) returns (exit: Exit)
      modifies this
      ensures dir == Cut(old(dir), RollBack(releaseId, at, result, finalizedAt), old(left), raises)
      ensures exit == ExitOf(old(dir), RollBack(releaseId, at, result, finalizedAt), old(left))
    {
      if dir.pending.Torn? { return Refused; }
      var failure := RolledBack(dir, releaseId, at, result, finalizedAt);
      var alive := AtomicWrite(ToReceipt(failure.releaseId), failure, [RemovePending]);
      if !alive { return CutShort; }
      alive := UnlinkPending();
      exit := if alive then Done else CutShort;
    }
  }
}
