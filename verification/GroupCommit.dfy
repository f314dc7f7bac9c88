/** Group commit and truncation of the commit log (engine/clog.rs). `Clog` holds the state the
    mutexes guard, one method per lock-protected section; `Sys` interleaves any number of threads
    running those sections, with a disk that survives a crash at any point. */
module GroupCommit {
  import opened Bytes
  import opened CommitLog

  // ---------------------------------------------------------------- the guarded state

  /** The fields behind the state mutex. */
  datatype Shared = Shared(statuses: StatusMap, pending: seq<Record>, nextLsn: nat, durableLsn: nat,
                           flushing: bool, minTx: u64)

  function EnqueueSection(sh: Shared, rec: Record): Shared {
    sh.(nextLsn := sh.nextLsn + 1, pending := sh.pending + [rec])
  }

  function LeadSection(sh: Shared): Shared {
    sh.(flushing := true, pending := [])
  }

  function PublishSection(sh: Shared, batch: seq<Record>, snapshot: nat): Shared {
    sh.(statuses := ReplayOnto(sh.statuses, batch), durableLsn := snapshot, flushing := false)
  }

  function AtLeast(m: StatusMap, floor: u64): StatusMap {
    map tx | tx in m && tx >= floor :: m[tx]
  }

  function TruncatePublishSection(sh: Shared, floor: u64): Shared {
    sh.(statuses := AtLeast(sh.statuses, floor), minTx := floor, flushing := false)
  }

  function StatusOf(sh: Shared, tx: u64): Option<Status> { ReadStatus(sh.statuses, sh.minTx, tx) }

  /** What one pass of the `flush_until` loop decides under the state mutex. */
  datatype Decision = Covered | Park | Lead(batch: seq<Record>, snapshot: nat)

  class Clog {
    var statuses: StatusMap
    var pending: seq<Record>
    var nextLsn: nat
    var durableLsn: nat
    var flushing: bool
    var minTx: u64
    var file: ByteString

    function State(): Shared
      reads this
    {
      Shared(statuses, pending, nextLsn, durableLsn, flushing, minTx)
    }

    /** `Clog::open` on a readable file; a fresh file gets its header written. */
    constructor (bytes: ByteString, content: Opened)
      requires OpenFile(bytes) == Ok(content)
      ensures State() == Shared(content.statuses, [], 0, 0, false, content.minTx)
      ensures file == (if bytes == [] then Header(0) else bytes)
    {
      statuses, pending, nextLsn, durableLsn := content.statuses, [], 0, 0;
      flushing, minTx := false, content.minTx;
      file := if bytes == [] then Header(0) else bytes;
    }

    method Enqueue(rec: Record) returns (lsn: nat)
      modifies this
      ensures State() == EnqueueSection(old(State()), rec) && file == old(file)
      ensures lsn == nextLsn
    {
      nextLsn := nextLsn + 1;
      lsn := nextLsn;
      pending := pending + [rec];
    }

    /** One pass of the `flush_until` loop. */
    method TryLead(target: nat) returns (d: Decision)
      modifies this
      ensures file == old(file)
      ensures old(durableLsn) >= target ==> d == Covered && State() == old(State())
      ensures old(durableLsn) < target && old(flushing) ==> d == Park && State() == old(State())
      ensures old(durableLsn) < target && !old(flushing) ==>
                d == Lead(old(pending), old(nextLsn)) && State() == LeadSection(old(State()))
    {
      if durableLsn >= target { return Covered; }
      if flushing { return Park; }
      flushing := true;
      d := Lead(pending, nextLsn);
      pending := [];
    }

    /** `write_and_fsync`: append the whole batch to the file. The operating system accepts `accepted`
        bytes of the write; fewer than all, or a failing sync, is an error that leaves them there. */
    method WriteAndFsync(batch: seq<Record>, accepted: nat, synced: bool) returns (ok: bool)
      modifies `file
      ensures ok <==> batch == [] || (accepted >= RECORD_SIZE * |batch| && synced)
      ensures ok ==> file == old(file) + EncodeRecords(batch)
      ensures !ok ==> file == old(file) + EncodeRecords(batch)[..if accepted <= RECORD_SIZE * |batch| then accepted else RECORD_SIZE * |batch|]
    {
      if batch == [] { return true; }
      var buf := EncodeBatch(batch);
      if accepted < |buf| {
        file := file + buf[..accepted];
        return false;
      }
      file := file + buf;
      ok := synced;
    }

    /** Publish a flushed batch, or on a failed flush only give the slot back. */
    method Publish(batch: seq<Record>, snapshot: nat, ok: bool)
      modifies this
      ensures file == old(file)
      ensures State() == if ok then PublishSection(old(State()), batch, snapshot)
                               else old(State()).(flushing := false)
    {
      if ok {
        for i := 0 to |batch|
          invariant ReplayOnto(statuses, batch[i..]) == ReplayOnto(old(statuses), batch)
          invariant State() == old(State()).(statuses := statuses) && file == old(file)
        {
          assert batch[i..][0] == batch[i] && batch[i..][1..] == batch[i + 1..];
          statuses := statuses[batch[i].tx := batch[i].status];
        }
        durableLsn := snapshot;
      }
      flushing := false;
    }

    method Status(tx: u64) returns (r: Option<Status>)
      ensures r == StatusOf(State(), tx)
    {
      if tx < minTx { return Some(Committed); }
      r := Lookup(statuses, tx);
    }

    /** Take the flush slot for a rewrite and list the records to keep; `None` when the floor
        does not advance. */
    method BeginTruncate(floor: u64) returns (kept: Option<seq<Record>>)
      requires !flushing
      modifies this
      ensures file == old(file)
      ensures floor <= old(minTx) ==> kept == None && State() == old(State())
      ensures floor > old(minTx) ==> kept.Some? && State() == old(State()).(flushing := true)
      ensures kept.Some? ==> Enumerates(kept.value, AtLeast(statuses, floor))
    {
      flushing := true;
      if floor <= minTx {
        flushing := false;
        return None;
      }
      var rs: seq<Record>, todo := [], AtLeast(statuses, floor).Keys;
      while todo != {}
        invariant todo <= AtLeast(statuses, floor).Keys
        invariant forall i :: 0 <= i < |rs| ==> rs[i].tx in AtLeast(statuses, floor) && rs[i].tx !in todo
        invariant forall i, j :: 0 <= i < j < |rs| ==> rs[i].tx != rs[j].tx
        invariant forall i :: 0 <= i < |rs| ==> rs[i].status == statuses[rs[i].tx]
        invariant forall tx :: tx in AtLeast(statuses, floor) && tx !in todo ==> Record(tx, statuses[tx]) in rs
        invariant State() == old(State()).(flushing := true) && file == old(file)
        decreases todo
      {
        var tx :| tx in todo;
        rs := rs + [Record(tx, statuses[tx])];
        todo := todo - {tx};
      }
      kept := Some(rs);
    }

    /** Write the image of `floor` and the kept records aside, rename it over the log and reopen it. A
        failure before the rename leaves the old file, one after it the new; both free the slot. */
    method SwapFile(floor: u64, kept: seq<Record>, written: bool, renamed: bool, reopened: bool) returns (ok: bool)
      modifies this
      ensures ok <==> written && renamed && reopened
      ensures file == if written && renamed then Image(floor, kept) else old(file)
      ensures State() == if ok then old(State()) else old(State()).(flushing := false)
    {
      var buf := EncodeBatch(kept);
      if !written || !renamed {
        flushing := false;
        return false;
      }
      file := Header(floor) + buf;
      if !reopened { flushing := false; }
      ok := reopened;
    }

    method PublishTruncate(floor: u64)
      modifies this
      ensures State() == TruncatePublishSection(old(State()), floor) && file == old(file)
    {
      statuses := AtLeast(statuses, floor);
      minTx := floor;
      flushing := false;
    }
  }

  // ---------------------------------------------------------------- threads

  /** Where a thread stands between two lock-protected sections. */
  datatype Pc =
    | Idle
    | Waiting(lsn: nat, rec: Record)
    | Leading(lsn: nat, rec: Record, batch: seq<Record>, snapshot: nat, written: nat)
    | Done(lsn: nat, rec: Record, ok: bool)
    | TruncateWaiting(floor: u64)
    | Rewriting(floor: u64, kept: seq<Record>)
    | Swapped(floor: u64)

  /** The log file as a floor and records. `torn` when part of a record lies behind them; `whole` until
      something is written behind a torn one, after which `recs` no longer describes the file. */
  datatype Disk = Disk(minTx: u64, recs: seq<Record>, torn: bool, whole: bool)

  /** From `holder` on the fields are history: who holds the flush slot, the records the log was opened
      with, every record enqueued since in LSN order, the LSNs whose records the file has received in
      order (a rewrite keeps only the published ones), the LSNs of failed batches, and the LSNs
      published in order. */
  datatype Sys = Sys(sh: Shared, disk: Disk, threads: map<nat, Pc>, holder: Option<nat>,
                     initial: seq<Record>, enqueued: seq<Record>, log: seq<int>, lost: set<int>, published: seq<int>)

  datatype Step =
    | Enqueue(t: nat, rec: Record)
    | ReturnCovered(t: nat)
    | BecomeLeader(t: nat)
    | WriteRecord(t: nat)
    | PublishBatch(t: nat)
    | FailFlush(t: nat, torn: bool)
    | CallTruncate(t: nat, floor: u64)
    | TruncateNoop(t: nat)
    | TakeForRewrite(t: nat, kept: seq<Record>)
    | AbandonRewrite(t: nat)
    | Rename(t: nat)
    | AbandonSwap(t: nat)
    | PublishFloor(t: nat)

  function PcOf(s: Sys, t: nat): Pc {
    if t in s.threads then s.threads[t] else Idle
  }

  predicate AtRest(pc: Pc) { pc.Idle? || pc.Done? }

  predicate HoldsSlot(pc: Pc) { pc.Leading? || pc.Rewriting? || pc.Swapped? }

  ghost predicate Enabled(s: Sys, step: Step) {
    var pc := PcOf(s, step.t);
    match step
    case Enqueue(_, _) => AtRest(pc)
    case ReturnCovered(_) => pc.Waiting? && s.sh.durableLsn >= pc.lsn
    case BecomeLeader(_) => pc.Waiting? && s.sh.durableLsn < pc.lsn && !s.sh.flushing
    case WriteRecord(_) => pc.Leading? && pc.written < |pc.batch|
    case PublishBatch(_) => pc.Leading? && pc.written == |pc.batch|
    case FailFlush(_, torn) => pc.Leading? && pc.batch != [] && (torn ==> pc.written < |pc.batch|)
    case CallTruncate(_, floor) => AtRest(pc) && floor > 0
    case TruncateNoop(_) => pc.TruncateWaiting? && !s.sh.flushing && pc.floor <= s.sh.minTx
    case TakeForRewrite(_, kept) =>
      pc.TruncateWaiting? && !s.sh.flushing && pc.floor > s.sh.minTx && Enumerates(kept, AtLeast(s.sh.statuses, pc.floor))
    case AbandonRewrite(_) => pc.Rewriting?
    case Rename(_) => pc.Rewriting?
    case AbandonSwap(_) => pc.Swapped?
    case PublishFloor(_) => pc.Swapped?
  }

  /** The `count` LSNs after `from`. */
  function Lsns(from: int, count: nat): (r: set<int>)
    ensures forall l :: l in r <==> from < l <= from + count
  {
    if count == 0 then {} else Lsns(from, count - 1) + {from + count}
  }

  /** The same LSNs, in order. */
  function LsnList(from: int, count: nat): (r: seq<int>)
    ensures |r| == count && forall k :: 0 <= k < count ==> r[k] == from + k + 1
  {
    seq(count, k requires 0 <= k => from + k + 1)
  }

  ghost function Apply(s: Sys, step: Step): Sys
    requires Enabled(s, step)
  {
    var pc, t := PcOf(s, step.t), step.t;
    match step
    case Enqueue(_, rec) =>
      s.(sh := EnqueueSection(s.sh, rec), enqueued := s.enqueued + [rec],
         threads := s.threads[t := Waiting(s.sh.nextLsn + 1, rec)])
    case ReturnCovered(_) => s.(threads := s.threads[t := Done(pc.lsn, pc.rec, true)])
    case BecomeLeader(_) =>
      s.(sh := LeadSection(s.sh), holder := Some(t),
         threads := s.threads[t := Leading(pc.lsn, pc.rec, s.sh.pending, s.sh.nextLsn, 0)])
    case WriteRecord(_) =>
      s.(disk := s.disk.(recs := s.disk.recs + [pc.batch[pc.written]], whole := s.disk.whole && !s.disk.torn),
         log := s.log + [pc.snapshot - |pc.batch| + pc.written + 1],
         threads := s.threads[t := pc.(written := pc.written + 1)])
    case PublishBatch(_) =>
      s.(sh := PublishSection(s.sh, pc.batch, pc.snapshot), holder := None,
         published := s.published + LsnList(pc.snapshot - |pc.batch|, |pc.batch|),
         threads := s.threads[t := Done(pc.lsn, pc.rec, true)])
    case FailFlush(_, torn) =>
      s.(sh := s.sh.(flushing := false), holder := None,
         disk := s.disk.(torn := s.disk.torn || torn, whole := s.disk.whole && !(s.disk.torn && torn)),
         lost := s.lost + Lsns(pc.snapshot - |pc.batch|, |pc.batch|),
         threads := s.threads[t := Done(pc.lsn, pc.rec, false)])
    case CallTruncate(_, floor) => s.(threads := s.threads[t := TruncateWaiting(floor)])
    case TruncateNoop(_) => s.(threads := s.threads[t := Idle])
    case TakeForRewrite(_, kept) =>
      s.(sh := s.sh.(flushing := true), holder := Some(t), threads := s.threads[t := Rewriting(pc.floor, kept)])
    case AbandonRewrite(_) =>
      s.(sh := s.sh.(flushing := false), holder := None, threads := s.threads[t := Idle])
    case Rename(_) =>
      s.(disk := Disk(pc.floor, pc.kept, false, true), log := s.published, threads := s.threads[t := Swapped(pc.floor)])
    case AbandonSwap(_) =>
      s.(sh := s.sh.(flushing := false), holder := None, threads := s.threads[t := Idle])
    case PublishFloor(_) =>
      s.(sh := TruncatePublishSection(s.sh, pc.floor), holder := None, threads := s.threads[t := Idle])
  }
}
