/** What every run of the commit log keeps: one flush at a time, each record appended once, statuses
    published only after they are durable, and a file that recovers them from a crash at any point. */
module GroupCommitSafety {
  import opened Bytes
  import opened CommitLog
  import opened GroupCommit
  import Sequences

  // ---------------------------------------------------------------- runs

  /** A log just opened on a file holding `initial`, and perhaps a torn record behind it. */
  ghost predicate Init(s: Sys) {
    && s.sh == Shared(Replay(s.initial), [], 0, 0, false, s.sh.minTx)
    && s.disk == Disk(s.sh.minTx, s.initial, s.disk.torn, true)
    && s.threads == map[] && s.holder == None
    && s.enqueued == [] && s.log == [] && s.lost == {} && s.published == []
  }

  /** A run: any interleaving of the threads' lock-protected sections. */
  ghost predicate IsRun(states: seq<Sys>, steps: seq<Step>) {
    && |states| == |steps| + 1 && Init(states[0])
    && forall i :: 0 <= i < |steps| ==> Enabled(states[i], steps[i]) && states[i + 1] == Apply(states[i], steps[i])
  }

  ghost predicate NoFlushFails(steps: seq<Step>) {
    forall i :: 0 <= i < |steps| ==> !steps[i].FailFlush?
  }

  /** No failed flush left part of a record behind. */
  ghost predicate NoTornFlush(steps: seq<Step>) {
    forall i :: 0 <= i < |steps| && steps[i].FailFlush? ==> !steps[i].torn
  }

  // ---------------------------------------------------------------- the invariant

  ghost function Leader(s: Sys): Pc {
    if s.holder.Some? then PcOf(s, s.holder.value) else Idle
  }

  /** Every LSN up to here has been drained, and its flush is over. */
  ghost function Settled(s: Sys): int {
    var pc := Leader(s);
    if pc.Leading? then pc.snapshot - |pc.batch| else |s.enqueued| - |s.sh.pending|
  }

  /** How many records of the current batch are already in the file. */
  ghost function Written(s: Sys): nat {
    var pc := Leader(s);
    if pc.Leading? then pc.written else 0
  }

  ghost predicate LsnsValid(enqueued: seq<Record>, lsns: seq<int>) {
    forall i :: 0 <= i < |lsns| ==> 1 <= lsns[i] <= |enqueued|
  }

  ghost predicate Increasing(lsns: seq<int>) {
    forall i, j :: 0 <= i < j < |lsns| ==> lsns[i] < lsns[j]
  }

  /** The records behind a list of LSNs. */
  ghost function Records(enqueued: seq<Record>, lsns: seq<int>): (r: seq<Record>)
    requires LsnsValid(enqueued, lsns)
    ensures |r| == |lsns|
  {
    seq(|lsns|, i requires 0 <= i < |lsns| => enqueued[lsns[i] - 1])
  }

  ghost predicate QueueInv(s: Sys) {
    && |s.enqueued| == s.sh.nextLsn && |s.sh.pending| <= |s.enqueued|
    && s.sh.pending == s.enqueued[|s.enqueued| - |s.sh.pending|..]
  }

  ghost predicate SlotInv(s: Sys) {
    && (s.sh.flushing <==> s.holder.Some?)
    && forall t: nat :: HoldsSlot(PcOf(s, t)) <==> s.holder == Some(t)
  }

  ghost predicate LeaderInv(s: Sys) {
    var pc := Leader(s);
    pc.Leading? ==>
      && |pc.batch| <= pc.snapshot == |s.enqueued| - |s.sh.pending|
      && pc.batch == s.enqueued[pc.snapshot - |pc.batch|..pc.snapshot]
      && pc.written <= |pc.batch|
      && (s.lost == {} ==> pc.batch != [])
  }

  /** Published are exactly the settled LSNs no failed flush lost; in the file are those, some of the lost
      ones, and at its end the written part of the current batch. */
  ghost predicate LogInv(s: Sys) {
    && 0 <= Settled(s) <= Settled(s) + Written(s) <= |s.enqueued|
    && LsnsIn(s.enqueued, s.published) && LsnsIn(s.enqueued, s.log)
    && (forall l :: l in s.published <==> 1 <= l <= Settled(s) && l !in s.lost)
    && (forall l :: l in s.lost ==> 1 <= l <= Settled(s))
    && (forall l :: l in s.published ==> l in s.log)
    && TailWritten(s)
  }

  ghost predicate LsnsIn(enqueued: seq<Record>, lsns: seq<int>) { LsnsValid(enqueued, lsns) && Increasing(lsns) }

  /** The log is LSNs up to the settled one, then the written part of the batch. */
  ghost predicate TailWritten(s: Sys) {
    && Written(s) <= |s.log|
    && (forall i :: 0 <= i < |s.log| - Written(s) ==> s.log[i] <= Settled(s))
    && (forall i :: |s.log| - Written(s) <= i < |s.log| ==> s.log[i] == Settled(s) + 1 + i - (|s.log| - Written(s)))
  }

  ghost predicate DurableInv(s: Sys) {
    s.sh.durableLsn <= Settled(s) && (s.lost == {} ==> s.sh.durableLsn == Settled(s))
  }

  ghost predicate AppendInv(s: Sys, t: nat) {
    var pc := PcOf(s, t);
    && (pc.Waiting? || pc.Leading? || pc.Done? ==> 1 <= pc.lsn <= |s.enqueued| && s.enqueued[pc.lsn - 1] == pc.rec)
    && (pc.Leading? ==> pc.lsn <= pc.snapshot)
    && (pc.Done? && pc.ok ==> pc.lsn <= s.sh.durableLsn)
  }

  ghost predicate RewriteInv(s: Sys, t: nat) {
    var pc := PcOf(s, t);
    && (pc.Rewriting? ==>
          pc.floor > s.sh.minTx && forall tx: u64 :: tx >= pc.floor ==> Lookup(Replay(pc.kept), tx) == Lookup(s.sh.statuses, tx))
    && (pc.Swapped? ==> s.disk.minTx == pc.floor > s.sh.minTx)
  }

  ghost predicate ThreadsInv(s: Sys) { forall t: nat :: AppendInv(s, t) && RewriteInv(s, t) }

  /** What the file held when opened, then the records behind a list of LSNs. */
  ghost function History(s: Sys, lsns: seq<int>): seq<Record>
    requires LsnsValid(s.enqueued, lsns)
  {
    s.initial + Records(s.enqueued, lsns)
  }

  /** At or above the floor, the published statuses are the last ones published. */
  ghost predicate MapInv(s: Sys)
    requires LogInv(s)
  {
    forall tx: u64 :: tx >= s.sh.minTx ==> Lookup(s.sh.statuses, tx) == Lookup(Replay(History(s, s.published)), tx)
  }

  /** At or above its own floor, a file of whole records decodes to the last statuses it received. */
  ghost predicate DiskInv(s: Sys)
    requires LogInv(s)
  {
    && s.sh.minTx <= s.disk.minTx
    && (s.disk.whole ==>
          forall tx: u64 :: tx >= s.disk.minTx ==> Lookup(Replay(s.disk.recs), tx) == Lookup(Replay(History(s, s.log)), tx))
  }

  ghost predicate Inv(s: Sys) {
    && QueueInv(s) && SlotInv(s) && LeaderInv(s) && LogInv(s) && DurableInv(s) && ThreadsInv(s)
    && MapInv(s) && DiskInv(s)
  }

  lemma InitInv(s: Sys)
    requires Init(s)
    ensures Inv(s)
  {
    hide Replay;
    assert History(s, []) == s.initial;
    assert Leader(s) == Idle && Settled(s) == 0 && Written(s) == 0;
  }

  // ---------------------------------------------------------------- what does not change

  /** More records queued behind the same LSNs. */
  lemma SameHistory(s: Sys, s': Sys, lsns: seq<int>)
    requires LsnsValid(s.enqueued, lsns) && s'.initial == s.initial && s.enqueued <= s'.enqueued
    ensures LsnsValid(s'.enqueued, lsns) && History(s', lsns) == History(s, lsns)
  {
    assert Records(s'.enqueued, lsns) == Records(s.enqueued, lsns);
  }

  /** The queue grew at most at its end, and the same LSNs are settled and written. */
  ghost predicate SameLog(s: Sys, s': Sys) {
    && s'.log == s.log && s'.lost == s.lost && s'.published == s.published && s'.initial == s.initial
    && s.enqueued <= s'.enqueued && Settled(s') == Settled(s) && Written(s') == Written(s)
  }

  lemma SameLogKeepsLog(s: Sys, s': Sys)
    requires LogInv(s) && SameLog(s, s')
    ensures LogInv(s')
    ensures s'.sh.durableLsn == s.sh.durableLsn && DurableInv(s) ==> DurableInv(s')
  {
  }

  /** Statuses and file as before leave what the histories say. */
  lemma SameStatuses(s: Sys, s': Sys)
    requires LogInv(s) && MapInv(s) && DiskInv(s) && LogInv(s') && SameLog(s, s')
    requires s'.disk == s.disk && s'.sh.statuses == s.sh.statuses && s'.sh.minTx == s.sh.minTx
    ensures MapInv(s') && DiskInv(s')
  {
    hide Replay, Lookup, History, LsnsIn, TailWritten;
    assert LsnsValid(s.enqueued, s.log) && LsnsValid(s.enqueued, s.published) by { ListsValid(s); }
    SameHistory(s, s', s.log);
    SameHistory(s, s', s.published);
  }

  lemma ListsValid(s: Sys)
    requires LogInv(s)
    ensures LsnsValid(s.enqueued, s.log) && LsnsValid(s.enqueued, s.published)
  {
  }

  /** One thread moves; the others, and what they are promised, stay. */
  lemma OtherThreads(s: Sys, s': Sys, t: nat, pc: Pc)
    requires ThreadsInv(s) && s'.threads == s.threads[t := pc] && s.enqueued <= s'.enqueued
    requires s.sh.durableLsn <= s'.sh.durableLsn
    requires s'.sh.statuses == s.sh.statuses && s'.sh.minTx == s.sh.minTx && s'.disk.minTx == s.disk.minTx
    requires AppendInv(s', t) && RewriteInv(s', t)
    ensures ThreadsInv(s')
  {
    hide Replay, Lookup;
    forall u: nat ensures AppendInv(s', u) && RewriteInv(s', u) { assert AppendInv(s, u) && RewriteInv(s, u); }
  }

  /** As above when the slot's holder changes statuses or file: nobody else is rewriting. */
  lemma OtherThreadsOffSlot(s: Sys, s': Sys, t: nat, pc: Pc)
    requires ThreadsInv(s) && SlotInv(s) && s.holder == Some(t) && s'.threads == s.threads[t := pc] && s.enqueued <= s'.enqueued
    requires s.sh.durableLsn <= s'.sh.durableLsn
    requires AppendInv(s', t) && RewriteInv(s', t)
    ensures ThreadsInv(s')
  {
    hide Replay, Lookup;
    forall u: nat ensures AppendInv(s', u) && RewriteInv(s', u) { assert AppendInv(s, u) && RewriteInv(s, u); }
  }

  /** A thread off the flush slot moving on does not touch the slot. */
  lemma OffSlot(s: Sys, s': Sys, t: nat, pc: Pc)
    requires SlotInv(s) && s'.threads == s.threads[t := pc] && !HoldsSlot(pc) && !HoldsSlot(PcOf(s, t))
    requires s'.holder == s.holder && s'.sh.flushing == s.sh.flushing
    ensures SlotInv(s') && Leader(s') == Leader(s)
  {
  }

  /** Taking, keeping and freeing the slot. */
  lemma TakeSlot(s: Sys, s': Sys, t: nat, pc: Pc)
    requires SlotInv(s) && !s.sh.flushing && s'.threads == s.threads[t := pc] && HoldsSlot(pc)
    requires s'.holder == Some(t) && s'.sh.flushing
    ensures SlotInv(s') && Leader(s') == pc && Leader(s) == Idle
  {
  }

  lemma KeepSlot(s: Sys, s': Sys, t: nat, pc: Pc)
    requires SlotInv(s) && HoldsSlot(PcOf(s, t)) && s'.threads == s.threads[t := pc] && HoldsSlot(pc)
    requires s'.holder == s.holder && s'.sh.flushing == s.sh.flushing
    ensures SlotInv(s') && Leader(s') == pc && Leader(s) == PcOf(s, t) && s.holder == Some(t)
  {
  }

  lemma FreeSlot(s: Sys, s': Sys, t: nat, pc: Pc)
    requires SlotInv(s) && HoldsSlot(PcOf(s, t)) && s'.threads == s.threads[t := pc] && !HoldsSlot(pc)
    requires s'.holder == None && !s'.sh.flushing
    ensures SlotInv(s') && Leader(s') == Idle && Leader(s) == PcOf(s, t) && s.holder == Some(t)
  {
  }

  // ---------------------------------------------------------------- steps off the slot

  lemma EnqueueKeepsInv(s: Sys, t: nat, rec: Record)
    requires Inv(s) && Enabled(s, Enqueue(t, rec))
    ensures Inv(Apply(s, Enqueue(t, rec)))
  {
    hide MapInv, DiskInv, LogInv, SlotInv, ThreadsInv;
    var s' := Apply(s, Enqueue(t, rec));
    OffSlot(s, s', t, Waiting(s.sh.nextLsn + 1, rec));
    assert s'.sh.pending == s'.enqueued[|s'.enqueued| - |s'.sh.pending|..];
    SameLogKeepsLog(s, s');
    SameStatuses(s, s');
    OtherThreads(s, s', t, PcOf(s', t));
  }

  lemma ThreadOnlyKeepsInv(s: Sys, step: Step)
    requires Inv(s) && Enabled(s, step)
    requires step.ReturnCovered? || step.CallTruncate? || step.TruncateNoop?
    ensures Inv(Apply(s, step))
  {
    hide MapInv, DiskInv, LogInv, SlotInv;
    var s' := Apply(s, step);
    assert AppendInv(s, step.t);
    hide ThreadsInv;
    OffSlot(s, s', step.t, PcOf(s', step.t));
    SameLogKeepsLog(s, s');
    SameStatuses(s, s');
    OtherThreads(s, s', step.t, PcOf(s', step.t));
  }

  // ---------------------------------------------------------------- flushing

  lemma BecomeLeaderKeepsInv(s: Sys, t: nat)
    requires Inv(s) && Enabled(s, BecomeLeader(t))
    ensures Inv(Apply(s, BecomeLeader(t)))
  {
    hide MapInv, DiskInv, LogInv, SlotInv;
    var s' := Apply(s, BecomeLeader(t));
    assert AppendInv(s, t);
    hide ThreadsInv;
    TakeSlot(s, s', t, PcOf(s', t));
    assert Settled(s') == Settled(s) && Written(s') == Written(s) == 0;
    SameLogKeepsLog(s, s');
    SameStatuses(s, s');
    OtherThreads(s, s', t, PcOf(s', t));
  }

  /** One more record of the batch reaches the file. */
  lemma WriteRecordKeepsInv(s: Sys, t: nat)
    requires Inv(s) && Enabled(s, WriteRecord(t))
    ensures Inv(Apply(s, WriteRecord(t)))
  {
    hide MapInv, DiskInv, LogInv, SlotInv;
    var s', pc := Apply(s, WriteRecord(t)), PcOf(s, t);
    KeepSlot(s, s', t, PcOf(s', t));
    var l := Settled(s) + Written(s) + 1;
    assert s'.log == s.log + [l] && Settled(s') == Settled(s) && Written(s') == Written(s) + 1;
    assert s.enqueued[l - 1] == pc.batch[pc.written];
    LogGrows(s, s', l);
    WriteKeepsStatuses(s, s', l, pc.batch[pc.written]);
    assert AppendInv(s, t) && RewriteInv(s, t);
    hide ThreadsInv;
    OtherThreads(s, s', t, PcOf(s', t));
  }

  lemma LogGrows(s: Sys, s': Sys, l: int)
    requires LogInv(s) && l == Settled(s) + Written(s) + 1 <= |s.enqueued|
    requires s'.log == s.log + [l] && s'.enqueued == s.enqueued && s'.lost == s.lost && s'.published == s.published
    requires Settled(s') == Settled(s) && Written(s') == Written(s) + 1
    ensures LogInv(s')
  {
    assert forall i :: 0 <= i < |s.log| ==> s.log[i] < l;
    forall x | x in s.log ensures x in s'.log {}
  }

  lemma WriteKeepsStatuses(s: Sys, s': Sys, l: int, rec: Record)
    requires LogInv(s) && LogInv(s') && MapInv(s) && DiskInv(s) && 1 <= l <= |s.enqueued| && s.enqueued[l - 1] == rec
    requires s'.log == s.log + [l] && s'.enqueued == s.enqueued && s'.published == s.published && s'.initial == s.initial
    requires s'.disk == s.disk.(recs := s.disk.recs + [rec], whole := s'.disk.whole) && (s'.disk.whole ==> s.disk.whole) && s'.sh == s.sh
    ensures MapInv(s') && DiskInv(s')
  {
    ListsValid(s);
    ListsValid(s');
    hide LogInv, Replay, ReplayOnto, Lookup;
    assert Records(s'.enqueued, s'.log) == Records(s.enqueued, s.log) + [rec];
    Sequences.ConcatAssoc(s.initial, Records(s.enqueued, s.log), [rec]);
    assert History(s', s'.log) == History(s, s.log) + [rec] && History(s', s'.published) == History(s, s.published);
    hide History, Records;
    forall tx: u64 | s.disk.whole && tx >= s'.disk.minTx
      ensures Lookup(Replay(s'.disk.recs), tx) == Lookup(Replay(History(s', s'.log)), tx)
    {
      ReplaySnocPointwise(s.disk.recs, History(s, s.log), rec, tx);
    }
  }

  lemma ReplaySnocPointwise(a: seq<Record>, b: seq<Record>, rec: Record, tx: u64)
    requires Lookup(Replay(a), tx) == Lookup(Replay(b), tx)
    ensures Lookup(Replay(a + [rec]), tx) == Lookup(Replay(b + [rec]), tx)
  {
    ReplayOntoConcat(map[], a, [rec]);
    ReplayOntoConcat(map[], b, [rec]);
    ReplayOntoPointwise(Replay(a), Replay(b), [rec], tx);
  }

  /** A fully written batch is published. */
  lemma PublishBatchKeepsInv(s: Sys, t: nat)
    requires Inv(s) && Enabled(s, PublishBatch(t))
    ensures Inv(Apply(s, PublishBatch(t)))
  {
    hide MapInv, DiskInv, LogInv, SlotInv, Replay, ReplayOnto, Lookup;
    var s', pc := Apply(s, PublishBatch(t)), PcOf(s, t);
    FreeSlot(s, s', t, PcOf(s', t));
    assert Settled(s) == pc.snapshot - |pc.batch| && Written(s) == |pc.batch|;
    assert Settled(s') == pc.snapshot && Written(s') == 0;
    PublishKeepsLog(s, s', pc.batch);
    PublishKeepsMap(s, s', pc.batch);
    PublishKeepsDisk(s, s');
    assert AppendInv(s, t) && RewriteInv(s, t);
    assert AppendInv(s', t) && RewriteInv(s', t);
    hide ThreadsInv, AppendInv, RewriteInv;
    OtherThreadsOffSlot(s, s', t, PcOf(s', t));
    assert QueueInv(s') && LeaderInv(s') && DurableInv(s');
  }

  lemma PublishKeepsLog(s: Sys, s': Sys, batch: seq<Record>)
    requires LogInv(s) && Written(s) == |batch|
    requires s'.log == s.log && s'.enqueued == s.enqueued && s'.lost == s.lost
    requires s'.published == s.published + LsnList(Settled(s), |batch|)
    requires Settled(s') == Settled(s) + |batch| && Written(s') == 0
    ensures LogInv(s')
  {
    var more := LsnList(Settled(s), |batch|);
    LsnListMembers(Settled(s), |batch|);
    assert LsnsIn(s'.enqueued, s'.published) by {
      forall i | 0 <= i < |s.published| ensures s.published[i] <= Settled(s) { assert s.published[i] in s.published; }
    }
    forall l ensures l in s'.published <==> l in s.published || l in more {}
    forall l | l in more ensures l in s.log {
      var k :| 0 <= k < |more| && more[k] == l;
      assert s.log[|s.log| - Written(s) + k] == l;
    }
    assert TailWritten(s') by {
      assert forall i :: 0 <= i < |s.log| ==> s.log[i] <= Settled(s');
    }
  }

  lemma LsnListMembers(from: int, count: nat)
    ensures forall l :: l in LsnList(from, count) <==> from < l <= from + count
  {
    forall l | from < l <= from + count ensures l in LsnList(from, count) { assert LsnList(from, count)[l - from - 1] == l; }
  }

  lemma PublishKeepsMap(s: Sys, s': Sys, batch: seq<Record>)
    requires LogInv(s) && LogInv(s') && MapInv(s) && LeaderInv(s) && Leader(s).Leading? && Leader(s).batch == batch
    requires s'.enqueued == s.enqueued && s'.initial == s.initial && s'.published == s.published + LsnList(Settled(s), |batch|)
    requires s'.sh.statuses == ReplayOnto(s.sh.statuses, batch) && s'.sh.minTx == s.sh.minTx
    ensures MapInv(s')
  {
    ListsValid(s);
    ListsValid(s');
    hide LogInv, Replay, ReplayOnto, Lookup;
    assert Records(s'.enqueued, s'.published) == Records(s.enqueued, s.published) + batch;
    Sequences.ConcatAssoc(s.initial, Records(s.enqueued, s.published), batch);
    assert History(s', s'.published) == History(s, s.published) + batch;
    hide History, Records;
    forall tx: u64 | tx >= s'.sh.minTx ensures Lookup(s'.sh.statuses, tx) == Lookup(Replay(History(s', s'.published)), tx) {
      ReplayTailPointwise(s.sh.statuses, History(s, s.published), batch, tx);
    }
  }

  lemma PublishKeepsDisk(s: Sys, s': Sys)
    requires LogInv(s) && LogInv(s') && DiskInv(s) && s'.log == s.log && s'.enqueued == s.enqueued && s'.initial == s.initial
    requires s'.disk == s.disk && s'.sh.minTx == s.sh.minTx
    ensures DiskInv(s')
  {
    hide Replay, Lookup, History;
    ListsValid(s);
    SameHistory(s, s', s.log);
  }

  lemma ReplayTailPointwise(m: StatusMap, a: seq<Record>, batch: seq<Record>, tx: u64)
    requires Lookup(m, tx) == Lookup(Replay(a), tx)
    ensures Lookup(ReplayOnto(m, batch), tx) == Lookup(Replay(a + batch), tx)
  {
    ReplayOntoConcat(map[], a, batch);
    ReplayOntoPointwise(m, Replay(a), batch, tx);
  }

  /** A failed flush, whatever part of the batch it left in the file. */
  lemma FailFlushKeepsInv(s: Sys, t: nat, torn: bool)
    requires Inv(s) && Enabled(s, FailFlush(t, torn))
    ensures Inv(Apply(s, FailFlush(t, torn)))
  {
    hide MapInv, DiskInv, LogInv, SlotInv;
    var s', pc := Apply(s, FailFlush(t, torn)), PcOf(s, t);
    FreeSlot(s, s', t, PcOf(s', t));
    assert Settled(s) == pc.snapshot - |pc.batch| && Written(s) == pc.written <= |pc.batch|;
    assert Settled(s') == pc.snapshot && Written(s') == 0;
    FailKeepsLog(s, s', |pc.batch|);
    FailKeepsStatuses(s, s');
    assert pc.snapshot in s'.lost;
    assert AppendInv(s, t) && RewriteInv(s, t);
    hide ThreadsInv;
    OtherThreads(s, s', t, PcOf(s', t));
  }

  lemma FailKeepsLog(s: Sys, s': Sys, count: nat)
    requires LogInv(s) && Written(s) <= count && Settled(s) + count <= |s.enqueued|
    requires s'.log == s.log && s'.enqueued == s.enqueued && s'.published == s.published
    requires s'.lost == s.lost + Lsns(Settled(s), count)
    requires Settled(s') == Settled(s) + count && Written(s') == 0
    ensures LogInv(s')
  {
    assert forall i :: 0 <= i < |s.log| ==> s.log[i] <= Settled(s');
  }

  lemma FailKeepsStatuses(s: Sys, s': Sys)
    requires LogInv(s) && LogInv(s') && MapInv(s) && DiskInv(s)
    requires s'.log == s.log && s'.enqueued == s.enqueued && s'.initial == s.initial && s'.published == s.published
    requires s'.disk.minTx == s.disk.minTx && s'.disk.recs == s.disk.recs && (s'.disk.whole ==> s.disk.whole)
    requires s'.sh.statuses == s.sh.statuses && s'.sh.minTx == s.sh.minTx
    ensures MapInv(s') && DiskInv(s')
  {
    hide Replay, Lookup, History;
    ListsValid(s);
    SameHistory(s, s', s.log);
    SameHistory(s, s', s.published);
  }

  // ---------------------------------------------------------------- truncation

  lemma TakeForRewriteKeepsInv(s: Sys, t: nat, kept: seq<Record>)
    requires Inv(s) && Enabled(s, TakeForRewrite(t, kept))
    ensures Inv(Apply(s, TakeForRewrite(t, kept)))
  {
    var s', pc := Apply(s, TakeForRewrite(t, kept)), PcOf(s, t);
    ReplayEnumeration(kept, AtLeast(s.sh.statuses, pc.floor));
    assert RewriteInv(s', t) && AppendInv(s', t);
    hide MapInv, DiskInv, LogInv, SlotInv, ThreadsInv, Enumerates, RewriteInv, AppendInv;
    TakeSlot(s, s', t, PcOf(s', t));
    assert Settled(s') == Settled(s) && Written(s') == Written(s) == 0;
    SameLogKeepsLog(s, s');
    SameStatuses(s, s');
    OtherThreads(s, s', t, PcOf(s', t));
  }

  /** Giving up a rewrite, before or after the rename. */
  lemma AbandonKeepsInv(s: Sys, step: Step)
    requires Inv(s) && Enabled(s, step) && (step.AbandonRewrite? || step.AbandonSwap?)
    ensures Inv(Apply(s, step))
  {
    hide MapInv, DiskInv, LogInv, SlotInv, ThreadsInv;
    var s', t := Apply(s, step), step.t;
    FreeSlot(s, s', t, PcOf(s', t));
    assert Settled(s') == Settled(s) && Written(s') == Written(s) == 0;
    SameLogKeepsLog(s, s');
    SameStatuses(s, s');
    OtherThreads(s, s', t, PcOf(s', t));
  }

  /** The rename: the file becomes the image of the published statuses at or above the new floor. */
  lemma RenameKeepsInv(s: Sys, t: nat)
    requires Inv(s) && Enabled(s, Rename(t))
    ensures Inv(Apply(s, Rename(t)))
  {
    hide MapInv, DiskInv, LogInv, SlotInv;
    var s', pc := Apply(s, Rename(t)), PcOf(s, t);
    KeepSlot(s, s', t, PcOf(s', t));
    assert Settled(s') == Settled(s) && Written(s') == Written(s) == 0;
    assert RewriteInv(s, t);
    assert RewriteInv(s', t) && AppendInv(s', t);
    RenameKeepsLog(s, s');
    RenameKeepsStatus(s, s', pc.floor, pc.kept);
    hide ThreadsInv, RewriteInv, AppendInv;
    OtherThreadsOffSlot(s, s', t, PcOf(s', t));
  }

  lemma RenameKeepsLog(s: Sys, s': Sys)
    requires LogInv(s) && Written(s) == 0 && s'.log == s.published && s'.published == s.published
    requires s'.enqueued == s.enqueued && s'.lost == s.lost && Settled(s') == Settled(s) && Written(s') == 0
    ensures LogInv(s')
  {
    forall i | 0 <= i < |s.published| ensures s.published[i] <= Settled(s) { assert s.published[i] in s.published; }
  }

  lemma RenameKeepsStatus(s: Sys, s': Sys, floor: u64, kept: seq<Record>)
    requires LogInv(s) && LogInv(s') && MapInv(s) && floor > s.sh.minTx
    requires forall tx: u64 :: tx >= floor ==> Lookup(Replay(kept), tx) == Lookup(s.sh.statuses, tx)
    requires s'.log == s.published && s'.published == s.published && s'.enqueued == s.enqueued && s'.initial == s.initial
    requires s'.sh == s.sh && s'.disk == Disk(floor, kept, false, true)
    ensures MapInv(s') && DiskInv(s')
  {
    hide Replay, Lookup, History;
    ListsValid(s);
    SameHistory(s, s', s.published);
  }

  lemma PublishFloorKeepsInv(s: Sys, t: nat)
    requires Inv(s) && Enabled(s, PublishFloor(t))
    ensures Inv(Apply(s, PublishFloor(t)))
  {
    hide MapInv, DiskInv, LogInv, SlotInv;
    var s', pc := Apply(s, PublishFloor(t)), PcOf(s, t);
    FreeSlot(s, s', t, PcOf(s', t));
    assert Settled(s') == Settled(s) && Written(s') == Written(s) == 0;
    assert RewriteInv(s, t);
    assert RewriteInv(s', t) && AppendInv(s', t);
    SameLogKeepsLog(s, s');
    FloorKeepsStatuses(s, s', pc.floor);
    hide ThreadsInv, RewriteInv, AppendInv;
    OtherThreadsOffSlot(s, s', t, PcOf(s', t));
  }

  lemma FloorKeepsStatuses(s: Sys, s': Sys, floor: u64)
    requires LogInv(s) && LogInv(s') && MapInv(s) && DiskInv(s) && SameLog(s, s') && s'.disk == s.disk
    requires s.disk.minTx == floor > s.sh.minTx && s'.sh.minTx == floor && s'.sh.statuses == AtLeast(s.sh.statuses, floor)
    ensures MapInv(s') && DiskInv(s')
  {
    hide Replay, History;
    ListsValid(s);
    SameHistory(s, s', s.log);
    SameHistory(s, s', s.published);
  }

  lemma StepKeepsInv(s: Sys, step: Step)
    requires Inv(s) && Enabled(s, step)
    ensures Inv(Apply(s, step))
  {
    hide Inv, Apply, Enabled;
    match step
    case Enqueue(t, rec) => EnqueueKeepsInv(s, t, rec);
    case ReturnCovered(_) => ThreadOnlyKeepsInv(s, step);
    case BecomeLeader(t) => BecomeLeaderKeepsInv(s, t);
    case WriteRecord(t) => WriteRecordKeepsInv(s, t);
    case PublishBatch(t) => PublishBatchKeepsInv(s, t);
    case FailFlush(t, torn) => FailFlushKeepsInv(s, t, torn);
    case CallTruncate(_, _) => ThreadOnlyKeepsInv(s, step);
    case TruncateNoop(_) => ThreadOnlyKeepsInv(s, step);
    case TakeForRewrite(t, kept) => TakeForRewriteKeepsInv(s, t, kept);
    case AbandonRewrite(t) => AbandonKeepsInv(s, step);
    case Rename(t) => RenameKeepsInv(s, t);
    case AbandonSwap(t) => AbandonKeepsInv(s, step);
    case PublishFloor(t) => PublishFloorKeepsInv(s, t);
  }

  lemma {:induction false} RunKeepsInv(states: seq<Sys>, steps: seq<Step>, i: nat)
    requires IsRun(states, steps) && i < |states|
    ensures Inv(states[i])
    ensures NoFlushFails(steps) ==> states[i].lost == {}
    ensures NoTornFlush(steps) && !states[0].disk.torn ==> states[i].disk.whole && !states[i].disk.torn
  {
    hide Inv;
    if i == 0 {
      InitInv(states[0]);
    } else {
      hide Init;
      RunKeepsInv(states, steps, i - 1);
      StepKeepsInv(states[i - 1], steps[i - 1]);
      assert states[i - 1 + 1] == Apply(states[i - 1], steps[i - 1]);
    }
  }

  // ---------------------------------------------------------------- main results

  /** At most one thread holds the flush slot, and without failures a leader's batch is never empty. */
  lemma OneFlusher(states: seq<Sys>, steps: seq<Step>, i: nat, t: nat, u: nat)
    requires IsRun(states, steps) && i < |states| && HoldsSlot(PcOf(states[i], t))
    ensures HoldsSlot(PcOf(states[i], u)) ==> u == t
    ensures NoFlushFails(steps) && PcOf(states[i], t).Leading? ==> PcOf(states[i], t).batch != []
  {
    RunKeepsInv(states, steps, i);
  }

  ghost predicate Once(lsns: seq<int>, l: int) {
    forall k, m :: 0 <= k < |lsns| && 0 <= m < |lsns| && lsns[k] == l && lsns[m] == l ==> k == m
  }

  /** An acknowledged append is appended and published exactly when its batch was not lost by a failed
      flush; and then once. */
  lemma AcknowledgedIffNotLost(states: seq<Sys>, steps: seq<Step>, i: nat, t: nat)
    requires IsRun(states, steps) && i < |states|
    requires PcOf(states[i], t).Done? && PcOf(states[i], t).ok
    ensures var s, pc := states[i], PcOf(states[i], t);
            && 1 <= pc.lsn <= s.sh.durableLsn && pc.lsn <= |s.enqueued| && s.enqueued[pc.lsn - 1] == pc.rec
            && (pc.lsn in s.published <==> pc.lsn !in s.lost)
            && (pc.lsn in s.published ==> pc.lsn in s.log)
            && Once(s.log, pc.lsn) && Once(s.published, pc.lsn)
  {
    RunKeepsInv(states, steps, i);
    assert AppendInv(states[i], t);
  }

  /** Without failed flushes the file receives every record once, in the order they were enqueued, and
      what is published is an initial part of it. */
  lemma AppendedInOrder(states: seq<Sys>, steps: seq<Step>, i: nat)
    requires IsRun(states, steps) && i < |states| && NoFlushFails(steps)
    ensures var s := states[i];
            && |s.log| <= |s.enqueued| && s.log == LsnList(0, |s.log|) && s.published <= s.log
            && LsnsValid(s.enqueued, s.log) && Records(s.enqueued, s.log) == s.enqueued[..|s.log|]
  {
    RunKeepsInv(states, steps, i);
    var s := states[i];
    forall l ensures l in s.log <==> 1 <= l <= Settled(s) + Written(s) { WhatIsInTheFile(s, l); }
    forall k | 0 <= k < |s.log| ensures 1 <= s.log[k] <= Settled(s) + Written(s) { assert s.log[k] in s.log; }
    forall k | 0 <= k < |s.published| ensures 1 <= s.published[k] <= Settled(s) { assert s.published[k] in s.published; }
    InitialSegment(s.log, Settled(s) + Written(s));
    InitialSegment(s.published, Settled(s));
    assert Records(s.enqueued, s.log) == s.enqueued[..|s.log|];
  }

  lemma WhatIsInTheFile(s: Sys, l: int)
    requires LogInv(s) && s.lost == {}
    ensures l in s.log <==> 1 <= l <= Settled(s) + Written(s)
  {
    if Settled(s) < l <= Settled(s) + Written(s) {
      assert s.log[|s.log| - Written(s) + (l - Settled(s) - 1)] == l;
    }
    if l in s.log {
      var k :| 0 <= k < |s.log| && s.log[k] == l;
      assert 1 <= s.log[k];
    }
  }

  /** A strictly increasing sequence holding exactly 1..n is 1, 2, ..., n. */
  lemma {:induction false} InitialSegment(log: seq<int>, n: int)
    requires n >= 0 && Increasing(log)
    requires forall i :: 0 <= i < |log| ==> 1 <= log[i] <= n
    requires forall l :: 1 <= l <= n ==> l in log
    ensures |log| == n && forall k :: 0 <= k < |log| ==> log[k] == k + 1
    decreases |log|
  {
    if log == [] {
      assert n >= 1 ==> 1 in log;
    } else {
      assert 1 <= log[0] <= n;
      assert n in log;
      var last := |log| - 1;
      assert forall i :: 0 <= i < |log| ==> log[i] <= log[last];
      var init := log[..last];
      assert log == init + [n];
      forall i | 0 <= i < last ensures 1 <= init[i] <= n - 1 { assert log[i] < log[last]; }
      forall l | 1 <= l <= n - 1 ensures l in init { assert l in log; }
      InitialSegment(init, n - 1);
    }
  }

  /** Nothing is visible before it is durable: a status at or above the floor belongs to a record already
      published, and every published LSN is in the file. */
  lemma VisibleIsDurable(states: seq<Sys>, steps: seq<Step>, i: nat, tx: u64)
    requires IsRun(states, steps) && i < |states|
    requires tx >= states[i].sh.minTx && GroupCommit.StatusOf(states[i].sh, tx).Some?
    ensures var s := states[i];
            LogInv(s) && Record(tx, GroupCommit.StatusOf(s.sh, tx).value) in History(s, s.published) &&
            forall l :: l in s.published ==> l in s.log
  {
    RunKeepsInv(states, steps, i);
    var s := states[i];
    StatusComesFromRecord(map[], History(s, s.published), tx);
  }

  lemma {:induction false} StatusComesFromRecord(m: StatusMap, rs: seq<Record>, tx: u64)
    requires tx !in m
    ensures Lookup(ReplayOnto(m, rs), tx).Some? ==> Record(tx, Lookup(ReplayOnto(m, rs), tx).value) in rs
  {
    if rs != [] {
      var k := |rs| - 1;
      StatusComesFromRecord(m, rs[..k], tx);
      ReplayOntoConcat(m, rs[..k], [rs[k]]);
      assert rs == rs[..k] + [rs[k]];
    }
  }

  /** A crash in any state in which nothing was written behind a torn record: the reopened log has every id
      at or above the file's floor at the status last appended for it, whatever torn record is left at the
      end. */
  lemma CrashAnywhere(states: seq<Sys>, steps: seq<Step>, i: nat, torn: ByteString)
    requires IsRun(states, steps) && i < |states| && |torn| < RECORD_SIZE && states[i].disk.whole
    ensures var s := states[i];
            && LogInv(s)
            && OpenFile(Image(s.disk.minTx, s.disk.recs) + torn) == Ok(Opened(s.disk.minTx, Replay(s.disk.recs)))
            && forall tx: u64 :: tx >= s.disk.minTx ==> Lookup(Replay(s.disk.recs), tx) == Lookup(Replay(History(s, s.log)), tx)
  {
    RunKeepsInv(states, steps, i);
    OpenImage(states[i].disk.minTx, states[i].disk.recs, torn);
  }

  /** The only record of its transaction in a list of LSNs. */
  ghost predicate OnlyOutcome(s: Sys, lsns: seq<int>, rec: Record) {
    LsnsValid(s.enqueued, lsns) ==> forall r :: r in History(s, lsns) && r.tx == rec.tx ==> r == rec
  }

  /** A record the file received reads back after a crash, unless it fell below the floor: acknowledged or
      not, and whether or not its flush failed. */
  lemma ReceivedReadsBack(states: seq<Sys>, steps: seq<Step>, i: nat, l: int, rec: Record)
    requires IsRun(states, steps) && i < |states| && states[i].disk.whole
    requires l in states[i].log && 1 <= l <= |states[i].enqueued| && states[i].enqueued[l - 1] == rec
    requires OnlyOutcome(states[i], states[i].log, rec)
    ensures rec.tx >= states[i].disk.minTx ==> Lookup(Replay(states[i].disk.recs), rec.tx) == Some(rec.status)
  {
    RunKeepsInv(states, steps, i);
    var s := states[i];
    InHistory(s, s.log, l);
    hide Replay, History, LogInv, Lookup;
    OnlyStatusWins(History(s, s.log), rec);
  }

  /** An acknowledged, unlost outcome reads back, now and after a crash, unless it fell below the floor. */
  lemma AcknowledgedReadsBack(states: seq<Sys>, steps: seq<Step>, i: nat, t: nat)
    requires IsRun(states, steps) && i < |states|
    requires PcOf(states[i], t).Done? && PcOf(states[i], t).ok && PcOf(states[i], t).lsn !in states[i].lost
    requires OnlyOutcome(states[i], states[i].log, PcOf(states[i], t).rec)
    requires OnlyOutcome(states[i], states[i].published, PcOf(states[i], t).rec)
    ensures var s, rec := states[i], PcOf(states[i], t).rec;
            && (rec.tx >= s.sh.minTx ==> GroupCommit.StatusOf(s.sh, rec.tx) == Some(rec.status))
            && (s.disk.whole && rec.tx >= s.disk.minTx ==> Lookup(Replay(s.disk.recs), rec.tx) == Some(rec.status))
  {
    AcknowledgedIffNotLost(states, steps, i, t);
    RunKeepsInv(states, steps, i);
    var s, pc := states[i], PcOf(states[i], t);
    InHistory(s, s.published, pc.lsn);
    if s.disk.whole { ReceivedReadsBack(states, steps, i, pc.lsn, pc.rec); }
    hide Replay, History, LogInv, Lookup;
    OnlyStatusWins(History(s, s.published), pc.rec);
  }

  lemma InHistory(s: Sys, lsns: seq<int>, l: int)
    requires LsnsValid(s.enqueued, lsns) && l in lsns
    ensures 1 <= l <= |s.enqueued| && s.enqueued[l - 1] in History(s, lsns)
  {
    var k :| 0 <= k < |lsns| && lsns[k] == l;
    assert History(s, lsns)[|s.initial| + k] == s.enqueued[l - 1];
  }

  lemma OnlyStatusWins(rs: seq<Record>, rec: Record)
    requires rec in rs && forall r :: r in rs && r.tx == rec.tx ==> r == rec
    ensures Lookup(Replay(rs), rec.tx) == Some(rec.status)
  {
    OnlyStatusWinsFrom(map[], rs, rec);
  }

  lemma {:induction false} OnlyStatusWinsFrom(m: StatusMap, rs: seq<Record>, rec: Record)
    requires forall r :: r in rs && r.tx == rec.tx ==> r == rec
    requires rec in rs || Lookup(m, rec.tx) == Some(rec.status)
    ensures Lookup(ReplayOnto(m, rs), rec.tx) == Some(rec.status)
    decreases |rs|
  {
    if rs != [] {
      assert rs[0] in rs && forall r :: r in rs[1..] ==> r in rs;
      assert rec in rs ==> rec == rs[0] || rec in rs[1..];
      OnlyStatusWinsFrom(m[rs[0].tx := rs[0].status], rs[1..], rec);
    }
  }

  /** Truncation on disk is all or nothing: the rename swaps in a complete image that gives every id at or
      above the new floor its published status, and the status the old file gave it unless a failed flush
      left records there. */
  lemma RenameKeepsStatuses(s: Sys, t: nat)
    requires Inv(s) && Enabled(s, Rename(t))
    ensures var s' := Apply(s, Rename(t));
            && s'.disk.whole
            && (forall tx: u64 :: tx >= s'.disk.minTx ==> Lookup(Replay(s'.disk.recs), tx) == GroupCommit.StatusOf(s.sh, tx))
            && (s.disk.whole && (forall l :: l in s.log ==> l !in s.lost) ==>
                  forall tx: u64 :: tx >= s'.disk.minTx && tx >= s.disk.minTx ==>
                    Lookup(Replay(s'.disk.recs), tx) == Lookup(Replay(s.disk.recs), tx))
  {
    assert RewriteInv(s, t) && HoldsSlot(PcOf(s, t));
    ListsValid(s);
    if s.disk.whole && (forall l :: l in s.log ==> l !in s.lost) {
      assert Written(s) == 0;
      forall l ensures l in s.log <==> l in s.published {
        if l in s.log {
          var k :| 0 <= k < |s.log| && s.log[k] == l;
          assert 1 <= s.log[k] <= Settled(s);
        }
      }
      SameSet(s.log, s.published);
    }
  }

  lemma {:induction false} SameSet(a: seq<int>, b: seq<int>)
    requires Increasing(a) && Increasing(b) && forall l :: l in a <==> l in b
    ensures a == b
    decreases |a|
  {
    HeadIn(b);
    if a != [] {
      assert a[0] in a && a[0] in b;
      assert b[0] in b && b[0] in a;
      var i :| 0 <= i < |a| && a[i] == b[0];
      var j :| 0 <= j < |b| && b[j] == a[0];
      assert a[0] == b[0];
      forall l ensures l in a[1..] <==> l in b[1..] {
        assert l in a[1..] <==> l in a && l != a[0] by { TailMembers(a, l); }
        assert l in b[1..] <==> l in b && l != b[0] by { TailMembers(b, l); }
      }
      SameSet(a[1..], b[1..]);
      assert a == [a[0]] + a[1..] && b == [b[0]] + b[1..];
    }
  }

  lemma HeadIn(a: seq<int>)
    ensures a != [] ==> a[0] in a
  {
  }

  lemma TailMembers(a: seq<int>, l: int)
    requires a != [] && Increasing(a)
    ensures l in a[1..] <==> l in a && l != a[0]
  {
    assert a == [a[0]] + a[1..];
    if l in a[1..] {
      var k :| 0 <= k < |a[1..]| && a[1..][k] == l;
      assert a[0] < a[k + 1];
    }
  }

  // ---------------------------------------------------------------- what a failed flush does

  /** Two threads have enqueued, and the first leads a flush of both records. */
  ghost function BothQueued(): Sys {
    var r1, r2 := Record(1, Committed), Record(2, Committed);
    Sys(Shared(map[], [], 2, 0, true, 0), Disk(0, [], false, true), map[1 := Leading(1, r1, [r1, r2], 2, 0), 2 := Waiting(2, r2)],
        Some(1), [], [r1, r2], [], {}, [])
  }

  lemma BothQueuedReached(s0: Sys, s1: Sys, s2: Sys)
    requires s0 == Sys(Shared(map[], [], 0, 0, false, 0), Disk(0, [], false, true), map[], None, [], [], [], {}, [])
    requires s1 == s0.(sh := s0.sh.(pending := [Record(1, Committed)], nextLsn := 1), enqueued := [Record(1, Committed)],
                       threads := map[1 := Waiting(1, Record(1, Committed))])
    requires s2 == s1.(sh := s1.sh.(pending := [Record(1, Committed), Record(2, Committed)], nextLsn := 2),
                       enqueued := [Record(1, Committed), Record(2, Committed)],
                       threads := s1.threads[2 := Waiting(2, Record(2, Committed))])
    ensures Init(s0)
    ensures Enabled(s0, Enqueue(1, Record(1, Committed))) && Apply(s0, Enqueue(1, Record(1, Committed))) == s1
    ensures Enabled(s1, Enqueue(2, Record(2, Committed))) && Apply(s1, Enqueue(2, Record(2, Committed))) == s2
    ensures Enabled(s2, BecomeLeader(1)) && Apply(s2, BecomeLeader(1)) == BothQueued()
  {
  }

  lemma FollowerSucceedsEmptyHanded() returns (s4: Sys, s5: Sys, s6: Sys)
    ensures Enabled(BothQueued(), FailFlush(1, false)) && Apply(BothQueued(), FailFlush(1, false)) == s4
    ensures Enabled(s4, BecomeLeader(2)) && Apply(s4, BecomeLeader(2)) == s5
    ensures Enabled(s5, PublishBatch(2)) && Apply(s5, PublishBatch(2)) == s6
    ensures PcOf(s6, 2) == Done(2, Record(2, Committed), true) && 2 in s6.lost && s6.disk.recs == []
  {
    s4 := Apply(BothQueued(), FailFlush(1, false));
    assert s4.sh == Shared(map[], [], 2, 0, false, 0) && PcOf(s4, 2) == Waiting(2, Record(2, Committed)) && 2 in s4.lost;
    s5 := Apply(s4, BecomeLeader(2));
    s6 := Apply(s5, PublishBatch(2));
  }

  /** A failed flush loses its batch, and a follower whose record was in it then succeeds with an
      empty batch: its append reports success though its record never reached the file. */
  lemma FailedFlushLosesAcknowledged() returns (states: seq<Sys>, steps: seq<Step>, t: nat)
    ensures IsRun(states, steps)
    ensures var s := states[|states| - 1];
            PcOf(s, t).Done? && PcOf(s, t).ok && PcOf(s, t).lsn in s.lost && s.disk.recs == []
  {
    var r1, r2 := Record(1, Committed), Record(2, Committed);
    var s0 := Sys(Shared(map[], [], 0, 0, false, 0), Disk(0, [], false, true), map[], None, [], [], [], {}, []);
    var s1 := s0.(sh := s0.sh.(pending := [r1], nextLsn := 1), enqueued := [r1], threads := map[1 := Waiting(1, r1)]);
    var s2 := s1.(sh := s1.sh.(pending := [r1, r2], nextLsn := 2), enqueued := [r1, r2],
                  threads := s1.threads[2 := Waiting(2, r2)]);
    BothQueuedReached(s0, s1, s2);
    var s4, s5, s6 := FollowerSucceedsEmptyHanded();
    hide Apply, Enabled, BothQueued, Init;
    steps := [Enqueue(1, r1), Enqueue(2, r2), BecomeLeader(1), FailFlush(1, false), BecomeLeader(2), PublishBatch(2)];
    states, t := [s0, s1, s2, BothQueued(), s4, s5, s6], 2;
  }

  lemma FailedAppendReaches() returns (s4: Sys, s5: Sys)
    ensures Enabled(BothQueued(), WriteRecord(1)) && Apply(BothQueued(), WriteRecord(1)) == s4
    ensures Enabled(s4, FailFlush(1, false)) && Apply(s4, FailFlush(1, false)) == s5
    ensures PcOf(s5, 1) == Done(1, Record(1, Committed), false) && s5.sh.statuses == map[] && s5.sh.minTx == 0
    ensures s5.disk == Disk(0, [Record(1, Committed)], false, true)
  {
    s4 := Apply(BothQueued(), WriteRecord(1));
    s5 := Apply(s4, FailFlush(1, false));
  }

  lemma OneRecordReopens()
    ensures OpenFile(Image(0, [Record(1, Committed)])) == Ok(Opened(0, map[1 := Committed]))
  {
    var r1 := Record(1, Committed);
    var empty: StatusMap := map[];
    assert ReplayOnto(empty, [r1]) == ReplayOnto(empty[1 := Committed], []) by { assert [r1][1..] == []; }
    assert Replay([r1]) == map[1 := Committed];
    hide Replay, OpenFile, Image;
    OpenImage(0, [r1], []);
    assert Image(0, [r1]) + [] == Image(0, [r1]);
  }

  lemma FailedAppendRun() returns (states: seq<Sys>, steps: seq<Step>)
    ensures IsRun(states, steps)
    ensures var s := states[|states| - 1];
            && PcOf(s, 1) == Done(1, Record(1, Committed), false) && s.sh.statuses == map[] && s.sh.minTx == 0
            && s.disk == Disk(0, [Record(1, Committed)], false, true)
  {
    var r1, r2 := Record(1, Committed), Record(2, Committed);
    var s0 := Sys(Shared(map[], [], 0, 0, false, 0), Disk(0, [], false, true), map[], None, [], [], [], {}, []);
    var s1 := s0.(sh := s0.sh.(pending := [r1], nextLsn := 1), enqueued := [r1], threads := map[1 := Waiting(1, r1)]);
    var s2 := s1.(sh := s1.sh.(pending := [r1, r2], nextLsn := 2), enqueued := [r1, r2],
                  threads := s1.threads[2 := Waiting(2, r2)]);
    BothQueuedReached(s0, s1, s2);
    var s4, s5 := FailedAppendReaches();
    hide Apply, Enabled, BothQueued, Init;
    steps := [Enqueue(1, r1), Enqueue(2, r2), BecomeLeader(1), WriteRecord(1), FailFlush(1, false)];
    states := [s0, s1, s2, BothQueued(), s4, s5];
  }

  /** A flush that fails after part of its batch reached the file: an append reports an error and nobody
      sees its outcome, yet a reopened log holds it. */
  lemma FailedAppendSurvivesCrash() returns (states: seq<Sys>, steps: seq<Step>)
    ensures IsRun(states, steps)
    ensures var s := states[|states| - 1];
            && PcOf(s, 1) == Done(1, Record(1, Committed), false) && GroupCommit.StatusOf(s.sh, 1) == None && s.disk.whole
            && OpenFile(Image(s.disk.minTx, s.disk.recs)) == Ok(Opened(0, map[1 := Committed]))
  {
    hide IsRun, OpenFile, Image;
    states, steps := FailedAppendRun();
    OneRecordReopens();
  }
}
