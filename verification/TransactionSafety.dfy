/** What snapshots, the reclaim watermark and log truncation guarantee over whole runs of the
    transaction coordinator (engine/transaction.rs, engine/database.rs). */
module TransactionSafety {
  import opened Bytes
  import opened CommitLog
  import opened Transactions

  /** The coordinator's state as far as visibility is concerned. */
  datatype Coord = Coord(nextTx: nat, inFlight: set<nat>, log: Outcomes)

  /** Publishing an outcome and leaving the in-flight set are separate steps. */
  datatype Step =
    | Begin
    | Publish(tx: nat, status: Status)
    | Remove(tx: nat)
    | TruncateLog(floor: nat)

  ghost function WatermarkOf(c: Coord): nat { Watermark(c.nextTx, c.inFlight) }

  /** `truncate_below`: drop the records below `f` and raise the floor; a lower floor changes nothing. */
  function Truncate(o: Outcomes, f: nat): Outcomes {
    if f <= o.floor then o else Outcomes(map t | t in o.statuses && t >= f :: o.statuses[t], f)
  }

  /** A truncation floor was captured as the watermark at or before this moment. */
  ghost predicate Enabled(c: Coord, s: Step) {
    match s
    case Begin => true
    case Publish(tx, _) => tx in c.inFlight && tx !in c.log.statuses
    case Remove(tx) => tx in c.inFlight && tx in c.log.statuses
    case TruncateLog(f) => f <= WatermarkOf(c)
  }

  function Apply(c: Coord, s: Step): Coord {
    match s
    case Begin => c.(nextTx := c.nextTx + 1, inFlight := c.inFlight + {c.nextTx})
    case Publish(tx, status) => c.(log := c.log.(statuses := c.log.statuses[tx := status]))
    case Remove(tx) => c.(inFlight := c.inFlight - {tx})
    case TruncateLog(f) => c.(log := Truncate(c.log, f))
  }

  /** No record and no in-flight id at or above the next id; the floor is at or below the watermark. */
  ghost predicate Sound(c: Coord) {
    && c.nextTx >= 1
    && (forall t :: t in c.log.statuses ==> t < c.nextTx)
    && (forall t :: t in c.inFlight ==> 1 <= t < c.nextTx)
    && c.log.floor <= WatermarkOf(c)
  }

  ghost predicate IsRun(states: seq<Coord>, steps: seq<Step>) {
    && |states| == |steps| + 1 && Sound(states[0])
    && forall k :: 0 <= k < |steps| ==> Enabled(states[k], steps[k]) && states[k + 1] == Apply(states[k], steps[k])
  }

  ghost predicate NoTruncation(steps: seq<Step>, i: nat, j: nat)
    requires i <= j <= |steps|
  {
    forall k :: i <= k < j ==> !steps[k].TruncateLog?
  }

  ghost function CoordOf(tx: TxState): Coord
    reads tx
  {
    Coord(tx.nextTxId, tx.inFlight, tx.outcomes)
  }

  /** The coordinator object moves exactly as the steps say. */
  method PerformStep(tx: TxState, s: Step)
    modifies tx
    ensures CoordOf(tx) == Apply(old(CoordOf(tx)), s)
  {
    match s
    case Begin => var _ := tx.ReserveId();
    case Publish(id, status) => tx.Publish(id, status);
    case Remove(id) => tx.LeaveInFlight(id);
    case TruncateLog(f) => tx.outcomes := Truncate(tx.outcomes, f);
  }

  function SnapshotAt(c: Coord, own: Option<nat>): Snapshot {
    Snapshot(c.nextTx, c.inFlight, own)
  }

  // ---------------------------------------------------------------- one step

  /** A step keeps soundness and never lowers the watermark. */
  lemma StepSound(c: Coord, s: Step)
    requires Sound(c) && Enabled(c, s)
    ensures Sound(Apply(c, s)) && WatermarkOf(c) <= WatermarkOf(Apply(c, s)) && c.nextTx <= Apply(c, s).nextTx
  {
    var d := Apply(c, s);
    if d.inFlight != {} {
      var m := Smallest(d.inFlight);
      if m in c.inFlight { assert Smallest(c.inFlight) <= m; }
    } else if c.inFlight != {} {
      assert Smallest(c.inFlight) in c.inFlight;
    }
  }

  /** The transactions a snapshot treats as finished: recorded committed, begun before it, not in flight. */
  predicate Sees(o: Outcomes, snap: Snapshot, tx: nat) {
    IsCommitted(o, tx) && tx < snap.nextTx && tx !in snap.inFlight
  }

  /** Visibility depends on the log only through `Sees`. */
  lemma VisibleBySees(o: Outcomes, snap: Snapshot, a: nat, b: nat)
    ensures Visible(o, snap, a, b) <==>
              (snap.ownTx == Some(a) || a == 0 || Sees(o, snap, a)) &&
              (b == 0 || (snap.ownTx != Some(b) && !Sees(o, snap, b)))
  {
  }

  /** The ids a snapshot may look up were settled when it was taken. */
  ghost predicate Settled(c: Coord, snap: Snapshot) {
    Sound(c) && snap.nextTx <= c.nextTx &&
    forall t :: t in c.inFlight && t < snap.nextTx ==> t in snap.inFlight
  }

  lemma StepKeepsSees(c: Coord, s: Step, snap: Snapshot, tx: nat)
    requires Settled(c, snap) && Enabled(c, s) && !s.TruncateLog?
    ensures Settled(Apply(c, s), snap)
    ensures Sees(Apply(c, s).log, snap, tx) <==> Sees(c.log, snap, tx)
  {
    StepSound(c, s);
  }

  // ---------------------------------------------------------------- snapshots over runs

  lemma {:induction false} RunSound(states: seq<Coord>, steps: seq<Step>, i: nat, j: nat)
    requires IsRun(states, steps) && i <= j <= |steps|
    ensures Sound(states[j]) && states[i].nextTx <= states[j].nextTx
    ensures WatermarkOf(states[i]) <= WatermarkOf(states[j])
    decreases j
  {
    if j > 0 {
      RunSound(states, steps, if i < j then i else j - 1, j - 1);
      StepSound(states[j - 1], steps[j - 1]);
    }
  }

  lemma {:induction false} RunKeepsSees(states: seq<Coord>, steps: seq<Step>, i: nat, j: nat, own: Option<nat>, tx: nat)
    requires IsRun(states, steps) && i <= j <= |steps| && NoTruncation(steps, i, j)
    ensures Settled(states[j], SnapshotAt(states[i], own))
    ensures Sees(states[j].log, SnapshotAt(states[i], own), tx) <==> Sees(states[i].log, SnapshotAt(states[i], own), tx)
    decreases j - i
  {
    RunSound(states, steps, i, j);
    if i < j {
      RunKeepsSees(states, steps, i, j - 1, own, tx);
      StepKeepsSees(states[j - 1], steps[j - 1], SnapshotAt(states[i], own), tx);
    }
  }

  /** A snapshot never changes its answer: whatever commits later, `visible` stays as it was when taken. */
  lemma SnapshotStable(states: seq<Coord>, steps: seq<Step>, i: nat, j: nat, own: Option<nat>, txMin: nat, txMax: nat)
    requires IsRun(states, steps) && i <= j <= |steps| && NoTruncation(steps, i, j)
    ensures Visible(states[j].log, SnapshotAt(states[i], own), txMin, txMax)
       <==> Visible(states[i].log, SnapshotAt(states[i], own), txMin, txMax)
  {
    var snap := SnapshotAt(states[i], own);
    RunKeepsSees(states, steps, i, j, own, txMin);
    RunKeepsSees(states, steps, i, j, own, txMax);
    VisibleBySees(states[i].log, snap, txMin, txMax);
    VisibleBySees(states[j].log, snap, txMin, txMax);
  }

  /** At any later moment the foreign rows a snapshot sees are exactly those of transactions that were
      recorded committed and no longer in flight when it was taken. */
  lemma SeesExactly(states: seq<Coord>, steps: seq<Step>, i: nat, j: nat, own: Option<nat>, tx: nat)
    requires IsRun(states, steps) && i <= j <= |steps| && NoTruncation(steps, i, j)
    requires tx != 0 && own != Some(tx)
    ensures Visible(states[j].log, SnapshotAt(states[i], own), tx, 0)
       <==> IsCommitted(states[i].log, tx) && tx !in states[i].inFlight
    ensures Visible(states[j].log, SnapshotAt(states[i], own), 0, tx)
       <==> !(IsCommitted(states[i].log, tx) && tx !in states[i].inFlight)
  {
    var snap := SnapshotAt(states[i], own);
    RunSound(states, steps, 0, i);
    SnapshotStable(states, steps, i, j, own, tx, 0);
    SnapshotStable(states, steps, i, j, own, 0, tx);
    if IsCommitted(states[i].log, tx) && states[i].inFlight != {} {
      assert Smallest(states[i].inFlight) in states[i].inFlight;
    }
  }

  lemma WatermarkMonotone(states: seq<Coord>, steps: seq<Step>, i: nat, j: nat)
    requires IsRun(states, steps) && i <= j <= |steps|
    ensures WatermarkOf(states[i]) <= WatermarkOf(states[j])
  {
    RunSound(states, steps, i, j);
  }

  // ---------------------------------------------------------------- reclaim

  /** The test of `reclaim_dead_rows`: a committed tombstone or a rolled-back insert below `w`. */
  predicate Dead(o: Outcomes, w: nat, txMin: nat, txMax: nat) {
    || (txMax != 0 && txMax < w && IsCommitted(o, txMax))
    || (txMin != 0 && txMin < w && IsRolledBack(o, txMin))
  }

  /** Every id the snapshot could be unsure about is at or above `w`. */
  ghost predicate AtOrAbove(snap: Snapshot, w: nat) {
    && snap.nextTx >= w && (forall t :: t in snap.inFlight ==> t >= w)
    && (snap.ownTx.Some? ==> snap.ownTx.value >= w)
  }

  lemma ReclaimedInvisible(o: Outcomes, snap: Snapshot, w: nat, txMin: nat, txMax: nat)
    requires Dead(o, w, txMin, txMax) && AtOrAbove(snap, w)
    ensures !Visible(o, snap, txMin, txMax)
  {
  }

  /** A snapshot taken at any moment is at or above the watermark of every earlier moment. */
  lemma LaterSnapshotsAtOrAbove(states: seq<Coord>, steps: seq<Step>, i: nat, j: nat, own: Option<nat>)
    requires IsRun(states, steps) && i <= j <= |steps|
    requires own.Some? ==> own.value in states[j].inFlight
    ensures AtOrAbove(SnapshotAt(states[j], own), WatermarkOf(states[i]))
  {
    RunSound(states, steps, i, j);
    var c := states[j];
    if c.inFlight != {} {
      assert IsSmallest(Smallest(c.inFlight), c.inFlight);
    }
  }

  lemma {:induction false} DeadStaysDead(states: seq<Coord>, steps: seq<Step>, i: nat, j: nat, w: nat, a: nat, b: nat)
    requires IsRun(states, steps) && i <= j <= |steps| && Dead(states[i].log, w, a, b)
    requires NoTruncation(steps, i, j) || (b != 0 && b < w && IsCommitted(states[i].log, b))
    ensures Dead(states[j].log, w, a, b)
    ensures b != 0 && b < w && IsCommitted(states[i].log, b) ==> IsCommitted(states[j].log, b)
    decreases j - i
  {
    if i < j { DeadStaysDead(states, steps, i, j - 1, w, a, b); }
  }

  /** A row found dead under some moment's watermark is invisible to every snapshot taken from then on,
      by any reader or in-flight writer, at any later time the snapshot is used. */
  lemma ReclaimedInvisibleForever(states: seq<Coord>, steps: seq<Step>, i: nat, taken: nat, used: nat,
                                  own: Option<nat>, txMin: nat, txMax: nat)
    requires IsRun(states, steps) && i <= taken <= used <= |steps|
    requires Dead(states[i].log, WatermarkOf(states[i]), txMin, txMax)
    requires NoTruncation(steps, i, used) ||
             (txMax != 0 && txMax < WatermarkOf(states[i]) && IsCommitted(states[i].log, txMax))
    requires own.Some? ==> own.value in states[taken].inFlight
    ensures !Visible(states[used].log, SnapshotAt(states[taken], own), txMin, txMax)
  {
    LaterSnapshotsAtOrAbove(states, steps, i, taken, own);
    DeadStaysDead(states, steps, i, used, WatermarkOf(states[i]), txMin, txMax);
    ReclaimedInvisible(states[used].log, SnapshotAt(states[taken], own), WatermarkOf(states[i]), txMin, txMax);
  }

  /** Every committed id below `w`, other than the snapshot's own, is already finished to it. */
  ghost predicate SettledBelow(o: Outcomes, snap: Snapshot, w: nat) {
    forall d: nat :: 0 < d < w && IsCommitted(o, d) && snap.ownTx != Some(d) ==> d < snap.nextTx && d !in snap.inFlight
  }

  /** The snapshot's own transaction is rolled back below `w`. */
  predicate OwnRolledBack(o: Outcomes, snap: Snapshot, w: nat) {
    snap.ownTx.Some? && 0 < snap.ownTx.value < w && IsRolledBack(o, snap.ownTx.value)
  }

  /** Exactly which snapshots, of readers and of writers, reclaiming at `w` is safe for. */
  lemma ReclaimSafeIff(o: Outcomes, snap: Snapshot, w: nat)
    ensures (forall a: nat, b: nat :: Dead(o, w, a, b) ==> !Visible(o, snap, a, b))
       <==> SettledBelow(o, snap, w) && !OwnRolledBack(o, snap, w)
  {
    if forall a: nat, b: nat :: Dead(o, w, a, b) ==> !Visible(o, snap, a, b) {
      forall d: nat | 0 < d < w && IsCommitted(o, d) && snap.ownTx != Some(d) ensures d < snap.nextTx && d !in snap.inFlight {
        assert Dead(o, w, 0, d);
      }
      if OwnRolledBack(o, snap, w) { assert Dead(o, w, snap.ownTx.value, 0); }
    }
  }

  /** The watermark ignores the in-flight sets of older snapshots: a snapshot taken while a deleter runs
      still sees the row that is reclaimable once the deleter has finished. */
  lemma OlderSnapshotLosesRow()
    ensures exists states: seq<Coord>, steps: seq<Step>, i: nat ::
      IsRun(states, steps) && i < |steps| && NoTruncation(steps, 0, |steps|) &&
      Visible(states[|steps|].log, SnapshotAt(states[i], None), 1, 2) &&
      Dead(states[|steps|].log, WatermarkOf(states[|steps|]), 1, 2)
  {
    var log := Outcomes(map[1 := Committed], 0);
    var done := Outcomes(map[1 := Committed, 2 := Committed], 0);
    var steps := [Begin, Publish(2, Committed), Remove(2)];
    var c0, c1, c2, c3 := Coord(2, {}, log), Coord(3, {2}, log), Coord(3, {2}, done), Coord(3, {}, done);
    var states := [c0, c1, c2, c3];
    assert Apply(c0, Begin) == c1;
    assert Apply(c1, Publish(2, Committed)) == c2;
    assert Apply(c2, Remove(2)) == c3;
    assert IsRun(states, steps) && NoTruncation(steps, 0, |steps|);
    assert Visible(done, SnapshotAt(states[1], None), 1, 2) && Dead(done, 3, 1, 2);
  }

  // ---------------------------------------------------------------- truncation

  lemma TruncateStatus(o: Outcomes, f: nat, tx: nat)
    ensures IsCommitted(Truncate(o, f), tx) <==> tx < f || IsCommitted(o, tx)
  {
  }

  /** The rows whose visibility truncating to `f` cannot change. */
  predicate Unaffected(o: Outcomes, f: nat, txMin: nat, txMax: nat) {
    if 0 < txMax < f then IsCommitted(o, txMax) || (0 < txMin < f && !IsCommitted(o, txMin))
    else txMin == 0 || txMin >= f || IsCommitted(o, txMin)
  }

  ghost predicate SameFor(o: Outcomes, f: nat, txMin: nat, txMax: nat, snap: Snapshot) {
    Visible(Truncate(o, f), snap, txMin, txMax) <==> Visible(o, snap, txMin, txMax)
  }

  lemma TruncationUnseen(o: Outcomes, f: nat, txMin: nat, txMax: nat, snap: Snapshot)
    requires Unaffected(o, f, txMin, txMax) && AtOrAbove(snap, f)
    ensures SameFor(o, f, txMin, txMax, snap)
  {
    TruncateStatus(o, f, txMin);
    TruncateStatus(o, f, txMax);
  }

  /** Truncation leaves a row's visibility unchanged for every snapshot at or above the floor exactly
      when the row is `Unaffected`. */
  lemma TruncationInvisibleIff(o: Outcomes, f: nat, txMin: nat, txMax: nat)
    ensures (forall snap :: AtOrAbove(snap, f) ==> SameFor(o, f, txMin, txMax, snap))
       <==> Unaffected(o, f, txMin, txMax)
  {
    if Unaffected(o, f, txMin, txMax) {
      forall snap | AtOrAbove(snap, f) ensures SameFor(o, f, txMin, txMax, snap) {
        TruncationUnseen(o, f, txMin, txMax, snap);
      }
    } else {
      TruncateStatus(o, f, txMin);
      TruncateStatus(o, f, txMax);
      var snap := Snapshot(f + txMin + 1, {}, if 0 < txMax < f && txMin >= f then Some(txMin) else None);
      var plain := Snapshot(f, {}, None);
      assert AtOrAbove(snap, f) && AtOrAbove(plain, f);
      assert !SameFor(o, f, txMin, txMax, snap) || !SameFor(o, f, txMin, txMax, plain);
    }
  }

  /** A row that reclaim at `w` left behind is affected by truncating to `f <= w` exactly when its
      deleter below `f` never committed while its creator counts, or its creator below `f` has no record. */
  lemma SurvivorAffectedIff(o: Outcomes, w: nat, f: nat, txMin: nat, txMax: nat)
    requires f <= w && !Dead(o, w, txMin, txMax)
    ensures !Unaffected(o, f, txMin, txMax) <==>
      if 0 < txMax < f then txMin == 0 || txMin >= f || IsCommitted(o, txMin)
      else 0 < txMin < f && StatusOf(o, txMin).None?
  {
    if 0 < txMin < f && StatusOf(o, txMin).Some? { assert StatusOf(o, txMin).value.Committed? || IsRolledBack(o, txMin); }
  }

  /** Every id below the watermark has an outcome: true until a crash forgets who was in flight. */
  ghost predicate Complete(c: Coord) {
    forall t: nat :: 1 <= t < c.nextTx && t !in c.inFlight ==> StatusOf(c.log, t).Some?
  }

  lemma {:induction false} RunKeepsComplete(states: seq<Coord>, steps: seq<Step>, j: nat)
    requires IsRun(states, steps) && j <= |steps| && Complete(states[0])
    ensures Complete(states[j])
  {
    if j > 0 {
      RunKeepsComplete(states, steps, j - 1);
      var c, d := states[j - 1], states[j];
      forall t: nat | 1 <= t < d.nextTx && t !in d.inFlight ensures StatusOf(d.log, t).Some? {
        assert t in c.inFlight || StatusOf(c.log, t).Some?;
      }
    }
  }

  /** In a run without a crash, the only surviving rows that truncation affects are those whose deleter
      rolled back. */
  lemma AffectedOnlyByRolledBackDelete(states: seq<Coord>, steps: seq<Step>, i: nat, j: nat, txMin: nat, txMax: nat)
    requires IsRun(states, steps) && i <= j <= |steps| && Complete(states[0])
    requires txMin < states[j].nextTx && txMax < states[j].nextTx
    requires !Dead(states[j].log, WatermarkOf(states[j]), txMin, txMax)
    ensures !Unaffected(states[j].log, WatermarkOf(states[i]), txMin, txMax) <==>
              0 < txMax < WatermarkOf(states[i]) && IsRolledBack(states[j].log, txMax) &&
              (0 < txMin < WatermarkOf(states[i]) ==> IsCommitted(states[j].log, txMin))
  {
    var c, f := states[j], WatermarkOf(states[i]);
    WatermarkMonotone(states, steps, i, j);
    RunKeepsComplete(states, steps, j);
    SurvivorAffectedIff(c.log, WatermarkOf(c), f, txMin, txMax);
    BelowWatermarkHasOutcome(c, txMin);
    BelowWatermarkHasOutcome(c, txMax);
  }

  lemma BelowWatermarkHasOutcome(c: Coord, t: nat)
    requires Complete(c) && t < c.nextTx
    ensures 0 < t < WatermarkOf(c) ==> IsCommitted(c.log, t) || IsRolledBack(c.log, t)
  {
    if 0 < t < WatermarkOf(c) {
      if c.inFlight != {} { assert IsSmallest(Smallest(c.inFlight), c.inFlight); }
      var status := StatusOf(c.log, t).value;
      assert status.Committed? || status.RolledBack?;
    }
  }

  /** Truncating to a watermark captured earlier in the run keeps every later reader's view of every
      surviving row whose non-zero ids below the floor are recorded committed. */
  lemma TruncationKeepsCommittedRows(states: seq<Coord>, steps: seq<Step>, i: nat, j: nat, own: Option<nat>,
                                     txMin: nat, txMax: nat)
    requires IsRun(states, steps) && i <= j <= |steps|
    requires own.Some? ==> own.value in states[j].inFlight
    requires 0 < txMin < WatermarkOf(states[i]) ==> IsCommitted(states[j].log, txMin)
    requires 0 < txMax < WatermarkOf(states[i]) ==> IsCommitted(states[j].log, txMax)
    ensures SameFor(states[j].log, WatermarkOf(states[i]), txMin, txMax, SnapshotAt(states[j], own))
    ensures Enabled(states[j], TruncateLog(WatermarkOf(states[i])))
  {
    WatermarkMonotone(states, steps, i, j);
    LaterSnapshotsAtOrAbove(states, steps, i, j, own);
    TruncationUnseen(states[j].log, WatermarkOf(states[i]), txMin, txMax, SnapshotAt(states[j], own));
  }

  /** Two rows reclaim leaves behind whose meaning truncation changes: a delete that was rolled back takes
      effect, and an insert whose transaction never recorded an outcome appears. */
  lemma TruncationChangesSurvivors()
    ensures var o := Outcomes(map[1 := Committed, 2 := RolledBack], 0);
            var reader := Snapshot(4, {}, None);
            !Dead(o, 4, 1, 2) && Visible(o, reader, 1, 2) && !Visible(Truncate(o, 4), reader, 1, 2) &&
            !Dead(o, 4, 3, 0) && !Visible(o, reader, 3, 0) && Visible(Truncate(o, 4), reader, 3, 0)
  {
  }
}
