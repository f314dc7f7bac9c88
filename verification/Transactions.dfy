/** The transaction coordinator: ids in flight, snapshots, visibility and the SSI bookkeeping
    (engine/transaction.rs). */
module Transactions {
  import opened Bytes
  import opened CommitLog
  import opened AccessPaths

  // ---------------------------------------------------------------- outcomes and visibility

  /** What the commit log answers: recorded statuses, and the floor below which all ids are committed. */
  datatype Outcomes = Outcomes(statuses: map<nat, Status>, floor: nat)

  function StatusOf(o: Outcomes, tx: nat): Option<Status> { ReadStatus(o.statuses, o.floor, tx) }

  predicate IsCommitted(o: Outcomes, tx: nat) { StatusOf(o, tx) == Some(Committed) }

  predicate IsRolledBack(o: Outcomes, tx: nat) { StatusOf(o, tx) == Some(RolledBack) }

  datatype Snapshot = Snapshot(nextTx: nat, inFlight: set<nat>, ownTx: Option<nat>)

  /** `Snapshot::visible`, branch by branch. */
  predicate Visible(o: Outcomes, snap: Snapshot, txMin: nat, txMax: nat) {
    var created :=
      if snap.ownTx == Some(txMin) then true
      else if txMin == 0 then true
      else if !IsCommitted(o, txMin) then false
      else txMin < snap.nextTx && txMin !in snap.inFlight;
    if !created then false
    else if txMax == 0 then true
    else if snap.ownTx == Some(txMax) then false
    else if !IsCommitted(o, txMax) then true
    else txMax >= snap.nextTx || txMax in snap.inFlight
  }

  // ---------------------------------------------------------------- SSI bookkeeping

  /** A read lock: one tuple, a whole table, or a half-open key range of an index. */
  datatype ReadLock =
    | Tuple(root: nat, rowid: ByteString)
    | Relation(root: nat)
    | IndexRange(root: nat, lower: ByteString, upper: Option<ByteString>)

  datatype SsiTx = SsiTx(readSet: set<ReadLock>, outConflict: bool, inConflict: bool)

  type SsiMap = map<nat, SsiTx>

  /** What a write touches, as far as read locks are concerned. */
  datatype Write =
    | TupleWrite(root: nat, rowid: ByteString)
    | RowInsert(root: nat)
    | IndexWrite(root: nat, key: ByteString)

  predicate Covers(lock: ReadLock, w: Write) {
    match w
    case TupleWrite(root, rowid) => lock == Tuple(root, rowid) || lock == Relation(root)
    case RowInsert(root) => lock == Relation(root)
    case IndexWrite(root, key) => lock.IndexRange? && lock.root == root && InRange(key, lock.lower, lock.upper)
  }

  predicate ReadsAgainst(tx: SsiTx, w: Write) {
    exists lock :: lock in tx.readSet && Covers(lock, w)
  }

  /** The registered peers whose read locks the write touches. */
  function Readers(ssi: SsiMap, writer: nat, w: Write): set<nat> {
    set t | t in ssi && t != writer && ReadsAgainst(ssi[t], w)
  }

  function SetOut(ssi: SsiMap, t: nat): SsiMap {
    if t in ssi then ssi[t := ssi[t].(outConflict := true)] else ssi
  }

  function SetIn(ssi: SsiMap, t: nat): SsiMap {
    if t in ssi then ssi[t := ssi[t].(inConflict := true)] else ssi
  }

  function AddLock(ssi: SsiMap, own: Option<nat>, lock: ReadLock): SsiMap {
    if own.Some? && own.value in ssi
    then ssi[own.value := ssi[own.value].(readSet := ssi[own.value].readSet + {lock})]
    else ssi
  }

  /** `record_read`: lock the tuple, and mark own -> peer when a registered peer is deleting it. */
  function AfterRead(ssi: SsiMap, own: Option<nat>, root: nat, rowid: ByteString, tombstoneBy: Option<nat>): SsiMap {
    var locked := AddLock(ssi, own, Tuple(root, rowid));
    if own.Some? && tombstoneBy.Some? && tombstoneBy.value != own.value && tombstoneBy.value in ssi
    then SetIn(SetOut(locked, own.value), tombstoneBy.value)
    else locked
  }

  /** `record_write`, `record_insert` and `record_index_write`: mark peer -> own for every reader. */
  function AfterWrite(ssi: SsiMap, own: Option<nat>, w: Write): SsiMap {
    if own.None? then ssi
    else
      var readers := Readers(ssi, own.value, w);
      if readers == {} then ssi
      else map t | t in ssi :: Marked(ssi[t], t == own.value, t in readers)
  }

  function Marked(tx: SsiTx, isWriter: bool, isReader: bool): SsiTx {
    if isWriter then tx.(inConflict := true) else if isReader then tx.(outConflict := true) else tx
  }

  /** The commit-time check: a registered transaction with both flags set is refused. */
  function CommitCheck(ssi: SsiMap, tx: nat): Result<()> {
    if tx in ssi && ssi[tx].inConflict && ssi[tx].outConflict then Err(Serialization) else Ok(())
  }

  // ---------------------------------------------------------------- the coordinator

  ghost predicate IsSmallest(m: nat, s: set<nat>) {
    m in s && forall x :: x in s ==> m <= x
  }

  ghost function Smallest(s: set<nat>): (m: nat)
    requires s != {}
    ensures IsSmallest(m, s)
  {
    SmallestExists(s);
    var m :| IsSmallest(m, s);
    m
  }

  lemma {:induction false} SmallestExists(s: set<nat>)
    requires s != {}
    ensures exists m :: IsSmallest(m, s)
    decreases |s|
  {
    var y :| y in s;
    if IsSmallest(y, s) {
    } else {
      var rest := s - {y};
      var z :| z in s && z < y;
      assert z in rest;
      SmallestExists(rest);
      var m :| IsSmallest(m, rest);
      forall x | x in s ensures m <= x { if x != y { assert x in rest; } }
      assert IsSmallest(m, s);
    }
  }

  /** The reclaim watermark: the oldest id in flight, or the next id when none is. */
  ghost function Watermark(nextTx: nat, inFlight: set<nat>): nat {
    if inFlight == {} then nextTx else Smallest(inFlight)
  }

  class TxState {
    var nextTxId: nat
    var inFlight: set<nat>
    var outcomes: Outcomes
    var ssi: SsiMap

    /** A coordinator over an opened log; ids start at 1. */
    constructor (persistedNextTx: nat, recorded: Outcomes)
      ensures nextTxId == (if persistedNextTx > 1 then persistedNextTx else 1)
      ensures inFlight == {} && ssi == map[] && outcomes == recorded
    {
      nextTxId := if persistedNextTx > 1 then persistedNextTx else 1;
      inFlight, ssi, outcomes := {}, map[], recorded;
    }

    method TakeSnapshot(own: Option<nat>) returns (snap: Snapshot)
      ensures snap == Snapshot(nextTxId, inFlight, own)
    {
      snap := Snapshot(nextTxId, inFlight, own);
    }

    /** The first section of `begin_write`: take the next id and mark it in flight. */
    method ReserveId() returns (id: nat)
      modifies `nextTxId, `inFlight
      ensures id == old(nextTxId) && nextTxId == old(nextTxId) + 1 && inFlight == old(inFlight) + {id}
    {
      id := nextTxId;
      nextTxId := nextTxId + 1;
      inFlight := inFlight + {id};
    }

    /** The second section of `begin_write`: open an empty SSI slot. */
    method Register(id: nat)
      modifies `ssi
      ensures ssi == old(ssi)[id := SsiTx({}, false, false)]
    {
      ssi := ssi[id := SsiTx({}, false, false)];
    }

    method BeginWrite() returns (id: nat)
      modifies this
      ensures id == old(nextTxId) && nextTxId == old(nextTxId) + 1 && inFlight == old(inFlight) + {id}
      ensures ssi == old(ssi)[id := SsiTx({}, false, false)] && outcomes == old(outcomes)
    {
      id := ReserveId();
      Register(id);
    }

    /** The first section of `commit_write` and `rollback_write`: the outcome becomes readable. */
    method Publish(tx: nat, status: Status)
      modifies `outcomes
      ensures outcomes == old(outcomes).(statuses := old(outcomes.statuses)[tx := status])
    {
      outcomes := outcomes.(statuses := outcomes.statuses[tx := status]);
    }

    /** The second section: leave the in-flight set. */
    method LeaveInFlight(tx: nat)
      modifies `inFlight
      ensures inFlight == old(inFlight) - {tx}
    {
      inFlight := inFlight - {tx};
    }

    /** The third section: drop the SSI slot. */
    method Unregister(tx: nat)
      modifies `ssi
      ensures ssi == old(ssi) - {tx}
    {
      ssi := ssi - {tx};
    }

    /** `commit_write` and `rollback_write` as a whole. */
    method FinishWrite(tx: nat, status: Status)
      modifies this
      ensures outcomes == old(outcomes).(statuses := old(outcomes.statuses)[tx := status])
      ensures inFlight == old(inFlight) - {tx} && ssi == old(ssi) - {tx} && nextTxId == old(nextTxId)
    {
      Publish(tx, status);
      LeaveInFlight(tx);
      Unregister(tx);
    }

    method RecordRead(own: Option<nat>, root: nat, rowid: ByteString, tombstoneBy: Option<nat>)
      modifies `ssi
      ensures ssi == AfterRead(old(ssi), own, root, rowid, tombstoneBy)
    {
      if own.None? { return; }
      var tx := own.value;
      if tx in ssi { ssi := ssi[tx := ssi[tx].(readSet := ssi[tx].readSet + {Tuple(root, rowid)})]; }
      if tombstoneBy.Some? {
        var peer := tombstoneBy.value;
        if peer != tx && peer in ssi {
          if tx in ssi { ssi := ssi[tx := ssi[tx].(outConflict := true)]; }
          ssi := ssi[peer := ssi[peer].(inConflict := true)];
        }
      }
    }

    method RecordLock(own: Option<nat>, lock: ReadLock)
      modifies `ssi
      ensures ssi == AddLock(old(ssi), own, lock)
    {
      if own.None? { return; }
      if own.value in ssi { ssi := ssi[own.value := ssi[own.value].(readSet := ssi[own.value].readSet + {lock})]; }
    }

    method RecordWrite(own: Option<nat>, w: Write)
      modifies `ssi
      ensures ssi == AfterWrite(old(ssi), own, w)
    {
      if own.None? { return; }
      hide ReadsAgainst, AddLock, AfterRead;
      var writer := own.value;
      var readers := Readers(ssi, writer, w);
      if readers == {} { return; }
      if writer in ssi { ssi := ssi[writer := ssi[writer].(inConflict := true)]; }
      MarkReaders(readers);
    }

    /** The second half of a write: every reader found gets its outgoing flag. */
    method MarkReaders(readers: set<nat>)
      requires readers <= ssi.Keys
      modifies `ssi
      ensures ssi == map t | t in old(ssi) :: if t in readers then old(ssi)[t].(outConflict := true) else old(ssi)[t]
    {
      var todo := readers;
      while todo != {}
        invariant todo <= readers && ssi.Keys == old(ssi).Keys
        invariant forall t :: t in ssi ==>
          ssi[t] == if t in readers && t !in todo then old(ssi)[t].(outConflict := true) else old(ssi)[t]
        decreases todo
      {
        var peer :| peer in todo;
        todo := todo - {peer};
        ssi := ssi[peer := ssi[peer].(outConflict := true)];
      }
    }

    method SsiCheckCommit(tx: nat) returns (r: Result<()>)
      ensures r == CommitCheck(ssi, tx)
    {
      if tx in ssi {
        if ssi[tx].inConflict && ssi[tx].outConflict { return Err(Serialization); }
      }
      r := Ok(());
    }

    method OldestActiveTxId() returns (w: nat)
      ensures w == Watermark(nextTxId, inFlight)
    {
      if inFlight == {} { return nextTxId; }
      var todo := inFlight;
      var least :| least in todo;
      todo := todo - {least};
      while todo != {}
        invariant least in inFlight && todo <= inFlight
        invariant forall x :: x in inFlight && x !in todo ==> least <= x
        decreases todo
      {
        var x :| x in todo;
        todo := todo - {x};
        if x < least { least := x; }
      }
      w := least;
    }
  }
}
