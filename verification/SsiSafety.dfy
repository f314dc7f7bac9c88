/** The serialisable-isolation flags over whole runs: they record exactly the rw-dependencies
    (engine/transaction.rs), and index range locks catch phantoms. */
module SsiSafety {
  import opened Bytes
  import opened Values
  import opened Expressions
  import opened IndexKeys
  import opened AccessPaths
  import opened IndexScans
  import opened Transactions

  /** `begun` holds every id ever registered; ids are never reused. */
  datatype Book = Book(ssi: SsiMap, begun: set<nat>)

  datatype Step =
    | Register(tx: nat)
    | Read(own: Option<nat>, root: nat, rowid: ByteString, tombstoneBy: Option<nat>)
    | TakeLock(own: Option<nat>, lock: ReadLock)
    | DoWrite(own: Option<nat>, w: Write)
    | Unregister(tx: nat)

  /** A transaction acts only after `begin_write` has returned its id. */
  predicate Enabled(b: Book, s: Step) {
    match s
    case Register(tx) => tx !in b.begun
    case Unregister(tx) => tx in b.ssi
    case _ => s.own.Some? ==> s.own.value in b.begun
  }

  function Apply(b: Book, s: Step): Book {
    match s
    case Register(tx) => Book(b.ssi[tx := SsiTx({}, false, false)], b.begun + {tx})
    case Read(own, root, rowid, tombstoneBy) => b.(ssi := AfterRead(b.ssi, own, root, rowid, tombstoneBy))
    case TakeLock(own, lock) => b.(ssi := AddLock(b.ssi, own, lock))
    case DoWrite(own, w) => b.(ssi := AfterWrite(b.ssi, own, w))
    case Unregister(tx) => b.(ssi := b.ssi - {tx})
  }

  /** The coordinator object's SSI map moves exactly as the steps say. */
  method PerformStep(tx: TxState, s: Step, ghost begun: set<nat>)
    modifies tx
    ensures tx.ssi == Apply(Book(old(tx.ssi), begun), s).ssi
  {
    match s
    case Register(id) => tx.Register(id);
    case Read(own, root, rowid, tombstoneBy) => tx.RecordRead(own, root, rowid, tombstoneBy);
    case TakeLock(own, lock) => tx.RecordLock(own, lock);
    case DoWrite(own, w) => tx.RecordWrite(own, w);
    case Unregister(id) => tx.Unregister(id);
  }

  ghost predicate IsRun(states: seq<Book>, steps: seq<Step>) {
    && |states| == |steps| + 1 && states[0] == Book(map[], {})
    && forall k :: 0 <= k < |steps| ==> Enabled(states[k], steps[k]) && states[k + 1] == Apply(states[k], steps[k])
  }

  // ---------------------------------------------------------------- what locks protect and writes change

  /** What a read may have depended on: a row of a table that was there, a row the table might yet
      receive, or an entry of an index, there or not. */
  datatype Item =
    | PresentRow(root: nat, rowid: ByteString)
    | FutureRow(root: nat)
    | IndexEntry(root: nat, key: ByteString)

  /** A relation lock stands for all rows of the table, the future ones included. */
  predicate Protects(lock: ReadLock, item: Item) {
    match lock
    case Relation(root) => item.root == root && !item.IndexEntry?
    case Tuple(root, rowid) => item == PresentRow(root, rowid)
    case IndexRange(root, lower, upper) =>
      item.IndexEntry? && item.root == root && !Less(item.key, lower) && (upper.None? || Less(item.key, upper.value))
  }

  /** The one item a write makes, removes or replaces. */
  function Changed(w: Write): Item {
    match w
    case TupleWrite(root, rowid) => PresentRow(root, rowid)
    case RowInsert(root) => FutureRow(root)
    case IndexWrite(root, key) => IndexEntry(root, key)
  }

  /** The write changes something the lock protects. */
  predicate Conflicts(lock: ReadLock, w: Write) { Protects(lock, Changed(w)) }

  /** For all three kinds of lock and of write, a peer is found by the lock exactly when the two meet. */
  lemma CoversIffConflicts(lock: ReadLock, w: Write)
    ensures Covers(lock, w) <==> Conflicts(lock, w)
  {
    hide Less;
  }

  // ---------------------------------------------------------------- the dependency graph

  /** The step lets `t` hold `lock`. */
  predicate Locks(s: Step, t: nat, lock: ReadLock) {
    || (s.Read? && s.own == Some(t) && lock == Tuple(s.root, s.rowid))
    || (s.TakeLock? && s.own == Some(t) && lock == s.lock)
  }

  /** Some earlier step of the run took `lock` for `t`. */
  ghost predicate TookLock(steps: seq<Step>, n: nat, t: nat, lock: ReadLock)
    requires n <= |steps|
  {
    exists i :: 0 <= i < n && Locks(steps[i], t, lock)
  }

  /** Step `j` creates the rw-dependency `reader -> writer`: the writer overwrites something the still
      registered reader had locked, or the reader meets a tombstone of the still registered writer. */
  ghost predicate Depends(states: seq<Book>, steps: seq<Step>, j: nat, reader: nat, writer: nat)
    requires j < |steps| && j < |states|
  {
    reader != writer &&
    match steps[j]
    case DoWrite(own, w) => own == Some(writer) && reader in states[j].ssi &&
                            exists lock :: TookLock(steps, j, reader, lock) && Conflicts(lock, w)
    case Read(own, _, _, deleter) => own == Some(reader) && deleter == Some(writer) && writer in states[j].ssi
    case _ => false
  }

  ghost predicate Edge(states: seq<Book>, steps: seq<Step>, n: nat, reader: nat, writer: nat)
    requires n <= |steps| && n <= |states|
  {
    exists j: nat :: j < n && Depends(states, steps, j, reader, writer)
  }

  ghost predicate HasOut(states: seq<Book>, steps: seq<Step>, n: nat, t: nat)
    requires n <= |steps| && n <= |states|
  {
    exists w: nat :: Edge(states, steps, n, t, w)
  }

  ghost predicate HasIn(states: seq<Book>, steps: seq<Step>, n: nat, t: nat)
    requires n <= |steps| && n <= |states|
  {
    exists r: nat :: Edge(states, steps, n, r, t)
  }

  // ---------------------------------------------------------------- read sets

  ghost predicate BookSound(b: Book) { forall t :: t in b.ssi ==> t in b.begun }

  lemma {:induction false} RunBookSound(states: seq<Book>, steps: seq<Step>, n: nat)
    requires IsRun(states, steps) && n <= |steps|
    ensures BookSound(states[n])
  {
    if n > 0 { RunBookSound(states, steps, n - 1); }
  }

  /** Nobody acts, and no dependency involves anybody, before registration. */
  lemma {:induction false} UnbegunIsFresh(states: seq<Book>, steps: seq<Step>, n: nat, t: nat)
    requires IsRun(states, steps) && n <= |steps| && t !in states[n].begun
    ensures forall lock :: !TookLock(steps, n, t, lock)
    ensures !HasOut(states, steps, n, t) && !HasIn(states, steps, n, t)
  {
    if n > 0 {
      UnbegunIsFresh(states, steps, n - 1, t);
      RunBookSound(states, steps, n - 1);
      forall u: nat ensures !Edge(states, steps, n, t, u) && !Edge(states, steps, n, u, t) {
        EdgeStep(states, steps, n - 1, t, u);
        EdgeStep(states, steps, n - 1, u, t);
      }
      forall lock ensures !TookLock(steps, n, t, lock) { LockStep(steps, n - 1, t, lock); }
    }
  }

  lemma LockStep(steps: seq<Step>, n: nat, t: nat, lock: ReadLock)
    requires n < |steps|
    ensures TookLock(steps, n + 1, t, lock) <==> TookLock(steps, n, t, lock) || Locks(steps[n], t, lock)
  {
  }

  lemma EdgeStep(states: seq<Book>, steps: seq<Step>, n: nat, reader: nat, writer: nat)
    requires n < |steps| && n < |states|
    ensures Edge(states, steps, n + 1, reader, writer)
       <==> Edge(states, steps, n, reader, writer) || Depends(states, steps, n, reader, writer)
  {
  }

  /** A registered transaction's read set is exactly the locks its steps took. */
  lemma {:induction false} ReadSetIsHistory(states: seq<Book>, steps: seq<Step>, n: nat, t: nat, lock: ReadLock)
    requires IsRun(states, steps) && n <= |steps| && t in states[n].ssi
    ensures lock in states[n].ssi[t].readSet <==> TookLock(steps, n, t, lock)
  {
    if n > 0 {
      LockStep(steps, n - 1, t, lock);
      if steps[n - 1] == Register(t) {
        UnbegunIsFresh(states, steps, n - 1, t);
      } else {
        assert t in states[n - 1].ssi;
        ReadSetIsHistory(states, steps, n - 1, t, lock);
        ReadSetStep(states[n - 1], steps[n - 1], t, lock);
      }
    }
  }

  lemma ReadSetStep(b: Book, s: Step, t: nat, lock: ReadLock)
    requires Enabled(b, s) && t in b.ssi && t in Apply(b, s).ssi && s != Register(t)
    ensures lock in Apply(b, s).ssi[t].readSet <==> lock in b.ssi[t].readSet || Locks(s, t, lock)
  {
  }

  // ---------------------------------------------------------------- exactness of the flags

  /** What one step adds to the flags of a transaction that stays registered. */
  ghost predicate MarksOut(b: Book, s: Step, t: nat)
    requires t in b.ssi
  {
    || (s.DoWrite? && s.own.Some? && s.own.value != t && ReadsAgainst(b.ssi[t], s.w))
    || (s.Read? && s.own == Some(t) && s.tombstoneBy.Some? && s.tombstoneBy.value != t && s.tombstoneBy.value in b.ssi)
  }

  ghost predicate MarksIn(b: Book, s: Step, t: nat)
    requires t in b.ssi
  {
    || (s.DoWrite? && s.own == Some(t) && Readers(b.ssi, t, s.w) != {})
    || (s.Read? && s.own.Some? && s.own.value != t && s.tombstoneBy == Some(t))
  }

  lemma FlagStep(b: Book, s: Step, t: nat)
    requires Enabled(b, s) && t in b.ssi && t in Apply(b, s).ssi && s != Register(t)
    ensures Apply(b, s).ssi[t].outConflict <==> b.ssi[t].outConflict || MarksOut(b, s, t)
    ensures Apply(b, s).ssi[t].inConflict <==> b.ssi[t].inConflict || MarksIn(b, s, t)
  {
    hide ReadsAgainst;
    if s.DoWrite? && s.own.Some? {
      var readers := Readers(b.ssi, s.own.value, s.w);
      assert t in readers <==> t != s.own.value && ReadsAgainst(b.ssi[t], s.w);
    }
  }

  lemma LocksFindConflicts()
    ensures forall lock, w :: Covers(lock, w) <==> Conflicts(lock, w)
  {
    hide Covers, Conflicts;
    forall lock, w ensures Covers(lock, w) <==> Conflicts(lock, w) { CoversIffConflicts(lock, w); }
  }

  lemma MarksOutIsDependency(states: seq<Book>, steps: seq<Step>, n: nat, t: nat)
    requires IsRun(states, steps) && n < |steps| && t in states[n].ssi
    ensures MarksOut(states[n], steps[n], t) <==> exists w: nat :: Depends(states, steps, n, t, w)
  {
    var s := steps[n];
    forall lock ensures lock in states[n].ssi[t].readSet <==> TookLock(steps, n, t, lock) {
      ReadSetIsHistory(states, steps, n, t, lock);
    }
    LocksFindConflicts();
    hide Covers, Conflicts;
    if MarksOut(states[n], s, t) {
      assert Depends(states, steps, n, t, if s.DoWrite? then s.own.value else s.tombstoneBy.value);
    }
  }

  lemma MarksInIsDependency(states: seq<Book>, steps: seq<Step>, n: nat, t: nat)
    requires IsRun(states, steps) && n < |steps| && t in states[n].ssi
    ensures MarksIn(states[n], steps[n], t) <==> exists r: nat :: Depends(states, steps, n, r, t)
  {
    var s, b := steps[n], states[n];
    forall r, lock | r in b.ssi ensures lock in b.ssi[r].readSet <==> TookLock(steps, n, r, lock) {
      ReadSetIsHistory(states, steps, n, r, lock);
    }
    LocksFindConflicts();
    hide Covers, Conflicts;
    if s.DoWrite? {
      forall r: nat ensures s.own == Some(t) && r in Readers(b.ssi, t, s.w) <==> Depends(states, steps, n, r, t) {}
    } else if MarksIn(b, s, t) {
      assert Depends(states, steps, n, s.own.value, t);
    }
  }

  lemma DegreeStep(states: seq<Book>, steps: seq<Step>, n: nat, t: nat)
    requires n < |steps| && n < |states|
    ensures HasOut(states, steps, n + 1, t)
       <==> HasOut(states, steps, n, t) || exists w: nat :: Depends(states, steps, n, t, w)
    ensures HasIn(states, steps, n + 1, t)
       <==> HasIn(states, steps, n, t) || exists r: nat :: Depends(states, steps, n, r, t)
  {
    forall r: nat, w: nat ensures Edge(states, steps, n + 1, r, w) <==> Edge(states, steps, n, r, w) || Depends(states, steps, n, r, w) {
      EdgeStep(states, steps, n, r, w);
    }
    hide Edge, Depends;
    if HasOut(states, steps, n + 1, t) {
      var w: nat :| Edge(states, steps, n + 1, t, w);
      assert Edge(states, steps, n, t, w) || Depends(states, steps, n, t, w);
    }
    if HasIn(states, steps, n + 1, t) {
      var r: nat :| Edge(states, steps, n + 1, r, t);
      assert Edge(states, steps, n, r, t) || Depends(states, steps, n, r, t);
    }
    if w: nat :| Edge(states, steps, n, t, w) || Depends(states, steps, n, t, w) { assert Edge(states, steps, n + 1, t, w); }
    if r: nat :| Edge(states, steps, n, r, t) || Depends(states, steps, n, r, t) { assert Edge(states, steps, n + 1, r, t); }
  }

  /** In every reachable state a registered transaction's flags say exactly whether it has an outgoing
      and an incoming rw-dependency. */
  lemma {:induction false} FlagsAreExact(states: seq<Book>, steps: seq<Step>, n: nat, t: nat)
    requires IsRun(states, steps) && n <= |steps| && t in states[n].ssi
    ensures states[n].ssi[t].outConflict <==> HasOut(states, steps, n, t)
    ensures states[n].ssi[t].inConflict <==> HasIn(states, steps, n, t)
  {
    if n > 0 {
      var b, s := states[n - 1], steps[n - 1];
      if s == Register(t) {
        FreshAfterRegister(states, steps, n - 1, t);
      } else {
        assert t in b.ssi;
        hide HasOut, HasIn, Depends, MarksOut, MarksIn;
        DegreeStep(states, steps, n - 1, t);
        FlagsAreExact(states, steps, n - 1, t);
        FlagStep(b, s, t);
        MarksOutIsDependency(states, steps, n - 1, t);
        MarksInIsDependency(states, steps, n - 1, t);
      }
    }
  }

  lemma FreshAfterRegister(states: seq<Book>, steps: seq<Step>, n: nat, t: nat)
    requires IsRun(states, steps) && n < |steps| && steps[n] == Register(t)
    ensures !HasOut(states, steps, n + 1, t) && !HasIn(states, steps, n + 1, t)
  {
    DegreeStep(states, steps, n, t);
    UnbegunIsFresh(states, steps, n, t);
  }

  /** The commit check refuses exactly the registered pivots: those with a dependency in and one out. */
  lemma CommitRefusedIffPivot(states: seq<Book>, steps: seq<Step>, n: nat, t: nat)
    requires IsRun(states, steps) && n <= |steps| && t in states[n].ssi
    ensures CommitCheck(states[n].ssi, t).Err? <==> HasOut(states, steps, n, t) && HasIn(states, steps, n, t)
  {
    FlagsAreExact(states, steps, n, t);
  }

  // ---------------------------------------------------------------- write skew

  /** By state `n`, `writer` has written something `reader` had locked before. */
  ghost predicate WroteOver(states: seq<Book>, steps: seq<Step>, n: nat, reader: nat, writer: nat)
    requires n <= |steps| && n <= |states|
  {
    exists i: nat, j: nat, lock :: i < j < n && Locks(steps[i], reader, lock) &&
      steps[j].DoWrite? && steps[j].own == Some(writer) && Conflicts(lock, steps[j].w)
  }

  lemma {:induction false} RegisteredThroughout(states: seq<Book>, steps: seq<Step>, i: nat, j: nat, t: nat)
    requires IsRun(states, steps) && i <= j <= |steps| && t in states[i].begun && t in states[j].ssi
    ensures t in states[i].ssi
    decreases j - i
  {
    if i < j {
      StillRegistered(states, steps, j - 1, t);
      BegunGrows(states, steps, i, j - 1);
      RegisteredThroughout(states, steps, i, j - 1, t);
    }
  }

  lemma StillRegistered(states: seq<Book>, steps: seq<Step>, k: nat, t: nat)
    requires IsRun(states, steps) && k < |steps| && t in states[k + 1].ssi
    ensures t in states[k].begun ==> t in states[k].ssi
  {
  }

  lemma {:induction false} BegunGrows(states: seq<Book>, steps: seq<Step>, i: nat, j: nat)
    requires IsRun(states, steps) && i <= j <= |steps|
    ensures states[i].begun <= states[j].begun
    decreases j - i
  {
    if i < j { BegunGrows(states, steps, i, j - 1); }
  }

  lemma WroteOverIsEdge(states: seq<Book>, steps: seq<Step>, n: nat, reader: nat, writer: nat)
    requires IsRun(states, steps) && n <= |steps| && reader != writer && reader in states[n].ssi
    requires WroteOver(states, steps, n, reader, writer)
    ensures Edge(states, steps, n, reader, writer)
  {
    var i: nat, j: nat, lock :| i < j < n && Locks(steps[i], reader, lock) &&
      steps[j].DoWrite? && steps[j].own == Some(writer) && Conflicts(lock, steps[j].w);
    assert Enabled(states[i], steps[i]) && reader in states[i].begun;
    BegunGrows(states, steps, i, j);
    RegisteredThroughout(states, steps, j, n, reader);
    assert TookLock(steps, j, reader, lock);
    assert Depends(states, steps, j, reader, writer);
  }

  /** Write skew is stopped: when each of two registered transactions has written over something the
      other had read, neither passes its commit check. */
  lemma WriteSkewRefused(states: seq<Book>, steps: seq<Step>, n: nat, a: nat, b: nat)
    requires IsRun(states, steps) && n <= |steps| && a != b && a in states[n].ssi && b in states[n].ssi
    requires WroteOver(states, steps, n, a, b) && WroteOver(states, steps, n, b, a)
    ensures CommitCheck(states[n].ssi, a) == Err(Serialization) && CommitCheck(states[n].ssi, b) == Err(Serialization)
  {
    WroteOverIsEdge(states, steps, n, a, b);
    WroteOverIsEdge(states, steps, n, b, a);
    CommitRefusedIffPivot(states, steps, n, a);
    CommitRefusedIffPivot(states, steps, n, b);
  }

  /** A full scan and a later insert into the same table: the reader depends on the peer that inserts,
      although no lock could name the new row. */
  lemma InsertAfterScanIsEdge(states: seq<Book>, steps: seq<Step>, i: nat, j: nat, n: nat, reader: nat, writer: nat, root: nat)
    requires IsRun(states, steps) && i < j < n <= |steps| && reader != writer && reader in states[n].ssi
    requires steps[i] == TakeLock(Some(reader), Relation(root)) && steps[j] == DoWrite(Some(writer), RowInsert(root))
    ensures WroteOver(states, steps, n, reader, writer) && Edge(states, steps, n, reader, writer)
    ensures states[n].ssi[reader].outConflict && (writer in states[n].ssi ==> states[n].ssi[writer].inConflict)
  {
    assert Locks(steps[i], reader, Relation(root)) && Conflicts(Relation(root), steps[j].w);
    assert WroteOver(states, steps, n, reader, writer);
    WroteOverIsEdge(states, steps, n, reader, writer);
    FlagsAreExact(states, steps, n, reader);
    if writer in states[n].ssi { FlagsAreExact(states, steps, n, writer); }
  }

  /** Two transactions that each scan a table in full and then each insert into it: neither may commit. */
  lemma InsertSkewRefused(states: seq<Book>, steps: seq<Step>, at: (nat, nat, nat, nat), n: nat, a: nat, b: nat, root: nat)
    requires IsRun(states, steps) && n <= |steps| && a != b && a in states[n].ssi && b in states[n].ssi
    requires at.0 < at.3 < n && at.1 < at.2 < n
    requires steps[at.0] == TakeLock(Some(a), Relation(root)) && steps[at.1] == TakeLock(Some(b), Relation(root))
    requires steps[at.2] == DoWrite(Some(a), RowInsert(root)) && steps[at.3] == DoWrite(Some(b), RowInsert(root))
    ensures CommitCheck(states[n].ssi, a) == Err(Serialization) && CommitCheck(states[n].ssi, b) == Err(Serialization)
  {
    InsertAfterScanIsEdge(states, steps, at.0, at.3, n, a, b, root);
    InsertAfterScanIsEdge(states, steps, at.1, at.2, n, b, a, root);
    WriteSkewRefused(states, steps, n, a, b);
  }

  // ---------------------------------------------------------------- phantoms

  /** The range lock of an index scan covers the key of a row the scan's WHERE clause keeps exactly when no
      predicate the plan uses compares -0.0 with 0.0 in it. */
  lemma RangeLockCovers(fpu: Fpu, t: Table, root: nat, columns: seq<nat>, filter: Expr, row: Row, rowid: ByteString)
    requires ColumnsInRange(columns, |t.schema|) && RowHasTypes(row, Types(t.schema))
    requires PlanFor(columns, PredicatesOf(fpu, t.schema, filter)).Some?
    requires PassesFilter(fpu, Some(filter), SingleScope(t.qualifier, t.schema), row) == Ok(true)
    ensures var plan := PlanFor(columns, PredicatesOf(fpu, t.schema, filter)).value;
            Covers(ReadLock.IndexRange(root, plan.lower, plan.upper), IndexWrite(root, IndexKey(row, columns, rowid)))
            <==> NoClash(columns, PredicatesOf(fpu, t.schema, filter), row)
  {
    hide PlanFor, PredicatesOf, PassesFilter, NoClash;
    KeptRowInRange(fpu, t, columns, filter, row, rowid);
  }

  /** A peer that inserts a row satisfying a reader's whole WHERE clause, after the reader opened its index
      scan, leaves the dependency reader -> writer, whatever the scan returned. */
  lemma PhantomMarked(states: seq<Book>, steps: seq<Step>, i: nat, j: nat, n: nat, reader: nat, writer: nat,
                      fpu: Fpu, t: Table, root: nat, columns: seq<nat>, filter: Expr, row: Row, rowid: ByteString)
    requires IsRun(states, steps) && i < j < n <= |steps| && reader != writer && reader in states[n].ssi
    requires ColumnsInRange(columns, |t.schema|) && RowHasTypes(row, Types(t.schema))
    requires PlanFor(columns, PredicatesOf(fpu, t.schema, filter)).Some?
    requires PassesFilter(fpu, Some(filter), SingleScope(t.qualifier, t.schema), row) == Ok(true)
    requires NoClash(columns, PredicatesOf(fpu, t.schema, filter), row)
    requires var plan := PlanFor(columns, PredicatesOf(fpu, t.schema, filter)).value;
             steps[i] == TakeLock(Some(reader), ReadLock.IndexRange(root, plan.lower, plan.upper))
    requires steps[j] == DoWrite(Some(writer), IndexWrite(root, IndexKey(row, columns, rowid)))
    ensures Edge(states, steps, n, reader, writer) && states[n].ssi[reader].outConflict
    ensures writer in states[n].ssi ==> states[n].ssi[writer].inConflict
  {
    hide PlanFor, PredicatesOf, PassesFilter, NoClash;
    RangeLockCovers(fpu, t, root, columns, filter, row, rowid);
    CoversIffConflicts(steps[i].lock, steps[j].w);
    assert Conflicts(steps[i].lock, steps[j].w) && Locks(steps[i], reader, steps[i].lock);
    WroteOverIsEdge(states, steps, n, reader, writer);
    FlagsAreExact(states, steps, n, reader);
    if writer in states[n].ssi { FlagsAreExact(states, steps, n, writer); }
  }

  /** The entry disappears at commit: when the first transaction of a write skew finishes before the
      second writes, both pass their commit checks. */
  lemma SkewAfterCommitPasses()
    ensures exists states: seq<Book>, steps: seq<Step> ::
      IsRun(states, steps) && |steps| == 7 &&
      Locks(steps[2], 1, Relation(7)) && Locks(steps[3], 2, Relation(7)) &&
      steps[4] == DoWrite(Some(1), TupleWrite(7, [0])) && CommitCheck(states[5].ssi, 1).Ok? &&
      steps[5] == Unregister(1) &&
      steps[6] == DoWrite(Some(2), TupleWrite(7, [1])) && CommitCheck(states[7].ssi, 2).Ok?
  {
    var steps := SkewSteps();
    var states := seq(8, k requires 0 <= k < 8 => SkewBook(k));
    forall k | 0 <= k < 7 ensures Enabled(states[k], steps[k]) && states[k + 1] == Apply(states[k], steps[k]) {
      if k < 4 { SkewReads(k); } else { SkewWrites(k); }
    }
    assert IsRun(states, steps);
  }

  function SkewSteps(): seq<Step> {
    [Register(1), Register(2), TakeLock(Some(1), Relation(7)), TakeLock(Some(2), Relation(7)),
     DoWrite(Some(1), TupleWrite(7, [0])), Unregister(1), DoWrite(Some(2), TupleWrite(7, [1]))]
  }

  /** The books along `SkewSteps`. */
  function SkewBook(k: nat): Book {
    var free, locked := SsiTx({}, false, false), SsiTx({Relation(7)}, false, false);
    if k == 0 then Book(map[], {})
    else if k == 1 then Book(map[1 := free], {1})
    else if k == 2 then Book(map[1 := free, 2 := free], {1, 2})
    else if k == 3 then Book(map[1 := locked, 2 := free], {1, 2})
    else if k == 4 then Book(map[1 := locked, 2 := locked], {1, 2})
    else if k == 5 then Book(map[1 := locked.(inConflict := true), 2 := locked.(outConflict := true)], {1, 2})
    else Book(map[2 := locked.(outConflict := true)], {1, 2})
  }

  lemma SkewReads(k: nat)
    requires k < 4
    ensures Enabled(SkewBook(k), SkewSteps()[k]) && Apply(SkewBook(k), SkewSteps()[k]) == SkewBook(k + 1)
  {
    assert {} + {Relation(7)} == {Relation(7)};
  }

  lemma SkewWrites(k: nat)
    requires 4 <= k < 7
    ensures Enabled(SkewBook(k), SkewSteps()[k]) && Apply(SkewBook(k), SkewSteps()[k]) == SkewBook(k + 1)
  {
    var b, s := SkewBook(k), SkewSteps()[k];
    if k == 4 {
      assert Relation(7) in b.ssi[2].readSet && Covers(Relation(7), s.w);
      assert Readers(b.ssi, 1, s.w) == {2};
    } else if k == 6 {
      assert Readers(b.ssi, 2, s.w) == {};
    }
  }
}
