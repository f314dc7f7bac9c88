/** Online CREATE INDEX: three build phases interleaved with writers and the reclaimer under the
    per-table lock (engine/database.rs, engine/executor.rs, prehnited/src/lib.rs). */
module OnlineIndex {
  import opened Bytes
  import opened Values
  import opened IndexKeys
  import opened AccessPaths
  import opened IndexScans
  import opened Transactions
  import opened TransactionSafety

  /** An index as the catalog lists it, with the keys in its tree. */
  datatype Entry = Entry(columns: seq<nat>, building: bool, keys: set<ByteString>)

  type Rows = map<ByteString, StoredRow>

  type Catalog = map<nat, Entry>

  /** What a thread is doing. `Writing` and `Populating` hold the table lock shared; `schema` is the
      index list the writer loaded after taking it, `todo` the index entries its rows still lack. */
  datatype Pc =
    | Idle
    | Writing(schema: map<nat, seq<nat>>, todo: set<(nat, ByteString)>)
    | Created(root: nat)
    | Populating(root: nat, scan: map<ByteString, Row>)
    | Populated(root: nat)

  datatype State = State(width: nat, rows: Rows, catalog: Catalog, pcs: map<nat, Pc>)

  predicate HoldsShared(pc: Pc) { pc.Writing? || pc.Populating? }

  /** The exclusive lock is free to take: nobody holds it shared. */
  ghost predicate Unlocked(s: State) { forall t :: t in s.pcs ==> !HoldsShared(s.pcs[t]) }

  predicate Owns(pc: Pc, root: nat) { (pc.Created? || pc.Populating? || pc.Populated?) && pc.root == root }

  function IndexList(c: Catalog): map<nat, seq<nat>> { map r | r in c :: c[r].columns }

  /** The key a row has in an index over `columns`. */
  function KeyFor(row: Row, columns: seq<nat>, id: ByteString): ByteString {
    if ColumnsInRange(columns, |row|) then IndexKey(row, columns, id) else []
  }

  datatype Step =
    | BeginWrite(t: nat)
    | PutRow(t: nat, id: ByteString, row: StoredRow)
    | Tombstone(t: nat, id: ByteString, tx: u64)
    | PutKey(t: nat, root: nat, id: ByteString)
    | EndWrite(t: nat)
    | Create(t: nat, root: nat, columns: seq<nat>)
    | Scan(t: nat)
    | PopulateOne(t: nat, id: ByteString)
    | EndPopulate(t: nat)
    | Finalize(t: nat)
    | Reclaim(dead: set<ByteString>)

  predicate At(s: State, t: nat, pc: Pc) { t in s.pcs && s.pcs[t] == pc }

  /** New rows get rowids never used before; exclusive phases need the lock free. */
  ghost predicate Enabled(s: State, step: Step) {
    match step
    case BeginWrite(t) => At(s, t, Idle)
    case PutRow(t, id, row) => t in s.pcs && s.pcs[t].Writing? && id !in s.rows && |id| == 8 && |row.values| == s.width
    case Tombstone(t, id, _) => t in s.pcs && s.pcs[t].Writing? && id in s.rows
    case PutKey(t, root, id) => t in s.pcs && s.pcs[t].Writing? && (root, id) in s.pcs[t].todo &&
                                root in s.pcs[t].schema && id in s.rows && root in s.catalog
    case EndWrite(t) => t in s.pcs && s.pcs[t].Writing? && s.pcs[t].todo == {}
    case Create(t, root, columns) => At(s, t, Idle) && Unlocked(s) && root !in s.catalog && ColumnsInRange(columns, s.width)
    case Scan(t) => t in s.pcs && s.pcs[t].Created?
    case PopulateOne(t, id) => t in s.pcs && s.pcs[t].Populating? && id in s.pcs[t].scan && s.pcs[t].root in s.catalog
    case EndPopulate(t) => t in s.pcs && s.pcs[t].Populating? && s.pcs[t].scan == map[]
    case Finalize(t) => t in s.pcs && s.pcs[t].Populated? && Unlocked(s) && s.pcs[t].root in s.catalog
    case Reclaim(_) => Unlocked(s)
  }

  function AddKey(c: Catalog, root: nat, key: ByteString): Catalog
    requires root in c
  {
    c[root := c[root].(keys := c[root].keys + {key})]
  }

  /** The index entries a new row needs, for the indexes the writer knows. */
  function Needed(schema: map<nat, seq<nat>>, id: ByteString): set<(nat, ByteString)> {
    set r | r in schema :: (r, id)
  }

  /** The keys of the given rows in an index over `columns`. */
  function KeysOf(rows: Rows, columns: seq<nat>, ids: set<ByteString>): set<ByteString> {
    set id | id in ids && id in rows :: KeyFor(rows[id].values, columns, id)
  }

  /** Reclaim: drop the rows, and their keys from every index of the catalog. */
  function WithoutRows(rows: Rows, c: Catalog, dead: set<ByteString>): Catalog {
    map r | r in c :: c[r].(keys := c[r].keys - KeysOf(rows, c[r].columns, dead))
  }

  function Images(rows: Rows): map<ByteString, Row> { map id | id in rows :: rows[id].values }

  function Apply(s: State, step: Step): State
    requires Enabled(s, step)
  {
    match step
    case BeginWrite(t) => s.(pcs := s.pcs[t := Writing(IndexList(s.catalog), {})])
    case PutRow(t, id, row) =>
      s.(rows := s.rows[id := row], pcs := s.pcs[t := s.pcs[t].(todo := s.pcs[t].todo + Needed(s.pcs[t].schema, id))])
    case Tombstone(t, id, tx) => s.(rows := s.rows[id := s.rows[id].(txMax := tx)])
    case PutKey(t, root, id) =>
      s.(catalog := AddKey(s.catalog, root, KeyFor(s.rows[id].values, s.pcs[t].schema[root], id)),
         pcs := s.pcs[t := s.pcs[t].(todo := s.pcs[t].todo - {(root, id)})])
    case EndWrite(t) => s.(pcs := s.pcs[t := Idle])
    case Create(t, root, columns) =>
      s.(catalog := s.catalog[root := Entry(columns, true, {})], pcs := s.pcs[t := Created(root)])
    case Scan(t) => s.(pcs := s.pcs[t := Populating(s.pcs[t].root, Images(s.rows))])
    case PopulateOne(t, id) =>
      var root := s.pcs[t].root;
      s.(catalog := AddKey(s.catalog, root, KeyFor(s.pcs[t].scan[id], s.catalog[root].columns, id)),
         pcs := s.pcs[t := s.pcs[t].(scan := s.pcs[t].scan - {id})])
    case EndPopulate(t) => s.(pcs := s.pcs[t := Populated(s.pcs[t].root)])
    case Finalize(t) =>
      s.(catalog := s.catalog[s.pcs[t].root := s.catalog[s.pcs[t].root].(building := false)], pcs := s.pcs[t := Idle])
    case Reclaim(dead) => s.(rows := s.rows - dead, catalog := WithoutRows(s.rows, s.catalog, dead))
  }

  ghost predicate IsRun(states: seq<State>, steps: seq<Step>) {
    && |states| == |steps| + 1 && Inv(states[0])
    && forall k :: 0 <= k < |steps| ==> Enabled(states[k], steps[k]) && states[k + 1] == Apply(states[k], steps[k])
  }

  // ---------------------------------------------------------------- the invariant

  ghost predicate HasKey(s: State, root: nat, id: ByteString)
    requires root in s.catalog && id in s.rows
  {
    KeyFor(s.rows[id].values, s.catalog[root].columns, id) in s.catalog[root].keys
  }

  /** A running writer still owes the entry. */
  ghost predicate Owed(s: State, root: nat, id: ByteString) {
    exists t :: t in s.pcs && s.pcs[t].Writing? && (root, id) in s.pcs[t].todo
  }

  /** The index's builder has yet to scan the row. */
  ghost predicate Unscanned(s: State, root: nat, id: ByteString) {
    exists t :: t in s.pcs && Owns(s.pcs[t], root) && WillScan(s.pcs[t], id)
  }

  predicate WillScan(pc: Pc, id: ByteString) { pc.Created? || (pc.Populating? && id in pc.scan) }

  ghost predicate RowsFit(s: State) {
    forall id :: id in s.rows ==> |id| == 8 && |s.rows[id].values| == s.width
  }

  ghost predicate ColumnsFit(s: State) {
    forall r :: r in s.catalog ==> ColumnsInRange(s.catalog[r].columns, s.width)
  }

  /** `key` is the key of some row in the index `root`. */
  ghost predicate IsImage(s: State, root: nat, key: ByteString)
    requires root in s.catalog
  {
    exists id :: id in s.rows && key == KeyFor(s.rows[id].values, s.catalog[root].columns, id)
  }

  /** No index entry points at a row that is not there. */
  ghost predicate NoDangling(s: State) {
    forall r, key :: r in s.catalog && key in s.catalog[r].keys ==> IsImage(s, r, key)
  }

  /** Every row is indexed, or somebody is about to index it. */
  ghost predicate NoneLost(s: State) {
    forall r, id :: r in s.catalog && id in s.rows ==> HasKey(s, r, id) || Owed(s, r, id) || Unscanned(s, r, id)
  }

  ghost predicate PcOk(s: State, pc: Pc) {
    match pc
    case Idle => true
    case Writing(schema, todo) =>
      schema == IndexList(s.catalog) && forall p :: p in todo ==> p.0 in s.catalog && p.1 in s.rows
    case Populating(root, scan) =>
      root in s.catalog && s.catalog[root].building && forall id :: id in scan ==> id in s.rows && scan[id] == s.rows[id].values
    case _ => pc.root in s.catalog && s.catalog[pc.root].building
  }

  ghost predicate PcsOk(s: State) { forall t :: t in s.pcs ==> PcOk(s, s.pcs[t]) }

  /** An index under construction has one builder. */
  ghost predicate OneBuilder(s: State) {
    forall t, u, r :: t in s.pcs && u in s.pcs && Owns(s.pcs[t], r) && Owns(s.pcs[u], r) ==> t == u
  }

  ghost predicate Inv(s: State) {
    RowsFit(s) && ColumnsFit(s) && PcsOk(s) && OneBuilder(s) && NoDangling(s) && NoneLost(s)
  }

  // ---------------------------------------------------------------- every step keeps it

  lemma KeyDeterminesRow(s: State, root: nat, a: ByteString, b: ByteString)
    requires RowsFit(s) && ColumnsFit(s) && root in s.catalog && a in s.rows && b in s.rows
    requires KeyFor(s.rows[a].values, s.catalog[root].columns, a) == KeyFor(s.rows[b].values, s.catalog[root].columns, b)
    ensures a == b
  {
    assert ColumnsInRange(s.catalog[root].columns, s.width);
    IndexKeyDeterminesRowid(s.rows[a].values, s.rows[b].values, s.catalog[root].columns, a, b);
  }

  /** Threads whose claims are untouched keep owing and keep scanning. */
  lemma ClaimsKept(s: State, d: State, t: nat)
    requires forall u :: u in s.pcs && u != t ==> u in d.pcs && d.pcs[u] == s.pcs[u]
    ensures forall r: nat, id :: Owed(s, r, id) ==> Owed(d, r, id) || (t in s.pcs && s.pcs[t].Writing? && (r, id) in s.pcs[t].todo)
    ensures forall r: nat, id :: Unscanned(s, r, id) ==> Unscanned(d, r, id) || (t in s.pcs && Owns(s.pcs[t], r) && WillScan(s.pcs[t], id))
  {
  }

  /** Threads that own no index before or after a step cannot break `OneBuilder`. */
  lemma OneBuilderKept(s: State, d: State, t: nat)
    requires OneBuilder(s) && d.pcs.Keys == s.pcs.Keys && t in s.pcs
    requires forall u :: u in s.pcs && u != t ==> d.pcs[u] == s.pcs[u]
    requires forall r :: Owns(d.pcs[t], r) ==> Owns(s.pcs[t], r)
    ensures OneBuilder(d)
  {
    forall a, b, r | a in d.pcs && b in d.pcs && Owns(d.pcs[a], r) && Owns(d.pcs[b], r) ensures a == b {
      assert Owns(s.pcs[a], r) && Owns(s.pcs[b], r);
    }
  }

  lemma WriterStepKeepsInv(s: State, step: Step)
    requires Inv(s) && Enabled(s, step) && (step.BeginWrite? || step.EndWrite? || step.Tombstone?)
    ensures Inv(Apply(s, step))
  {
    hide KeyFor;
    var d, t := Apply(s, step), step.t;
    ClaimsKept(s, d, t);
    OneBuilderKept(s, d, t);
    hide Owed, Unscanned, OneBuilder;
    NoDanglingGrows(s, d);
    hide NoDangling;
    forall u | u in d.pcs ensures PcOk(d, d.pcs[u]) { assert PcOk(s, s.pcs[u]); }
    hide PcOk;
    forall r, id | r in d.catalog && id in d.rows ensures HasKey(d, r, id) || Owed(d, r, id) || Unscanned(d, r, id) {
      assert HasKey(s, r, id) || Owed(s, r, id) || Unscanned(s, r, id);
    }
  }

  lemma PutRowKeepsInv(s: State, step: Step)
    requires Inv(s) && Enabled(s, step) && step.PutRow?
    ensures Inv(Apply(s, step))
  {
    hide KeyFor;
    var d, t := Apply(s, step), step.t;
    ClaimsKept(s, d, t);
    assert PcsOk(d) && OneBuilder(d) by { PutRowPcs(s, step); }
    forall r, id | r in d.catalog && id in d.rows ensures HasKey(d, r, id) || Owed(d, r, id) || Unscanned(d, r, id) {
      if id == step.id {
        assert PcOk(s, s.pcs[t]) && r in s.pcs[t].schema;
        assert (r, id) in d.pcs[t].todo;
        assert Owed(d, r, id);
      } else {
        assert HasKey(s, r, id) || Owed(s, r, id) || Unscanned(s, r, id);
        assert s.pcs[t].Writing? && d.pcs[t].Writing? && s.pcs[t].todo <= d.pcs[t].todo;
      }
    }
    NoDanglingGrows(s, d);
  }

  lemma PutRowPcs(s: State, step: Step)
    requires Inv(s) && Enabled(s, step) && step.PutRow?
    ensures PcsOk(Apply(s, step)) && OneBuilder(Apply(s, step))
  {
    var d, t := Apply(s, step), step.t;
    forall u | u in d.pcs ensures PcOk(d, d.pcs[u]) {
      assert PcOk(s, s.pcs[u]);
      assert PcOk(s, s.pcs[t]);
    }
    forall a, b, r | a in d.pcs && b in d.pcs && Owns(d.pcs[a], r) && Owns(d.pcs[b], r) ensures a == b {
      assert Owns(s.pcs[a], r) && Owns(s.pcs[b], r);
    }
  }

  lemma NoDanglingGrows(s: State, d: State)
    requires NoDangling(s) && d.catalog == s.catalog
    requires forall id :: id in s.rows ==> id in d.rows && d.rows[id].values == s.rows[id].values
    ensures NoDangling(d)
  {
    hide KeyFor;
    forall r, key | r in d.catalog && key in d.catalog[r].keys ensures IsImage(d, r, key) {
      assert IsImage(s, r, key);
      var id :| id in s.rows && key == KeyFor(s.rows[id].values, s.catalog[r].columns, id);
      assert id in d.rows && d.rows[id].values == s.rows[id].values;
    }
  }

  /** Adding the key of a row that is there, and clearing that one claim. */
  lemma AddKeyKeepsInv(s: State, d: State, t: nat, root: nat, id: ByteString)
    requires Inv(s) && root in s.catalog && id in s.rows && t in s.pcs && HoldsShared(s.pcs[t])
    requires d.width == s.width && d.rows == s.rows
    requires d.catalog == AddKey(s.catalog, root, KeyFor(s.rows[id].values, s.catalog[root].columns, id))
    requires d.pcs.Keys == s.pcs.Keys && forall u :: u in s.pcs && u != t ==> d.pcs[u] == s.pcs[u]
    requires match s.pcs[t]
             case Writing(schema, todo) => d.pcs[t] == Writing(schema, todo - {(root, id)})
             case Populating(r, scan) => r == root && d.pcs[t] == Populating(root, scan - {id})
             case _ => false
    ensures Inv(d)
  {
    hide KeyFor;
    OneBuilderKept(s, d, t);
    AddKeyImages(s, d, root, id);
    hide OneBuilder, NoDangling, Owed, Unscanned;
    assert IndexList(d.catalog) == IndexList(s.catalog);
    forall u | u in d.pcs ensures PcOk(d, d.pcs[u]) { assert PcOk(s, s.pcs[u]); }
    hide PcOk;
    forall r, i | r in d.catalog && i in d.rows ensures HasKey(d, r, i) || Owed(d, r, i) || Unscanned(d, r, i) {
      assert HasKey(s, r, i) || Owed(s, r, i) || Unscanned(s, r, i);
      if r == root && i == id { assert HasKey(d, r, i); }
      else { StillClaimed(s, d, t, root, id, r, i); }
    }
  }

  lemma StillClaimed(s: State, d: State, t: nat, root: nat, id: ByteString, r: nat, i: ByteString)
    requires (r, i) != (root, id) && t in s.pcs && d.pcs.Keys == s.pcs.Keys
    requires forall u :: u in s.pcs && u != t ==> d.pcs[u] == s.pcs[u]
    requires match s.pcs[t]
             case Writing(schema, todo) => d.pcs[t] == Writing(schema, todo - {(root, id)})
             case Populating(x, scan) => x == root && d.pcs[t] == Populating(root, scan - {id})
             case _ => false
    ensures Owed(s, r, i) ==> Owed(d, r, i)
    ensures Unscanned(s, r, i) ==> Unscanned(d, r, i)
  {
    if Owed(s, r, i) {
      var u :| u in s.pcs && s.pcs[u].Writing? && (r, i) in s.pcs[u].todo;
      assert d.pcs[u].Writing? && (r, i) in d.pcs[u].todo;
    }
    if Unscanned(s, r, i) {
      var u :| u in s.pcs && Owns(s.pcs[u], r) && WillScan(s.pcs[u], i);
      assert Owns(d.pcs[u], r) && WillScan(d.pcs[u], i);
    }
  }

  lemma AddKeyImages(s: State, d: State, root: nat, id: ByteString)
    requires NoDangling(s) && root in s.catalog && id in s.rows && d.rows == s.rows
    requires d.catalog == AddKey(s.catalog, root, KeyFor(s.rows[id].values, s.catalog[root].columns, id))
    ensures NoDangling(d)
  {
    hide KeyFor;
    forall r, key | r in d.catalog && key in d.catalog[r].keys ensures IsImage(d, r, key) {
      if key in s.catalog[r].keys {
        assert IsImage(s, r, key);
        var i :| i in s.rows && key == KeyFor(s.rows[i].values, s.catalog[r].columns, i);
        assert i in d.rows;
      } else {
        assert r == root && key == KeyFor(d.rows[id].values, d.catalog[root].columns, id);
      }
    }
  }

  lemma KeyStepKeepsInv(s: State, step: Step)
    requires Inv(s) && Enabled(s, step) && (step.PutKey? || step.PopulateOne?)
    ensures Inv(Apply(s, step))
  {
    hide KeyFor, NoDangling, NoneLost, OneBuilder, RowsFit, ColumnsFit;
    var t := step.t;
    assert PcOk(s, s.pcs[t]);
    AddKeyKeepsInv(s, Apply(s, step), t, if step.PutKey? then step.root else s.pcs[t].root, step.id);
  }

  /** Steps of a builder that touch no key. */
  lemma BuilderStepKeepsInv(s: State, step: Step)
    requires Inv(s) && Enabled(s, step) && (step.Scan? || step.EndPopulate?)
    ensures Inv(Apply(s, step))
  {
    hide KeyFor;
    var d, t := Apply(s, step), step.t;
    assert PcOk(s, s.pcs[t]);
    ClaimsKept(s, d, t);
    forall u | u in d.pcs ensures PcOk(d, d.pcs[u]) { assert PcOk(s, s.pcs[u]); }
    forall a, b, r | a in d.pcs && b in d.pcs && Owns(d.pcs[a], r) && Owns(d.pcs[b], r) ensures a == b {
      assert Owns(s.pcs[a], r) && Owns(s.pcs[b], r);
    }
    NoDanglingGrows(s, d);
    forall r, id | r in d.catalog && id in d.rows ensures HasKey(d, r, id) || Owed(d, r, id) || Unscanned(d, r, id) {
      assert HasKey(s, r, id) || Owed(s, r, id) || Unscanned(s, r, id);
      if Owns(s.pcs[t], r) && WillScan(s.pcs[t], id) && step.Scan? {
        assert Owns(d.pcs[t], r) && WillScan(d.pcs[t], id);
      }
    }
  }

  lemma CreateKeepsInv(s: State, step: Step)
    requires Inv(s) && Enabled(s, step) && step.Create?
    ensures Inv(Apply(s, step))
  {
    hide KeyFor;
    var d, t := Apply(s, step), step.t;
    ClaimsKept(s, d, t);
    forall u | u in d.pcs ensures PcOk(d, d.pcs[u]) {
      assert PcOk(s, s.pcs[u]) && !HoldsShared(s.pcs[u]);
    }
    forall a, b, r | a in d.pcs && b in d.pcs && Owns(d.pcs[a], r) && Owns(d.pcs[b], r) ensures a == b {
      assert PcOk(s, s.pcs[a]) && PcOk(s, s.pcs[b]);
    }
    forall r, key | r in d.catalog && key in d.catalog[r].keys ensures IsImage(d, r, key) { assert IsImage(s, r, key); }
    forall r, id | r in d.catalog && id in d.rows ensures HasKey(d, r, id) || Owed(d, r, id) || Unscanned(d, r, id) {
      if r == step.root {
        assert Owns(d.pcs[t], r) && WillScan(d.pcs[t], id);
      } else {
        assert HasKey(s, r, id) || Owed(s, r, id) || Unscanned(s, r, id);
      }
    }
  }

  lemma FinalizeKeepsInv(s: State, step: Step)
    requires Inv(s) && Enabled(s, step) && step.Finalize?
    ensures Inv(Apply(s, step))
  {
    hide KeyFor;
    var d, t := Apply(s, step), step.t;
    ClaimsKept(s, d, t);
    forall u | u in d.pcs ensures PcOk(d, d.pcs[u]) {
      assert PcOk(s, s.pcs[u]) && !HoldsShared(s.pcs[u]);
      if u != t && !s.pcs[u].Idle? { assert Owns(s.pcs[u], s.pcs[u].root) && Owns(s.pcs[t], s.pcs[t].root); }
    }
    forall a, b, r | a in d.pcs && b in d.pcs && Owns(d.pcs[a], r) && Owns(d.pcs[b], r) ensures a == b {
      assert Owns(s.pcs[a], r) && Owns(s.pcs[b], r);
    }
    forall r, key | r in d.catalog && key in d.catalog[r].keys ensures IsImage(d, r, key) { assert IsImage(s, r, key); }
    forall r, id | r in d.catalog && id in d.rows ensures HasKey(d, r, id) || Owed(d, r, id) || Unscanned(d, r, id) {
      assert HasKey(s, r, id) || Owed(s, r, id) || Unscanned(s, r, id);
    }
  }

  lemma ReclaimKeepsInv(s: State, step: Step)
    requires Inv(s) && Enabled(s, step) && step.Reclaim?
    ensures Inv(Apply(s, step))
  {
    hide KeyFor;
    var d := Apply(s, step);
    forall u | u in d.pcs ensures PcOk(d, d.pcs[u]) { assert PcOk(s, s.pcs[u]) && !HoldsShared(s.pcs[u]); }
    forall r, key | r in d.catalog && key in d.catalog[r].keys ensures IsImage(d, r, key) {
      assert IsImage(s, r, key);
      var id :| id in s.rows && key == KeyFor(s.rows[id].values, s.catalog[r].columns, id);
      DeadKeyRemoved(s.rows, s.catalog[r].columns, id, step.dead);
      assert id in d.rows;
    }
    forall r, id | r in d.catalog && id in d.rows ensures HasKey(d, r, id) || Owed(d, r, id) || Unscanned(d, r, id) {
      assert HasKey(s, r, id) || Owed(s, r, id) || Unscanned(s, r, id);
      if HasKey(s, r, id) { LiveKeyKept(s, r, id, step.dead); }
    }
  }

  lemma DeadKeyRemoved(rows: Rows, columns: seq<nat>, id: ByteString, dead: set<ByteString>)
    requires id in rows
    ensures id in dead ==> KeyFor(rows[id].values, columns, id) in KeysOf(rows, columns, dead)
  {
  }

  /** Reclaiming other rows never removes a live row's key. */
  lemma LiveKeyKept(s: State, r: nat, id: ByteString, dead: set<ByteString>)
    requires RowsFit(s) && ColumnsFit(s) && r in s.catalog && id in s.rows && id !in dead
    ensures KeyFor(s.rows[id].values, s.catalog[r].columns, id) !in KeysOf(s.rows, s.catalog[r].columns, dead)
  {
    hide KeyFor;
    forall other | other in dead && other in s.rows
      ensures KeyFor(s.rows[other].values, s.catalog[r].columns, other) != KeyFor(s.rows[id].values, s.catalog[r].columns, id)
    {
      if KeyFor(s.rows[other].values, s.catalog[r].columns, other) == KeyFor(s.rows[id].values, s.catalog[r].columns, id) {
        KeyDeterminesRow(s, r, other, id);
      }
    }
  }

  lemma StepKeepsInv(s: State, step: Step)
    requires Inv(s) && Enabled(s, step)
    ensures Inv(Apply(s, step))
  {
    hide Inv, Apply, Enabled;
    match step
    case PutRow(_, _, _) => PutRowKeepsInv(s, step);
    case PutKey(_, _, _) => KeyStepKeepsInv(s, step);
    case PopulateOne(_, _) => KeyStepKeepsInv(s, step);
    case Create(_, _, _) => CreateKeepsInv(s, step);
    case Scan(_) => BuilderStepKeepsInv(s, step);
    case EndPopulate(_) => BuilderStepKeepsInv(s, step);
    case Finalize(_) => FinalizeKeepsInv(s, step);
    case Reclaim(_) => ReclaimKeepsInv(s, step);
    case _ => WriterStepKeepsInv(s, step);
  }

  lemma {:induction false} RunKeepsInv(states: seq<State>, steps: seq<Step>, n: nat)
    requires IsRun(states, steps) && n <= |steps|
    ensures Inv(states[n])
  {
    if n > 0 {
      RunKeepsInv(states, steps, n - 1);
      StepKeepsInv(states[n - 1], steps[n - 1]);
    }
  }

  // ---------------------------------------------------------------- what the build guarantees

  /** The set of keys an index over `columns` should hold. */
  function Image(rows: Rows, columns: seq<nat>): set<ByteString> {
    set id | id in rows :: KeyFor(rows[id].values, columns, id)
  }

  /** In every state of every run, a finished index points only at existing rows, and the only rows it
      lacks are those a running writer is about to index. */
  lemma FinishedIndexIsComplete(states: seq<State>, steps: seq<Step>, n: nat, root: nat)
    requires IsRun(states, steps) && n <= |steps| && root in states[n].catalog && !states[n].catalog[root].building
    ensures states[n].catalog[root].keys <= Image(states[n].rows, states[n].catalog[root].columns)
    ensures forall id :: id in states[n].rows ==> HasKey(states[n], root, id) || Owed(states[n], root, id)
  {
    hide KeyFor;
    var s := states[n];
    RunKeepsInv(states, steps, n);
    forall t | t in s.pcs ensures !Owns(s.pcs[t], root) { assert PcOk(s, s.pcs[t]); }
    forall key | key in s.catalog[root].keys ensures key in Image(s.rows, s.catalog[root].columns) {
      assert IsImage(s, root, key);
    }
    forall id | id in s.rows ensures HasKey(s, root, id) || Owed(s, root, id) {
      assert HasKey(s, root, id) || Owed(s, root, id) || Unscanned(s, root, id);
    }
  }

  /** Whenever no writer is inside a row, a finished index holds exactly the keys of the table's rows:
      nothing missing, nothing dangling. */
  lemma FinishedIndexIsExact(states: seq<State>, steps: seq<Step>, n: nat, root: nat)
    requires IsRun(states, steps) && n <= |steps| && root in states[n].catalog && !states[n].catalog[root].building
    requires forall t :: t in states[n].pcs && states[n].pcs[t].Writing? ==> states[n].pcs[t].todo == {}
    ensures states[n].catalog[root].keys == Image(states[n].rows, states[n].catalog[root].columns)
  {
    hide KeyFor;
    var s := states[n];
    FinishedIndexIsComplete(states, steps, n, root);
    forall id | id in s.rows ensures HasKey(s, root, id) {
      assert !Owed(s, root, id);
    }
  }

  /** The table and one index of a state, as a scan or a join finds them. */
  ghost predicate Shows(s: State, root: nat, t: Table, keys: seq<ByteString>) {
    && ValidTable(t) && t.rows == s.rows && |t.schema| == s.width
    && root in s.catalog && StrictlySorted(keys) && (set k | k in keys) == s.catalog[root].keys
  }

  /** In every state of every run every index, finished or not, has no dangling key. */
  lemma EveryIndexIsSound(states: seq<State>, steps: seq<Step>, n: nat, root: nat, t: Table, keys: seq<ByteString>)
    requires IsRun(states, steps) && n <= |steps| && Shows(states[n], root, t, keys)
    ensures IndexSound(keys, t, states[n].catalog[root].columns)
  {
    hide StrictlySorted, KeyFor;
    var s, columns := states[n], states[n].catalog[root].columns;
    RunKeepsInv(states, steps, n);
    forall k | 0 <= k < |keys| ensures IsKeyOfSomeRow(keys[k], t, columns) {
      assert keys[k] in (set x | x in keys) && IsImage(s, root, keys[k]);
      var id :| id in s.rows && keys[k] == KeyFor(s.rows[id].values, columns, id);
      ImageEndsWithRowid(t, columns, id);
    }
  }

  lemma ImageEndsWithRowid(t: Table, columns: seq<nat>, id: ByteString)
    requires ValidTable(t) && id in t.rows && ColumnsInRange(columns, |t.schema|)
    ensures IsKeyOfSomeRow(KeyFor(t.rows[id].values, columns, id), t, columns)
  {
    assert RowHasTypes(t.rows[id].values, Types(t.schema));
    IndexKeyEndsWithRowid(t.rows[id].values, columns, id);
  }

  /** A finished index is exact, as the index scans and index joins need it, whenever no writer is inside
      a row. */
  lemma FinishedIndexServesScans(states: seq<State>, steps: seq<Step>, n: nat, root: nat, t: Table, keys: seq<ByteString>)
    requires IsRun(states, steps) && n <= |steps| && Shows(states[n], root, t, keys) && !states[n].catalog[root].building
    requires forall w :: w in states[n].pcs && states[n].pcs[w].Writing? ==> states[n].pcs[w].todo == {}
    ensures IndexExact(keys, t, states[n].catalog[root].columns)
  {
    hide StrictlySorted;
    var s, columns := states[n], states[n].catalog[root].columns;
    EveryIndexIsSound(states, steps, n, root, t, keys);
    FinishedIndexIsExact(states, steps, n, root);
    forall id | id in t.rows && ColumnsInRange(columns, |t.rows[id].values|) ensures HasEntry(t, keys, columns, id) {
      assert KeyFor(t.rows[id].values, columns, id) in Image(t.rows, columns);
      assert IndexKey(t.rows[id].values, columns, id) in (set k | k in keys);
    }
  }

  // ---------------------------------------------------------------- the loops

  /** A table's trees as one pass of the reclaimer, or of a build, finds them. */
  class TableStore {
    var rows: Rows
    var catalog: Catalog

    constructor (r: Rows, c: Catalog)
      ensures rows == r && catalog == c
    {
      rows, catalog := r, c;
    }

    /** One table's pass of `reclaim_dead_rows`: collect the dead rows, then delete each with its keys. */
    method ReclaimDeadRows(log: Outcomes, w: nat) returns (reclaimed: nat)
      modifies this
      ensures var dead := set id | id in old(rows) && Dead(log, w, old(rows)[id].txMin, old(rows)[id].txMax);
              rows == old(rows) - dead && catalog == WithoutRows(old(rows), old(catalog), dead) && reclaimed == |dead|
    {
      ghost var rows0, catalog0 := rows, catalog;
      var dead := set id | id in rows && Dead(log, w, rows[id].txMin, rows[id].txMax);
      var todo := dead;
      ghost var done: set<ByteString> := {};
      reclaimed := 0;
      WithoutNothing(rows0, catalog0);
      hide KeyFor, Dead, WithoutRows;
      while todo != {}
        invariant todo + done == dead && todo !! done && reclaimed == |done|
        invariant dead == set id | id in old(rows) && Dead(log, w, old(rows)[id].txMin, old(rows)[id].txMax)
        invariant rows == rows0 - done && catalog == WithoutRows(rows0, catalog0, done)
        decreases todo
      {
        var id :| id in todo;
        var values := rows[id].values;
        WithoutOneMore(rows0, catalog0, done, id);
        DeleteKeys(id, values);
        rows := rows - {id};
        todo, done := todo - {id}, done + {id};
        reclaimed := reclaimed + 1;
        assert rows == rows0 - done;
      }
      assert done == dead;
    }

    /** The inner loop: delete the row's key from every index. */
    method DeleteKeys(id: ByteString, values: Row)
      modifies `catalog
      ensures catalog == map r | r in old(catalog) :: WithoutKey(old(catalog)[r], KeyFor(values, old(catalog)[r].columns, id))
    {
      hide KeyFor;
      var roots := catalog.Keys;
      while roots != {}
        invariant catalog.Keys == old(catalog).Keys && roots <= catalog.Keys
        invariant forall r :: r in catalog ==>
          catalog[r] == if r in roots then old(catalog)[r] else WithoutKey(old(catalog)[r], KeyFor(values, old(catalog)[r].columns, id))
        decreases roots
      {
        var root :| root in roots;
        roots := roots - {root};
        catalog := catalog[root := WithoutKey(catalog[root], KeyFor(values, catalog[root].columns, id))];
      }
    }

    /** Phase 2: every scanned row's key goes into the index, unless it is there already. */
    method Populate(root: nat)
      requires root in catalog
      modifies `catalog
      ensures catalog == old(catalog)[root := old(catalog)[root].(keys := old(catalog)[root].keys + Image(rows, old(catalog)[root].columns))]
    {
      hide KeyFor;
      var scan := rows.Keys;
      ghost var done: set<ByteString> := {};
      ghost var before, columns := catalog[root], catalog[root].columns;
      assert before.keys + KeysOf(rows, columns, done) == before.keys;
      while scan != {}
        invariant scan !! done && scan + done == rows.Keys
        invariant root in catalog && catalog == old(catalog)[root := before.(keys := before.keys + KeysOf(rows, columns, done))]
        decreases scan
      {
        var id :| id in scan;
        var key := KeyFor(rows[id].values, catalog[root].columns, id);
        assert KeysOf(rows, columns, done + {id}) == KeysOf(rows, columns, done) + {key};
        scan, done := scan - {id}, done + {id};
        assert before.keys + KeysOf(rows, columns, done) == catalog[root].keys + {key};
        if key !in catalog[root].keys {
          catalog := catalog[root := catalog[root].(keys := catalog[root].keys + {key})];
        } else {
          assert catalog[root].keys + {key} == catalog[root].keys;
        }
      }
      assert KeysOf(rows, columns, done) == Image(rows, columns);
    }
  }

  function WithoutKey(e: Entry, key: ByteString): Entry { e.(keys := e.keys - {key}) }

  lemma WithoutNothing(rows: Rows, c: Catalog)
    ensures WithoutRows(rows, c, {}) == c && rows - {} == rows
  {
    forall r | r in c ensures c[r].keys - KeysOf(rows, c[r].columns, {}) == c[r].keys {}
  }

  lemma WithoutOneMore(rows: Rows, c: Catalog, done: set<ByteString>, id: ByteString)
    requires id in rows
    ensures var before := WithoutRows(rows, c, done);
            WithoutRows(rows, c, done + {id}) ==
            map r | r in before :: WithoutKey(before[r], KeyFor(rows[id].values, before[r].columns, id))
  {
    hide KeyFor;
    forall r | r in c
      ensures c[r].keys - KeysOf(rows, c[r].columns, done + {id})
           == (c[r].keys - KeysOf(rows, c[r].columns, done)) - {KeyFor(rows[id].values, c[r].columns, id)}
    {
      assert KeysOf(rows, c[r].columns, done + {id}) == KeysOf(rows, c[r].columns, done) + {KeyFor(rows[id].values, c[r].columns, id)};
    }
  }
}
