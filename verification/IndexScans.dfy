/** Scanning a table through an index or in full, and what both return
    (`IndexScan`, `TableScan` and `collect_candidates` of engine/executor.rs). */
module IndexScans {
  import opened Bytes
  import opened Values
  import opened Expressions
  import opened IndexKeys
  import opened AccessPaths
  import opened Sequences

  /** One stored version of a row, with its MVCC header. */
  datatype StoredRow = StoredRow(txMin: u64, txMax: u64, values: Row)

  /** A table tree: `ids` is its scan order, `rows` its contents by rowid key. */
  datatype Table = Table(qualifier: string, schema: Schema, ids: seq<ByteString>, rows: map<ByteString, StoredRow>)

  ghost predicate ValidTable(t: Table) {
    && StrictlySorted(t.ids)
    && (forall id :: id in t.ids <==> id in t.rows)
    && (forall id :: id in t.rows ==> |id| == 8 && RowHasTypes(t.rows[id].values, Types(t.schema)))
  }

  /** Every index key, in tree order, is the key of a row that is there; rows may lack theirs. */
  ghost predicate IndexSound(keys: seq<ByteString>, t: Table, columns: seq<nat>) {
    && ColumnsInRange(columns, |t.schema|)
    && StrictlySorted(keys)
    && (forall k :: 0 <= k < |keys| ==> IsKeyOfSomeRow(keys[k], t, columns))
  }

  /** The index keys are exactly the image of the table's rows. */
  ghost predicate IndexExact(keys: seq<ByteString>, t: Table, columns: seq<nat>) {
    && IndexSound(keys, t, columns)
    && (forall id :: id in t.rows && ColumnsInRange(columns, |t.rows[id].values|) ==> HasEntry(t, keys, columns, id))
  }

  /** The row has its key in the index. */
  ghost predicate HasEntry(t: Table, keys: seq<ByteString>, columns: seq<nat>, id: ByteString) {
    id in t.rows && ColumnsInRange(columns, |t.rows[id].values|) && IndexKey(t.rows[id].values, columns, id) in keys
  }

  ghost predicate IsKeyOfSomeRow(key: ByteString, t: Table, columns: seq<nat>) {
    |key| >= 8 && var id := key[|key| - 8..];
    id in t.rows && ColumnsInRange(columns, |t.rows[id].values|) && key == IndexKey(t.rows[id].values, columns, id)
  }

  /** The keys of an ordered tree within `[lower, upper)`, in tree order. */
  function ScanRange(keys: seq<ByteString>, lower: ByteString, upper: Option<ByteString>): seq<ByteString> {
    Filter(k => InRange(k, lower, upper), keys)
  }

  function RowidOf(key: ByteString): ByteString {
    if |key| < 8 then key else key[|key| - 8..]
  }

  /** The rowids an index range leads to, in index order. */
  function IndexedIds(keys: seq<ByteString>, lower: ByteString, upper: Option<ByteString>): seq<ByteString> {
    Map(RowidOf, ScanRange(keys, lower, upper))
  }

  predicate VisibleIn(t: Table, visible: (u64, u64) -> bool, id: ByteString) {
    id in t.rows && visible(t.rows[id].txMin, t.rows[id].txMax)
  }

  function VisibleIds(t: Table, visible: (u64, u64) -> bool, ids: seq<ByteString>): seq<ByteString> {
    Filter(id => VisibleIn(t, visible, id), ids)
  }

  lemma {:induction false} FilterSorted(f: ByteString -> bool, keys: seq<ByteString>)
    requires StrictlySorted(keys)
    ensures StrictlySorted(Filter(f, keys))
  {
    if keys != [] {
      FilterSorted(f, keys[1..]);
      var rest := Filter(f, keys[1..]);
      forall j | 0 <= j < |rest| ensures Less(keys[0], rest[j]) {
        FilterMembers(f, keys[1..], rest[j]);
      }
    }
  }

  lemma SortedIsDistinct(keys: seq<ByteString>)
    requires StrictlySorted(keys)
    ensures Distinct(keys)
  {
    forall i, j | 0 <= i < j < |keys| ensures keys[i] != keys[j] { LessIrreflexive(keys[i]); }
  }

  /** What lies in a range of an index: keys of rows, in key order. */
  lemma RangeKeys(t: Table, keys: seq<ByteString>, columns: seq<nat>, lower: ByteString, upper: Option<ByteString>)
    requires IndexSound(keys, t, columns)
    ensures Distinct(ScanRange(keys, lower, upper))
    ensures forall k :: 0 <= k < |ScanRange(keys, lower, upper)| ==>
              IsKeyOfSomeRow(ScanRange(keys, lower, upper)[k], t, columns) && InRange(ScanRange(keys, lower, upper)[k], lower, upper)
    ensures forall key :: key in ScanRange(keys, lower, upper) <==> key in keys && InRange(key, lower, upper)
  {
    hide InRange, IsKeyOfSomeRow, Filter;
    var f := k => InRange(k, lower, upper);
    var range := ScanRange(keys, lower, upper);
    FilterSorted(f, keys);
    SortedIsDistinct(range);
    forall k | 0 <= k < |range| ensures IsKeyOfSomeRow(range[k], t, columns) && f(range[k]) {
      FilterMembers(f, keys, range[k]);
      assert range[k] in keys;
    }
    forall key ensures key in range <==> key in keys && f(key) { FilterMembers(f, keys, key); }
  }

  ghost predicate RowInRange(t: Table, columns: seq<nat>, lower: ByteString, upper: Option<ByteString>, id: ByteString) {
    id in t.rows && ColumnsInRange(columns, |t.rows[id].values|) && InRange(IndexKey(t.rows[id].values, columns, id), lower, upper)
  }

  /** A range holds each rowid at most once, and exactly the rowids that have an entry in it. */
  lemma IndexedIdsFacts(t: Table, keys: seq<ByteString>, columns: seq<nat>, lower: ByteString, upper: Option<ByteString>)
    requires ValidTable(t) && IndexSound(keys, t, columns)
    ensures Distinct(IndexedIds(keys, lower, upper))
    ensures forall id :: id in IndexedIds(keys, lower, upper) <==> RowInRange(t, columns, lower, upper, id) && HasEntry(t, keys, columns, id)
  {
    var range, ids := ScanRange(keys, lower, upper), IndexedIds(keys, lower, upper);
    RangeKeys(t, keys, columns, lower, upper);
    hide ScanRange, InRange, IndexKey, ValidTable;
    forall k | 0 <= k < |ids|
      ensures ids[k] == RowidOf(range[k]) && RowInRange(t, columns, lower, upper, ids[k]) && HasEntry(t, keys, columns, ids[k])
    {
      assert IsKeyOfSomeRow(range[k], t, columns);
    }
    forall i, j | 0 <= i < j < |ids| ensures ids[i] != ids[j] {
      assert IsKeyOfSomeRow(range[i], t, columns) && IsKeyOfSomeRow(range[j], t, columns);
    }
    forall id | RowInRange(t, columns, lower, upper, id) && HasEntry(t, keys, columns, id) ensures id in ids {
      RowInRangeIsIndexed(t, keys, columns, lower, upper, id);
    }
  }

  lemma RowInRangeIsIndexed(t: Table, keys: seq<ByteString>, columns: seq<nat>, lower: ByteString,
                            upper: Option<ByteString>, id: ByteString)
    requires ValidTable(t) && RowInRange(t, columns, lower, upper, id) && HasEntry(t, keys, columns, id)
    ensures id in IndexedIds(keys, lower, upper)
  {
    var key := IndexKey(t.rows[id].values, columns, id);
    assert key in keys && |id| == 8 && InRange(key, lower, upper);
    hide InRange, IndexKey, ValidTable, RowInRange, HasEntry, Map;
    FilterMembers(k => InRange(k, lower, upper), keys, key);
    hide Filter;
    IndexKeyEndsWithRowid(t.rows[id].values, columns, id);
    MapMember(RowidOf, ScanRange(keys, lower, upper), key);
  }

  /** The ids without repetitions, each at its first place. */
  function FirstSeen(ids: seq<ByteString>): (r: seq<ByteString>)
    ensures forall id :: id in r <==> id in ids
  {
    if ids == [] then []
    else
      var n := |ids| - 1;
      assert ids == ids[..n] + [ids[n]];
      if ids[n] in ids[..n] then FirstSeen(ids[..n]) else FirstSeen(ids[..n]) + [ids[n]]
  }

  lemma {:induction false} FirstSeenDistinct(ids: seq<ByteString>)
    ensures Distinct(FirstSeen(ids)) && (Distinct(ids) ==> FirstSeen(ids) == ids)
  {
    if ids != [] {
      var n := |ids| - 1;
      var first, last := ids[..n], ids[n];
      FirstSeenDistinct(first);
      assert ids == first + [last];
      assert FirstSeen(ids) == if last in first then FirstSeen(first) else FirstSeen(first) + [last];
      hide FirstSeen;
      DistinctSnoc(FirstSeen(first), last);
      DistinctSnoc(first, last);
    }
  }

  lemma DistinctSnoc(ids: seq<ByteString>, last: ByteString)
    ensures Distinct(ids + [last]) <==> Distinct(ids) && last !in ids
  {
    var all := ids + [last];
    assert forall i :: 0 <= i < |ids| ==> all[i] == ids[i];
    assert all[|ids|] == last;
    if last in ids {
      var i :| 0 <= i < |ids| && ids[i] == last;
      assert all[i] == all[|ids|];
    }
    if Distinct(all) {
      forall i, k | 0 <= i < k < |ids| ensures ids[i] != ids[k] { assert all[i] != all[k]; }
    }
  }

  /** The key is too short to end in a rowid, or its rowid leads to no row. */
  predicate Corrupt(t: Table, key: ByteString) { |key| < 8 || key[|key| - 8..] !in t.rows }

  ghost predicate AnyCorrupt(t: Table, keys: seq<ByteString>) { exists k :: k in keys && Corrupt(t, k) }

  /** Following index entries to their rows, as `lookup` and the index branch of `collect_candidates` do:
      each rowid once, in index order, or an error exactly when some entry of the range is corrupt. */
  method CollectByIndex(t: Table, keys: seq<ByteString>, lower: ByteString, upper: Option<ByteString>,
                        visible: (u64, u64) -> bool)
    returns (r: Result<seq<ByteString>>)
    ensures r.Err? <==> AnyCorrupt(t, ScanRange(keys, lower, upper))
    ensures r.Err? ==> r.error == Corruption
    ensures r.Ok? ==> r.value == VisibleIds(t, visible, FirstSeen(IndexedIds(keys, lower, upper)))
  {
    hide ScanRange, VisibleIds, Map, AnyCorrupt, FirstSeen;
    var range := ScanRange(keys, lower, upper);
    ghost var ids := IndexedIds(keys, lower, upper);
    NothingSeen(t, visible, range, ids);
    var seen: set<ByteString>, out: seq<ByteString> := {}, [];
    for n := 0 to |range|
      invariant |range| == |ids|
      invariant seen == SetOf(ids[..n]) && seen <= t.rows.Keys && !AnyCorrupt(t, range[..n])
      invariant out == VisibleIds(t, visible, FirstSeen(ids[..n]))
    {
      CorruptStep(t, range, n);
      hide SetOf;
      if |range[n]| < 8 { return Err(Corruption); }
      var rowid := range[n][|range[n]| - 8..];
      assert rowid == ids[n];
      SetOfStep(ids, n);
      FirstSeenStep(t, visible, ids, n);
      if rowid in seen {
        assert seen + {rowid} == seen;
        continue;
      }
      seen := seen + {rowid};
      if rowid !in t.rows { return Err(Corruption); }
      if visible(t.rows[rowid].txMin, t.rows[rowid].txMax) { out := out + [rowid]; }
    }
    assert ids[..|range|] == ids && range[..|range|] == range;
    r := Ok(out);
  }

  ghost function SetOf(ids: seq<ByteString>): set<ByteString> { set id | id in ids }

  lemma NothingSeen(t: Table, visible: (u64, u64) -> bool, range: seq<ByteString>, ids: seq<ByteString>)
    ensures SetOf(ids[..0]) == {} && !AnyCorrupt(t, range[..0]) && VisibleIds(t, visible, FirstSeen(ids[..0])) == []
  {
  }

  lemma SetOfStep(ids: seq<ByteString>, n: nat)
    requires n < |ids|
    ensures SetOf(ids[..n + 1]) == SetOf(ids[..n]) + {ids[n]}
    ensures ids[n] in SetOf(ids[..n]) <==> ids[n] in ids[..n]
  {
    assert ids[..n + 1] == ids[..n] + [ids[n]];
  }

  lemma CorruptStep(t: Table, keys: seq<ByteString>, n: nat)
    requires n < |keys|
    ensures AnyCorrupt(t, keys[..n + 1]) <==> AnyCorrupt(t, keys[..n]) || Corrupt(t, keys[n])
    ensures Corrupt(t, keys[n]) ==> AnyCorrupt(t, keys)
  {
    hide Corrupt;
    assert keys[..n + 1] == keys[..n] + [keys[n]];
    assert keys[n] in keys && keys[n] in keys[..n + 1];
    if AnyCorrupt(t, keys[..n]) {
      var k :| k in keys[..n] && Corrupt(t, k);
      assert k in keys[..n + 1];
    }
  }

  lemma FirstSeenStep(t: Table, visible: (u64, u64) -> bool, ids: seq<ByteString>, n: nat)
    requires n < |ids|
    ensures ids[n] in ids[..n] ==> FirstSeen(ids[..n + 1]) == FirstSeen(ids[..n])
    ensures ids[n] !in ids[..n] ==>
            VisibleIds(t, visible, FirstSeen(ids[..n + 1])) ==
            VisibleIds(t, visible, FirstSeen(ids[..n])) + (if VisibleIn(t, visible, ids[n]) then [ids[n]] else [])
  {
    assert ids[..n + 1][..n] == ids[..n] && ids[..n + 1][n] == ids[n];
    var f := id => VisibleIn(t, visible, id);
    if ids[n] !in ids[..n] {
      var last: seq<ByteString> := [ids[n]];
      FilterConcat(f, FirstSeen(ids[..n]), last);
      assert last[1..] == [];
    }
  }

  /** With no dangling key nothing is corrupt and no rowid repeats. */
  lemma SoundLookup(t: Table, keys: seq<ByteString>, columns: seq<nat>, lower: ByteString, upper: Option<ByteString>)
    requires ValidTable(t) && IndexSound(keys, t, columns)
    ensures !AnyCorrupt(t, ScanRange(keys, lower, upper))
    ensures FirstSeen(IndexedIds(keys, lower, upper)) == IndexedIds(keys, lower, upper)
  {
    hide ScanRange;
    var range := ScanRange(keys, lower, upper);
    RangeKeys(t, keys, columns, lower, upper);
    IndexedIdsFacts(t, keys, columns, lower, upper);
    FirstSeenDistinct(IndexedIds(keys, lower, upper));
    forall k | k in range ensures !Corrupt(t, k) {
      var i :| 0 <= i < |range| && range[i] == k;
      assert IsKeyOfSomeRow(range[i], t, columns);
    }
  }

  /** The rows that survive visibility and the WHERE clause, among `ids`. */
  ghost function Kept(fpu: Fpu, t: Table, visible: (u64, u64) -> bool, filter: Option<Expr>, ids: seq<ByteString>): seq<ByteString>
    requires ValidTable(t)
  {
    Filter(id => KeptRow(fpu, t, visible, filter, id), ids)
  }

  ghost predicate KeptRow(fpu: Fpu, t: Table, visible: (u64, u64) -> bool, filter: Option<Expr>, id: ByteString) {
    id in t.rows && visible(t.rows[id].txMin, t.rows[id].txMax) && |t.rows[id].values| == |t.schema| &&
    PassesFilter(fpu, filter, SingleScope(t.qualifier, t.schema), t.rows[id].values) == Ok(true)
  }

  /** The predicates the planner draws from a WHERE clause. */
  function PredicatesOf(fpu: Fpu, schema: Schema, filter: Expr): seq<ColumnPredicate> {
    ClassifyAll(fpu, schema, Conjuncts(filter))
  }

  lemma PredicatesTyped(fpu: Fpu, schema: Schema, filter: Expr)
    ensures AllTyped(schema, PredicatesOf(fpu, schema, filter))
  {
    ClassifyAllTyped(fpu, schema, Conjuncts(filter));
  }

  /** A row the query keeps has its key inside the planned range exactly when no predicate the plan uses
      compares -0.0 with 0.0 in it. */
  lemma KeptRowInRange(fpu: Fpu, t: Table, columns: seq<nat>, filter: Expr, row: Row, rowid: ByteString)
    requires ColumnsInRange(columns, |t.schema|) && RowHasTypes(row, Types(t.schema))
    requires PlanFor(columns, PredicatesOf(fpu, t.schema, filter)).Some?
    requires PassesFilter(fpu, Some(filter), SingleScope(t.qualifier, t.schema), row) == Ok(true)
    ensures var plan := PlanFor(columns, PredicatesOf(fpu, t.schema, filter)).value;
            InRange(IndexKey(row, columns, rowid), plan.lower, plan.upper) <==> NoClash(columns, PredicatesOf(fpu, t.schema, filter), row)
  {
    ConjunctsAllTrue(fpu, filter, Some(Context(SingleScope(t.qualifier, t.schema), row)));
    hide PlanFor, InRange, NoClash, HoldUnlessClash, Eval, IndexKey, PlanHolds;
    ClassifyAllSound(fpu, t.schema, t.qualifier, Conjuncts(filter), row);
    PredicatesTyped(fpu, t.schema, filter);
    RangeIsExact(fpu, t.schema, columns, PredicatesOf(fpu, t.schema, filter), row, rowid);
    PlanHoldsIffNoClash(fpu, columns, PredicatesOf(fpu, t.schema, filter), row);
  }

  /** The scan of the chosen range can meet the row: it has its entry, and no predicate in use clashes. */
  ghost predicate Reachable(fpu: Fpu, t: Table, keys: seq<ByteString>, columns: seq<nat>, filter: Expr, id: ByteString) {
    HasEntry(t, keys, columns, id) && NoClash(columns, PredicatesOf(fpu, t.schema, filter), t.rows[id].values)
  }

  /** Scanning the chosen range and re-applying WHERE returns the rows of a full scan, with multiplicity,
      exactly when it can meet every row the query keeps. */
  lemma IndexScanEqualsFullScan(fpu: Fpu, t: Table, keys: seq<ByteString>, columns: seq<nat>, filter: Expr,
                                visible: (u64, u64) -> bool, plan: IndexPlan)
    requires ValidTable(t) && IndexSound(keys, t, columns)
    requires PlanFor(columns, PredicatesOf(fpu, t.schema, filter)) == Some(plan)
    ensures multiset(Kept(fpu, t, visible, Some(filter), IndexedIds(keys, plan.lower, plan.upper)))
         == multiset(Kept(fpu, t, visible, Some(filter), t.ids))
       <==> forall id :: KeptRow(fpu, t, visible, Some(filter), id) ==> Reachable(fpu, t, keys, columns, filter, id)
  {
    hide PlanFor, PassesFilter, PredicatesOf;
    var ids := IndexedIds(keys, plan.lower, plan.upper);
    var f := id => KeptRow(fpu, t, visible, Some(filter), id);
    IndexedIdsFacts(t, keys, columns, plan.lower, plan.upper);
    SortedIsDistinct(t.ids);
    FilterDistinct(f, ids);
    FilterDistinct(f, t.ids);
    var few, all := Filter(f, ids), Filter(f, t.ids);
    forall id ensures id in all <==> f(id) { FilterMembers(f, t.ids, id); }
    forall id ensures id in few <==> f(id) && Reachable(fpu, t, keys, columns, filter, id) {
      FilterMembers(f, ids, id);
      if f(id) { KeptRowInRange(fpu, t, columns, filter, t.rows[id].values, id); }
    }
    hide Reachable, KeptRow, IndexedIds, Filter, ValidTable, IndexSound;
    SameMembersIff(few, all);
  }

  lemma SameMembersIff(a: seq<ByteString>, b: seq<ByteString>)
    requires Distinct(a) && Distinct(b)
    ensures multiset(a) == multiset(b) <==> forall id :: id in a <==> id in b
  {
    if multiset(a) == multiset(b) {
      forall id ensures id in a <==> id in b { assert (id in multiset(a)) == (id in multiset(b)); }
    }
    if forall id :: id in a <==> id in b { DistinctSameMembers(a, b); }
  }

  const ROW_KEY: ByteString := [0, 0, 0, 0, 0, 0, 0, 0]

  /** `b(y REAL)` holding -0.0. */
  const ZERO_TABLE: Table :=
    Table("b", [SchemaColumn("y", RealType, false)], [ROW_KEY], map[ROW_KEY := StoredRow(1, 0, [Real(TWO_63)])])

  function ZeroKeys(): seq<ByteString> { [IndexKey([Real(TWO_63)], [0], ROW_KEY)] }

  /** `y = 0.0`. */
  const IS_ZERO: Expr := Binary(Eq, Column(ColumnRef(None, "y")), RealLit(0))

  /** WHERE keeps -0.0, and the range of the literal's key does not hold it: the full scan returns the row and
      the scan of an exact index does not. */
  lemma IndexScanMissesNegativeZero(fpu: Fpu, visible: (u64, u64) -> bool)
    requires visible(1, 0)
    ensures var t, keys := ZERO_TABLE, ZeroKeys();
            var plan := PlanFor([0], PredicatesOf(fpu, t.schema, IS_ZERO));
            ValidTable(t) && IndexExact(keys, t, [0]) && plan.Some? && KeptRow(fpu, t, visible, Some(IS_ZERO), ROW_KEY) &&
            multiset(Kept(fpu, t, visible, Some(IS_ZERO), IndexedIds(keys, plan.value.lower, plan.value.upper)))
            != multiset(Kept(fpu, t, visible, Some(IS_ZERO), t.ids))
  {
    hide *;
    var t, keys := ZERO_TABLE, ZeroKeys();
    ZeroTableIndexed();
    ZeroPlan(fpu);
    ZeroKept(fpu, visible);
    var ps := PredicatesOf(fpu, t.schema, IS_ZERO);
    IndexExactIsSound(t, keys, [0]);
    IndexScanEqualsFullScan(fpu, t, keys, [0], IS_ZERO, visible, PlanFor([0], ps).value);
    NotReachable(fpu, keys);
  }

  lemma IndexExactIsSound(t: Table, keys: seq<ByteString>, columns: seq<nat>)
    requires IndexExact(keys, t, columns)
    ensures IndexSound(keys, t, columns)
  {
  }

  lemma NotReachable(fpu: Fpu, keys: seq<ByteString>)
    ensures !Reachable(fpu, ZERO_TABLE, keys, [0], IS_ZERO, ROW_KEY)
  {
    ZeroPlan(fpu);
    hide PredicatesOf, PlanFor, PinnedValues, IndexKey;
    var ps := PredicatesOf(fpu, ZERO_TABLE.schema, IS_ZERO);
    assert OppositeZeros(ZERO_TABLE.rows[ROW_KEY].values[[0][0]], PinnedValues([0], ps)[0]);
  }

  lemma ZeroTableIndexed()
    ensures ValidTable(ZERO_TABLE) && IndexExact(ZeroKeys(), ZERO_TABLE, [0])
  {
    hide IndexKey;
    var key := IndexKey([Real(TWO_63)], [0], ROW_KEY);
    IndexKeyEndsWithRowid([Real(TWO_63)], [0], ROW_KEY);
    assert key in [key];
  }

  lemma ZeroPlan(fpu: Fpu)
    ensures PredicatesOf(fpu, ZERO_TABLE.schema, IS_ZERO) == [ColumnPredicate(0, EqualTo(Real(0)))]
    ensures PlanFor([0], PredicatesOf(fpu, ZERO_TABLE.schema, IS_ZERO)).Some?
    ensures PinnedValues([0], PredicatesOf(fpu, ZERO_TABLE.schema, IS_ZERO)) == [Real(0)]
  {
    hide EncodeValue, UpperBound;
    assert Conjuncts(IS_ZERO) == [IS_ZERO];
    assert Classify(fpu, ZERO_TABLE.schema, IS_ZERO) == Some(ColumnPredicate(0, EqualTo(Real(0))));
    assert ClassifyAll(fpu, ZERO_TABLE.schema, [IS_ZERO][1..]) == [];
    var ps := [ColumnPredicate(0, EqualTo(Real(0)))];
    assert PinnedValues([0], ps) == [Real(0)] + PinnedValues([0][1..], ps);
  }

  lemma ZeroKept(fpu: Fpu, visible: (u64, u64) -> bool)
    requires visible(1, 0)
    ensures KeptRow(fpu, ZERO_TABLE, visible, Some(IS_ZERO), ROW_KEY)
  {
    var scope := SingleScope("b", ZERO_TABLE.schema);
    ResolveIsOnlyMatch(scope, ColumnRef(None, "y"));
    assert OnlyMatch(scope, ColumnRef(None, "y"), 0);
    hide Resolve;
  }

  // ---------------------------------------------------------------- presorted scans

  datatype OrderKey = OrderKey(column: ColumnRef, descending: bool)

  /** Whether key order already satisfies ORDER BY: its keys name the columns after the pinned ones. */
  predicate OrderMatches(columns: seq<nat>, pinned: nat, schema: Schema, orderBy: seq<OrderKey>) {
    var effective := columns[if pinned < |columns| then pinned else |columns|..];
    && orderBy != [] && (forall i :: 0 <= i < |orderBy| ==> !orderBy[i].descending)
    && |orderBy| <= |effective|
    && forall i :: 0 <= i < |orderBy| ==>
         effective[i] < |schema| && schema[effective[i]].name == orderBy[i].column.name
  }

  /** The comparator of `sort_rows`. */
  function CompareRows(fpu: Fpu, keys: seq<(nat, bool)>, a: Row, b: Row): Ordering
    requires forall i :: 0 <= i < |keys| ==> keys[i].0 < |a| && keys[i].0 < |b|
  {
    if keys == [] then Equal
    else
      var o := OrderValues(fpu, a[keys[0].0], b[keys[0].0]);
      var d := if keys[0].1 then o.Reverse() else o;
      if d != Equal then d else CompareRows(fpu, keys[1..], a, b)
  }

  /** Agreeing heads and ordered keys leave the columns after the heads in order. */
  lemma {:induction false} OrderedAfterPrefix(fpu: Fpu, a: Row, b: Row, columns: seq<nat>, pinned: nat, keys: seq<(nat, bool)>)
    requires ColumnsInRange(columns, |a|) && ColumnsInRange(columns, |b|)
    requires pinned + |keys| <= |columns|
    requires forall i :: 0 <= i < |keys| ==> keys[i] == (columns[pinned + i], false)
    requires forall i :: 0 <= i < pinned ==> a[columns[i]] == b[columns[i]]
    requires TupleLess(fpu, Project(a, columns), Project(b, columns)) || Project(a, columns) == Project(b, columns)
    ensures CompareRows(fpu, keys, a, b) != GreaterThan
    decreases |columns|
  {
    if keys != [] {
      hide OrderValues, Project;
      ProjectTail(a, columns);
      ProjectTail(b, columns);
      OrderValuesReflexive(fpu, a[columns[0]]);
      if pinned > 0 {
        OrderedAfterPrefix(fpu, a, b, columns[1..], pinned - 1, keys);
      } else if OrderValues(fpu, a[columns[0]], b[columns[0]]) == Equal {
        OrderedAfterPrefix(fpu, a, b, columns[1..], 0, keys[1..]);
      }
    }
  }

  ghost function KeyOf(t: Table, columns: seq<nat>, id: ByteString): ByteString {
    if id in t.rows && ColumnsInRange(columns, |t.rows[id].values|)
    then IndexKey(t.rows[id].values, columns, id) else []
  }

  /** The rows an index range leads to come in key order. */
  lemma IndexedIdsInKeyOrder(t: Table, keys: seq<ByteString>, columns: seq<nat>, lower: ByteString, upper: Option<ByteString>)
    requires ValidTable(t) && IndexSound(keys, t, columns)
    ensures var ids := IndexedIds(keys, lower, upper);
            forall i, j :: 0 <= i < j < |ids| ==> Less(KeyOf(t, columns, ids[i]), KeyOf(t, columns, ids[j]))
  {
    var range, ids := ScanRange(keys, lower, upper), IndexedIds(keys, lower, upper);
    FilterSorted(k => InRange(k, lower, upper), keys);
    forall i | 0 <= i < |ids| ensures KeyOf(t, columns, ids[i]) == range[i] {
      FilterMembers(k => InRange(k, lower, upper), keys, range[i]);
      assert range[i] in keys && IsKeyOfSomeRow(range[i], t, columns);
    }
  }

  /** An ORDER BY reference resolves to the column `order_matches` compared it with. */
  lemma OrderKeyIsIndexColumn(t: Table, column: nat, ref: ColumnRef, k: nat)
    requires column < |t.schema| && t.schema[column].name == ref.name
    requires Resolve(SingleScope(t.qualifier, t.schema), ref) == Ok(k)
    ensures k == column
  {
    var scope := SingleScope(t.qualifier, t.schema);
    ResolveIsOnlyMatch(scope, ref);
    assert OnlyMatch(scope, ref, k) && Matches(scope[column], ref);
  }

  ghost predicate InSortOrder(fpu: Fpu, t: Table, sortKeys: seq<(nat, bool)>, ida: ByteString, idb: ByteString) {
    && ida in t.rows && idb in t.rows
    && (forall i :: 0 <= i < |sortKeys| ==> sortKeys[i].0 < |t.rows[ida].values| && sortKeys[i].0 < |t.rows[idb].values|)
    && CompareRows(fpu, sortKeys, t.rows[ida].values, t.rows[idb].values) != GreaterThan
  }

  /** The sort keys are the index columns after the pinned ones, ascending. */
  ghost predicate FollowsPinned(columns: seq<nat>, pinned: nat, sortKeys: seq<(nat, bool)>) {
    pinned + |sortKeys| <= |columns| && forall i :: 0 <= i < |sortKeys| ==> sortKeys[i] == (columns[pinned + i], false)
  }

  lemma SortKeysFollowPinned(t: Table, columns: seq<nat>, pinned: nat, orderBy: seq<OrderKey>, sortKeys: seq<(nat, bool)>)
    requires pinned <= |columns| && OrderMatches(columns, pinned, t.schema, orderBy) && SortKeysResolve(t, orderBy, sortKeys)
    ensures FollowsPinned(columns, pinned, sortKeys)
  {
    var effective := columns[pinned..];
    forall i | 0 <= i < |sortKeys| ensures sortKeys[i] == (columns[pinned + i], false) {
      assert effective[i] == columns[pinned + i];
      OrderKeyIsIndexColumn(t, effective[i], orderBy[i].column, sortKeys[i].0);
    }
  }

  /** `order_matches` accepts exactly the orders that run on from the pinned columns, ascending. */
  lemma OrderMatchesIff(t: Table, columns: seq<nat>, pinned: nat, orderBy: seq<OrderKey>, sortKeys: seq<(nat, bool)>)
    requires pinned <= |columns| && ColumnsInRange(columns, |t.schema|) && SortKeysResolve(t, orderBy, sortKeys)
    ensures OrderMatches(columns, pinned, t.schema, orderBy) <==> orderBy != [] && FollowsPinned(columns, pinned, sortKeys)
  {
    var effective := columns[pinned..];
    if OrderMatches(columns, pinned, t.schema, orderBy) { SortKeysFollowPinned(t, columns, pinned, orderBy, sortKeys); }
    if FollowsPinned(columns, pinned, sortKeys) {
      forall i | 0 <= i < |orderBy|
        ensures !orderBy[i].descending && effective[i] < |t.schema| && t.schema[effective[i]].name == orderBy[i].column.name
      {
        assert effective[i] == columns[pinned + i] && sortKeys[i] == (columns[pinned + i], false);
        ResolveIsOnlyMatch(SingleScope(t.qualifier, t.schema), orderBy[i].column);
        assert OnlyMatch(SingleScope(t.qualifier, t.schema), orderBy[i].column, sortKeys[i].0);
      }
    }
  }

  /** Two rows of the planned range whose index keys are ordered agree with ORDER BY. */
  lemma ScannedPairInOrder(fpu: Fpu, t: Table, columns: seq<nat>, ps: seq<ColumnPredicate>, sortKeys: seq<(nat, bool)>,
                           ida: ByteString, idb: ByteString)
    requires ValidTable(t) && ColumnsInRange(columns, |t.schema|) && AllTyped(t.schema, ps) && PlanFor(columns, ps).Some?
    requires RowInRange(t, columns, PlanFor(columns, ps).value.lower, PlanFor(columns, ps).value.upper, ida)
    requires RowInRange(t, columns, PlanFor(columns, ps).value.lower, PlanFor(columns, ps).value.upper, idb)
    requires FollowsPinned(columns, |PinnedValues(columns, ps)|, sortKeys)
    requires Less(KeyOf(t, columns, ida), KeyOf(t, columns, idb))
    ensures InSortOrder(fpu, t, sortKeys, ida, idb)
  {
    hide PlanFor, CompareRows, Less, PinnedValues, IndexKey, HasType, FollowsPinned, InRange;
    var a, b := t.rows[ida].values, t.rows[idb].values;
    assert RowHasTypes(a, Types(t.schema)) && RowHasTypes(b, Types(t.schema));
    assert KeyOf(t, columns, ida) == IndexKey(a, columns, ida) && KeyOf(t, columns, idb) == IndexKey(b, columns, idb);
    RangeIsExact(fpu, t.schema, columns, ps, a, ida);
    RangeIsExact(fpu, t.schema, columns, ps, b, idb);
    RowPairInOrder(fpu, t.schema, columns, |PinnedValues(columns, ps)|, sortKeys, a, b, ida, idb);
  }

  lemma RowPairInOrder(fpu: Fpu, schema: Schema, columns: seq<nat>, pinned: nat, sortKeys: seq<(nat, bool)>,
                       a: Row, b: Row, ida: ByteString, idb: ByteString)
    requires ColumnsInRange(columns, |schema|) && RowHasTypes(a, Types(schema)) && RowHasTypes(b, Types(schema))
    requires FollowsPinned(columns, pinned, sortKeys)
    requires forall i :: 0 <= i < pinned ==> a[columns[i]] == b[columns[i]]
    requires Less(IndexKey(a, columns, ida), IndexKey(b, columns, idb))
    ensures forall i :: 0 <= i < |sortKeys| ==> sortKeys[i].0 < |a| && sortKeys[i].0 < |b|
    ensures CompareRows(fpu, sortKeys, a, b) != GreaterThan
  {
    hide TupleLess, CompareRows, Less, IndexKey, Project, HasType;
    KeyOrderIsTupleOrder(fpu, schema, columns, a, b, ida, idb);
    OrderedAfterPrefix(fpu, a, b, columns, pinned, sortKeys);
  }

  lemma KeyOrderIsTupleOrder(fpu: Fpu, schema: Schema, columns: seq<nat>, a: Row, b: Row, ida: ByteString, idb: ByteString)
    requires ColumnsInRange(columns, |schema|) && RowHasTypes(a, Types(schema)) && RowHasTypes(b, Types(schema))
    requires Less(IndexKey(a, columns, ida), IndexKey(b, columns, idb))
    ensures TupleLess(fpu, Project(a, columns), Project(b, columns)) || Project(a, columns) == Project(b, columns)
  {
    hide TupleLess, EncodeTuple, Less;
    var types := seq(|columns|, i requires 0 <= i < |columns| => schema[columns[i]].ty);
    EncodeTupleOrder(fpu, Project(a, columns), Project(b, columns), types, ida, idb);
  }

  /** `resolve_order_keys`: the positions the ORDER BY references resolve to. */
  ghost predicate SortKeysResolve(t: Table, orderBy: seq<OrderKey>, sortKeys: seq<(nat, bool)>) {
    |sortKeys| == |orderBy| && forall i :: 0 <= i < |orderBy| ==>
      Resolve(SingleScope(t.qualifier, t.schema), orderBy[i].column) == Ok(sortKeys[i].0) &&
      sortKeys[i].0 < |t.schema| && sortKeys[i].1 == orderBy[i].descending
  }

  /** Every scan `order_matches` accepts already delivers its kept rows in ORDER BY order. */
  lemma PresortedScanIsSorted(fpu: Fpu, t: Table, keys: seq<ByteString>, columns: seq<nat>, filter: Expr,
                              visible: (u64, u64) -> bool, plan: IndexPlan, orderBy: seq<OrderKey>,
                              sortKeys: seq<(nat, bool)>)
    requires ValidTable(t) && IndexSound(keys, t, columns)
    requires PlanFor(columns, PredicatesOf(fpu, t.schema, filter)) == Some(plan)
    requires OrderMatches(columns, plan.pinned, t.schema, orderBy) && SortKeysResolve(t, orderBy, sortKeys)
    ensures var kept := Kept(fpu, t, visible, Some(filter), IndexedIds(keys, plan.lower, plan.upper));
            forall i, j :: 0 <= i < j < |kept| ==> InSortOrder(fpu, t, sortKeys, kept[i], kept[j])
  {
    assert ColumnsInRange(columns, |t.schema|);
    hide PlanFor, PassesFilter, PredicatesOf, OrderMatches, SortKeysResolve, CompareRows, IndexedIds, Filter,
         IndexSound, KeyOf, FollowsPinned, AllTyped, RowInRange, HasEntry;
    var ids := IndexedIds(keys, plan.lower, plan.upper);
    var f := id => KeptRow(fpu, t, visible, Some(filter), id);
    var kept := Filter(f, ids);
    PlanPinned(columns, PredicatesOf(fpu, t.schema, filter));
    PredicatesTyped(fpu, t.schema, filter);
    SortKeysFollowPinned(t, columns, plan.pinned, orderBy, sortKeys);
    IndexedIdsFacts(t, keys, columns, plan.lower, plan.upper);
    IndexedIdsInKeyOrder(t, keys, columns, plan.lower, plan.upper);
    FilterKeepsPairs(f, (x, y) => Less(KeyOf(t, columns, x), KeyOf(t, columns, y)), ids);
    forall i, j | 0 <= i < j < |kept| ensures InSortOrder(fpu, t, sortKeys, kept[i], kept[j]) {
      FilterMembers(f, ids, kept[i]);
      FilterMembers(f, ids, kept[j]);
      ScannedPairInOrder(fpu, t, columns, PredicatesOf(fpu, t.schema, filter), sortKeys, kept[i], kept[j]);
    }
  }

  lemma PlanPinned(columns: seq<nat>, ps: seq<ColumnPredicate>)
    ensures PlanFor(columns, ps).Some? ==> PlanFor(columns, ps).value.pinned == |PinnedValues(columns, ps)| <= |columns|
  {
  }
}
