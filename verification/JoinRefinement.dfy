/** When the partitioned (grace) hash join and the index nested-loop join yield the nested loop's rows
    with the same multiplicity (engine/executor.rs). */
module JoinRefinement {
  import opened Bytes
  import opened Values
  import opened Expressions
  import opened IndexKeys
  import opened AccessPaths
  import opened Sequences
  import opened IndexScans
  import opened JoinSpec
  import opened JoinNarrowing

  // ---------------------------------------------------------------- grace hash join

  const HASH_PARTITIONS: nat := 16

  /** `partition_for`, for an arbitrary hash function; a NULL key goes to partition 0. */
  function PartitionOf(hash: ByteString -> nat, row: Row, column: nat): nat {
    match KeyAt(row, column)
    case None => 0
    case Some(key) => hash(key) % HASH_PARTITIONS
  }

  /** The rows of partition `p`, in input order. */
  function Partition(hash: ByteString -> nat, rows: seq<Row>, column: nat, p: nat): seq<Row> {
    if rows == [] then []
    else if PartitionOf(hash, rows[0], column) == p then [rows[0]] + Partition(hash, rows[1..], column, p)
    else Partition(hash, rows[1..], column, p)
  }

  /** The grace join from partition `p` on: one in-memory hash join per partition pair. */
  function GraceStream(j: Join, hash: ByteString -> nat, ls: seq<Row>, rs: seq<Row>, probe: nat, build: nat, p: nat): Stream
    requires p <= HASH_PARTITIONS
    decreases HASH_PARTITIONS - p
  {
    if p == HASH_PARTITIONS then Stream([], false)
    else Then(JoinStream(j, Partition(hash, ls, probe, p), Bucketed(Partition(hash, rs, build, p), build, probe)),
              GraceStream(j, hash, ls, rs, probe, build, p + 1))
  }

  /** A row's bucket lies wholly in its own partition. */
  lemma {:induction false} BucketInPartition(hash: ByteString -> nat, rs: seq<Row>, build: nat, key: ByteString, p: nat)
    requires p == hash(key) % HASH_PARTITIONS
    ensures Bucket(Partition(hash, rs, build, p), build, key) == Bucket(rs, build, key)
  {
    hide KeyAt;
    if rs != [] {
      BucketInPartition(hash, rs[1..], build, key, p);
      var rest := Partition(hash, rs[1..], build, p);
      assert ([rs[0]] + rest)[1..] == rest;
    }
  }

  /** In its own partition a left row has the candidates the unpartitioned hash join gives it. */
  lemma SameCandidates(hash: ByteString -> nat, l: Row, rs: seq<Row>, probe: nat, build: nat)
    ensures Candidates(Bucketed(Partition(hash, rs, build, PartitionOf(hash, l, probe)), build, probe), l)
         == Candidates(Bucketed(rs, build, probe), l)
  {
    var key := KeyAt(l, probe);
    if key.Some? { BucketInPartition(hash, rs, build, key.value, PartitionOf(hash, l, probe)); }
  }

  ghost predicate AllIn(hash: ByteString -> nat, ls: seq<Row>, probe: nat, p: nat) {
    forall l :: l in ls ==> PartitionOf(hash, l, probe) == p
  }

  lemma {:induction false} PartitionMembers(hash: ByteString -> nat, ls: seq<Row>, probe: nat, p: nat)
    ensures AllIn(hash, Partition(hash, ls, probe, p), probe, p)
    ensures forall l :: l in Partition(hash, ls, probe, p) ==> l in ls
  {
    if ls != [] { PartitionMembers(hash, ls[1..], probe, p); }
  }

  lemma {:induction false} PartitionJoin(j: Join, hash: ByteString -> nat, ls: seq<Row>, rs: seq<Row>, probe: nat, build: nat, p: nat)
    requires AllIn(hash, ls, probe, p)
    ensures JoinStream(j, ls, Bucketed(Partition(hash, rs, build, p), build, probe)) == JoinStream(j, ls, Bucketed(rs, build, probe))
  {
    hide Candidates, Emit, Partition, PartitionOf;
    if ls != [] {
      assert ls[0] in ls;
      SameCandidates(hash, ls[0], rs, probe, build);
      PartitionJoin(j, hash, ls[1..], rs, probe, build, p);
    }
  }

  ghost predicate NoneFail(j: Join, src: Source, ls: seq<Row>) {
    forall l :: l in ls ==> !Contribution(j, src, l).fails
  }

  lemma {:induction false} NoFailureMeansNoneFail(j: Join, src: Source, ls: seq<Row>)
    requires !JoinStream(j, ls, src).fails
    ensures NoneFail(j, src, ls)
  {
    hide Emit, Candidates;
    if ls != [] {
      NoFailureMeansNoneFail(j, src, ls[1..]);
      assert forall l :: l in ls <==> l == ls[0] || l in ls[1..];
    }
  }

  /** The rows of a partition's join, with those of one more left row in front of the input. */
  lemma PartitionStep(j: Join, hash: ByteString -> nat, ls: seq<Row>, src: Source, probe: nat, p: nat)
    requires ls != [] && NoneFail(j, src, ls)
    ensures JoinStream(j, Partition(hash, ls, probe, p), src)
         == if PartitionOf(hash, ls[0], probe) == p
            then Then(Contribution(j, src, ls[0]), JoinStream(j, Partition(hash, ls[1..], probe, p), src))
            else JoinStream(j, Partition(hash, ls[1..], probe, p), src)
  {
    hide Emit, Candidates, PartitionOf;
    var rest := Partition(hash, ls[1..], probe, p);
    assert ([ls[0]] + rest)[1..] == rest;
  }

  /** The grace join as concatenated sub-joins of one source. */
  function Parts(j: Join, hash: ByteString -> nat, ls: seq<Row>, src: Source, probe: nat, p: nat): Stream
    requires p <= HASH_PARTITIONS
    decreases HASH_PARTITIONS - p
  {
    if p == HASH_PARTITIONS then Stream([], false)
    else Then(JoinStream(j, Partition(hash, ls, probe, p), src), Parts(j, hash, ls, src, probe, p + 1))
  }

  lemma {:induction false} GraceIsParts(j: Join, hash: ByteString -> nat, ls: seq<Row>, rs: seq<Row>, probe: nat, build: nat, p: nat)
    requires p <= HASH_PARTITIONS
    ensures GraceStream(j, hash, ls, rs, probe, build, p) == Parts(j, hash, ls, Bucketed(rs, build, probe), probe, p)
    decreases HASH_PARTITIONS - p
  {
    hide JoinStream, Partition, AllIn;
    if p < HASH_PARTITIONS {
      PartitionMembers(hash, ls, probe, p);
      PartitionJoin(j, hash, Partition(hash, ls, probe, p), rs, probe, build, p);
      GraceIsParts(j, hash, ls, rs, probe, build, p + 1);
    }
  }

  lemma {:induction false} PartsStep(j: Join, hash: ByteString -> nat, ls: seq<Row>, src: Source, probe: nat, p: nat)
    requires p <= HASH_PARTITIONS && ls != [] && NoneFail(j, src, ls)
    requires !Parts(j, hash, ls[1..], src, probe, p).fails
    ensures !Parts(j, hash, ls, src, probe, p).fails
    ensures Counts(Parts(j, hash, ls, src, probe, p)) ==
            Counts(Parts(j, hash, ls[1..], src, probe, p)) +
            (if p <= PartitionOf(hash, ls[0], probe) then Counts(Contribution(j, src, ls[0])) else multiset{})
    decreases HASH_PARTITIONS - p
  {
    hide JoinStream, Partition, Contribution, KeyAt;
    if p < HASH_PARTITIONS {
      PartitionStep(j, hash, ls, src, probe, p);
      PartsStep(j, hash, ls, src, probe, p + 1);
      assert ls[0] in ls;
    } else {
      assert PartitionOf(hash, ls[0], probe) < HASH_PARTITIONS;
    }
  }

  lemma {:induction false} PartsCount(j: Join, hash: ByteString -> nat, ls: seq<Row>, src: Source, probe: nat)
    requires !JoinStream(j, ls, src).fails
    ensures !Parts(j, hash, ls, src, probe, 0).fails
    ensures Counts(Parts(j, hash, ls, src, probe, 0)) == Counts(JoinStream(j, ls, src))
  {
    if ls == [] {
      NoParts(j, hash, src, probe, 0);
    } else {
      NoFailureMeansNoneFail(j, src, ls);
      JoinStreamStep(j, ls, src);
      hide *;
      PartsCount(j, hash, ls[1..], src, probe);
      PartsStep(j, hash, ls, src, probe, 0);
    }
  }

  lemma {:induction false} NoParts(j: Join, hash: ByteString -> nat, src: Source, probe: nat, p: nat)
    requires p <= HASH_PARTITIONS
    ensures Parts(j, hash, [], src, probe, p) == Stream([], false)
    decreases HASH_PARTITIONS - p
  {
    if p < HASH_PARTITIONS { NoParts(j, hash, src, probe, p + 1); }
  }

  /** For any hash function the grace join yields the rows of the hash join, with multiplicity. */
  lemma GraceJoinEqualsHashJoin(j: Join, hash: ByteString -> nat, ls: seq<Row>, rs: seq<Row>, probe: nat, build: nat)
    requires !JoinStream(j, ls, Bucketed(rs, build, probe)).fails
    ensures !GraceStream(j, hash, ls, rs, probe, build, 0).fails
    ensures multiset(GraceStream(j, hash, ls, rs, probe, build, 0).rows) == multiset(JoinStream(j, ls, Bucketed(rs, build, probe)).rows)
  {
    hide JoinStream, GraceStream, Parts;
    GraceIsParts(j, hash, ls, rs, probe, build, 0);
    PartsCount(j, hash, ls, Bucketed(rs, build, probe), probe);
  }

  /** For any hash function: if the nested loop raises no error, neither does the grace join, and it yields
      the same rows with the same multiplicity exactly when ON accepts no pair with opposite zeros in the
      key columns. */
  lemma GraceJoinEqualsNestedLoop(j: Join, hash: ByteString -> nat, ls: seq<Row>, rs: seq<Row>, probe: nat, build: nat)
    requires PairsUp(j) && EquiOn(j, probe, build) && TypedInputs(j, ls, rs)
    requires !JoinStream(j, ls, Whole(rs)).fails
    ensures !GraceStream(j, hash, ls, rs, probe, build, 0).fails
    ensures multiset(GraceStream(j, hash, ls, rs, probe, build, 0).rows) == multiset(JoinStream(j, ls, Whole(rs)).rows)
       <==> NoOpposedPair(j, ls, rs, probe, build)
  {
    hide JoinStream, GraceStream, EquiOn, TypedInputs, NoOpposedPair;
    HashJoinEqualsNestedLoop(j, ls, rs, probe, build);
    GraceJoinEqualsHashJoin(j, hash, ls, rs, probe, build);
  }

  // ---------------------------------------------------------------- index nested-loop join

  /** The rows a full scan of the inner table feeds the nested loop. */
  function ScannedRows(t: Table, visible: (u64, u64) -> bool): seq<Row> {
    RowsOf(t, VisibleIds(t, visible, t.ids))
  }

  predicate IdMatches(j: Join, l: Row, t: Table, id: ByteString) {
    id in t.rows && OnResult(j, l, t.rows[id].values) == Ok(true)
  }

  /** The matching rows, seen through the rowids they come from. */
  lemma {:induction false} MatchingByIds(j: Join, l: Row, t: Table, ids: seq<ByteString>)
    requires forall id :: id in ids ==> id in t.rows
    ensures Matching(j, l, RowsOf(t, ids)) == RowsOf(t, Filter(id => IdMatches(j, l, t, id), ids))
  {
    hide OnResult;
    if ids != [] {
      MatchingByIds(j, l, t, ids[1..]);
      assert ids[0] in ids;
      var f := id => IdMatches(j, l, t, id);
      var kept := Filter(f, ids[1..]);
      assert RowsOf(t, ids)[1..] == RowsOf(t, ids[1..]);
      if f(ids[0]) {
        assert Filter(f, ids) == [ids[0]] + kept;
        assert ([ids[0]] + kept)[1..] == kept;
      } else {
        assert Filter(f, ids) == kept;
      }
    }
  }

  lemma {:induction false} RowsOfSameIds(t: Table, a: seq<ByteString>, b: seq<ByteString>)
    requires multiset(a) == multiset(b)
    ensures multiset(RowsOf(t, a)) == multiset(RowsOf(t, b))
    decreases |a|
  {
    if a != [] {
      var k := RemoveShared(a, b);
      var rest := b[..k] + b[k + 1..];
      assert a == [a[0]] + a[1..];
      RowsOfSameIds(t, a[1..], rest);
      RowsOfSplit(t, b[..k], [b[k]] + b[k + 1..]);
      RowsOfSplit(t, [b[k]], b[k + 1..]);
      RowsOfSplit(t, b[..k], b[k + 1..]);
      RowsOfSplit(t, [a[0]], a[1..]);
      hide RowsOf;
    } else {
      assert b == [] by { assert |multiset(b)| == 0; }
    }
  }

  lemma RowsOfSplit(t: Table, a: seq<ByteString>, b: seq<ByteString>)
    ensures RowsOf(t, a + b) == RowsOf(t, a) + RowsOf(t, b)
  {
  }

  /** The join is `left column = leading index column`. */
  ghost predicate IndexOn(j: Join, columns: seq<nat>, probe: nat) {
    columns != [] && EquiOn(j, probe, columns[0])
  }

  ghost predicate TypedTableFor(j: Join, l: Row, t: Table) {
    |l| + j.rightWidth == |j.scope| && forall id :: id in t.rows ==> TypedPair(j, l, t.rows[id].values)
  }

  /** A row whose leading index column equals the key lies in the probed range. */
  lemma MatchInProbedRange(t: Table, columns: seq<nat>, id: ByteString, key: ByteString)
    requires id in t.rows && columns != [] && ColumnsInRange(columns, |t.rows[id].values|)
    requires KeyAt(t.rows[id].values, columns[0]) == Some(key)
    ensures RowInRange(t, columns, key, UpperBound(key), id)
  {
    var row := t.rows[id].values;
    var full := IndexKey(row, columns, id);
    hide EncodeValue, UpperBound, Less;
    ConcatAssoc(key, EncodeTuple(Project(row, columns)[1..]), id);
    assert IsPrefix(key, full) by { assert full[..|key|] == key; }
    PrefixIsAtMost(key, full);
    UpperBoundIsExact(key, full);
  }

  /** A row in the probed range starts with the key, so its leading column does. */
  lemma ProbedRangeStartsWithKey(fpu: Fpu, t: Table, columns: seq<nat>, id: ByteString, v: Value, ty: Type)
    requires id in t.rows && columns != [] && ColumnsInRange(columns, |t.rows[id].values|)
    requires HasType(v, ty) && HasType(t.rows[id].values[columns[0]], ty)
    requires RowInRange(t, columns, EncodeValue(v), UpperBound(EncodeValue(v)), id)
    ensures t.rows[id].values[columns[0]] == v
  {
    var row, key := t.rows[id].values, EncodeValue(v);
    var full := IndexKey(row, columns, id);
    hide EncodeValue, UpperBound, Less;
    UpperBoundIsExact(key, full);
    assert IsPrefix(key, full);
    var lead := EncodeValue(row[columns[0]]);
    ConcatAssoc(lead, EncodeTuple(Project(row, columns)[1..]), id);
    assert IsPrefix(lead, full) by { assert full[..|lead|] == lead; }
    PrefixesNest(key, lead, full);
    EncodeValueOrder(fpu, v, row[columns[0]], ty);
    EncodeValueOrder(fpu, row[columns[0]], v, ty);
  }

  lemma PrefixesNest(a: ByteString, b: ByteString, s: ByteString)
    requires IsPrefix(a, s) && IsPrefix(b, s)
    ensures IsPrefix(a, b) || IsPrefix(b, a)
  {
    if |a| <= |b| { assert b[..|a|] == s[..|a|]; } else { assert a[..|b|] == s[..|b|]; }
  }

  /** A match the index leads to: the row has its entry, and the equated columns hold no opposite zeros. */
  ghost predicate Served(l: Row, t: Table, keys: seq<ByteString>, columns: seq<nat>, probe: nat, id: ByteString) {
    columns != [] && HasEntry(t, keys, columns, id) && !ZerosOpposed(l, t.rows[id].values, probe, columns[0])
  }

  lemma VisibleIdsAreRows(t: Table, visible: (u64, u64) -> bool, ids: seq<ByteString>)
    ensures forall id :: id in VisibleIds(t, visible, ids) <==> id in ids && VisibleIn(t, visible, id)
  {
    forall id ensures id in VisibleIds(t, visible, ids) <==> id in ids && VisibleIn(t, visible, id) {
      FilterMembers(id => VisibleIn(t, visible, id), ids, id);
    }
  }

  /** The ids one left row is led to. */
  function LookedUp(t: Table, keys: seq<ByteString>, visible: (u64, u64) -> bool, key: Option<ByteString>): seq<ByteString> {
    match key
    case None => []
    case Some(k) => VisibleIds(t, visible, IndexedIds(keys, k, UpperBound(k)))
  }

  lemma LookedUpFacts(t: Table, keys: seq<ByteString>, columns: seq<nat>, visible: (u64, u64) -> bool, key: Option<ByteString>)
    requires ValidTable(t) && IndexSound(keys, t, columns)
    ensures Distinct(LookedUp(t, keys, visible, key))
    ensures forall id :: id in LookedUp(t, keys, visible, key) <==>
              key.Some? && VisibleIn(t, visible, id) && HasEntry(t, keys, columns, id) &&
              RowInRange(t, columns, key.value, UpperBound(key.value), id)
  {
    hide IndexedIds, RowInRange, HasEntry, UpperBound, ValidTable, IndexSound;
    if key.Some? {
      var ids := IndexedIds(keys, key.value, UpperBound(key.value));
      IndexedIdsFacts(t, keys, columns, key.value, UpperBound(key.value));
      FilterDistinct(id => VisibleIn(t, visible, id), ids);
      VisibleIdsAreRows(t, visible, ids);
    }
  }

  /** For a match, being in the probed range is having no opposite zeros. */
  lemma MatchInRangeIff(j: Join, l: Row, t: Table, columns: seq<nat>, probe: nat, id: ByteString)
    requires IndexOn(j, columns, probe) && TypedTableFor(j, l, t) && IdMatches(j, l, t, id)
    requires ColumnsInRange(columns, |t.rows[id].values|)
    ensures KeyAt(l, probe).Some?
    ensures RowInRange(t, columns, KeyAt(l, probe).value, UpperBound(KeyAt(l, probe).value), id)
       <==> !ZerosOpposed(l, t.rows[id].values, probe, columns[0])
  {
    var row := t.rows[id].values;
    hide OnResult, EquiOn, EncodeValue, UpperBound, RowInRange, RowHasTypes;
    MatchSharesKey(j, l, row, probe, columns[0]);
    if ZerosOpposed(l, row, probe, columns[0]) {
      OpposedOutOfRange(j.fpu, l, t, columns, probe, id);
    } else {
      MatchInProbedRange(t, columns, id, KeyAt(l, probe).value);
    }
  }

  lemma OpposedOutOfRange(fpu: Fpu, l: Row, t: Table, columns: seq<nat>, probe: nat, id: ByteString)
    requires id in t.rows && columns != [] && ColumnsInRange(columns, |t.rows[id].values|)
    requires ZerosOpposed(l, t.rows[id].values, probe, columns[0])
    ensures !RowInRange(t, columns, EncodeValue(l[probe]), UpperBound(EncodeValue(l[probe])), id)
  {
    hide EncodeValue, UpperBound, RowInRange;
    if RowInRange(t, columns, EncodeValue(l[probe]), UpperBound(EncodeValue(l[probe])), id) {
      ProbedRangeStartsWithKey(fpu, t, columns, id, l[probe], RealType);
    }
  }

  /** Through the index a left row meets exactly the served ones of the matches a full scan gives it. */
  lemma LookedUpMatches(j: Join, l: Row, t: Table, keys: seq<ByteString>, columns: seq<nat>, visible: (u64, u64) -> bool,
                        probe: nat, id: ByteString)
    requires ValidTable(t) && IndexSound(keys, t, columns) && IndexOn(j, columns, probe) && TypedTableFor(j, l, t)
    requires IdMatches(j, l, t, id)
    ensures id in LookedUp(t, keys, visible, KeyAt(l, probe)) <==> VisibleIn(t, visible, id) && Served(l, t, keys, columns, probe, id)
  {
    assert ColumnsInRange(columns, |t.rows[id].values|);
    hide ValidTable, IndexSound, IndexOn, TypedTableFor, IdMatches, HasEntry, RowInRange, LookedUp, ZerosOpposed, KeyAt, UpperBound;
    assert columns != [] by { IndexOnFacts(j, columns, probe); }
    LookedUpFacts(t, keys, columns, visible, KeyAt(l, probe));
    MatchInRangeIff(j, l, t, columns, probe, id);
  }

  lemma IndexOnFacts(j: Join, columns: seq<nat>, probe: nat)
    requires IndexOn(j, columns, probe)
    ensures columns != [] && EquiOn(j, probe, columns[0])
  {
    hide EquiOn;
  }

  /** What passes `f` splits into what passes `g` as well and what does not. */
  lemma {:induction false} FilterBoth<T(!new)>(f: T -> bool, g: T -> bool, both: T -> bool, only: T -> bool, s: seq<T>)
    requires forall x :: both(x) == (f(x) && g(x)) && only(x) == (f(x) && !g(x))
    ensures multiset(Filter(f, s)) == multiset(Filter(both, s)) + multiset(Filter(only, s))
  {
    if s != [] { FilterBoth(f, g, both, only, s[1..]); }
  }

  /** Every visible match of the left row is served. */
  ghost predicate AllServed(j: Join, l: Row, t: Table, keys: seq<ByteString>, columns: seq<nat>, visible: (u64, u64) -> bool, probe: nat) {
    forall id :: VisibleIn(t, visible, id) && IdMatches(j, l, t, id) ==> Served(l, t, keys, columns, probe, id)
  }

  /** The scanned ids whose rows match. */
  ghost function MatchedIds(j: Join, l: Row, t: Table, ids: seq<ByteString>): seq<ByteString> {
    Filter(id => IdMatches(j, l, t, id), ids)
  }

  /** Those of them the index does not lead to. */
  ghost function MissedIds(j: Join, l: Row, t: Table, keys: seq<ByteString>, columns: seq<nat>, probe: nat,
                           ids: seq<ByteString>): seq<ByteString> {
    Filter(id => IdMatches(j, l, t, id) && !Served(l, t, keys, columns, probe, id), ids)
  }

  lemma MatchedSplit(j: Join, l: Row, t: Table, keys: seq<ByteString>, columns: seq<nat>, probe: nat, ids: seq<ByteString>)
    requires Distinct(ids)
    ensures var served := Filter(id => IdMatches(j, l, t, id) && Served(l, t, keys, columns, probe, id), ids);
            multiset(MatchedIds(j, l, t, ids)) == multiset(served) + multiset(MissedIds(j, l, t, keys, columns, probe, ids)) &&
            Distinct(served) && forall id :: id in served <==> id in ids && IdMatches(j, l, t, id) && Served(l, t, keys, columns, probe, id)
  {
    hide IdMatches, Served;
    var f, g := id => IdMatches(j, l, t, id), id => Served(l, t, keys, columns, probe, id);
    var h := id => IdMatches(j, l, t, id) && Served(l, t, keys, columns, probe, id);
    FilterBoth(f, g, h, id => IdMatches(j, l, t, id) && !Served(l, t, keys, columns, probe, id), ids);
    FilterDistinct(h, ids);
    forall id ensures id in Filter(h, ids) <==> id in ids && h(id) { FilterMembers(h, ids, id); }
  }

  /** The matches through the index are among the scan's, and all of them exactly when all are served. */
  lemma LookupNarrows(j: Join, l: Row, t: Table, keys: seq<ByteString>, columns: seq<nat>, visible: (u64, u64) -> bool, probe: nat)
    requires ValidTable(t) && IndexSound(keys, t, columns) && IndexOn(j, columns, probe) && TypedTableFor(j, l, t)
    ensures Narrows(j, l, Candidates(Indexed(t, keys, columns, visible, probe), l), ScannedRows(t, visible))
    ensures SameMatches(j, l, Candidates(Indexed(t, keys, columns, visible, probe), l), ScannedRows(t, visible))
       <==> AllServed(j, l, t, keys, columns, visible, probe)
  {
    hide *;
    var looked, scanned := LookedUp(t, keys, visible, KeyAt(l, probe)), VisibleIds(t, visible, t.ids);
    CandidatesLookedUp(t, keys, columns, visible, probe, l);
    LookupRowsAreScanned(t, keys, columns, visible, probe, l);
    MatchingIds(j, l, t, keys, columns, visible, probe);
    SplitByServed(j, l, t, keys, columns, visible, probe);
    var few, missed, all := MatchedIds(j, l, t, looked), MissedIds(j, l, t, keys, columns, probe, scanned), MatchedIds(j, l, t, scanned);
    RowsSplit(t, few, missed, all);
    NothingMissed(t, few, missed, all);
    NoneMissedIff(j, l, t, keys, columns, visible, probe);
    NarrowsByRows(j, l, Candidates(Indexed(t, keys, columns, visible, probe), l), ScannedRows(t, visible),
                  multiset(RowsOf(t, few)), multiset(RowsOf(t, missed)), multiset(RowsOf(t, all)));
  }

  lemma NarrowsByRows(j: Join, l: Row, cs: seq<Row>, rs: seq<Row>, few: multiset<Row>, missed: multiset<Row>, all: multiset<Row>)
    requires (forall r :: r in cs ==> r in rs) && multiset(Matching(j, l, cs)) == few && multiset(Matching(j, l, rs)) == all
    requires all == few + missed
    ensures Narrows(j, l, cs, rs) && (SameMatches(j, l, cs, rs) <==> few == all)
  {
    hide Matching;
  }

  lemma CandidatesLookedUp(t: Table, keys: seq<ByteString>, columns: seq<nat>, visible: (u64, u64) -> bool, probe: nat, l: Row)
    ensures Candidates(Indexed(t, keys, columns, visible, probe), l) == RowsOf(t, LookedUp(t, keys, visible, KeyAt(l, probe)))
    ensures ScannedRows(t, visible) == RowsOf(t, VisibleIds(t, visible, t.ids))
  {
  }

  lemma MatchingIds(j: Join, l: Row, t: Table, keys: seq<ByteString>, columns: seq<nat>, visible: (u64, u64) -> bool, probe: nat)
    requires ValidTable(t) && IndexSound(keys, t, columns)
    ensures var looked, scanned := LookedUp(t, keys, visible, KeyAt(l, probe)), VisibleIds(t, visible, t.ids);
            Matching(j, l, RowsOf(t, looked)) == RowsOf(t, MatchedIds(j, l, t, looked)) &&
            Matching(j, l, RowsOf(t, scanned)) == RowsOf(t, MatchedIds(j, l, t, scanned))
  {
    var looked, scanned := LookedUp(t, keys, visible, KeyAt(l, probe)), VisibleIds(t, visible, t.ids);
    hide KeyAt, LookedUp, VisibleIds, RowsOf, OnResult, Matching, IndexSound, ValidTable, HasEntry, RowInRange, Filter;
    LookedUpFacts(t, keys, columns, visible, KeyAt(l, probe));
    VisibleIdsAreRows(t, visible, t.ids);
    MatchingByIds(j, l, t, looked);
    MatchingByIds(j, l, t, scanned);
  }

  lemma NoneMissedIff(j: Join, l: Row, t: Table, keys: seq<ByteString>, columns: seq<nat>, visible: (u64, u64) -> bool, probe: nat)
    requires ValidTable(t)
    ensures MissedIds(j, l, t, keys, columns, probe, VisibleIds(t, visible, t.ids)) == []
       <==> AllServed(j, l, t, keys, columns, visible, probe)
  {
    var scanned := VisibleIds(t, visible, t.ids);
    var missed := MissedIds(j, l, t, keys, columns, probe, scanned);
    VisibleIdsAreRows(t, visible, t.ids);
    assert missed != [] ==> missed[0] in missed;
    hide IdMatches, Served, VisibleIds, Filter;
    forall id ensures id in missed <==> VisibleIn(t, visible, id) && IdMatches(j, l, t, id) && !Served(l, t, keys, columns, probe, id) {
      FilterMembers(id => IdMatches(j, l, t, id) && !Served(l, t, keys, columns, probe, id), scanned, id);
    }
  }

  lemma SplitByServed(j: Join, l: Row, t: Table, keys: seq<ByteString>, columns: seq<nat>, visible: (u64, u64) -> bool, probe: nat)
    requires ValidTable(t) && IndexSound(keys, t, columns) && IndexOn(j, columns, probe) && TypedTableFor(j, l, t)
    ensures var looked, scanned := LookedUp(t, keys, visible, KeyAt(l, probe)), VisibleIds(t, visible, t.ids);
            multiset(MatchedIds(j, l, t, scanned)) ==
            multiset(MatchedIds(j, l, t, looked)) + multiset(MissedIds(j, l, t, keys, columns, probe, scanned))
  {
    var looked, scanned := LookedUp(t, keys, visible, KeyAt(l, probe)), VisibleIds(t, visible, t.ids);
    var f := id => IdMatches(j, l, t, id);
    var served := Filter(id => IdMatches(j, l, t, id) && Served(l, t, keys, columns, probe, id), scanned);
    SortedIsDistinct(t.ids);
    FilterDistinct(id => VisibleIn(t, visible, id), t.ids);
    MatchedSplit(j, l, t, keys, columns, probe, scanned);
    hide KeyAt, LookedUp, IndexOn, TypedTableFor, IdMatches, Served, IndexSound, MissedIds, Filter, VisibleIds, HasEntry, RowInRange;
    LookedUpFacts(t, keys, columns, visible, KeyAt(l, probe));
    VisibleIdsAreRows(t, visible, t.ids);
    FilterDistinct(f, looked);
    forall id ensures id in Filter(f, looked) <==> id in served {
      FilterMembers(f, looked, id);
      if f(id) { LookedUpMatches(j, l, t, keys, columns, visible, probe, id); }
    }
    DistinctSameMembers(Filter(f, looked), served);
  }

  lemma RowsSplit(t: Table, a: seq<ByteString>, b: seq<ByteString>, all: seq<ByteString>)
    requires multiset(all) == multiset(a) + multiset(b)
    ensures multiset(RowsOf(t, all)) == multiset(RowsOf(t, a)) + multiset(RowsOf(t, b))
  {
    hide RowsOf;
    assert multiset(a + b) == multiset(all);
    RowsOfSameIds(t, all, a + b);
    RowsOfSplit(t, a, b);
  }

  lemma NothingMissed(t: Table, a: seq<ByteString>, b: seq<ByteString>, all: seq<ByteString>)
    requires multiset(RowsOf(t, all)) == multiset(RowsOf(t, a)) + multiset(RowsOf(t, b))
    ensures multiset(RowsOf(t, a)) == multiset(RowsOf(t, all)) <==> b == []
  {
    var rows := multiset(RowsOf(t, b));
    assert |rows| == |RowsOf(t, b)|;
    if multiset(RowsOf(t, a)) == multiset(RowsOf(t, all)) { assert rows == multiset{}; }
  }

  lemma LookupRowsAreScanned(t: Table, keys: seq<ByteString>, columns: seq<nat>, visible: (u64, u64) -> bool, probe: nat, l: Row)
    requires ValidTable(t) && IndexSound(keys, t, columns)
    ensures forall r :: r in Candidates(Indexed(t, keys, columns, visible, probe), l) ==> r in ScannedRows(t, visible)
  {
    hide IndexedIds, UpperBound, IndexSound;
    var key := KeyAt(l, probe);
    if key.Some? {
      var ids := IndexedIds(keys, key.value, UpperBound(key.value));
      var looked := VisibleIds(t, visible, ids);
      VisibleIdsAreRows(t, visible, ids);
      VisibleIdsAreRows(t, visible, t.ids);
      forall r | r in RowsOf(t, looked) ensures r in ScannedRows(t, visible) {
        var k :| 0 <= k < |looked| && RowsOf(t, looked)[k] == r;
        assert looked[k] in looked && looked[k] in VisibleIds(t, visible, t.ids);
        MapMember(id => if id in t.rows then t.rows[id].values else [], VisibleIds(t, visible, t.ids), looked[k]);
        MapSame(t, VisibleIds(t, visible, t.ids), looked[k]);
      }
    }
  }

  lemma MapSame(t: Table, ids: seq<ByteString>, id: ByteString)
    requires id in ids && id in t.rows
    ensures t.rows[id].values in RowsOf(t, ids)
  {
    var k :| 0 <= k < |ids| && ids[k] == id;
    assert RowsOf(t, ids)[k] == t.rows[id].values;
  }

  /** Every visible row a left row matches has its key in the index, and no such pair has opposite zeros in
      the equated columns. */
  ghost predicate EveryMatchServed(j: Join, ls: seq<Row>, t: Table, keys: seq<ByteString>, columns: seq<nat>,
                                   visible: (u64, u64) -> bool, probe: nat) {
    forall l :: l in ls ==> AllServed(j, l, t, keys, columns, visible, probe)
  }

  /** Over an index with no dangling key, finished or still being built: if the nested loop over a full scan
      raises no error, neither does the index join, and it yields the same rows with the same multiplicity
      exactly when every match is served. */
  lemma IndexJoinEqualsNestedLoop(j: Join, ls: seq<Row>, t: Table, keys: seq<ByteString>, columns: seq<nat>,
                                  visible: (u64, u64) -> bool, probe: nat)
    requires ValidTable(t) && IndexSound(keys, t, columns) && IndexOn(j, columns, probe) && PairsUp(j)
    requires forall l :: l in ls ==> TypedTableFor(j, l, t)
    requires !JoinStream(j, ls, Whole(ScannedRows(t, visible))).fails
    ensures !JoinStream(j, ls, Indexed(t, keys, columns, visible, probe)).fails
    ensures multiset(JoinStream(j, ls, Indexed(t, keys, columns, visible, probe)).rows)
         == multiset(JoinStream(j, ls, Whole(ScannedRows(t, visible))).rows)
       <==> EveryMatchServed(j, ls, t, keys, columns, visible, probe)
  {
    hide ValidTable, IndexSound, JoinStream, ScannedRows, AllServed, Narrows, SameMatches, MatchesFill;
    var fast, full := Indexed(t, keys, columns, visible, probe), Whole(ScannedRows(t, visible));
    hide EquiOn;
    EquiColumnInRange(j, probe, columns[0]);
    forall l | l in ls
      ensures Narrows(j, l, Candidates(fast, l), Candidates(full, l)) && MatchesFill(j, l, Candidates(full, l), columns[0])
      ensures SameMatches(j, l, Candidates(fast, l), Candidates(full, l)) <==> AllServed(j, l, t, keys, columns, visible, probe)
    {
      LookupNarrows(j, l, t, keys, columns, visible, probe);
      ScannedTyped(j, l, t, visible);
      KeysFill(j, l, ScannedRows(t, visible), probe, columns[0]);
      assert Candidates(full, l) == ScannedRows(t, visible);
    }
    hide Candidates;
    NarrowJoinSameIff(j, ls, fast, full, columns[0]);
  }

  lemma ScannedTyped(j: Join, l: Row, t: Table, visible: (u64, u64) -> bool)
    requires TypedTableFor(j, l, t)
    ensures TypedPairs(j, l, ScannedRows(t, visible))
  {
    hide TypedPair;
    VisibleIdsAreRows(t, visible, t.ids);
    var ids := VisibleIds(t, visible, t.ids);
    forall r | r in RowsOf(t, ids) ensures TypedPair(j, l, r) {
      var k :| 0 <= k < |ids| && RowsOf(t, ids)[k] == r;
      assert ids[k] in ids && ids[k] in t.rows;
    }
  }

  lemma ScannedMembers(t: Table, visible: (u64, u64) -> bool, r: Row)
    requires ValidTable(t)
    ensures r in ScannedRows(t, visible) <==> exists id :: VisibleIn(t, visible, id) && t.rows[id].values == r
  {
    var ids := VisibleIds(t, visible, t.ids);
    VisibleIdsAreRows(t, visible, t.ids);
    hide VisibleIds;
    if id :| VisibleIn(t, visible, id) && t.rows[id].values == r { MapSame(t, ids, id); }
    if r in RowsOf(t, ids) {
      var k :| 0 <= k < |ids| && RowsOf(t, ids)[k] == r;
      assert ids[k] in ids && VisibleIn(t, visible, ids[k]);
    }
  }

  lemma ExactServesRow(j: Join, l: Row, t: Table, keys: seq<ByteString>, columns: seq<nat>,
                       visible: (u64, u64) -> bool, probe: nat)
    requires ValidTable(t) && IndexExact(keys, t, columns) && columns != []
    ensures AllServed(j, l, t, keys, columns, visible, probe) <==> NoneLost(j, l, ScannedRows(t, visible), probe, columns[0])
  {
    assert forall id :: id in t.rows ==> HasEntry(t, keys, columns, id);
    hide OnResult, ZerosOpposed, HasEntry, ScannedRows, IndexExact, ValidTable;
    var rs := ScannedRows(t, visible);
    if AllServed(j, l, t, keys, columns, visible, probe) {
      forall r | r in rs ensures !Lost(j, l, r, probe, columns[0]) {
        ScannedMembers(t, visible, r);
        var id :| VisibleIn(t, visible, id) && t.rows[id].values == r;
        assert IdMatches(j, l, t, id) ==> Served(l, t, keys, columns, probe, id);
      }
    }
    if NoneLost(j, l, rs, probe, columns[0]) {
      forall id | VisibleIn(t, visible, id) && IdMatches(j, l, t, id) ensures Served(l, t, keys, columns, probe, id) {
        ScannedMembers(t, visible, t.rows[id].values);
        assert !Lost(j, l, t.rows[id].values, probe, columns[0]);
      }
    }
  }

  /** Through an exact index only opposite zeros can be missed. */
  lemma ExactIndexServes(j: Join, ls: seq<Row>, t: Table, keys: seq<ByteString>, columns: seq<nat>,
                         visible: (u64, u64) -> bool, probe: nat)
    requires ValidTable(t) && IndexExact(keys, t, columns) && columns != []
    ensures EveryMatchServed(j, ls, t, keys, columns, visible, probe)
       <==> NoOpposedPair(j, ls, ScannedRows(t, visible), probe, columns[0])
  {
    hide AllServed, NoneLost, ValidTable, IndexExact, ScannedRows;
    forall l ensures AllServed(j, l, t, keys, columns, visible, probe) <==> NoneLost(j, l, ScannedRows(t, visible), probe, columns[0]) {
      ExactServesRow(j, l, t, keys, columns, visible, probe);
    }
  }
}
