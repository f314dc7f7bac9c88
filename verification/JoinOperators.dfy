/** The join operators with their cursors: each call hands out the next row, or the next batch, of the
    join's stream (engine/executor.rs). */
module JoinOperators {
  import opened Bytes
  import opened Values
  import opened Expressions
  import opened IndexKeys
  import opened Sequences
  import opened AccessPaths
  import opened IndexScans
  import opened RowCodec
  import opened JoinSpec
  import opened JoinRefinement

  /** One `next` call: the first row of the stream, its error, or its end. */
  predicate Advances(before: Stream, r: Result<Option<Row>>, after: Stream) {
    if before.rows != [] then r == Ok(Some(before.rows[0])) && after == Stream(before.rows[1..], before.fails)
    else if before.fails then r.Err?
    else r == Ok(None) && after == before
  }

  /** One `next_batch` call: `size` rows while that many remain; an error before then loses the batch. */
  predicate AdvancesBatch(before: Stream, size: nat, r: Result<Option<seq<Row>>>, after: Stream) {
    if |before.rows| >= size then r == Ok(Some(before.rows[..size])) && after == Stream(before.rows[size..], before.fails)
    else if before.fails then r.Err?
    else r == Ok(if before.rows == [] then None else Some(before.rows)) && after == Stream([], false)
  }

  lemma ThenEmpty(s: Stream)
    ensures Then(Stream([], false), s) == s && Then(s, Stream([], false)) == s
  {
    assert [] + s.rows == s.rows && s.rows + [] == s.rows;
  }

  lemma ThenCons(row: Row, a: Stream, b: Stream)
    ensures Then(Cons(row, a), b) == Cons(row, Then(a, b))
  {
    ConcatAssoc([row], a.rows, b.rows);
  }

  lemma EmitTail(j: Join, l: Row, rs: seq<Row>, k: nat, matched: bool)
    requires k < |rs|
    ensures Emit(j, l, rs[k..], matched) ==
      match OnResult(j, l, rs[k])
      case Err(_) => Stream([], true)
      case Ok(false) => Emit(j, l, rs[k + 1..], matched)
      case Ok(true) =>
        if j.kind == SemiJoin then Stream([l], false)
        else if j.kind == AntiJoin then Stream([], false)
        else Cons(l + rs[k], Emit(j, l, rs[k + 1..], true))
  {
    assert rs[k..][0] == rs[k] && rs[k..][1..] == rs[k + 1..];
  }

  lemma EmitSpent(j: Join, l: Row, rs: seq<Row>, k: nat, matched: bool)
    requires k == |rs|
    ensures Emit(j, l, rs[k..], matched) == Stream(AtEnd(j, l, matched), false)
  {
  }

  /** What a left row yields from the moment candidate `k - 1` matches. */
  function OnMatch(j: Join, l: Row, rows: seq<Row>, k: nat): Stream
    requires 0 < k <= |rows|
  {
    if j.kind == SemiJoin then Stream([l], false)
    else if j.kind == AntiJoin then Stream([], false)
    else Cons(l + rows[k - 1], Emit(j, l, rows[k..], true))
  }

  /** What trying the current left row did to a stream. */
  predicate Tried(before: Stream, r: Result<Option<Row>>, after: Stream) {
    match r
    case Err(_) => before == Stream([], true)
    case Ok(Some(row)) => before == Cons(row, after)
    case Ok(None) => before == after
  }

  lemma EndAdvances()
    ensures Advances(Stream([], false), Ok(None), Stream([], false))
  {
  }

  lemma TriedAdvances(before: Stream, r: Result<Option<Row>>, after: Stream)
    requires Tried(before, r, after) && r != Ok(None)
    ensures Advances(before, r, after)
  {
    if r.Ok? { assert ([r.value.value] + after.rows)[1..] == after.rows; }
  }

  /** The pairing loop every operator runs: from `pos`, the next candidate ON accepts (just before `k`),
      the first error, or the end. */
  method NextMatch(j: Join, l: Row, rows: seq<Row>, pos: nat, ghost matched: bool) returns (r: Result<bool>, k: nat)
    requires pos <= |rows|
    ensures pos <= k <= |rows|
    ensures r.Err? ==> Emit(j, l, rows[pos..], matched) == Stream([], true)
    ensures r == Ok(true) ==> pos < k && Emit(j, l, rows[pos..], matched) == OnMatch(j, l, rows, k)
    ensures r == Ok(false) ==> k == |rows| && Emit(j, l, rows[pos..], matched) == Stream(AtEnd(j, l, matched), false)
  {
    hide Emit, OnResult;
    k := pos;
    while k < |rows|
      invariant pos <= k <= |rows|
      invariant Emit(j, l, rows[pos..], matched) == Emit(j, l, rows[k..], matched)
    {
      EmitTail(j, l, rows, k, matched);
      var on := OnResult(j, l, rows[k]);
      k := k + 1;
      if on.Err? { return Err(on.error), k; }
      if on.value { return Ok(true), k; }
    }
    EmitSpent(j, l, rows, k, matched);
    r := Ok(false);
  }

  lemma EmptyJoin(j: Join, src: Source)
    ensures JoinStream(j, [], src) == Stream([], false)
  {
  }

  lemma StartLeft(j: Join, ls: seq<Row>, src: Source)
    requires ls != []
    ensures JoinStream(j, ls, src) == Then(Emit(j, ls[0], Candidates(src, ls[0]), false), JoinStream(j, ls[1..], src))
  {
  }

  /** The rest of a left row: its candidates from `pos`, or nothing once it is spent. */
  function Ahead(j: Join, l: Row, rows: seq<Row>, pos: nat, matched: bool, spent: bool): Stream
    requires pos <= |rows|
  {
    if spent then Stream([], false) else Emit(j, l, rows[pos..], matched)
  }

  /** Run one left row up to its next output; `None` when it is spent without one. */
  method TryRow(j: Join, l: Row, rows: seq<Row>, pos: nat, matched: bool, ghost rest: Stream)
    returns (r: Result<Option<Row>>, k: nat, matchedNow: bool, spent: bool)
    requires pos <= |rows|
    ensures pos <= k <= |rows| && (r == Ok(None) ==> spent) && (r.Ok? ==> spent || pos < k)
    ensures Tried(Then(Ahead(j, l, rows, pos, matched, false), rest), r, Then(Ahead(j, l, rows, k, matchedNow, spent), rest))
  {
    hide Emit, AtEnd;
    ThenEmpty(rest);
    matchedNow, spent := matched, false;
    var found: Result<bool>;
    found, k := NextMatch(j, l, rows, pos, matched);
    if found.Err? { return Err(found.error), k, matchedNow, spent; }
    if found.value {
      matchedNow := true;
      ThenCons(l + rows[k - 1], Emit(j, l, rows[k..], true), rest);
      ThenCons(l, Stream([], false), rest);
      if j.kind == SemiJoin { return Ok(Some(l)), k, matchedNow, true; }
      if j.kind == AntiJoin { return Ok(None), k, matchedNow, true; }
      return Ok(Some(l + rows[k - 1])), k, matchedNow, false;
    }
    spent := true;
    AtEndCases(j, l, matched, rest);
    if j.kind == LeftJoin && !matched {
      r := Ok(Some(l + Nulls(j.rightWidth)));
    } else if j.kind == AntiJoin && !matched {
      r := Ok(Some(l));
    } else {
      r := Ok(None);
    }
  }

  // ---------------------------------------------------------------- nested loop

  class NestedLoopJoin {
    const join: Join
    var left: seq<Row>
    var rightInput: seq<Row>
    var rightRows: Option<seq<Row>>
    var currentLeft: Option<Row>
    var rightPos: nat
    var matchedCurrent: bool

    ghost function Right(): seq<Row> reads this { if rightRows.Some? then rightRows.value else rightInput }

    ghost predicate Valid() reads this {
      currentLeft.Some? ==> rightRows.Some? && rightPos <= |rightRows.value|
    }

    ghost function Current(): Stream reads this requires Valid() {
      if currentLeft.None? then Stream([], false)
      else Emit(join, currentLeft.value, Right()[rightPos..], matchedCurrent)
    }

    /** What the operator has still to yield. */
    ghost function Remaining(): Stream reads this requires Valid() {
      Then(Current(), JoinStream(join, left, Whole(Right())))
    }

    constructor (j: Join, ls: seq<Row>, rs: seq<Row>)
      ensures Valid() && Remaining() == JoinStream(j, ls, Whole(rs)) && join == j
    {
      join, left, rightInput := j, ls, rs;
      rightRows, currentLeft, rightPos, matchedCurrent := None, None, 0, false;
      new;
      ThenEmpty(JoinStream(j, ls, Whole(rs)));
    }

    method StartRow()
      requires Valid() && currentLeft.None? && left != [] && rightRows.Some?
      modifies this
      ensures Valid() && rightRows == old(rightRows) && currentLeft == Some(old(left)[0]) && left == old(left)[1..]
      ensures Remaining() == old(Remaining())
    {
      hide Emit, JoinStream, Candidates;
      ghost var rows := rightRows.value;
      ThenEmpty(JoinStream(join, left, Whole(rows)));
      StartLeft(join, left, Whole(rows));
      WholeCandidates(rows, left[0]);
      currentLeft, left, rightPos, matchedCurrent := Some(left[0]), left[1..], 0, false;
    }

    /** Run the current left row up to its next output; `None` when it is spent without one. */
    method TryCurrent() returns (r: Result<Option<Row>>)
      requires Valid() && currentLeft.Some?
      modifies this
      ensures Valid() && rightRows == old(rightRows) && left == old(left) && Tried(old(Remaining()), r, Remaining())
      ensures r == Ok(None) ==> currentLeft.None?
    {
      hide Emit, JoinStream, Candidates;
      var l, rows := currentLeft.value, rightRows.value;
      var k, matched, spent;
      r, k, matched, spent := TryRow(join, l, rows, rightPos, matchedCurrent, JoinStream(join, left, Whole(rows)));
      rightPos, matchedCurrent := k, matched;
      if spent { currentLeft := None; }
    }

    /** The right input is drained once, on the first call. */
    method LoadRight()
      requires Valid()
      modifies `rightRows
      ensures Valid() && rightRows.Some? && Remaining() == old(Remaining())
    {
      hide Emit, JoinStream, Candidates;
      if rightRows.None? { rightRows := Some(rightInput); }
    }

    lemma NothingLeft()
      requires Valid() && currentLeft.None? && left == []
      ensures Remaining() == Stream([], false)
    {
      hide Emit, JoinStream, Candidates;
      EmptyJoin(join, Whole(Right()));
      ThenEmpty(Stream([], false));
    }

    method Next() returns (r: Result<Option<Row>>)
      requires Valid()
      modifies this
      ensures Valid() && Advances(old(Remaining()), r, Remaining())
    {
      LoadRight();
      ghost var before := Remaining();
      hide Emit, JoinStream, Candidates, Advances, Cons;
      while true
        invariant Valid() && rightRows.Some? && Remaining() == before
        decreases |left|, currentLeft.Some?
      {
        if currentLeft.None? {
          if left == [] {
            NothingLeft();
            EndAdvances();
            return Ok(None);
          }
          StartRow();
        }
        r := TryCurrent();
        if r != Ok(None) {
          TriedAdvances(before, r, Remaining());
          return;
        }
      }
    }
  }

  lemma WholeCandidates(rows: seq<Row>, l: Row)
    ensures Candidates(Whole(rows), l) == rows == rows[0..]
  {
  }

  lemma AtEndCases(j: Join, l: Row, matched: bool, rest: Stream)
    ensures Then(Stream(AtEnd(j, l, matched), false), rest) ==
      (if !matched && j.kind == LeftJoin then Cons(l + Nulls(j.rightWidth), rest)
       else if !matched && j.kind == AntiJoin then Cons(l, rest)
       else rest)
  {
    assert [] + rest.rows == rest.rows;
  }

  // ---------------------------------------------------------------- hash join

  /** Every row has a column `column`. */
  predicate HasColumn(rows: seq<Row>, column: nat) {
    forall i :: 0 <= i < |rows| ==> column < |rows[i]|
  }

  /** The table groups the rows by build key, each group in input order. */
  ghost predicate IsTable(table: map<ByteString, seq<Row>>, rows: seq<Row>, build: nat) {
    forall key :: (if key in table then table[key] else []) == Bucket(rows, build, key)
  }

  lemma {:induction false} BucketSnoc(rows: seq<Row>, row: Row, build: nat, key: ByteString)
    ensures Bucket(rows + [row], build, key) == Bucket(rows, build, key) + (if KeyAt(row, build) == Some(key) then [row] else [])
  {
    hide KeyAt;
    if rows == [] { assert rows + [row] == [row] && [row][1..] == []; }
    else {
      BucketSnoc(rows[1..], row, build, key);
      assert (rows + [row])[1..] == rows[1..] + [row];
      if KeyAt(rows[0], build) == Some(key) {
        ConcatAssoc([rows[0]], Bucket(rows[1..], build, key), if KeyAt(row, build) == Some(key) then [row] else []);
      }
    }
  }

  /** `HashJoin::build`: hash every inner row with a non-NULL key. */
  method BuildTable(rows: seq<Row>, build: nat) returns (table: map<ByteString, seq<Row>>)
    requires HasColumn(rows, build)
    ensures IsTable(table, rows, build)
  {
    table := map[];
    for i := 0 to |rows|
      invariant IsTable(table, rows[..i], build)
    {
      ghost var previous := table;
      if !rows[i][build].Null? {
        var key := EncodeValue(rows[i][build]);
        table := table[key := (if key in table then table[key] else []) + [rows[i]]];
      }
      assert rows[..i + 1] == rows[..i] + [rows[i]];
      forall key ensures (if key in table then table[key] else []) == Bucket(rows[..i + 1], build, key) {
        BucketSnoc(rows[..i], rows[i], build, key);
        assert (if key in previous then previous[key] else []) == Bucket(rows[..i], build, key);
      }
    }
    assert rows[..|rows|] == rows;
  }

  class HashJoin {
    const join: Join
    const probeCol: nat
    const buildCol: nat
    var left: seq<Row>
    var rightInput: seq<Row>
    var table: Option<map<ByteString, seq<Row>>>
    var currentLeft: Option<Row>
    var probeKey: Option<ByteString>
    var matchPos: nat
    var matchedCurrent: bool

    ghost function Src(): Source reads this { Bucketed(rightInput, buildCol, probeCol) }

    ghost predicate Valid() reads this {
      && HasColumn(rightInput, buildCol) && HasColumn(left, probeCol)
      && PairsUp(join)
      && (table.Some? ==> IsTable(table.value, rightInput, buildCol))
      && (currentLeft.Some? ==> table.Some? && probeKey == KeyAt(currentLeft.value, probeCol) &&
                                matchPos <= |Candidates(Src(), currentLeft.value)|)
    }

    ghost function Current(): Stream reads this requires Valid() {
      if currentLeft.None? then Stream([], false)
      else Emit(join, currentLeft.value, Candidates(Src(), currentLeft.value)[matchPos..], matchedCurrent)
    }

    /** What the operator has still to yield. */
    ghost function Remaining(): Stream reads this requires Valid() {
      Then(Current(), JoinStream(join, left, Src()))
    }

    constructor (j: Join, ls: seq<Row>, rs: seq<Row>, probe: nat, build: nat)
      requires PairsUp(j)
      requires HasColumn(rs, build) && HasColumn(ls, probe)
      ensures Valid() && Remaining() == JoinStream(j, ls, Bucketed(rs, build, probe))
    {
      join, left, rightInput, probeCol, buildCol := j, ls, rs, probe, build;
      table, currentLeft, probeKey, matchPos, matchedCurrent := None, None, None, 0, false;
      new;
      ThenEmpty(JoinStream(j, ls, Bucketed(rs, build, probe)));
    }

    method StartRow()
      requires Valid() && currentLeft.None? && left != [] && table.Some?
      modifies `currentLeft, `left, `matchPos, `matchedCurrent, `probeKey
      ensures Valid() && currentLeft == Some(old(left)[0]) && left == old(left)[1..]
      ensures Remaining() == old(Remaining())
    {
      hide Emit, JoinStream, IsTable, Bucket, EncodeValue;
      ghost var src := Src();
      var row := left[0];
      ThenEmpty(JoinStream(join, left, src));
      StartLeft(join, left, src);
      probeKey := if row[probeCol].Null? then None else Some(EncodeValue(row[probeCol]));
      currentLeft, left, matchPos, matchedCurrent := Some(row), left[1..], 0, false;
      assert Candidates(src, row)[0..] == Candidates(src, row);
    }

    method FindBucket() returns (bucket: seq<Row>)
      requires Valid() && currentLeft.Some?
      ensures bucket == Candidates(Src(), currentLeft.value)
    {
      bucket := if probeKey.Some? && probeKey.value in table.value then table.value[probeKey.value] else [];
    }

    /** Run the current left row up to its next output; `None` when it is spent without one. */
    method TryCurrent() returns (r: Result<Option<Row>>)
      requires Valid() && currentLeft.Some?
      modifies `currentLeft, `matchPos, `matchedCurrent
      ensures Valid() && Tried(old(Remaining()), r, Remaining())
      ensures r == Ok(None) ==> currentLeft.None?
    {
      hide Emit, JoinStream, Candidates, IsTable, KeyAt, HasColumn;
      var l := currentLeft.value;
      var bucket := FindBucket();
      var k, matched, spent;
      r, k, matched, spent := TryRow(join, l, bucket, matchPos, matchedCurrent, JoinStream(join, left, Src()));
      matchPos, matchedCurrent := k, matched;
      if spent { currentLeft := None; }
    }

    method Next() returns (r: Result<Option<Row>>)
      requires Valid()
      modifies this
      ensures Valid() && Advances(old(Remaining()), r, Remaining())
    {
      hide Emit, JoinStream, Candidates, IsTable, KeyAt, HasColumn, Advances, Cons;
      ghost var before := Remaining();
      if table.None? {
        var built := BuildTable(rightInput, buildCol);
        table := Some(built);
      }
      while true
        invariant Valid() && table.Some? && Remaining() == before
        decreases |left|, currentLeft.Some?
      {
        if currentLeft.None? {
          if left == [] {
            EmptyJoin(join, Src());
            ThenEmpty(Stream([], false));
            EndAdvances();
            return Ok(None);
          }
          StartRow();
        }
        r := TryCurrent();
        if r != Ok(None) {
          TriedAdvances(before, r, Remaining());
          return;
        }
      }
    }
  }

  // ---------------------------------------------------------------- index nested loop

  /** A reference that resolves to a left column resolves to it among the left columns alone. */
  lemma ResolveInLeft(scope: Scope, leftLen: nat, ref: ColumnRef, p: nat)
    requires leftLen <= |scope| && Resolve(scope, ref) == Ok(p) && p < leftLen
    ensures Resolve(scope[..leftLen], ref) == Ok(p)
  {
    ResolveIsOnlyMatch(scope, ref);
    ResolveIsOnlyMatch(scope[..leftLen], ref);
    assert OnlyMatch(scope, ref, p);
    assert OnlyMatch(scope[..leftLen], ref, p);
  }

  class IndexNestedLoopJoin {
    const join: Join
    const leftScope: Scope
    const key: ColumnRef
    const table: Table
    const keys: seq<ByteString>
    const visible: (u64, u64) -> bool
    ghost const columns: seq<nat>
    ghost const probe: nat
    var left: seq<Row>
    var currentLeft: Option<Row>
    var inner: seq<Row>
    var innerPos: nat
    var matchedCurrent: bool

    ghost function Src(): Source { Indexed(table, keys, columns, visible, probe) }

    ghost predicate KeyResolves() {
      |leftScope| <= |join.scope| && leftScope == join.scope[..|leftScope|] &&
      Resolve(join.scope, key) == Ok(probe) && probe < |leftScope|
    }

    ghost predicate Valid() reads this {
      && ValidTable(table) && IndexSound(keys, table, columns) && KeyResolves()
      && (forall i :: 0 <= i < |left| ==> |left[i]| == |leftScope|)
      && (currentLeft.Some? ==> inner == Candidates(Src(), currentLeft.value) && innerPos <= |inner|)
    }

    ghost function Current(): Stream reads this requires Valid() {
      if currentLeft.None? then Stream([], false)
      else Emit(join, currentLeft.value, inner[innerPos..], matchedCurrent)
    }

    /** What the operator has still to yield. */
    ghost function Remaining(): Stream reads this requires Valid() {
      Then(Current(), JoinStream(join, left, Src()))
    }

    constructor (j: Join, ls: seq<Row>, leftLen: nat, ref: ColumnRef, t: Table, entries: seq<ByteString>,
                 vis: (u64, u64) -> bool, ghost cols: seq<nat>, ghost p: nat)
      requires ValidTable(t) && IndexSound(entries, t, cols)
      requires p < leftLen <= |j.scope| && Resolve(j.scope, ref) == Ok(p)
      requires forall i :: 0 <= i < |ls| ==> |ls[i]| == leftLen
      ensures Valid() && Remaining() == JoinStream(j, ls, Indexed(t, entries, cols, vis, p))
    {
      join, leftScope, key, table, keys, visible := j, j.scope[..leftLen], ref, t, entries, vis;
      columns, probe := cols, p;
      left, currentLeft, inner, innerPos, matchedCurrent := ls, None, [], 0, false;
      new;
      ThenEmpty(JoinStream(j, ls, Indexed(t, entries, cols, vis, p)));
    }

    /** `lookup`: the visible rows the probed range leads to, each once, or an error on a corrupt entry. */
    method Lookup(value: Value) returns (r: Result<seq<Row>>)
      ensures value.Null? ==> r == Ok([])
      ensures !value.Null? ==> (r.Err? <==> AnyCorrupt(table, ScanRange(keys, EncodeValue(value), UpperBound(EncodeValue(value)))))
      ensures !value.Null? && r.Ok? ==>
              r.value == RowsOf(table, VisibleIds(table, visible, FirstSeen(IndexedIds(keys, EncodeValue(value), UpperBound(EncodeValue(value))))))
    {
      if value.Null? { return Ok([]); }
      var lower := EncodeValue(value);
      hide *;
      var upper := PrefixUpperBound(lower);
      var ids := CollectByIndex(table, keys, lower, upper, visible);
      if ids.Err? { return Err(ids.error); }
      r := Ok(RowsOf(table, ids.value));
    }

    method StartRow() returns (r: Result<()>)
      requires Valid() && currentLeft.None? && left != []
      modifies this
      ensures Valid() && r == Ok(()) && currentLeft == Some(old(left)[0]) && left == old(left)[1..]
      ensures Remaining() == old(Remaining())
    {
      hide Emit, JoinStream, ValidTable, IndexSound, RowsOf, IndexedIds, UpperBound, EncodeValue, FirstSeen, AnyCorrupt, ScanRange;
      var row := left[0];
      ThenEmpty(JoinStream(join, left, Src()));
      StartLeft(join, left, Src());
      ResolveInLeft(join.scope, |leftScope|, key, probe);
      var value := Eval(join.fpu, Column(key), Some(Context(leftScope, row)));
      assert value == Ok(row[probe]);
      var looked := Lookup(value.value);
      SoundLookup(table, keys, columns, EncodeValue(row[probe]), UpperBound(EncodeValue(row[probe])));
      inner, innerPos, matchedCurrent, currentLeft := looked.value, 0, false, Some(row);
      left := left[1..];
      assert inner[0..] == inner;
      r := Ok(());
    }

    method TryCurrent() returns (r: Result<Option<Row>>)
      requires Valid() && currentLeft.Some?
      modifies `currentLeft, `innerPos, `matchedCurrent
      ensures Valid() && Tried(old(Remaining()), r, Remaining())
      ensures r == Ok(None) ==> currentLeft.None?
    {
      hide Emit, JoinStream, Candidates, ValidTable, IndexSound;
      var k, matched, spent;
      r, k, matched, spent := TryRow(join, currentLeft.value, inner, innerPos, matchedCurrent, JoinStream(join, left, Src()));
      innerPos, matchedCurrent := k, matched;
      if spent { currentLeft := None; }
    }

    method Next() returns (r: Result<Option<Row>>)
      requires Valid()
      modifies this
      ensures Valid() && Advances(old(Remaining()), r, Remaining())
    {
      hide Emit, JoinStream, Candidates, ValidTable, IndexSound, Advances, Cons;
      ghost var before := Remaining();
      while true
        invariant Valid() && Remaining() == before
        decreases |left|, currentLeft.Some?
      {
        if currentLeft.None? {
          if left == [] {
            EmptyJoin(join, Src());
            ThenEmpty(Stream([], false));
            EndAdvances();
            return Ok(None);
          }
          var _ := StartRow();
        }
        r := TryCurrent();
        if r != Ok(None) {
          TriedAdvances(before, r, Remaining());
          return;
        }
      }
    }
  }

  // ---------------------------------------------------------------- grace hash join

  function EncodedRows(rows: seq<Row>): (r: seq<ByteString>)
    ensures |r| == |rows| && forall i :: 0 <= i < |r| ==> r[i] == EncodeRow(0, 0, rows[i])
  {
    seq(|rows|, i requires 0 <= i < |rows| => EncodeRow(0, 0, rows[i]))
  }

  /** Rows of one width that the row codec can hold. */
  predicate Storables(rows: seq<Row>, width: nat) {
    forall i :: 0 <= i < |rows| ==> |rows[i]| == width && StorableRow(rows[i])
  }

  lemma {:induction false} PartitionSnoc(hash: ByteString -> nat, rows: seq<Row>, row: Row, column: nat, p: nat)
    ensures Partition(hash, rows + [row], column, p) ==
            Partition(hash, rows, column, p) + (if PartitionOf(hash, row, column) == p then [row] else [])
  {
    hide PartitionOf;
    if rows == [] { assert rows + [row] == [row] && [row][1..] == []; }
    else {
      PartitionSnoc(hash, rows[1..], row, column, p);
      assert (rows + [row])[1..] == rows[1..] + [row];
      if PartitionOf(hash, rows[0], column) == p {
        ConcatAssoc([rows[0]], Partition(hash, rows[1..], column, p), if PartitionOf(hash, row, column) == p then [row] else []);
      }
    }
  }

  ghost predicate SpillsHold(spills: seq<seq<ByteString>>, hash: ByteString -> nat, rows: seq<Row>, column: nat) {
    |spills| == HASH_PARTITIONS &&
    forall p :: 0 <= p < HASH_PARTITIONS ==> spills[p] == EncodedRows(Partition(hash, rows, column, p))
  }

  /** One side of `partition_phase`: append each encoded row to its partition's spill file. */
  method PartitionRows(hash: ByteString -> nat, rows: seq<Row>, column: nat) returns (spills: seq<seq<ByteString>>)
    ensures SpillsHold(spills, hash, rows, column)
  {
    spills := seq(HASH_PARTITIONS, _ => []);
    for i := 0 to |rows|
      invariant SpillsHold(spills, hash, rows[..i], column)
    {
      var p := PartitionOf(hash, rows[i], column);
      var encoded := EncodeRowBytes(0, 0, rows[i]);
      SpillOne(spills, hash, rows, i, column);
      hide *;
      spills := spills[p := spills[p] + [encoded]];
    }
    assert rows[..|rows|] == rows;
  }

  lemma SpillOne(spills: seq<seq<ByteString>>, hash: ByteString -> nat, rows: seq<Row>, i: nat, column: nat)
    requires i < |rows| && SpillsHold(spills, hash, rows[..i], column)
    ensures var p := PartitionOf(hash, rows[i], column);
            p < |spills| && SpillsHold(spills[p := spills[p] + [EncodeRow(0, 0, rows[i])]], hash, rows[..i + 1], column)
  {
    hide EncodeRow, PartitionOf;
    var p := PartitionOf(hash, rows[i], column);
    PartitionBound(hash, rows[i], column);
    var after := spills[p := spills[p] + [EncodeRow(0, 0, rows[i])]];
    assert rows[..i + 1] == rows[..i] + [rows[i]];
    forall q | 0 <= q < HASH_PARTITIONS ensures after[q] == EncodedRows(Partition(hash, rows[..i + 1], column, q)) {
      PartitionSnoc(hash, rows[..i], rows[i], column, q);
      assert spills[q] == EncodedRows(Partition(hash, rows[..i], column, q));
    }
  }

  lemma PartitionBound(hash: ByteString -> nat, row: Row, column: nat)
    ensures PartitionOf(hash, row, column) < HASH_PARTITIONS
  {
  }

  lemma StoredRowReads(row: Row)
    requires StorableRow(row)
    ensures DecodeRecord(EncodeRow(0, 0, row), |row|) == Ok(RowRecord(0, 0, row))
  {
    hide *;
    RowRoundTrip(0, 0, row);
  }

  /** A `SpillReader` drained: every spilled row, decoded. */
  method ReadSpill(file: seq<ByteString>, width: nat, ghost rows: seq<Row>) returns (r: seq<Row>)
    requires file == EncodedRows(rows) && Storables(rows, width)
    ensures r == rows
  {
    hide DecodeRecord, EncodeRow, StorableRow;
    r := [];
    for i := 0 to |file|
      invariant r == rows[..i]
    {
      assert file[i] == EncodeRow(0, 0, rows[i]) && StorableRow(rows[i]) && |rows[i]| == width;
      StoredRowReads(rows[i]);
      assert rows[..i + 1] == rows[..i] + [rows[i]];
      var record := DecodeRow(file[i], width);
      r := r + [record.value.values];
    }
  }

  lemma {:induction false} PartitionKeeps(hash: ByteString -> nat, rows: seq<Row>, column: nat, p: nat, width: nat, col: nat)
    ensures Storables(rows, width) ==> Storables(Partition(hash, rows, column, p), width)
    ensures HasColumn(rows, col) ==> HasColumn(Partition(hash, rows, column, p), col)
  {
    hide PartitionOf, StorableRow;
    if rows != [] {
      PartitionKeeps(hash, rows[1..], column, p, width, col);
      assert Storables(rows, width) ==> Storables(rows[1..], width);
      assert HasColumn(rows, col) ==> HasColumn(rows[1..], col);
    }
  }

  class GraceHashJoin {
    const join: Join
    const hash: ByteString -> nat
    const probeCol: nat
    const buildCol: nat
    const leftWidth: nat
    const left: seq<Row>
    const rightInput: seq<Row>
    var spills: Option<(seq<seq<ByteString>>, seq<seq<ByteString>>)>
    var partition: nat
    var current: HashJoin?

    ghost predicate InputsGood() {
      && PairsUp(join) && Storables(left, leftWidth) && Storables(rightInput, join.rightWidth)
      && HasColumn(left, probeCol) && HasColumn(rightInput, buildCol)
    }

    ghost predicate Valid() reads this, current {
      && InputsGood() && partition <= HASH_PARTITIONS
      && (spills.Some? ==> SpillsHold(spills.value.0, hash, left, probeCol) && SpillsHold(spills.value.1, hash, rightInput, buildCol))
      && (current != null ==> spills.Some? && current.Valid())
    }

    ghost function Current(): Stream reads this, current requires Valid() {
      if current == null then Stream([], false) else current.Remaining()
    }

    /** What the operator has still to yield. */
    ghost function Remaining(): Stream reads this, current requires Valid() {
      Then(Current(), GraceStream(join, hash, left, rightInput, probeCol, buildCol, partition))
    }

    constructor (j: Join, h: ByteString -> nat, ls: seq<Row>, rs: seq<Row>, probe: nat, build: nat)
      requires PairsUp(j) && j.rightWidth <= |j.scope|
      requires Storables(ls, |j.scope| - j.rightWidth) && Storables(rs, j.rightWidth)
      requires HasColumn(ls, probe) && HasColumn(rs, build)
      ensures Valid() && Remaining() == GraceStream(j, h, ls, rs, probe, build, 0) && current == null
    {
      join, hash, left, rightInput, probeCol, buildCol := j, h, ls, rs, probe, build;
      leftWidth := |j.scope| - j.rightWidth;
      spills, partition, current := None, 0, null;
      new;
      ThenEmpty(GraceStream(j, h, ls, rs, probe, build, 0));
    }

    /** Open the next partition pair as an in-memory hash join. */
    method OpenPartition()
      requires Valid() && spills.Some? && current == null && partition < HASH_PARTITIONS
      modifies `partition, `current
      ensures Valid() && partition == old(partition) + 1 && current != null && fresh(current)
      ensures Remaining() == old(Remaining())
    {
      hide SpillsHold, Partition, Storables, HasColumn, JoinStream, IsTable;
      ghost var p := partition;
      ghost var lp, rp := Partition(hash, left, probeCol, p), Partition(hash, rightInput, buildCol, p);
      PartitionKeeps(hash, left, probeCol, p, leftWidth, probeCol);
      PartitionKeeps(hash, rightInput, buildCol, p, join.rightWidth, buildCol);
      var leftFile, rightFile := Spill(partition);
      var ls := ReadSpill(leftFile, leftWidth, lp);
      var rs := ReadSpill(rightFile, join.rightWidth, rp);
      ThenEmpty(GraceStream(join, hash, left, rightInput, probeCol, buildCol, p));
      partition := partition + 1;
      current := new HashJoin(join, ls, rs, probeCol, buildCol);
    }

    method Spill(p: nat) returns (l: seq<ByteString>, r: seq<ByteString>)
      requires Valid() && spills.Some? && p < HASH_PARTITIONS
      ensures l == EncodedRows(Partition(hash, left, probeCol, p)) && r == EncodedRows(Partition(hash, rightInput, buildCol, p))
    {
      l, r := spills.value.0[p], spills.value.1[p];
    }

    method Next() returns (r: Result<Option<Row>>)
      requires Valid()
      modifies this, current
      ensures Valid() && (current == old(current) || current == null || fresh(current))
      ensures Advances(old(Remaining()), r, Remaining())
    {
      hide HashJoin.Valid, HashJoin.Remaining, GraceStream, SpillsHold, Storables, HasColumn;
      ghost var before := Remaining();
      if spills.None? {
        var ls := PartitionRows(hash, left, probeCol);
        var rs := PartitionRows(hash, rightInput, buildCol);
        spills := Some((ls, rs));
      }
      while true
        invariant Valid() && spills.Some? && (current == old(current) || current == null || fresh(current))
        invariant Remaining() == before
        decreases HASH_PARTITIONS - partition, current != null
      {
        if current != null {
          ghost var now := current.Remaining();
          r := current.Next();
          if r != Ok(None) {
            if now.rows != [] {
              ThenCons(now.rows[0], current.Remaining(), GraceStream(join, hash, left, rightInput, probeCol, buildCol, partition));
            }
            return;
          }
          current := null;
        }
        if partition >= HASH_PARTITIONS {
          assert GraceStream(join, hash, left, rightInput, probeCol, buildCol, partition) == Stream([], false) by { NoMorePartitions(); }
          ThenEmpty(Stream([], false));
          return Ok(None);
        }
        OpenPartition();
      }
    }

    lemma NoMorePartitions()
      ensures GraceStream(join, hash, left, rightInput, probeCol, buildCol, HASH_PARTITIONS) == Stream([], false)
    {
    }
  }

  // ---------------------------------------------------------------- batched joins

  lemma ThenAssociative(a: Stream, b: Stream, c: Stream)
    ensures Then(Then(a, b), c) == Then(a, Then(b, c))
  {
    ConcatAssoc(a.rows, b.rows, c.rows);
  }

  lemma {:induction false} JoinStreamConcat(j: Join, a: seq<Row>, b: seq<Row>, src: Source)
    ensures JoinStream(j, a + b, src) == Then(JoinStream(j, a, src), JoinStream(j, b, src))
  {
    hide Emit, Candidates;
    if a == [] {
      assert a + b == b;
      ThenEmpty(JoinStream(j, b, src));
    } else {
      JoinStreamConcat(j, a[1..], b, src);
      assert (a + b)[1..] == a[1..] + b;
      ThenAssociative(Emit(j, a[0], Candidates(src, a[0]), false), JoinStream(j, a[1..], src), JoinStream(j, b, src));
    }
  }

  /** Where a batched join stands: inside row `leftPos` of the current batch, at candidate `pos`. */
  datatype Cursor = Cursor(batch: seq<Row>, leftPos: nat, pos: nat, matched: bool)

  ghost predicate CursorIn(c: Cursor, src: Source) {
    c.leftPos <= |c.batch| && (c.leftPos < |c.batch| ==> c.pos <= |Candidates(src, c.batch[c.leftPos])|)
  }

  /** What the rest of the current batch yields. */
  ghost function InBatch(j: Join, src: Source, c: Cursor): Stream
    requires CursorIn(c, src)
  {
    if c.leftPos == |c.batch| then Stream([], false)
    else Then(Emit(j, c.batch[c.leftPos], Candidates(src, c.batch[c.leftPos])[c.pos..], c.matched),
              JoinStream(j, c.batch[c.leftPos + 1..], src))
  }

  /** What a batched join has still to yield. */
  ghost function BatchRest(j: Join, src: Source, c: Option<Cursor>, left: seq<seq<Row>>): Stream
    requires c.Some? ==> CursorIn(c.value, src)
  {
    Then(if c.None? then Stream([], false) else InBatch(j, src, c.value), JoinStream(j, Flatten(left), src))
  }

  /** Crossing into the next batch changes nothing. */
  lemma OpenBatch(j: Join, src: Source, left: seq<seq<Row>>)
    requires left != []
    ensures CursorIn(Cursor(left[0], 0, 0, false), src)
    ensures BatchRest(j, src, Some(Cursor(left[0], 0, 0, false)), left[1..]) == BatchRest(j, src, None, left)
  {
    hide Emit, Candidates;
    var batch := left[0];
    JoinStreamConcat(j, batch, Flatten(left[1..]), src);
    ThenEmpty(JoinStream(j, Flatten(left), src));
    if batch != [] {
      StartLeft(j, batch, src);
      assert Candidates(src, batch[0])[0..] == Candidates(src, batch[0]);
      assert InBatch(j, src, Cursor(batch, 0, 0, false)) == JoinStream(j, batch, src);
    } else {
      EmptyJoin(j, src);
    }
  }

  /** Leaving a spent batch changes nothing. */
  lemma CloseBatch(j: Join, src: Source, c: Cursor, left: seq<seq<Row>>)
    requires CursorIn(c, src) && c.leftPos == |c.batch|
    ensures BatchRest(j, src, Some(c), left) == BatchRest(j, src, None, left)
  {
  }

  /** Leaving a spent row enters the next one at its first candidate. */
  lemma NextRowInBatch(j: Join, src: Source, c: Cursor, left: seq<seq<Row>>)
    requires c.leftPos < |c.batch|
    ensures CursorIn(c.(leftPos := c.leftPos + 1, pos := 0, matched := false), src)
    ensures BatchRest(j, src, Some(c.(leftPos := c.leftPos + 1, pos := 0, matched := false)), left)
         == Then(JoinStream(j, c.batch[c.leftPos + 1..], src), JoinStream(j, Flatten(left), src))
  {
    hide Emit, Candidates;
    var rest := c.batch[c.leftPos + 1..];
    if rest != [] {
      StartLeft(j, rest, src);
      assert rest[0] == c.batch[c.leftPos + 1] && rest[1..] == c.batch[c.leftPos + 2..];
      assert Candidates(src, rest[0])[0..] == Candidates(src, rest[0]);
    } else {
      EmptyJoin(j, src);
    }
  }

  /** Run the row under the cursor up to its next output, moving to the next row once it is spent. */
  method StepInBatch(j: Join, ghost src: Source, candidates: seq<Row>, c: Cursor, ghost left: seq<seq<Row>>)
    returns (r: Result<Option<Row>>, next: Cursor)
    requires CursorIn(c, src) && c.leftPos < |c.batch| && candidates == Candidates(src, c.batch[c.leftPos])
    ensures CursorIn(next, src) && next.batch == c.batch
    ensures next.leftPos == c.leftPos || (next.leftPos == c.leftPos + 1 && next.pos == 0 && !next.matched)
    ensures r.Ok? ==> next.leftPos == c.leftPos + 1 || next.pos > c.pos
    ensures Tried(BatchRest(j, src, Some(c), left), r, BatchRest(j, src, Some(next), left))
  {
    hide Emit, Candidates, JoinStream;
    var l := c.batch[c.leftPos];
    ghost var inBatch, later := JoinStream(j, c.batch[c.leftPos + 1..], src), JoinStream(j, Flatten(left), src);
    ghost var rest := Then(inBatch, later);
    var k, matched, spent;
    r, k, matched, spent := TryRow(j, l, candidates, c.pos, c.matched, rest);
    ThenAssociative(Emit(j, l, candidates[c.pos..], c.matched), inBatch, later);
    ThenAssociative(Emit(j, l, candidates[k..], matched), inBatch, later);
    ThenEmpty(rest);
    NextRowInBatch(j, src, c, left);
    next := if spent then c.(leftPos := c.leftPos + 1, pos := 0, matched := false) else c.(pos := k, matched := matched);
  }

  /** Rows already collected for the batch under construction, in front of what is still to come. */
  function Collected(out: seq<Row>, s: Stream): Stream { Stream(out + s.rows, s.fails) }

  lemma CollectOne(out: seq<Row>, row: Row, s: Stream)
    ensures Collected(out + [row], s) == Collected(out, Cons(row, s))
  {
    ConcatAssoc(out, [row], s.rows);
  }

  lemma BatchFull(out: seq<Row>, s: Stream)
    ensures AdvancesBatch(Collected(out, s), |out|, Ok(Some(out)), s)
  {
    assert (out + s.rows)[..|out|] == out && (out + s.rows)[|out|..] == s.rows;
  }

  class BatchNestedLoopJoin {
    const join: Join
    var left: seq<seq<Row>>
    var rightInput: seq<Row>
    var rightRows: Option<seq<Row>>
    var currentLeft: Option<Cursor>

    ghost function Src(): Source reads this { Whole(if rightRows.Some? then rightRows.value else rightInput) }

    ghost predicate Valid() reads this {
      PairsUp(join) && (currentLeft.Some? ==> rightRows.Some? && CursorIn(currentLeft.value, Src()))
    }

    /** What the operator has still to yield. */
    ghost function Remaining(): Stream reads this requires Valid() {
      BatchRest(join, Src(), currentLeft, left)
    }

    constructor (j: Join, ls: seq<seq<Row>>, rs: seq<seq<Row>>)
      requires PairsUp(j)
      ensures Valid() && Remaining() == JoinStream(j, Flatten(ls), Whole(Flatten(rs)))
    {
      join, left, rightInput := j, ls, Flatten(rs);
      rightRows, currentLeft := None, None;
      new;
      ThenEmpty(JoinStream(j, Flatten(ls), Whole(Flatten(rs))));
    }

    method NextBatch(size: nat) returns (r: Result<Option<seq<Row>>>)
      requires Valid() && size > 0
      modifies this
      ensures Valid() && AdvancesBatch(old(Remaining()), size, r, Remaining())
    {
      hide BatchRest, Candidates, JoinStream;
      ghost var before := Remaining();
      if rightRows.None? { rightRows := Some(rightInput); }
      var out: seq<Row>, rows := [], rightRows.value;
      assert Collected(out, before) == before;
      while true
        invariant Valid() && rightRows == Some(rows) && |out| < size && Collected(out, Remaining()) == before
        decreases |left|, if currentLeft.Some? then 1 + |currentLeft.value.batch| - currentLeft.value.leftPos else 0,
                  if currentLeft.Some? && currentLeft.value.pos <= |rows| then |rows| - currentLeft.value.pos else |rows| + 1
      {
        if currentLeft.None? {
          if left == [] {
            NothingLeft(join, Src());
            assert out + [] == out;
            return Ok(if out == [] then None else Some(out));
          }
          OpenBatch(join, Src(), left);
          currentLeft, left := Some(Cursor(left[0], 0, 0, false)), left[1..];
        } else if currentLeft.value.leftPos == |currentLeft.value.batch| {
          CloseBatch(join, Src(), currentLeft.value, left);
          currentLeft := None;
        } else {
          WholeCandidates(rows, currentLeft.value.batch[currentLeft.value.leftPos]);
          ghost var now := Remaining();
          var row, next := StepInBatch(join, Src(), rows, currentLeft.value, left);
          currentLeft := Some(next);
          if row.Err? { return Err(row.error); }
          if row.value.Some? {
            CollectOne(out, row.value.value, Remaining());
            out := out + [row.value.value];
            if |out| >= size {
              BatchFull(out, Remaining());
              return Ok(Some(out));
            }
          }
        }
      }
    }
  }

  lemma NothingLeft(j: Join, src: Source)
    ensures BatchRest(j, src, None, []) == Stream([], false)
  {
  }

  class BatchHashJoin {
    const join: Join
    const probeCol: nat
    const buildCol: nat
    var left: seq<seq<Row>>
    var rightInput: seq<Row>
    var table: Option<map<ByteString, seq<Row>>>
    var currentLeft: Option<Cursor>
    var probeKey: Option<ByteString>
    var rowStarted: bool

    ghost function Src(): Source reads this { Bucketed(rightInput, buildCol, probeCol) }

    ghost predicate InputsHaveColumns() reads this {
      HasColumn(rightInput, buildCol) && HasColumn(Flatten(left), probeCol) && (currentLeft.Some? ==> HasColumn(currentLeft.value.batch, probeCol))
    }

    ghost predicate Valid() reads this {
      && PairsUp(join) && InputsHaveColumns()
      && (table.Some? ==> IsTable(table.value, rightInput, buildCol))
      && (currentLeft.Some? ==> table.Some? && CursorIn(currentLeft.value, Src()) && KeyMatches(currentLeft.value))
    }

    /** A started row has its key; a row not yet started stands at its first candidate. */
    ghost predicate KeyMatches(c: Cursor) reads this {
      if c.leftPos >= |c.batch| then true
      else if rowStarted then probeKey == KeyAt(c.batch[c.leftPos], probeCol)
      else c.pos == 0 && !c.matched
    }

    /** What the operator has still to yield. */
    ghost function Remaining(): Stream reads this requires Valid() {
      BatchRest(join, Src(), currentLeft, left)
    }

    constructor (j: Join, ls: seq<seq<Row>>, rs: seq<seq<Row>>, probe: nat, build: nat)
      requires PairsUp(j) && HasColumn(Flatten(rs), build) && HasColumn(Flatten(ls), probe)
      ensures Valid() && Remaining() == JoinStream(j, Flatten(ls), Bucketed(Flatten(rs), build, probe))
    {
      join, probeCol, buildCol, left, rightInput := j, probe, build, ls, Flatten(rs);
      table, currentLeft, probeKey, rowStarted := None, None, None, false;
      new;
      ThenEmpty(JoinStream(j, Flatten(ls), Bucketed(Flatten(rs), build, probe)));
    }

    /** The candidates of the row under the cursor, hashing its key on first entry. */
    method FindBucket() returns (bucket: seq<Row>)
      requires Valid() && currentLeft.Some? && currentLeft.value.leftPos < |currentLeft.value.batch|
      modifies `probeKey, `rowStarted
      ensures Valid() && rowStarted && bucket == Candidates(Src(), currentLeft.value.batch[currentLeft.value.leftPos])
    {
      hide Flatten;
      var row := currentLeft.value.batch[currentLeft.value.leftPos];
      if !rowStarted {
        probeKey := if row[probeCol].Null? then None else Some(EncodeValue(row[probeCol]));
        rowStarted := true;
      }
      bucket := if probeKey.Some? && probeKey.value in table.value then table.value[probeKey.value] else [];
    }

    /** Run the row under the cursor up to its next output. */
    method StepRow() returns (r: Result<Option<Row>>)
      requires Valid() && currentLeft.Some? && currentLeft.value.leftPos < |currentLeft.value.batch|
      modifies `probeKey, `rowStarted, `currentLeft
      ensures Valid() && currentLeft.Some? && Tried(old(Remaining()), r, Remaining())
      ensures currentLeft.value.batch == old(currentLeft.value.batch)
      ensures currentLeft.value.leftPos == old(currentLeft.value.leftPos) || currentLeft.value.leftPos == old(currentLeft.value.leftPos) + 1
      ensures r.Ok? && currentLeft.value.leftPos == old(currentLeft.value.leftPos) ==> currentLeft.value.pos > old(currentLeft.value.pos)
      ensures old(|Candidates(Src(), currentLeft.value.batch[currentLeft.value.leftPos])|) >= old(currentLeft.value.pos)
    {
      hide BatchRest, Candidates, JoinStream, HasColumn, Flatten, IsTable, KeyAt;
      var c := currentLeft.value;
      var bucket := FindBucket();
      var next;
      r, next := StepInBatch(join, Src(), bucket, c, left);
      currentLeft := Some(next);
      if next.leftPos != c.leftPos { rowStarted := false; }
    }

    method OpenNext()
      requires Valid() && currentLeft.None? && table.Some? && left != []
      modifies `left, `currentLeft, `rowStarted
      ensures Valid() && currentLeft.Some? && left == old(left)[1..] && Remaining() == old(Remaining())
    {
      hide BatchRest, Candidates, JoinStream, IsTable, KeyAt;
      OpenBatch(join, Src(), left);
      ghost var all := Flatten(left);
      assert forall i :: 0 <= i < |left[0]| ==> all[i] == left[0][i];
      assert forall i :: 0 <= i < |Flatten(left[1..])| ==> all[|left[0]| + i] == Flatten(left[1..])[i];
      currentLeft, left, rowStarted := Some(Cursor(left[0], 0, 0, false)), left[1..], false;
    }

    method NextBatch(size: nat) returns (r: Result<Option<seq<Row>>>)
      requires Valid() && size > 0
      modifies this
      ensures Valid() && AdvancesBatch(old(Remaining()), size, r, Remaining())
    {
      hide BatchRest, JoinStream, Candidates, HasColumn, Flatten, IsTable, KeyAt;
      ghost var before := Remaining();
      if table.None? {
        var built := BuildTable(rightInput, buildCol);
        table := Some(built);
      }
      var out: seq<Row> := [];
      assert Collected(out, before) == before;
      while true
        invariant Valid() && table.Some? && |out| < size && Collected(out, Remaining()) == before
        decreases |left|, if currentLeft.Some? then 1 + |currentLeft.value.batch| - currentLeft.value.leftPos else 0,
                  Ahead()
      {
        if currentLeft.None? {
          if left == [] {
            NothingLeft(join, Src());
            assert out + [] == out;
            return Ok(if out == [] then None else Some(out));
          }
          OpenNext();
        } else if currentLeft.value.leftPos == |currentLeft.value.batch| {
          CloseBatch(join, Src(), currentLeft.value, left);
          currentLeft := None;
        } else {
          var row := StepRow();
          if row.Err? { return Err(row.error); }
          if row.value.Some? {
            CollectOne(out, row.value.value, Remaining());
            out := out + [row.value.value];
            if |out| >= size {
              BatchFull(out, Remaining());
              return Ok(Some(out));
            }
          }
        }
      }
    }

    /** Candidates of the current row not yet tried. */
    ghost function Ahead(): nat reads this {
      if currentLeft.Some? && currentLeft.value.leftPos < |currentLeft.value.batch| &&
         currentLeft.value.pos <= |Candidates(Src(), currentLeft.value.batch[currentLeft.value.leftPos])|
      then |Candidates(Src(), currentLeft.value.batch[currentLeft.value.leftPos])| - currentLeft.value.pos
      else 0
    }
  }
}
