/** The parallel full scan: workers over key ranges, drained in worker order by one receiver
    (`try_parallel_scan` and `RowStream::next` in engine/executor.rs). */
module ParallelScan {
  import opened Bytes
  import opened Values
  import opened Expressions
  import opened AccessPaths
  import opened Sequences
  import opened IndexScans
  import opened RowOperators

  datatype Query = Query(fpu: Fpu, table: Table, visible: (u64, u64) -> bool, filter: Option<Expr>, plain: seq<nat>)

  function QueryScope(q: Query): (s: Scope)
    ensures |s| == |q.table.schema|
  {
    SingleScope(q.table.qualifier, q.table.schema)
  }

  ghost predicate ValidQuery(q: Query) {
    ValidTable(q.table) && forall i :: 0 <= i < |q.plain| ==> q.plain[i] < |q.table.schema|
  }

  function ProjectColumns(q: Query, row: Row): Row {
    seq(|q.plain|, i requires 0 <= i < |q.plain| => if q.plain[i] < |row| then row[q.plain[i]] else Null)
  }

  /** What a worker sends for one key: the projected row if it is visible and the filter is TRUE. An
      evaluation error drops the row. */
  function Sent(q: Query, id: ByteString): seq<Row> {
    if id !in q.table.rows || !q.visible(q.table.rows[id].txMin, q.table.rows[id].txMax) then []
    else
      var row := q.table.rows[id].values;
      if |row| != |q.table.schema| then []
      else if PassesFilter(q.fpu, q.filter, QueryScope(q), row) == Ok(true) then [ProjectColumns(q, row)]
      else []
  }

  function SentAll(q: Query, ids: seq<ByteString>): seq<Row> {
    if ids == [] then [] else Sent(q, ids[0]) + SentAll(q, ids[1..])
  }

  lemma {:induction false} SentAllConcat(q: Query, a: seq<ByteString>, b: seq<ByteString>)
    ensures SentAll(q, a + b) == SentAll(q, a) + SentAll(q, b)
  {
    hide Sent;
    if a == [] { assert a + b == b && [] + SentAll(q, b) == SentAll(q, b); }
    else {
      SentAllConcat(q, a[1..], b);
      assert (a + b)[1..] == a[1..] + b;
      ConcatAssoc(Sent(q, a[0]), SentAll(q, a[1..]), SentAll(q, b));
    }
  }

  /** `out` holds the selected columns of a visible row on which the filter is TRUE. */
  ghost predicate Delivers(q: Query, id: ByteString, out: Row) {
    && id in q.table.rows && q.visible(q.table.rows[id].txMin, q.table.rows[id].txMax)
    && |q.table.rows[id].values| == |q.table.schema| && |out| == |q.plain|
    && (q.filter.Some? ==> Eval(q.fpu, q.filter.value, Some(Context(QueryScope(q), q.table.rows[id].values))) == Ok(Bool(true)))
    && forall i :: 0 <= i < |q.plain| ==> q.plain[i] < |q.table.schema| && out[i] == q.table.rows[id].values[q.plain[i]]
  }

  /** For each key a worker sends one row, the row the query asks for, or none where there is no such row. */
  lemma SentMeaning(q: Query, id: ByteString)
    requires ValidQuery(q)
    ensures |Sent(q, id)| <= 1
    ensures forall out :: Sent(q, id) == [out] <==> Delivers(q, id, out)
  {
    hide Eval;
    if Sent(q, id) != [] {
      var row := q.table.rows[id].values;
      assert Sent(q, id) == [ProjectColumns(q, row)];
      forall out ensures Sent(q, id) == [out] <==> Delivers(q, id, out) {
        if Delivers(q, id, out) { assert out == ProjectColumns(q, row); }
      }
    }
  }

  // ---------------------------------------------------------------- the serial scan

  /** The serial scan at one key: nothing, the projected row, or an error that ends the query. */
  function ScanRow(q: Query, id: ByteString): Result<Option<Row>> {
    if id !in q.table.rows || !q.visible(q.table.rows[id].txMin, q.table.rows[id].txMax) then Ok(None)
    else
      var row := q.table.rows[id].values;
      if |row| != |q.table.schema| then Err(Corruption)
      else
        match PassesFilter(q.fpu, q.filter, QueryScope(q), row)
        case Err(x) => Err(x)
        case Ok(keep) => Ok(if keep then Some(ProjectColumns(q, row)) else None)
  }

  /** The serial scan to its end: visible rows in key order, filtered with errors raised, then projected. */
  function SerialRows(q: Query, ids: seq<ByteString>): Result<seq<Row>> {
    if ids == [] then Ok([])
    else
      match ScanRow(q, ids[0])
      case Err(x) => Err(x)
      case Ok(first) =>
        match SerialRows(q, ids[1..])
        case Err(x) => Err(x)
        case Ok(rows) => Ok((if first.Some? then [first.value] else []) + rows)
  }

  /** The serial scan under the `Limit` operator, which skips `offset` rows, yields `limit` and then pulls
      its input no more. */
  function SerialLimited(q: Query, ids: seq<ByteString>, offset: nat, limit: nat): Result<seq<Row>>
    decreases |ids|
  {
    if ids == [] || offset + limit == 0 then Ok([])
    else
      match ScanRow(q, ids[0])
      case Err(x) => Err(x)
      case Ok(None) => SerialLimited(q, ids[1..], offset, limit)
      case Ok(Some(row)) =>
        if offset > 0 then SerialLimited(q, ids[1..], offset - 1, limit)
        else
          match SerialLimited(q, ids[1..], 0, limit - 1)
          case Err(x) => Err(x)
          case Ok(rows) => Ok([row] + rows)
  }

  /** A visible row on which the filter errs. */
  predicate Errs(q: Query, id: ByteString) {
    && id in q.table.rows && q.visible(q.table.rows[id].txMin, q.table.rows[id].txMax)
    && |q.table.rows[id].values| == |q.table.schema|
    && PassesFilter(q.fpu, q.filter, QueryScope(q), q.table.rows[id].values).Err?
  }

  lemma ScanRowMeaning(q: Query, id: ByteString)
    requires ValidTable(q.table)
    ensures ScanRow(q, id).Err? <==> Errs(q, id)
    ensures ScanRow(q, id).Ok? ==> Sent(q, id) == if ScanRow(q, id).value.Some? then [ScanRow(q, id).value.value] else []
  {
    hide PassesFilter, ProjectColumns;
  }

  /** The serial scan fails exactly when the filter errs on a visible row; otherwise the workers send,
      over any keys, what it yields. */
  lemma {:induction false} SentIsSerial(q: Query, ids: seq<ByteString>)
    requires ValidTable(q.table)
    ensures SerialRows(q, ids).Err? <==> exists k :: 0 <= k < |ids| && Errs(q, ids[k])
    ensures SerialRows(q, ids).Ok? ==> SentAll(q, ids) == SerialRows(q, ids).value
  {
    hide ScanRow, Errs, Sent, ValidTable;
    if ids != [] {
      ScanRowMeaning(q, ids[0]);
      var rest := ids[1..];
      SentIsSerial(q, rest);
      if k :| 0 <= k < |rest| && Errs(q, rest[k]) { assert Errs(q, ids[k + 1]); }
      if k :| 0 <= k < |ids| && Errs(q, ids[k]) { if k > 0 { assert Errs(q, rest[k - 1]); } }
    }
  }

  /** The filter errs on no visible row the serial scan reads before `quota` rows are kept. */
  ghost predicate NoErrorReached(q: Query, ids: seq<ByteString>, quota: nat) {
    forall k :: 0 <= k < |ids| && |SentAll(q, ids[..k])| < quota ==> !Errs(q, ids[k])
  }

  lemma SentAllPrefix(q: Query, ids: seq<ByteString>, k: nat)
    requires ids != [] && k < |ids|
    ensures SentAll(q, ids[..k + 1]) == Sent(q, ids[0]) + SentAll(q, ids[1..][..k])
  {
    assert ids[..k + 1][1..] == ids[1..][..k];
  }

  lemma ReachedTail(q: Query, ids: seq<ByteString>, quota: nat)
    requires ids != [] && |Sent(q, ids[0])| <= quota
    ensures NoErrorReached(q, ids, quota) <==>
            ((quota > 0 ==> !Errs(q, ids[0])) && NoErrorReached(q, ids[1..], quota - |Sent(q, ids[0])|))
  {
    hide Sent, Errs;
    var rest, less := ids[1..], quota - |Sent(q, ids[0])|;
    assert SentAll(q, ids[..0]) == [];
    forall k | 0 <= k < |rest|
      ensures |SentAll(q, rest[..k])| < less <==> |SentAll(q, ids[..k + 1])| < quota
      ensures Errs(q, rest[k]) <==> Errs(q, ids[k + 1])
    {
      SentAllPrefix(q, ids, k);
    }
    if (quota > 0 ==> !Errs(q, ids[0])) && NoErrorReached(q, rest, less) {
      forall k | 0 <= k < |ids| && |SentAll(q, ids[..k])| < quota ensures !Errs(q, ids[k]) {
        if k > 0 { assert ids[k] == rest[k - 1] && |SentAll(q, rest[..k - 1])| < less; }
      }
    }
    if NoErrorReached(q, ids, quota) {
      forall k | 0 <= k < |rest| && |SentAll(q, rest[..k])| < less ensures !Errs(q, rest[k]) {
        assert |SentAll(q, ids[..k + 1])| < quota;
      }
    }
  }

  /** The limited serial scan succeeds exactly when no error is reached before OFFSET plus LIMIT rows are
      kept, and then yields what OFFSET and LIMIT leave of the rows kept. */
  lemma {:induction false} SerialLimitedMeaning(q: Query, ids: seq<ByteString>, offset: nat, limit: nat)
    requires ValidTable(q.table)
    ensures SerialLimited(q, ids, offset, limit).Ok? <==> NoErrorReached(q, ids, offset + limit)
    ensures SerialLimited(q, ids, offset, limit).Ok? ==>
            SerialLimited(q, ids, offset, limit).value == LimitRows(SentAll(q, ids), offset, limit)
    decreases |ids|
  {
    hide ScanRow, Errs, Sent, ValidTable, LimitRows;
    if offset + limit == 0 {
      LimitNothing(SentAll(q, ids), 0);
    } else if ids == [] {
      LimitOfNone(offset, limit);
    } else {
      var sent, rest := Sent(q, ids[0]), SentAll(q, ids[1..]);
      ScanRowMeaning(q, ids[0]);
      if ScanRow(q, ids[0]).Ok? {
        ReachedTail(q, ids, offset + limit);
        hide NoErrorReached;
        if sent == [] {
          SerialLimitedMeaning(q, ids[1..], offset, limit);
          assert sent + rest == rest;
        } else {
          var o, l := if offset > 0 then offset - 1 else 0, if offset > 0 then limit else limit - 1;
          SerialLimitedMeaning(q, ids[1..], o, l);
          assert (sent + rest)[0] == sent[0] && (sent + rest)[1..] == rest;
          if limit > 0 { TakeHead(sent + rest, offset, limit); }
          else { LimitNothing(sent + rest, offset); LimitNothing(rest, o); }
        }
      } else {
        assert SentAll(q, ids[..0]) == [];
      }
    }
  }

  lemma LimitOfNone(offset: nat, limit: nat)
    ensures LimitRows([], offset, limit) == []
  {
  }

  // ---------------------------------------------------------------- boundaries

  predicate AtOrAfter(k: ByteString, lo: Option<ByteString>) { lo.Some? ==> AtMost(lo.value, k) }

  /** `[lo, hi)`, with `None` for an open end. */
  predicate InSlice(k: ByteString, lo: Option<ByteString>, hi: Option<ByteString>) {
    AtOrAfter(k, lo) && (hi.Some? ==> Less(k, hi.value))
  }

  function Slice(keys: seq<ByteString>, lo: Option<ByteString>, hi: Option<ByteString>): seq<ByteString> {
    if keys == [] then []
    else if InSlice(keys[0], lo, hi) then [keys[0]] + Slice(keys[1..], lo, hi)
    else Slice(keys[1..], lo, hi)
  }

  ghost predicate BoundsAscend(lo: Option<ByteString>, hi: ByteString) { lo.Some? ==> AtMost(lo.value, hi) }

  lemma {:induction false} SliceAbove(keys: seq<ByteString>, lo: Option<ByteString>, hi: ByteString)
    requires forall i :: 0 <= i < |keys| ==> AtMost(hi, keys[i])
    ensures Slice(keys, lo, Some(hi)) == []
  {
    if keys != [] { SliceAbove(keys[1..], lo, hi); }
  }

  /** Cutting a sorted run at `hi` loses nothing and repeats nothing. */
  lemma {:induction false} SliceCut(keys: seq<ByteString>, lo: Option<ByteString>, hi: ByteString)
    requires StrictlySorted(keys) && BoundsAscend(lo, hi)
    ensures Slice(keys, lo, None) == Slice(keys, lo, Some(hi)) + Slice(keys, Some(hi), None)
  {
    hide Less;
    if keys != [] {
      var k := keys[0];
      SliceCut(keys[1..], lo, hi);
      if AtMost(hi, k) {
        forall i | 0 <= i < |keys| ensures AtMost(hi, keys[i]) {
          if i > 0 {
            LessAsymmetric(k, keys[i]);
            AtMostTransitive(hi, k, keys[i]);
          }
        }
        SliceAbove(keys, lo, hi);
        SliceAbove(keys[1..], lo, hi);
        if lo.Some? { AtMostTransitive(lo.value, hi, k); }
      }
    }
  }

  lemma {:induction false} SliceEverything(keys: seq<ByteString>)
    ensures Slice(keys, None, None) == keys
  {
    if keys != [] {
      SliceEverything(keys[1..]);
      assert keys == [keys[0]] + keys[1..];
    }
  }

  /** The workers' ranges: consecutive cuts, open at both ends. */
  function Slices(keys: seq<ByteString>, lo: Option<ByteString>, cuts: seq<ByteString>): seq<seq<ByteString>>
    decreases |cuts|
  {
    if cuts == [] then [Slice(keys, lo, None)]
    else [Slice(keys, lo, Some(cuts[0]))] + Slices(keys, Some(cuts[0]), cuts[1..])
  }

  ghost predicate CutsAscend(lo: Option<ByteString>, cuts: seq<ByteString>)
    decreases |cuts|
  {
    cuts == [] || (BoundsAscend(lo, cuts[0]) && CutsAscend(Some(cuts[0]), cuts[1..]))
  }

  /** Whatever the cuts, the ranges cover every key exactly once, in key order. */
  lemma {:induction false} SlicesCover(keys: seq<ByteString>, lo: Option<ByteString>, cuts: seq<ByteString>)
    requires StrictlySorted(keys) && CutsAscend(lo, cuts)
    ensures Flatten(Slices(keys, lo, cuts)) == Slice(keys, lo, None)
    decreases |cuts|
  {
    if cuts == [] {
      var whole := Slice(keys, lo, None);
      var one: seq<seq<ByteString>> := [whole];
      assert one[1..] == [] && whole + [] == whole;
    } else {
      SliceCut(keys, lo, cuts[0]);
      SlicesCover(keys, Some(cuts[0]), cuts[1..]);
      var rest := Slices(keys, Some(cuts[0]), cuts[1..]);
      assert ([Slice(keys, lo, Some(cuts[0]))] + rest)[1..] == rest;
    }
  }

  function ChunkSize(leaves: nat, workers: nat): nat
    requires workers > 0
  {
    (leaves + workers - 1) / workers
  }

  /** `c` is the first key of the leaf that starts chunk `i`. */
  predicate StartsChunk(leaves: seq<seq<ByteString>>, chunk: nat, i: nat, c: ByteString) {
    i >= 1 && i * chunk < |leaves| && leaves[i * chunk] != [] && c == leaves[i * chunk][0]
  }

  /** The cuts `try_parallel_scan` takes: in key order, the first keys of the leaves that start a worker's
      chunk, empty leaves aside. */
  method ChooseCuts(leaves: seq<seq<ByteString>>, workers: nat) returns (cuts: seq<ByteString>)
    requires workers > 0 && StrictlySorted(Flatten(leaves))
    ensures forall c :: c in cuts <==> exists i: nat :: i < workers && StartsChunk(leaves, ChunkSize(|leaves|, workers), i, c)
    ensures StrictlySorted(cuts) && CutsAscend(None, cuts) && |cuts| < workers
  {
    var chunk := ChunkSize(|leaves|, workers);
    cuts := [];
    hide *;
    NoCuts(leaves, chunk);
    for i := 1 to workers
      invariant |cuts| < i && CutsFrom(leaves, chunk, cuts, i)
    {
      var leaf := i * chunk;
      if leaf >= |leaves| {
        CutsBeyond(leaves, chunk, cuts, i, workers);
        break;
      }
      AddCut(leaves, chunk, cuts, i);
      if leaves[leaf] != [] {
        cuts := cuts + [leaves[leaf][0]];
      }
    }
    CutsFromAscend(leaves, chunk, cuts, workers);
  }

  /** The cuts so far: strictly ascending, the first keys of the chunks before `n`. */
  ghost predicate CutsFrom(leaves: seq<seq<ByteString>>, chunk: nat, cuts: seq<ByteString>, n: nat) {
    && StrictlySorted(cuts)
    && (forall c :: c in cuts ==> exists i: nat :: i < n && StartsChunk(leaves, chunk, i, c))
    && (forall i: nat, c :: i < n && StartsChunk(leaves, chunk, i, c) ==> c in cuts)
  }

  lemma NoCuts(leaves: seq<seq<ByteString>>, chunk: nat)
    ensures CutsFrom(leaves, chunk, [], 1)
  {
  }

  lemma AddCut(leaves: seq<seq<ByteString>>, chunk: nat, cuts: seq<ByteString>, n: nat)
    requires n >= 1 && StrictlySorted(Flatten(leaves)) && CutsFrom(leaves, chunk, cuts, n)
    requires chunk > 0 && n * chunk < |leaves|
    ensures leaves[n * chunk] == [] ==> CutsFrom(leaves, chunk, cuts, n + 1)
    ensures leaves[n * chunk] != [] ==> CutsFrom(leaves, chunk, cuts + [leaves[n * chunk][0]], n + 1)
  {
    hide StrictlySorted, Flatten;
    var leaf := leaves[n * chunk];
    if leaf != [] {
      StartsAt(leaves, chunk, n, leaf[0]);
      AppendCut(leaves, chunk, cuts, n, leaf[0]);
    } else {
      forall c ensures !StartsChunk(leaves, chunk, n, c) {}
      hide StartsChunk;
      forall c | c in cuts ensures exists i: nat :: i < n + 1 && StartsChunk(leaves, chunk, i, c) {
        var i: nat :| i < n && StartsChunk(leaves, chunk, i, c);
        assert i < n + 1;
      }
    }
  }

  lemma StartsAt(leaves: seq<seq<ByteString>>, chunk: nat, n: nat, key: ByteString)
    ensures StartsChunk(leaves, chunk, n, key) ==> forall c :: StartsChunk(leaves, chunk, n, c) <==> c == key
  {
  }

  lemma AppendCut(leaves: seq<seq<ByteString>>, chunk: nat, cuts: seq<ByteString>, n: nat, key: ByteString)
    requires StrictlySorted(Flatten(leaves)) && CutsFrom(leaves, chunk, cuts, n) && chunk > 0
    requires StartsChunk(leaves, chunk, n, key) && forall c :: StartsChunk(leaves, chunk, n, c) <==> c == key
    ensures CutsFrom(leaves, chunk, cuts + [key], n + 1)
  {
    hide StartsChunk, Less, Flatten;
    var more := cuts + [key];
    forall c | c in more ensures exists i: nat :: i < n + 1 && StartsChunk(leaves, chunk, i, c) {
      if c in cuts {
        var i: nat :| i < n && StartsChunk(leaves, chunk, i, c);
        assert i < n + 1;
      } else {
        assert n < n + 1 && StartsChunk(leaves, chunk, n, c);
      }
    }
    forall k | 0 <= k < |cuts| ensures Less(cuts[k], key) {
      assert cuts[k] in cuts;
      var i: nat :| i < n && StartsChunk(leaves, chunk, i, cuts[k]);
      ChunksAscend(leaves, chunk, i, n, cuts[k], key);
    }
    SortedSnoc(cuts, key);
  }

  lemma SortedSnoc(keys: seq<ByteString>, key: ByteString)
    requires StrictlySorted(keys) && forall k :: 0 <= k < |keys| ==> Less(keys[k], key)
    ensures StrictlySorted(keys + [key])
  {
    hide Less;
  }

  lemma ChunksAscend(leaves: seq<seq<ByteString>>, chunk: nat, i: nat, n: nat, a: ByteString, b: ByteString)
    requires StrictlySorted(Flatten(leaves)) && chunk > 0 && i < n
    requires StartsChunk(leaves, chunk, i, a) && StartsChunk(leaves, chunk, n, b)
    ensures Less(a, b)
  {
    hide Less, Flatten;
    assert i * chunk < n * chunk;
    FirstKeysAscend(leaves, i * chunk, n * chunk);
  }

  /** No chunk starts past the last leaf. */
  lemma CutsBeyond(leaves: seq<seq<ByteString>>, chunk: nat, cuts: seq<ByteString>, n: nat, m: nat)
    requires CutsFrom(leaves, chunk, cuts, n) && n <= m && n * chunk >= |leaves|
    ensures CutsFrom(leaves, chunk, cuts, m)
  {
    forall i: nat ensures i >= n ==> i * chunk >= n * chunk {}
  }

  lemma CutsFromAscend(leaves: seq<seq<ByteString>>, chunk: nat, cuts: seq<ByteString>, n: nat)
    requires CutsFrom(leaves, chunk, cuts, n)
    ensures StrictlySorted(cuts) && CutsAscend(None, cuts)
    ensures forall c :: c in cuts <==> exists i: nat :: i < n && StartsChunk(leaves, chunk, i, c)
  {
    hide Less;
    forall i | 0 < i < |cuts| ensures AtMost(cuts[i - 1], cuts[i]) { LessAsymmetric(cuts[i - 1], cuts[i]); }
    AscendingCuts(None, cuts);
  }

  ghost predicate Ascending(cuts: seq<ByteString>) {
    forall i :: 0 < i < |cuts| ==> AtMost(cuts[i - 1], cuts[i])
  }

  lemma {:induction false} AscendingCuts(lo: Option<ByteString>, cuts: seq<ByteString>)
    requires Ascending(cuts) && (cuts != [] ==> BoundsAscend(lo, cuts[0]))
    ensures CutsAscend(lo, cuts)
    decreases |cuts|
  {
    if cuts != [] {
      if |cuts| > 1 { assert AtMost(cuts[0], cuts[1]); }
      forall i | 0 < i < |cuts[1..]| ensures AtMost(cuts[1..][i - 1], cuts[1..][i]) { assert AtMost(cuts[i], cuts[i + 1]); }
      AscendingCuts(Some(cuts[0]), cuts[1..]);
    }
  }

  lemma {:induction false} LeafKeyPlace(leaves: seq<seq<ByteString>>, a: nat, b: nat)
    requires a < b < |leaves| && leaves[a] != [] && leaves[b] != []
    ensures exists i, j :: 0 <= i < j < |Flatten(leaves)| && Flatten(leaves)[i] == leaves[a][0] && Flatten(leaves)[j] == leaves[b][0]
  {
    var all, head := Flatten(leaves), leaves[0];
    var rest := Flatten(leaves[1..]);
    if a == 0 {
      var j := LeafKeyAt(leaves[1..], b - 1);
      assert all[0] == leaves[0][0] && all[|head| + j] == rest[j];
    } else {
      LeafKeyPlace(leaves[1..], a - 1, b - 1);
      var i, j :| 0 <= i < j < |rest| && rest[i] == leaves[a][0] && rest[j] == leaves[b][0];
      assert all[|head| + i] == rest[i] && all[|head| + j] == rest[j];
    }
  }

  lemma {:induction false} LeafKeyAt(leaves: seq<seq<ByteString>>, b: nat) returns (j: nat)
    requires b < |leaves| && leaves[b] != []
    ensures j < |Flatten(leaves)| && Flatten(leaves)[j] == leaves[b][0]
  {
    if b == 0 { j := 0; }
    else {
      var k := LeafKeyAt(leaves[1..], b - 1);
      j := |leaves[0]| + k;
    }
  }

  lemma FirstKeysAscend(leaves: seq<seq<ByteString>>, a: nat, b: nat)
    requires a < b < |leaves| && leaves[a] != [] && leaves[b] != [] && StrictlySorted(Flatten(leaves))
    ensures Less(leaves[a][0], leaves[b][0])
  {
    LeafKeyPlace(leaves, a, b);
    var i, j :| 0 <= i < j < |Flatten(leaves)| && Flatten(leaves)[i] == leaves[a][0] && Flatten(leaves)[j] == leaves[b][0];
  }

  // ---------------------------------------------------------------- workers and receiver

  /** A worker's unread keys, and whether it has exited (which closes its channel). */
  datatype Worker = Worker(todo: seq<ByteString>, exited: bool, channel: seq<Row>)

  datatype Sys = Sys(workers: seq<Worker>, stop: bool, current: nat, offset: nat, remaining: nat, out: seq<Row>)

  /** `Work` reads one key; `ExitDone` and `ExitStopped` end a worker; `Receive` and `Advance` are the
      receiver's; `Finish` is the call that finds the quota used up. */
  datatype Step = Work(w: nat) | ExitDone(w: nat) | ExitStopped(w: nat) | Receive | Advance | Finish

  predicate Enabled(s: Sys, step: Step) {
    match step
    case Work(w) => w < |s.workers| && !s.workers[w].exited && s.workers[w].todo != []
    case ExitDone(w) => w < |s.workers| && !s.workers[w].exited && s.workers[w].todo == []
    case ExitStopped(w) => w < |s.workers| && !s.workers[w].exited && s.stop
    case Receive => s.remaining > 0 && s.current < |s.workers| && s.workers[s.current].channel != []
    case Advance => s.remaining > 0 && s.current < |s.workers| && s.workers[s.current].channel == [] && s.workers[s.current].exited
    case Finish => s.remaining == 0
  }

  function Apply(q: Query, s: Sys, step: Step): Sys
    requires Enabled(s, step)
  {
    match step
    case Work(w) =>
      var me := s.workers[w];
      s.(workers := s.workers[w := me.(todo := me.todo[1..], channel := me.channel + Sent(q, me.todo[0]))])
    case ExitDone(w) => s.(workers := s.workers[w := s.workers[w].(exited := true)])
    case ExitStopped(w) => s.(workers := s.workers[w := s.workers[w].(exited := true)])
    case Receive =>
      var me := s.workers[s.current];
      var taken := s.(workers := s.workers[s.current := me.(channel := me.channel[1..])]);
      if s.offset > 0 then taken.(offset := s.offset - 1)
      else taken.(remaining := s.remaining - 1, stop := s.stop || s.remaining == 1, out := s.out + [me.channel[0]])
    case Advance => s.(current := s.current + 1)
    case Finish => s.(stop := true)
  }

  function InitialWorkers(slices: seq<seq<ByteString>>): (r: seq<Worker>)
    ensures |r| == |slices| && forall w :: 0 <= w < |r| ==> r[w] == Worker(slices[w], false, [])
  {
    seq(|slices|, w requires 0 <= w < |slices| => Worker(slices[w], false, []))
  }

  ghost predicate IsRun(q: Query, slices: seq<seq<ByteString>>, offset: nat, limit: nat, states: seq<Sys>, steps: seq<Step>) {
    && |states| == |steps| + 1 && states[0] == Sys(InitialWorkers(slices), false, 0, offset, limit, [])
    && forall k :: 0 <= k < |steps| ==> Enabled(states[k], steps[k]) && states[k + 1] == Apply(q, states[k], steps[k])
  }

  /** The receiver has nothing more to wait for. */
  predicate Drained(s: Sys) { s.remaining == 0 || s.current == |s.workers| }

  // ---------------------------------------------------------------- what is still to come

  function ToCome(q: Query, me: Worker): seq<Row> { me.channel + SentAll(q, me.todo) }

  function Pending(q: Query, ws: seq<Worker>): seq<Row> {
    if ws == [] then [] else ToCome(q, ws[0]) + Pending(q, ws[1..])
  }

  lemma {:induction false} PendingUpdate(q: Query, ws: seq<Worker>, w: nat, me: Worker)
    requires w < |ws| && ToCome(q, me) == ToCome(q, ws[w])
    ensures Pending(q, ws[w := me]) == Pending(q, ws)
  {
    hide ToCome;
    if w > 0 {
      PendingUpdate(q, ws[1..], w - 1, me);
      assert ws[w := me][1..] == ws[1..][w - 1 := me];
    } else {
      assert ws[0 := me][1..] == ws[1..];
    }
  }

  ghost predicate Inv(q: Query, target: seq<Row>, s: Sys) {
    && s.current <= |s.workers|
    && target == s.out + LimitRows(Pending(q, s.workers[s.current..]), s.offset, s.remaining)
    && (s.remaining > 0 ==> !s.stop && ExitedDone(s.workers))
  }

  /** Until the quota is used up only workers with nothing left to read exit. */
  ghost predicate ExitedDone(ws: seq<Worker>) {
    forall w :: 0 <= w < |ws| && ws[w].exited ==> ws[w].todo == []
  }

  lemma LimitNothing(rows: seq<Row>, offset: nat)
    ensures LimitRows(rows, offset, 0) == []
  {
  }

  lemma WorkKeepsToCome(q: Query, me: Worker)
    requires me.todo != []
    ensures ToCome(q, me.(todo := me.todo[1..], channel := me.channel + Sent(q, me.todo[0]))) == ToCome(q, me)
  {
    hide Sent;
    ConcatAssoc(me.channel, Sent(q, me.todo[0]), SentAll(q, me.todo[1..]));
  }

  /** A worker's step leaves what the receiver will see unchanged. */
  lemma WorkerStepKeepsInv(q: Query, target: seq<Row>, s: Sys, step: Step)
    requires Inv(q, target, s) && Enabled(s, step) && (step.Work? || step.ExitDone? || step.ExitStopped?)
    ensures Inv(q, target, Apply(q, s, step))
  {
    var w, d := step.w, Apply(q, s, step);
    var me := s.workers[w];
    if step.Work? { WorkKeepsToCome(q, me); }
    assert ToCome(q, d.workers[w]) == ToCome(q, me);
    PendingAhead(q, s.workers, w, d.workers[w], s.current);
    hide Pending, ToCome, LimitRows, Sent;
  }

  lemma PendingAhead(q: Query, ws: seq<Worker>, w: nat, me: Worker, c: nat)
    requires w < |ws| && c <= |ws| && ToCome(q, me) == ToCome(q, ws[w])
    ensures Pending(q, ws[w := me][c..]) == Pending(q, ws[c..])
  {
    hide Pending, ToCome;
    if w >= c {
      PendingUpdate(q, ws[c..], w - c, me);
      assert ws[w := me][c..] == ws[c..][w - c := me];
    } else {
      assert ws[w := me][c..] == ws[c..];
    }
  }

  lemma TakeHead(rows: seq<Row>, offset: nat, limit: nat)
    requires rows != [] && limit > 0
    ensures offset > 0 ==> LimitRows(rows, offset, limit) == LimitRows(rows[1..], offset - 1, limit)
    ensures offset == 0 ==> LimitRows(rows, 0, limit) == [rows[0]] + LimitRows(rows[1..], 0, limit - 1)
  {
    if offset > 0 {
      if offset <= |rows| { assert rows[offset..] == rows[1..][offset - 1..]; }
    } else {
      assert rows[0..] == rows && rows[1..][0..] == rows[1..];
    }
  }

  lemma ReceiveKeepsInv(q: Query, target: seq<Row>, s: Sys)
    requires Inv(q, target, s) && Enabled(s, Receive)
    ensures Inv(q, target, Apply(q, s, Receive))
  {
    var d, c := Apply(q, s, Receive), s.current;
    var me := s.workers[c];
    PendingHead(q, s.workers, c);
    assert ExitedDone(d.workers);
    hide Pending, LimitRows, ExitedDone;
    assert d.workers == s.workers[c := me.(channel := me.channel[1..])];
    ReceiveTakesHead(s.out, s.workers[c].channel[0], Pending(q, d.workers[c..]), s.offset, s.remaining);
  }

  /** Taking the first pending row, whether it is skipped or delivered, leaves the target as it was. */
  lemma ReceiveTakesHead(out: seq<Row>, head: Row, rest: seq<Row>, offset: nat, limit: nat)
    requires limit > 0
    ensures offset > 0 ==> LimitRows([head] + rest, offset, limit) == LimitRows(rest, offset - 1, limit)
    ensures offset == 0 ==> out + LimitRows([head] + rest, 0, limit) == (out + [head]) + LimitRows(rest, 0, limit - 1)
  {
    hide LimitRows;
    var all := [head] + rest;
    assert all[0] == head && all[1..] == rest;
    TakeHead(all, offset, limit);
    if offset == 0 { ConcatAssoc(out, [head], LimitRows(rest, 0, limit - 1)); }
  }

  /** Receiving takes the first pending row. */
  lemma PendingHead(q: Query, ws: seq<Worker>, c: nat)
    requires c < |ws| && ws[c].channel != []
    ensures Pending(q, ws[c..]) == [ws[c].channel[0]] + Pending(q, ws[c := ws[c].(channel := ws[c].channel[1..])][c..])
  {
    var me := ws[c];
    var next := me.(channel := me.channel[1..]);
    var after := ws[c := next];
    assert ws[c..][0] == me && after[c..][0] == next && after[c..][1..] == ws[c..][1..];
    assert me.channel == [me.channel[0]] + me.channel[1..];
    ConcatAssoc([me.channel[0]], me.channel[1..], SentAll(q, me.todo));
    assert ToCome(q, me) == [me.channel[0]] + ToCome(q, next);
    hide ToCome;
    ConcatAssoc([me.channel[0]], ToCome(q, next), Pending(q, ws[c..][1..]));
  }

  lemma AdvanceKeepsInv(q: Query, target: seq<Row>, s: Sys)
    requires Inv(q, target, s) && Enabled(s, Advance)
    ensures Inv(q, target, Apply(q, s, Advance))
  {
    var ws := s.workers[s.current..];
    assert ws[0] == s.workers[s.current] && ws[1..] == s.workers[s.current + 1..];
    assert ToCome(q, ws[0]) == [];
    assert Pending(q, ws) == Pending(q, ws[1..]);
  }

  lemma {:induction false} RunKeepsInv(q: Query, slices: seq<seq<ByteString>>, offset: nat, limit: nat,
                                       states: seq<Sys>, steps: seq<Step>, n: nat)
    requires IsRun(q, slices, offset, limit, states, steps) && n <= |steps|
    ensures Inv(q, LimitRows(SentAll(q, Flatten(slices)), offset, limit), states[n])
  {
    hide LimitRows, SentAll, Flatten;
    if n == 0 {
      InitialPending(q, slices);
      var s := states[0];
      assert s.workers[0..] == s.workers;
      var t := LimitRows(SentAll(q, Flatten(slices)), offset, limit);
      assert [] + t == t;
    } else {
      RunKeepsInv(q, slices, offset, limit, states, steps, n - 1);
      var s, step := states[n - 1], steps[n - 1];
      var target := LimitRows(SentAll(q, Flatten(slices)), offset, limit);
      match step
      case Receive => ReceiveKeepsInv(q, target, s);
      case Advance => AdvanceKeepsInv(q, target, s);
      case Finish =>
      case _ => WorkerStepKeepsInv(q, target, s, step);
    }
  }

  lemma {:induction false} InitialPending(q: Query, slices: seq<seq<ByteString>>)
    ensures Pending(q, InitialWorkers(slices)) == SentAll(q, Flatten(slices))
  {
    hide Sent;
    if slices != [] {
      InitialPending(q, slices[1..]);
      assert InitialWorkers(slices)[1..] == InitialWorkers(slices[1..]);
      SentAllConcat(q, slices[0], Flatten(slices[1..]));
      assert [] + SentAll(q, slices[0]) == SentAll(q, slices[0]);
    }
  }

  /** In every interleaving of workers and receiver, for every choice of cuts: what the caller has received
      is a prefix of what OFFSET and LIMIT leave of the rows sent, and all of it once the receiver is drained. */
  lemma ReceivedInKeyOrder(q: Query, cuts: seq<ByteString>, offset: nat, limit: nat, states: seq<Sys>, steps: seq<Step>, n: nat)
    requires ValidQuery(q) && CutsAscend(None, cuts)
    requires IsRun(q, Slices(q.table.ids, None, cuts), offset, limit, states, steps) && n <= |steps|
    ensures var target := LimitRows(SentAll(q, q.table.ids), offset, limit);
            |states[n].out| <= |target| && target[..|states[n].out|] == states[n].out &&
            (Drained(states[n]) ==> states[n].out == target)
  {
    var slices := Slices(q.table.ids, None, cuts);
    SlicesCover(q.table.ids, None, cuts);
    SliceEverything(q.table.ids);
    RunKeepsInv(q, slices, offset, limit, states, steps, n);
    hide *;
    InvGivesPrefix(q, LimitRows(SentAll(q, q.table.ids), offset, limit), states[n]);
  }

  lemma InvGivesPrefix(q: Query, target: seq<Row>, s: Sys)
    requires Inv(q, target, s)
    ensures |s.out| <= |target| && target[..|s.out|] == s.out && (Drained(s) ==> s.out == target)
  {
    var pending := Pending(q, s.workers[s.current..]);
    assert s.current == |s.workers| ==> pending == [];
    hide Pending;
    LimitNothing(pending, s.offset);
    if Drained(s) { assert target == s.out + []; }
  }

  /** A drained run has the result of the limited serial scan exactly when the filter errs on no visible row
      the serial scan reads before OFFSET plus LIMIT rows are kept. Short of that the serial scan fails. */
  lemma ParallelEqualsSerial(q: Query, cuts: seq<ByteString>, offset: nat, limit: nat, states: seq<Sys>, steps: seq<Step>)
    requires ValidQuery(q) && CutsAscend(None, cuts)
    requires IsRun(q, Slices(q.table.ids, None, cuts), offset, limit, states, steps) && Drained(states[|steps|])
    ensures SerialLimited(q, q.table.ids, offset, limit) == Ok(states[|steps|].out)
       <==> NoErrorReached(q, q.table.ids, offset + limit)
    ensures SerialLimited(q, q.table.ids, offset, limit).Ok? ==>
            SerialLimited(q, q.table.ids, offset, limit) == Ok(states[|steps|].out)
  {
    ReceivedInKeyOrder(q, cuts, offset, limit, states, steps, |steps|);
    SerialLimitedMeaning(q, q.table.ids, offset, limit);
  }

  // ---------------------------------------------------------------- runs to the end

  ghost predicate RunFrom(q: Query, s: Sys, states: seq<Sys>, steps: seq<Step>) {
    && |states| == |steps| + 1 && states[0] == s
    && forall k :: 0 <= k < |steps| ==> Enabled(states[k], steps[k]) && states[k + 1] == Apply(q, states[k], steps[k])
  }

  /** The step that brings the receiver's current worker forward. */
  function NextStep(s: Sys): (step: Step)
    requires s.current < |s.workers| && s.remaining > 0
    ensures Enabled(s, step)
  {
    var me := s.workers[s.current];
    if me.channel != [] then Receive
    else if me.exited then Advance
    else if me.todo != [] then Work(s.current)
    else ExitDone(s.current)
  }

  /** From every state some run drains the receiver. */
  lemma {:induction false} DrainFrom(q: Query, s: Sys) returns (states: seq<Sys>, steps: seq<Step>)
    requires s.current <= |s.workers|
    ensures RunFrom(q, s, states, steps) && Drained(states[|steps|])
    decreases |s.workers| - s.current,
              if s.current < |s.workers| then |s.workers[s.current].todo| else 0,
              if s.current < |s.workers| && !s.workers[s.current].exited then 1 else 0,
              if s.current < |s.workers| then |s.workers[s.current].channel| else 0
  {
    if Drained(s) {
      states, steps := [s], [];
    } else {
      hide Sent;
      var step := NextStep(s);
      var after, more := DrainFrom(q, Apply(q, s, step));
      states, steps := [s] + after, [step] + more;
      hide *;
      PrependStep(q, s, step, after, more);
    }
  }

  lemma PrependStep(q: Query, s: Sys, step: Step, states: seq<Sys>, steps: seq<Step>)
    requires Enabled(s, step) && RunFrom(q, Apply(q, s, step), states, steps)
    ensures RunFrom(q, s, [s] + states, [step] + steps) && ([s] + states)[|steps| + 1] == states[|steps|]
  {
    hide Enabled, Apply;
    var all, taken := [s] + states, [step] + steps;
    forall k | 0 <= k < |taken| ensures Enabled(all[k], taken[k]) && all[k + 1] == Apply(q, all[k], taken[k]) {
      if k > 0 { assert all[k] == states[k - 1] && taken[k] == steps[k - 1]; }
    }
  }

  /** When the filter errs on a visible row the serial scan would reach, every run that drains drops the row
      and reports nothing, one such run exists, and the serial scan fails. */
  lemma ParallelDropsErrors(q: Query, cuts: seq<ByteString>, offset: nat, limit: nat, k: nat) returns (states: seq<Sys>, steps: seq<Step>)
    requires ValidQuery(q) && CutsAscend(None, cuts)
    requires k < |q.table.ids| && Errs(q, q.table.ids[k]) && |SentAll(q, q.table.ids[..k])| < offset + limit
    ensures IsRun(q, Slices(q.table.ids, None, cuts), offset, limit, states, steps) && Drained(states[|steps|])
    ensures states[|steps|].out == LimitRows(SentAll(q, q.table.ids), offset, limit)
    ensures SerialLimited(q, q.table.ids, offset, limit).Err?
  {
    hide Errs, SentAll, LimitRows;
    states, steps := DrainFrom(q, Sys(InitialWorkers(Slices(q.table.ids, None, cuts)), false, 0, offset, limit, []));
    ReceivedInKeyOrder(q, cuts, offset, limit, states, steps, |steps|);
    SerialLimitedMeaning(q, q.table.ids, offset, limit);
  }

  const ONE_BY_ZERO: Expr := Binary(Div, Integer(1), Integer(0))

  /** `WHERE 1 / 0`, over any table with a visible row: the parallel scan ends with no row and no error, the
      serial scan fails. */
  lemma DivisionByZeroDropped(q: Query, cuts: seq<ByteString>, limit: nat, k: nat) returns (states: seq<Sys>, steps: seq<Step>)
    requires ValidQuery(q) && CutsAscend(None, cuts) && q.filter == Some(ONE_BY_ZERO) && limit > 0
    requires k < |q.table.ids| && q.visible(q.table.rows[q.table.ids[k]].txMin, q.table.rows[q.table.ids[k]].txMax)
    ensures IsRun(q, Slices(q.table.ids, None, cuts), 0, limit, states, steps) && Drained(states[|steps|])
    ensures states[|steps|].out == [] && SerialLimited(q, q.table.ids, 0, limit).Err?
  {
    hide Errs, SentAll, PassesFilter;
    NothingSent(q, q.table.ids);
    NothingSent(q, q.table.ids[..k]);
    OneByZeroErrs(q, q.table.ids[k]);
    LimitOfNone(0, limit);
    hide *;
    states, steps := ParallelDropsErrors(q, cuts, 0, limit, k);
  }

  lemma OneByZeroErrs(q: Query, id: ByteString)
    requires ValidTable(q.table) && q.filter == Some(ONE_BY_ZERO) && id in q.table.rows
    requires q.visible(q.table.rows[id].txMin, q.table.rows[id].txMax)
    ensures Errs(q, id)
  {
  }

  lemma {:induction false} NothingSent(q: Query, ids: seq<ByteString>)
    requires q.filter == Some(ONE_BY_ZERO)
    ensures SentAll(q, ids) == []
  {
    if ids != [] { NothingSent(q, ids[1..]); }
  }
}
