/** `BatchSort`: sorting that spills runs to files and merges them back (engine/executor.rs). */
module ExternalSort {
  import opened Bytes
  import opened Values
  import opened Sequences
  import opened RowCodec
  import opened StableSort
  import opened SortMeaning

  // ---------------------------------------------------------------- spill files

  /** One spilled row: the low 32 bits of its encoded length, then its bytes. */
  function Frame(row: Row): ByteString {
    LittleEndian(|EncodeValues(row)|, 4) + EncodeValues(row)
  }

  function RunFile(rows: seq<Row>): ByteString {
    if rows == [] then [] else Frame(rows[0]) + RunFile(rows[1..])
  }

  /** A row of the sorted width whose encoding a spill file can hold. */
  predicate Spillable(s: Sorter, row: Row) {
    s.Fits(row) && StorableRow(row) && |EncodeValues(row)| < TWO_32
  }

  predicate AllSpillable(s: Sorter, rows: seq<Row>) {
    forall i :: 0 <= i < |rows| ==> Spillable(s, rows[i])
  }

  /** `SpilledRun::next_row` over the unread bytes: the next row and what is left. A file that ends before the
      next length is exhausted; one that ends inside a row, or whose row does not decode, is an error. */
  method NextRow(file: ByteString, columns: nat) returns (r: Result<Option<Row>>, left: ByteString)
    ensures r == Ok(None) <==> |file| < 4
    ensures r.Err? <==> |file| >= 4 && Unreadable(file, columns)
    ensures r.Ok? && r.value.Some? ==> ReadsAs(file, columns, r.value.value, left)
    ensures file == [] ==> left == []
    ensures forall s: Sorter, row: Row, rest: ByteString ::
              Spillable(s, row) && |s.types| == columns && file == Frame(row) + rest ==> r == Ok(Some(row)) && left == rest
  {
    if |file| < 4 {
      return Ok(None), [];
    }
    var size := FromLittleEndian(file[..4]);
    forall s: Sorter, row: Row, rest: ByteString
      | Spillable(s, row) && |s.types| == columns && file == Frame(row) + rest
      ensures size <= |file| - 4 && Decode(file[4..4 + size], columns) == Ok(row) && file[4 + size..] == rest
    {
      FrameReadsBack(s, row, rest, file);
    }
    assert Unreadable(file, columns) <==> 4 + size > |file| || Decode(file[4..4 + size], columns).Err?;
    assert forall row, rest :: 4 + size <= |file| && Decode(file[4..4 + size], columns) == Ok(row) && rest == file[4 + size..] ==> ReadsAs(file, columns, row, rest);
    hide *;
    if |file| - 4 < size {
      return Err(Corruption), [];
    }
    var values := DecodeValues(file[4..4 + size], columns);
    left := file[4 + size..];
    r := match values case Ok(vs) => Ok(Some(vs)) case Err(e) => Err(e);
  }

  /** The bytes after the length are missing, or are no row. */
  predicate Unreadable(file: ByteString, columns: nat)
    requires |file| >= 4
  {
    var n := FromLittleEndian(file[..4]);
    4 + n > |file| || Decode(file[4..4 + n], columns).Err?
  }

  /** The file is a length, that many bytes that decode to the row, and `left`. */
  predicate ReadsAs(file: ByteString, columns: nat, row: Row, left: ByteString) {
    |file| >= 4 && var n := FromLittleEndian(file[..4]);
    4 + n <= |file| && Decode(file[4..4 + n], columns) == Ok(row) && left == file[4 + n..]
  }

  lemma FrameReadsBack(s: Sorter, row: Row, rest: ByteString, file: ByteString)
    requires Spillable(s, row) && file == Frame(row) + rest
    ensures var size := FromLittleEndian(file[..4]);
            size <= |file| - 4 && Decode(file[4..4 + size], |s.types|) == Ok(row) && file[4 + size..] == rest
  {
    hide LittleEndian, FromLittleEndian, EncodeValues, Decode;
    var body := EncodeValues(row);
    var head := LittleEndian(|body|, 4);
    assert file[..4] == head && file[4..4 + |body|] == body && file[4 + |body|..] == rest;
    Pow256Values();
    LittleEndianRoundTrip(|body|, 4);
    ValuesRoundTrip(row);
  }

  lemma {:induction false} RunFileSnoc(rows: seq<Row>, row: Row)
    ensures RunFile(rows + [row]) == RunFile(rows) + Frame(row)
  {
    hide Frame;
    if rows == [] {
      assert rows + [row] == [row] && [row][1..] == [];
      assert Frame(row) + [] == Frame(row);
    } else {
      RunFileSnoc(rows[1..], row);
      assert (rows + [row])[1..] == rows[1..] + [row];
      ConcatAssoc(Frame(rows[0]), RunFile(rows[1..]), Frame(row));
    }
  }

  /** `spill_sorted_run`: sort the buffer and write each row, length first. */
  method SpillSortedRun(s: Sorter, buffer: seq<Row>) returns (file: ByteString)
    ensures file == RunFile(Sort(s, buffer))
  {
    var rows := Sort(s, buffer);
    file := [];
    assert RunFile(rows[..0]) == [];
    hide *;
    for i := 0 to |rows|
      invariant file == RunFile(rows[..i])
    {
      var encoded := AppendValues([], rows[i]);
      assert [] + EncodeValues(rows[i]) == EncodeValues(rows[i]);
      RunFileSnoc(rows[..i], rows[i]);
      assert rows[..i + 1] == rows[..i] + [rows[i]];
      FrameOf(rows[i]);
      ConcatAssoc(file, LittleEndian(|encoded|, 4), encoded);
      file := file + LittleEndian(|encoded|, 4) + encoded;
    }
    assert rows[..|rows|] == rows;
  }

  lemma FrameOf(row: Row)
    ensures Frame(row) == LittleEndian(|EncodeValues(row)|, 4) + EncodeValues(row)
  {
  }

  // ---------------------------------------------------------------- sorting keeps the rows

  lemma {:induction false} InsertMembers(s: Sorter, x: Row, ys: seq<Row>, y: Row)
    ensures y in Insert(s, x, ys) <==> y == x || y in ys
  {
    if ys != [] && !Le(s, x, ys[0]) { InsertMembers(s, x, ys[1..], y); }
  }

  lemma {:induction false} SortMembers(s: Sorter, xs: seq<Row>, y: Row)
    ensures y in Sort(s, xs) <==> y in xs
  {
    if xs != [] {
      SortMembers(s, xs[1..], y);
      InsertMembers(s, xs[0], Sort(s, xs[1..]), y);
    }
  }

  lemma SortSpillable(s: Sorter, xs: seq<Row>)
    requires AllSpillable(s, xs)
    ensures AllSpillable(s, Sort(s, xs))
  {
    hide Spillable;
    var ys := Sort(s, xs);
    forall i | 0 <= i < |ys| ensures Spillable(s, ys[i]) { SortMembers(s, xs, ys[i]); }
  }

  // ---------------------------------------------------------------- the operator

  /** Heap entry `a` is popped no later than entry `b`. */
  predicate Pops(s: Sorter, heap: map<nat, Row>, a: nat, b: nat) {
    a in heap && b in heap && Le(s, heap[a], heap[b]) && (b < a ==> !Le(s, heap[b], heap[a]))
  }

  lemma PopsTransitive(s: Sorter, heap: map<nat, Row>, a: nat, b: nat, c: nat)
    requires Pops(s, heap, a, b) && Pops(s, heap, b, c)
    ensures Pops(s, heap, a, c)
  {
    hide Le;
    LeTransitive(s, heap[a], heap[b], heap[c]);
    if Le(s, heap[c], heap[a]) {
      LeTransitive(s, heap[c], heap[a], heap[b]);
      LeTransitive(s, heap[b], heap[c], heap[a]);
    }
  }

  lemma MergePops(s: Sorter, runs: seq<seq<Row>>, id: nat)
    requires IsPick(s, runs, id)
    ensures Merge(s, runs) == [runs[id][0]] + Merge(s, runs[id := runs[id][1..]])
  {
    PickUnique(s, runs, id, Pick(s, runs).value);
  }

  lemma MergeNothing(s: Sorter, runs: seq<seq<Row>>)
    requires forall i :: 0 <= i < |runs| ==> runs[i] == []
    ensures Merge(s, runs) == []
  {
  }

  /** The runs are the files of the sorted chunks. */
  ghost predicate Spilled(s: Sorter, chunks: seq<seq<Row>>, runs: seq<ByteString>) {
    |chunks| == |runs| && forall i :: 0 <= i < |runs| ==> runs[i] == RunFile(Sort(s, chunks[i])) && AllSpillable(s, chunks[i])
  }

  lemma SpillStep(s: Sorter, chunks: seq<seq<Row>>, runs: seq<ByteString>, pending: seq<Row>, run: ByteString)
    requires Spilled(s, chunks, runs) && AllSpillable(s, pending) && run == RunFile(Sort(s, pending))
    ensures Spilled(s, chunks + [pending], runs + [run])
    ensures Flatten(chunks + [pending]) + [] == Flatten(chunks) + pending
  {
    FlattenConcat(chunks, [pending]);
    assert [pending][1..] == [] && Flatten([pending]) == pending;
  }

  lemma ChunkStep(s: Sorter, chunks: seq<seq<Row>>, pending: seq<Row>, rows: seq<Row>, i: nat)
    requires i < |rows| && Flatten(chunks) + pending == rows[..i]
    ensures Flatten(chunks) + (pending + [rows[i]]) == rows[..i + 1]
    ensures AllSpillable(s, rows) && AllSpillable(s, pending) ==> AllSpillable(s, pending + [rows[i]])
  {
    hide Spillable;
    ConcatAssoc(Flatten(chunks), pending, [rows[i]]);
  }

  /** An input that reaches the threshold spills, and then its rows must fit the spill format. */
  predicate CanSort(s: Sorter, rows: seq<Row>, threshold: nat) {
    |rows| >= threshold ==> AllSpillable(s, rows)
  }

  datatype Phase = Building | DrainingMemory | DrainingMerge

  /** One row per unfinished run sits in `heap`; `files` holds each run's unread bytes. */
  class BatchSort {
    const sorter: Sorter
    const threshold: nat
    var input: seq<Row>
    var phase: Phase
    var buffer: seq<Row>
    var files: seq<ByteString>
    var heap: map<nat, Row>
    ghost var unread: seq<seq<Row>>

    ghost predicate Valid()
      reads this
    {
      && (phase == Building ==> CanSort(sorter, input, threshold) && buffer == [] && files == [] && unread == [])
      && (phase == DrainingMerge ==> |files| == |unread| && RunsReadable() && HeapMatches())
    }

    ghost predicate RunsReadable()
      reads this
      requires |files| == |unread|
    {
      forall i :: 0 <= i < |files| ==> files[i] == RunFile(unread[i]) && AllSpillable(sorter, unread[i])
    }

    /** A run without a heap entry is exhausted. */
    ghost predicate HeapMatches()
      reads this
    {
      && (forall id :: id in heap ==> id < |unread|)
      && (forall i :: 0 <= i < |unread| && i !in heap ==> unread[i] == [])
    }

    /** Run `i` as the merge sees it: its heap entry, then its unread rows. */
    ghost function Run(i: nat): seq<Row>
      reads this
      requires i < |unread|
    {
      if i in heap then [heap[i]] + unread[i] else unread[i]
    }

    ghost function Runs(): (r: seq<seq<Row>>)
      reads this
      ensures |r| == |unread|
      ensures forall i :: 0 <= i < |r| ==> r[i] == Run(i)
    {
      seq(|unread|, i requires 0 <= i < |unread| reads this => Run(i))
    }

    /** The rows still to come. */
    ghost function Remaining(): seq<Row>
      reads this
    {
      match phase
      case Building => Sort(sorter, input)
      case DrainingMemory => buffer
      case DrainingMerge => Merge(sorter, Runs())
    }

    constructor (rows: seq<Row>, s: Sorter, limit: nat)
      requires CanSort(s, rows, limit)
      ensures Valid() && Remaining() == Sort(s, rows) && phase == Building
    {
      sorter, threshold, input, phase := s, limit, rows, Building;
      buffer, files, heap, unread := [], [], map[], [];
    }

    /** `drain_input`: cut the input into runs, then either sort the buffer or open the merge. */
    method DrainInput()
      requires Valid() && phase == Building
      modifies this
      ensures Valid() && phase != Building
      ensures Remaining() == old(Remaining())
    {
      ghost var chunks: seq<seq<Row>> := [];
      var runs: seq<ByteString>, pending: seq<Row> := [], [];
      ghost var spills := |input| >= threshold;
      for i := 0 to |input|
        invariant unchanged(this)
        invariant Flatten(chunks) + pending == input[..i] && |pending| <= i
        invariant spills ==> Spilled(sorter, chunks, runs) && AllSpillable(sorter, pending) && AllSpillable(sorter, input)
        invariant !spills ==> chunks == [] && runs == []
      {
        ChunkStep(sorter, chunks, pending, input, i);
        hide *;
        pending := pending + [input[i]];
        if |pending| >= threshold {
          var run := SpillSortedRun(sorter, pending);
          SpillStep(sorter, chunks, runs, pending, run);
          chunks, runs, pending := chunks + [pending], runs + [run], [];
        }
      }
      assert input[..|input|] == input;
      if runs == [] {
        assert Flatten(chunks) + pending == pending;
        buffer, phase := Sort(sorter, pending), DrainingMemory;
      } else {
        FinishSpilling(runs, pending, chunks);
      }
    }

    /** Spill the tail too, and open the merge. */
    method FinishSpilling(spilled: seq<ByteString>, pending: seq<Row>, ghost cut: seq<seq<Row>>)
      requires Spilled(sorter, cut, spilled) && AllSpillable(sorter, pending)
      modifies this
      ensures Valid() && phase == DrainingMerge
      ensures Remaining() == Sort(sorter, Flatten(cut) + pending)
    {
      hide *;
      var runs := spilled;
      ghost var chunks := cut;
      assert pending == [] ==> Flatten(cut) + pending == Flatten(cut);
      if pending != [] {
        var run := SpillSortedRun(sorter, pending);
        SpillStep(sorter, chunks, runs, pending, run);
        chunks, runs := chunks + [pending], runs + [run];
        assert Flatten(chunks) + [] == Flatten(chunks);
      }
      ExternalSortIsStableSort(sorter, chunks);
      OpenMerge(runs, chunks);
    }

    /** The first row of every run goes into the heap. */
    method OpenMerge(runs: seq<ByteString>, ghost chunks: seq<seq<Row>>)
      requires Spilled(sorter, chunks, runs)
      modifies this
      ensures Valid() && phase == DrainingMerge
      ensures Remaining() == Merge(sorter, SortedRuns(sorter, chunks))
    {
      phase, files, heap := DrainingMerge, runs, map[];
      unread := SortedRuns(sorter, chunks);
      ghost var sorted := unread;
      forall i | 0 <= i < |files| ensures AllSpillable(sorter, unread[i]) { SortSpillable(sorter, chunks[i]); }
      hide Spilled, Sort, Merge, RunFile, AllSpillable;
      for id := 0 to |runs|
        invariant phase == DrainingMerge && |files| == |unread| == |runs| && |sorted| == |runs|
        invariant RunsReadable() && Runs() == sorted
        invariant forall k :: k in heap ==> k < id
        invariant forall i :: 0 <= i < id && i !in heap ==> unread[i] == []
      {
        Refill(id);
      }
    }

    /** Move the next row of run `id`, whose slot is free, from its file into the heap. */
    method Refill(id: nat)
      requires |files| == |unread| && RunsReadable() && id < |files| && id !in heap
      modifies `files, `heap, `unread
      ensures |files| == |unread| == old(|files|) && RunsReadable()
      ensures Runs() == old(Runs())
      ensures forall k :: k in old(heap) ==> k in heap
      ensures forall k :: k in heap ==> k in old(heap) || k == id
      ensures forall i :: 0 <= i < |unread| && i != id ==> unread[i] == old(unread[i])
      ensures id !in heap ==> unread[id] == []
    {
      assert files[id] == RunFile(unread[id]) && AllSpillable(sorter, unread[id]);
      ghost var rows := unread[id];
      if rows != [] { assert Spillable(sorter, rows[0]) && files[id] == Frame(rows[0]) + RunFile(rows[1..]); }
      ghost var before := Runs();
      var next, left := NextRow(files[id], |sorter.types|);
      hide Spillable, Frame, ReadsAs, Unreadable, RunFile, Decode;
      assert next.Ok?;
      files := files[id := left];
      if next.value.Some? {
        heap := heap[id := next.value.value];
        unread := unread[id := rows[1..]];
        assert [rows[0]] + rows[1..] == rows;
      }
      assert Runs() == before;
    }

    /** `heap.pop()`: the greatest entry under the reversed row order, the lowest run on ties. */
    method PopHeap() returns (id: nat)
      requires heap != map[] && HeapMatches()
      ensures id in heap && IsPick(sorter, Runs(), id)
    {
      hide Le;
      id :| id in heap;
      var todo := heap.Keys - {id};
      LeTotal(sorter, heap[id], heap[id]);
      while todo != {}
        invariant todo <= heap.Keys && id in heap && id !in todo
        invariant forall j :: j in heap && j !in todo ==> Pops(sorter, heap, id, j)
        decreases todo
      {
        ghost var previous := id;
        var k :| k in todo;
        todo := todo - {k};
        LeTotal(sorter, heap[k], heap[id]);
        LeTotal(sorter, heap[k], heap[k]);
        if Le(sorter, heap[k], heap[id]) && (k < id || !Le(sorter, heap[id], heap[k])) {
          id := k;
        }
        forall j | j in heap && j !in todo ensures Pops(sorter, heap, id, j) {
          if j != k { PopsTransitive(sorter, heap, id, previous, j); }
        }
      }
      forall j | 0 <= j < |Runs()| && Runs()[j] != [] ensures Pops(sorter, heap, id, j) && Runs()[j][0] == heap[j] {
        assert Runs()[j] == Run(j);
      }
      assert Runs()[id] == Run(id);
    }

    /** `next_sorted_row`: the first of the remaining rows, if any. */
    method NextSortedRow() returns (r: Result<Option<Row>>)
      requires Valid() && phase != Building
      modifies this
      ensures Valid() && phase == old(phase)
      ensures old(Remaining()) == [] ==> r == Ok(None) && Remaining() == []
      ensures old(Remaining()) != [] ==> r == Ok(Some(old(Remaining())[0])) && Remaining() == old(Remaining())[1..]
    {
      if phase == DrainingMemory {
        if buffer == [] { return Ok(None); }
        r := Ok(Some(buffer[0]));
        buffer := buffer[1..];
      } else {
        if heap == map[] {
          MergeNothing(sorter, Runs());
          return Ok(None);
        }
        var row := PopAndRefill();
        r := Ok(Some(row));
      }
    }

    /** Pop the next row and refill from the run it came from. */
    method PopAndRefill() returns (row: Row)
      requires Valid() && phase == DrainingMerge && heap != map[]
      modifies `files, `heap, `unread
      ensures Valid()
      ensures old(Remaining()) == [row] + Remaining()
    {
      hide Merge, AllSpillable, RunFile, Le;
      var id := PopHeap();
      row := heap[id];
      ghost var runs := Runs();
      MergePops(sorter, runs, id);
      hide IsPick;
      assert runs[id] == [row] + unread[id];
      heap := heap - {id};
      assert Runs() == runs[id := runs[id][1..]];
      Refill(id);
    }
  }

  /** `next_batch`: up to `size` of the remaining rows, in order. */
  method NextBatch(op: BatchSort, size: nat) returns (batch: seq<Row>)
    requires op.Valid() && op.phase != Building
    modifies op
    ensures op.Valid() && op.phase != Building
    ensures old(op.Remaining()) == batch + op.Remaining()
    ensures |batch| == if |old(op.Remaining())| < size then |old(op.Remaining())| else size
  {
    hide *;
    batch := [];
    ghost var all := op.Remaining();
    for i := 0 to size
      invariant op.Valid() && op.phase != Building
      invariant |batch| == i && all == batch + op.Remaining()
    {
      ghost var rest := op.Remaining();
      var next := op.NextSortedRow();
      if next.value.None? { return; }
      assert rest == [next.value.value] + op.Remaining();
      ConcatAssoc(batch, [next.value.value], op.Remaining());
      batch := batch + [next.value.value];
    }
  }

  /** The operator driven to its end: for every threshold and batch size, the batches hold exactly what
      one stable sort of the whole input would, and that is the input in ORDER BY order. */
  method SortAll(rows: seq<Row>, s: Sorter, threshold: nat, batchSize: nat) returns (out: seq<seq<Row>>)
    requires CanSort(s, rows, threshold) && batchSize > 0
    ensures Flatten(out) == Sort(s, rows)
    ensures AllFit(s, rows) ==> IsOrderBy(s, rows, Flatten(out))
  {
    hide IsOrderBy, AllFit;
    if AllFit(s, rows) { SortIsOrderBy(s, rows); }
    var op := new BatchSort(rows, s, threshold);
    op.DrainInput();
    out := [];
    ghost var all := Sort(s, rows);
    assert Flatten(out) + op.Remaining() == all;
    var done := false;
    while !done
      invariant op.Valid() && op.phase != Building
      invariant Flatten(out) + op.Remaining() == all
      invariant done ==> op.Remaining() == []
      decreases |op.Remaining()|, !done
    {
      hide Sort, BatchSort.Remaining, BatchSort.Valid;
      var batch := NextBatch(op, batchSize);
      if batch == [] { done := true; }
      else {
        FlattenConcat(out, [batch]);
        assert [batch][1..] == [] && Flatten([batch]) == batch;
        ConcatAssoc(Flatten(out), batch, op.Remaining());
        out := out + [batch];
      }
    }
  }
}
