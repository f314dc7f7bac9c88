/** The vectorised filter, projection and limit, against the row-at-a-time operators
    (engine/executor.rs). */
module BatchOperators {
  import opened Bytes
  import opened Values
  import opened Expressions
  import opened Sequences
  import opened RowOperators
  import opened ColumnBatches
  import opened Columnar

  ghost predicate ValidBatches(bs: seq<ColumnBatch>, width: nat) {
    forall k :: 0 <= k < |bs| ==> bs[k].Valid() && |bs[k].columns| == width
  }

  /** The rows of a sequence of batches, in order. */
  ghost function AllRows(bs: seq<ColumnBatch>, width: nat): (r: seq<Row>)
    requires ValidBatches(bs, width)
    ensures forall i :: 0 <= i < |r| ==> |r[i]| == width
  {
    if bs == [] then [] else bs[0].Rows() + AllRows(bs[1..], width)
  }

  lemma {:induction false} AllRowsConcat(a: seq<ColumnBatch>, b: seq<ColumnBatch>, width: nat)
    requires ValidBatches(a, width) && ValidBatches(b, width)
    ensures ValidBatches(a + b, width) && AllRows(a + b, width) == AllRows(a, width) + AllRows(b, width)
  {
    hide ColumnBatch.Valid, ColumnBatch.Rows;
    if a == [] {
      assert a + b == b && [] + AllRows(b, width) == AllRows(b, width);
    } else {
      AllRowsConcat(a[1..], b, width);
      assert (a + b)[1..] == a[1..] + b;
      ConcatAssoc(a[0].Rows(), AllRows(a[1..], width), AllRows(b, width));
    }
  }

  // ---------------------------------------------------------------- filter

  /** The rows at physical positions `sel` of a batch's columns. */
  ghost function RowsAtPositions(b: ColumnBatch, sel: seq<nat>): seq<Row>
    requires b.Valid() && b.InColumns(sel)
  {
    b.(nRows := |sel|, selection := Some(sel)).Rows()
  }

  lemma PositionsSnoc(b: ColumnBatch, sel: seq<nat>, i: nat)
    requires b.Valid() && b.InColumns(sel) && i < b.nRows
    ensures b.InColumns(sel + [b.Physical(i)])
    ensures RowsAtPositions(b, sel + [b.Physical(i)]) == RowsAtPositions(b, sel) + [b.RowAt(i)]
  {
    hide Column.Valid, Column.ValueAt, Column.Len;
    var p := b.Physical(i);
    var before, after := b.(nRows := |sel|, selection := Some(sel)), b.(nRows := |sel| + 1, selection := Some(sel + [p]));
    assert after.RowAt(|sel|) == b.RowAt(i);
    forall k | 0 <= k < |sel| ensures after.RowAt(k) == before.RowAt(k) { assert (sel + [p])[k] == sel[k]; }
  }

  lemma FilterRowsSnoc(fpu: Fpu, e: Expr, scope: Scope, b: ColumnBatch, mask: Column, n: nat)
    requires Agrees(fpu, e, b, scope, mask) && n < b.nRows
    requires Wide(b.Rows()[..n], |scope|) && FilterRows(fpu, e, scope, b.Rows()[..n]).Ok?
    ensures Wide(b.Rows()[..n + 1], |scope|)
    ensures FilterRows(fpu, e, scope, b.Rows()[..n + 1]) ==
            Ok(FilterRows(fpu, e, scope, b.Rows()[..n]).value + if mask.ValueAt(n) == Bool(true) then [b.RowAt(n)] else [])
  {
    var rows := b.Rows();
    assert RowValue(fpu, e, b, scope, n) == Ok(mask.ValueAt(n));
    assert rows[..n + 1] == rows[..n] + [rows[n]];
    assert PassesFilter(fpu, Some(e), scope, rows[n]) == Ok(mask.ValueAt(n) == Bool(true));
    hide *;
    FilterOne(fpu, e, scope, rows[n], mask.ValueAt(n) == Bool(true));
    FilterRowsConcat(fpu, e, scope, rows[..n], [rows[n]]);
  }

  /** `build_selection`: the physical positions of the rows the mask keeps. */
  method BuildSelection(fpu: Fpu, e: Expr, scope: Scope, b: ColumnBatch, mask: Column) returns (r: Result<seq<nat>>)
    requires Agrees(fpu, e, b, scope, mask)
    ensures r.Ok? <==> mask.BoolColumn?
    ensures r.Ok? ==> b.InColumns(r.value) && FilterRows(fpu, e, scope, b.Rows()) == Ok(RowsAtPositions(b, r.value))
  {
    if !mask.BoolColumn? { return Err(Exec); }
    var selection: seq<nat> := [];
    assert RowsAtPositions(b, []) == [] && b.Rows()[..0] == [];
    for n := 0 to b.nRows
      invariant b.InColumns(selection) && Wide(b.Rows()[..n], |scope|)
      invariant FilterRows(fpu, e, scope, b.Rows()[..n]) == Ok(RowsAtPositions(b, selection))
    {
      FilterRowsSnoc(fpu, e, scope, b, mask, n);
      PositionsSnoc(b, selection, n);
      hide FilterRows, RowsAtPositions, Agrees;
      ghost var kept := RowsAtPositions(b, selection);
      assert kept + [] == kept;
      if mask.nulls.IsValid(n) && mask.bools[n] {
        selection := selection + [b.Physical(n)];
      }
    }
    assert b.Rows()[..b.nRows] == b.Rows();
    r := Ok(selection);
  }

  /** The batched filter handles the batch: the predicate is a boolean column, and errs on no row. */
  ghost predicate Filters(fpu: Fpu, e: Expr, scope: Scope, b: ColumnBatch)
    requires b.Valid() && |scope| == |b.columns|
  {
    TypeOf(e, scope, BatchTypes(b)) == Some(BoolType) && RowsNeverErr(fpu, e, b, scope)
  }

  ghost predicate AllFilter(fpu: Fpu, e: Expr, scope: Scope, bs: seq<ColumnBatch>)
    requires ValidBatches(bs, |scope|)
  {
    forall k :: 0 <= k < |bs| ==> Filters(fpu, e, scope, bs[k])
  }

  /** One batch: evaluate the predicate, then point a batch over the same columns at the rows it keeps. */
  method FilterOneBatch(fpu: Fpu, e: Expr, scope: Scope, b: ColumnBatch) returns (r: Result<Option<ColumnBatch>>)
    requires b.Valid() && |scope| == |b.columns|
    ensures r.Ok? <==> Filters(fpu, e, scope, b)
    ensures r == Ok(None) ==> FilterRows(fpu, e, scope, b.Rows()) == Ok([])
    ensures r.Ok? && r.value.Some? ==>
      r.value.value.Valid() && |r.value.value.columns| == |scope| && r.value.value.Rows() != [] &&
      FilterRows(fpu, e, scope, b.Rows()) == Ok(r.value.value.Rows())
  {
    hide Agrees, FilterRows, RowsNeverErr;
    var mask := EvalBatch(fpu, e, b, scope);
    if mask.Err? { return Err(mask.error); }
    var selection := BuildSelection(fpu, e, scope, b, mask.value);
    if selection.Err? { return Err(selection.error); }
    if selection.value == [] {
      assert RowsAtPositions(b, []) == [];
      return Ok(None);
    }
    r := Ok(Some(b.(nRows := |selection.value|, selection := Some(selection.value))));
  }

  class BatchFilter {
    const fpu: Fpu
    const filter: Expr
    const scope: Scope
    var input: seq<ColumnBatch>

    ghost predicate Valid() reads this { ValidBatches(input, |scope|) }

    constructor (f: Fpu, e: Expr, s: Scope, batches: seq<ColumnBatch>)
      requires ValidBatches(batches, |s|)
      ensures Valid() && fpu == f && filter == e && scope == s && input == batches
    {
      fpu, filter, scope, input := f, e, s, batches;
    }

    /** The next non-empty filtered batch: exactly the rows the row filter keeps of the batches used. It fails
        on the first batch the filter does not handle. */
    method NextBatch() returns (r: Result<Option<ColumnBatch>>, ghost used: seq<ColumnBatch>)
      requires Valid()
      modifies this
      ensures Valid() && ValidBatches(used, |scope|) && old(input) == used + input
      ensures r.Ok? ==> AllFilter(fpu, filter, scope, used)
      ensures r.Err? ==> used != [] && ValidBatches(used[..|used| - 1], |scope|) && AllFilter(fpu, filter, scope, used[..|used| - 1]) &&
                         !Filters(fpu, filter, scope, used[|used| - 1])
      ensures r == Ok(None) ==> input == [] && FilterRows(fpu, filter, scope, AllRows(used, |scope|)) == Ok([])
      ensures r.Ok? && r.value.Some? ==>
        r.value.value.Valid() && |r.value.value.columns| == |scope| && used != [] && r.value.value.Rows() != [] &&
        FilterRows(fpu, filter, scope, AllRows(used, |scope|)) == Ok(r.value.value.Rows())
    {
      used := [];
      assert used + input == input;
      while input != []
        invariant Valid() && ValidBatches(used, |scope|) && old(input) == used + input
        invariant AllFilter(fpu, filter, scope, used)
        invariant FilterRows(fpu, filter, scope, AllRows(used, |scope|)) == Ok([])
        decreases |input|
      {
        hide FilterRows, Filters, AllRows, ColumnBatch.Valid, ColumnBatch.Rows;
        var b := input[0];
        Consume(used, input, |scope|);
        input := input[1..];
        r := FilterOneBatch(fpu, filter, scope, b);
        if r.Err? {
          assert (used + [b])[..|used|] == used;
          used := used + [b];
          return r, used;
        }
        ConsumeFiltered(fpu, filter, scope, used, b, if r.value.None? then [] else r.value.value.Rows());
        used := used + [b];
        if r.value.Some? { return r, used; }
      }
      r := Ok(None);
    }
  }

  lemma ConsumeFiltered(fpu: Fpu, e: Expr, scope: Scope, used: seq<ColumnBatch>, b: ColumnBatch, kept: seq<Row>)
    requires ValidBatches(used, |scope|) && AllFilter(fpu, e, scope, used) && b.Valid() && |b.columns| == |scope|
    requires Filters(fpu, e, scope, b) && Wide(b.Rows(), |scope|)
    requires FilterRows(fpu, e, scope, AllRows(used, |scope|)) == Ok([]) && FilterRows(fpu, e, scope, b.Rows()) == Ok(kept)
    ensures ValidBatches(used + [b], |scope|) && AllFilter(fpu, e, scope, used + [b])
    ensures FilterRows(fpu, e, scope, AllRows(used + [b], |scope|)) == Ok(kept)
  {
    hide FilterRows, AllRows, ColumnBatch.Valid, ColumnBatch.Rows, Filters;
    OneBatch(b, |scope|);
    FilterGrows(fpu, e, scope, used, [b], [], kept);
    assert [] + kept == kept;
  }

  lemma Consume(used: seq<ColumnBatch>, input: seq<ColumnBatch>, width: nat)
    requires ValidBatches(used, width) && ValidBatches(input, width) && input != []
    ensures ValidBatches(used + [input[0]], width) && ValidBatches(input[1..], width)
    ensures AllRows(used + [input[0]], width) == AllRows(used, width) + input[0].Rows()
    ensures used + [input[0]] + input[1..] == used + input
  {
    AllRowsConcat(used, [input[0]], width);
    assert [input[0]][1..] == [] && input[0].Rows() + [] == input[0].Rows();
    assert AllRows([input[0]], width) == input[0].Rows();
  }

  /** The filter driven to its end. It raises no error exactly when the predicate is a boolean column in
      every batch and the row filter raises none, and both then keep the same rows in the same order. */
  method FilterAll(fpu: Fpu, e: Expr, scope: Scope, batches: seq<ColumnBatch>) returns (r: Result<seq<ColumnBatch>>)
    requires ValidBatches(batches, |scope|)
    ensures r.Ok? <==> BooleanIn(e, scope, batches) && FilterRows(fpu, e, scope, AllRows(batches, |scope|)).Ok?
    ensures r.Ok? ==> ValidBatches(r.value, |scope|) &&
                      FilterRows(fpu, e, scope, AllRows(batches, |scope|)) == Ok(AllRows(r.value, |scope|))
  {
    var op := new BatchFilter(fpu, e, scope, batches);
    var out: seq<ColumnBatch> := [];
    ghost var done: seq<ColumnBatch> := [];
    assert done + op.input == batches;
    while true
      invariant op.Valid() && op.fpu == fpu && op.filter == e && op.scope == scope
      invariant done + op.input == batches && ValidBatches(done, |scope|) && ValidBatches(out, |scope|)
      invariant FilterRows(fpu, e, scope, AllRows(done, |scope|)) == Ok(AllRows(out, |scope|))
      invariant AllFilter(fpu, e, scope, done)
      decreases |op.input|
    {
      hide FilterRows, AllRows, ColumnBatch.Valid, ColumnBatch.Rows, Filters, BooleanIn;
      var next, used := op.NextBatch();
      if next.Err? {
        UnfilteredFails(fpu, e, scope, batches, done, used, op.input);
        return Err(next.error);
      }
      ghost var keptRows := if next.value.None? then [] else next.value.value.Rows();
      FilterGrows(fpu, e, scope, done, used, AllRows(out, |scope|), keptRows);
      ConcatAssoc(done, used, op.input);
      done := done + used;
      hide ValidBatches, AllFilter;
      if next.value.None? {
        assert AllRows(out, |scope|) + [] == AllRows(out, |scope|);
        assert done + op.input == done;
        AllFiltered(fpu, e, scope, batches);
        return Ok(out);
      }
      AddBatch(out, next.value.value, |scope|);
      out := out + [next.value.value];
    }
  }

  lemma FilterGrows(fpu: Fpu, e: Expr, scope: Scope, done: seq<ColumnBatch>, used: seq<ColumnBatch>, before: seq<Row>, more: seq<Row>)
    requires ValidBatches(done, |scope|) && ValidBatches(used, |scope|) && AllFilter(fpu, e, scope, done) && AllFilter(fpu, e, scope, used)
    requires FilterRows(fpu, e, scope, AllRows(done, |scope|)) == Ok(before) && FilterRows(fpu, e, scope, AllRows(used, |scope|)) == Ok(more)
    ensures ValidBatches(done + used, |scope|) && AllFilter(fpu, e, scope, done + used)
    ensures FilterRows(fpu, e, scope, AllRows(done + used, |scope|)) == Ok(before + more)
  {
    hide FilterRows, AllRows, ColumnBatch.Valid, ColumnBatch.Rows, Filters;
    AllRowsConcat(done, used, |scope|);
    FilterRowsConcat(fpu, e, scope, AllRows(done, |scope|), AllRows(used, |scope|));
  }

  lemma AddBatch(out: seq<ColumnBatch>, b: ColumnBatch, width: nat)
    requires ValidBatches(out, width) && b.Valid() && |b.columns| == width
    ensures ValidBatches(out + [b], width) && AllRows(out + [b], width) == AllRows(out, width) + b.Rows()
  {
    OneBatch(b, width);
    AllRowsConcat(out, [b], width);
  }

  /** The predicate is a boolean column in every batch. */
  ghost predicate BooleanIn(e: Expr, scope: Scope, batches: seq<ColumnBatch>) {
    forall k :: 0 <= k < |batches| ==> TypeOf(e, scope, BatchTypes(batches[k])) == Some(BoolType)
  }

  lemma {:induction false} FilterRowsOkIff(fpu: Fpu, e: Expr, scope: Scope, rows: seq<Row>)
    requires Wide(rows, |scope|)
    ensures FilterRows(fpu, e, scope, rows).Ok? <==> forall i :: 0 <= i < |rows| ==> PassesFilter(fpu, Some(e), scope, rows[i]).Ok?
  {
    hide PassesFilter;
    if rows != [] {
      var rest := rows[1..];
      FilterRowsOkIff(fpu, e, scope, rest);
      forall i | 0 <= i < |rest| ensures rest[i] == rows[i + 1] {}
      if forall i :: 0 <= i < |rest| ==> PassesFilter(fpu, Some(e), scope, rest[i]).Ok? {
        forall i | 0 < i < |rows| ensures PassesFilter(fpu, Some(e), scope, rows[i]).Ok? { assert rows[i] == rest[i - 1]; }
      }
    }
  }

  /** Every row of the batches passes or fails without an error exactly when no batch has an erring row. */
  lemma BatchRowsOk(fpu: Fpu, e: Expr, scope: Scope, b: ColumnBatch)
    requires b.Valid() && |scope| == |b.columns|
    ensures Wide(b.Rows(), |scope|) && (FilterRows(fpu, e, scope, b.Rows()).Ok? <==> RowsNeverErr(fpu, e, b, scope))
  {
    hide Eval, FilterRows;
    FilterRowsOkIff(fpu, e, scope, b.Rows());
    forall i: nat | i < b.nRows
      ensures PassesFilter(fpu, Some(e), scope, b.Rows()[i]).Ok? <==> RowValue(fpu, e, b, scope, i).Ok?
    {
      assert b.Rows()[i] == b.RowAt(i);
    }
  }

  lemma {:induction false} FilterRowsSplit(fpu: Fpu, e: Expr, scope: Scope, a: seq<Row>, b: seq<Row>)
    requires Wide(a, |scope|) && Wide(b, |scope|)
    ensures FilterRows(fpu, e, scope, a + b).Ok? <==> FilterRows(fpu, e, scope, a).Ok? && FilterRows(fpu, e, scope, b).Ok?
  {
    hide PassesFilter;
    if a == [] { assert a + b == b; }
    else {
      assert (a + b)[1..] == a[1..] + b;
      FilterRowsSplit(fpu, e, scope, a[1..], b);
    }
  }

  /** All batches are handled exactly when the predicate is boolean in all and the row filter never errs. */
  lemma {:induction false} AllFiltered(fpu: Fpu, e: Expr, scope: Scope, batches: seq<ColumnBatch>)
    requires ValidBatches(batches, |scope|)
    ensures BooleanIn(e, scope, batches) && FilterRows(fpu, e, scope, AllRows(batches, |scope|)).Ok?
       <==> forall k :: 0 <= k < |batches| ==> Filters(fpu, e, scope, batches[k])
  {
    hide FilterRows, ColumnBatch.Valid, ColumnBatch.Rows, RowsNeverErr, TypeOf;
    if batches == [] {
      NoRows(fpu, e, scope);
    } else {
      var first, rest := batches[0], batches[1..];
      AllFiltered(fpu, e, scope, rest);
      BatchRowsOk(fpu, e, scope, first);
      FilterRowsSplit(fpu, e, scope, first.Rows(), AllRows(rest, |scope|));
      assert forall k :: 0 <= k < |rest| ==> rest[k] == batches[k + 1];
      assert forall k :: 0 < k < |batches| ==> batches[k] == rest[k - 1];
    }
  }

  lemma NoRows(fpu: Fpu, e: Expr, scope: Scope)
    ensures FilterRows(fpu, e, scope, []) == Ok([])
  {
  }

  lemma UnfilteredFails(fpu: Fpu, e: Expr, scope: Scope, batches: seq<ColumnBatch>, done: seq<ColumnBatch>, used: seq<ColumnBatch>, rest: seq<ColumnBatch>)
    requires ValidBatches(batches, |scope|) && ValidBatches(used, |scope|) && batches == done + (used + rest)
    requires used != [] && !Filters(fpu, e, scope, used[|used| - 1])
    ensures !(BooleanIn(e, scope, batches) && FilterRows(fpu, e, scope, AllRows(batches, |scope|)).Ok?)
  {
    hide FilterRows, ColumnBatch.Valid, ColumnBatch.Rows, Filters, BooleanIn;
    AllFiltered(fpu, e, scope, batches);
    assert batches[|done| + |used| - 1] == used[|used| - 1];
  }

  lemma OneBatch(b: ColumnBatch, width: nat)
    requires b.Valid() && |b.columns| == width
    ensures ValidBatches([b], width) && AllRows([b], width) == b.Rows()
  {
    assert [b][1..] == [] && b.Rows() + [] == b.Rows();
  }

  // ---------------------------------------------------------------- projection

  ghost predicate ItemEvaluates(fpu: Fpu, item: PlainItem, b: ColumnBatch, scope: Scope)
    requires b.Valid() && |scope| == |b.columns|
  {
    item.ItemExpr? ==> Evaluates(fpu, item.e, b, scope)
  }

  /** `BatchProject` on one batch: every output row is the projection of the input row in its place. */
  method ProjectBatch(fpu: Fpu, items: seq<PlainItem>, scope: Scope, b: ColumnBatch) returns (r: Result<ColumnBatch>)
    requires b.Valid() && |scope| == |b.columns| && ItemsFit(items, |scope|)
    ensures r.Ok? <==> forall k :: 0 <= k < |items| ==> ItemEvaluates(fpu, items[k], b, scope)
    ensures r.Ok? ==> r.value.Valid() && r.value.nRows == b.nRows
    ensures r.Ok? ==> forall i :: 0 <= i < b.nRows ==> Projects(fpu, items, scope, b.RowAt(i), r.value.RowAt(i))
  {
    var columns: seq<Column> := [];
    for k := 0 to |items|
      invariant |columns| == k
      invariant forall c :: 0 <= c < k ==> ItemAgrees(fpu, items[c], b, scope, columns[c]) && ItemEvaluates(fpu, items[c], b, scope)
    {
      hide Evaluates;
      if items[k].ItemColumn? {
        var c := MaterialiseColumn(b, items[k].index);
        columns := columns + [c];
      } else {
        var c := EvalBatch(fpu, items[k].e, b, scope);
        if c.Err? { return Err(c.error); }
        AgreesItem(fpu, items[k].e, b, scope, c.value);
        columns := columns + [c.value];
      }
    }
    var out := ColumnBatch(columns, b.nRows, None);
    ProjectedRows(fpu, items, scope, b, out);
    r := Ok(out);
  }

  /** The column holds the item's value for every logical row. */
  ghost predicate ItemAgrees(fpu: Fpu, item: PlainItem, b: ColumnBatch, scope: Scope, c: Column) {
    b.Valid() && |scope| == |b.columns| && c.Valid() && c.Len() == b.nRows &&
    forall i: nat :: i < b.nRows ==> ItemValue(fpu, item, scope, b.RowAt(i)) == Ok(c.ValueAt(i))
  }

  lemma AgreesItem(fpu: Fpu, e: Expr, b: ColumnBatch, scope: Scope, c: Column)
    requires Agrees(fpu, e, b, scope, c)
    ensures ItemAgrees(fpu, ItemExpr(e), b, scope, c)
  {
    hide Eval;
    forall i: nat | i < b.nRows ensures ItemValue(fpu, ItemExpr(e), scope, b.RowAt(i)) == Ok(c.ValueAt(i)) {
      assert RowValue(fpu, e, b, scope, i) == Ok(c.ValueAt(i));
    }
  }

  lemma ProjectedRows(fpu: Fpu, items: seq<PlainItem>, scope: Scope, b: ColumnBatch, out: ColumnBatch)
    requires b.Valid() && |scope| == |b.columns| && |out.columns| == |items| && out.nRows == b.nRows && out.selection.None?
    requires forall c :: 0 <= c < |items| ==> ItemAgrees(fpu, items[c], b, scope, out.columns[c])
    ensures out.Valid() && forall i :: 0 <= i < b.nRows ==> Projects(fpu, items, scope, b.RowAt(i), out.RowAt(i))
  {
    hide ItemValue;
    assert out.Valid() by {
      forall c | 0 <= c < |out.columns| ensures out.columns[c].Valid() && out.columns[c].Len() == out.nRows {
        assert ItemAgrees(fpu, items[c], b, scope, out.columns[c]);
      }
    }
    forall i, c | 0 <= i < b.nRows && 0 <= c < |items|
      ensures ItemValue(fpu, items[c], scope, b.RowAt(i)) == Ok(out.RowAt(i)[c])
    {
      assert ItemAgrees(fpu, items[c], b, scope, out.columns[c]);
    }
  }

  // ---------------------------------------------------------------- limit

  /** `slice_logical_rows`: the logical rows `[start, end)`, sharing the columns. */
  method SliceRows(b: ColumnBatch, start: nat, end: nat) returns (r: ColumnBatch)
    requires b.Valid() && start <= end <= b.nRows
    ensures r.Valid() && r.columns == b.columns && r.Rows() == b.Rows()[start..end]
  {
    var selection := if b.selection.Some? then b.selection.value[start..end]
                     else seq(end - start, k requires 0 <= k => start + k);
    r := ColumnBatch(b.columns, end - start, Some(selection));
    SlicedRows(b, start, end, selection);
  }

  lemma SlicedRows(b: ColumnBatch, start: nat, end: nat, selection: seq<nat>)
    requires b.Valid() && start <= end <= b.nRows && |selection| == end - start
    requires forall k :: 0 <= k < |selection| ==> selection[k] == b.Physical(start + k)
    ensures var r := ColumnBatch(b.columns, end - start, Some(selection));
            r.Valid() && r.Rows() == b.Rows()[start..end]
  {
    hide Column.Valid, Column.ValueAt, Column.Len;
    var r := ColumnBatch(b.columns, end - start, Some(selection));
    assert r.Valid();
    forall k | 0 <= k < r.nRows ensures r.RowAt(k) == b.Rows()[start..end][k] {
      assert r.Physical(k) == b.Physical(start + k);
      assert r.RowAt(k) == b.RowAt(start + k);
    }
  }

  class BatchLimit {
    const width: nat
    var input: seq<ColumnBatch>
    var offset: nat
    var remaining: nat

    ghost predicate Valid() reads this { ValidBatches(input, width) }

    /** The rows still to be yielded. */
    ghost function Remaining(): seq<Row> reads this requires Valid() {
      LimitRows(AllRows(input, width), offset, remaining)
    }

    constructor (w: nat, batches: seq<ColumnBatch>, skip: nat, limit: nat)
      requires ValidBatches(batches, w)
      ensures Valid() && Remaining() == LimitRows(AllRows(batches, w), skip, limit)
    {
      width, input, offset, remaining := w, batches, skip, limit;
    }

    method ApplyRemaining(b: ColumnBatch) returns (r: ColumnBatch)
      requires Valid() && b.Valid() && |b.columns| == width && offset == 0
      modifies `remaining
      ensures Valid() && r.Valid() && |r.columns| == width
      ensures LimitRows(b.Rows() + AllRows(input, width), 0, old(remaining)) == r.Rows() + Remaining()
    {
      ghost var rest := AllRows(input, width);
      var n := b.nRows;
      if n <= remaining {
        TakeWhole(b.Rows(), rest, remaining);
        remaining := remaining - n;
        r := b;
      } else {
        r := SliceRows(b, 0, remaining);
        TakePart(b.Rows(), rest, remaining);
        remaining := 0;
      }
    }

    /** `next_batch`: the next of the remaining rows, or the end. */
    method NextBatch() returns (r: Option<ColumnBatch>)
      requires Valid()
      modifies this
      ensures Valid()
      ensures r.None? ==> old(Remaining()) == []
      ensures r.Some? ==> r.value.Valid() && |r.value.columns| == width && old(Remaining()) == r.value.Rows() + Remaining()
    {
      ghost var all := Remaining();
      while offset > 0
        invariant Valid() && Remaining() == all
        decreases |input|
      {
        if input == [] {
          return None;
        }
        var b := input[0];
        SkipBatch(b.Rows(), AllRows(input[1..], width), offset, remaining);
        assert AllRows(input, width) == b.Rows() + AllRows(input[1..], width);
        if b.nRows <= offset {
          offset := offset - b.nRows;
          input := input[1..];
          continue;
        }
        var skip := offset;
        var kept := SliceRows(b, skip, b.nRows);
        assert kept.Rows() == b.Rows()[skip..];
        offset, input := 0, input[1..];
        var out := ApplyRemaining(kept);
        return Some(out);
      }
      if remaining == 0 { return None; }
      if input == [] { return None; }
      var b := input[0];
      input := input[1..];
      var out := ApplyRemaining(b);
      r := Some(out);
    }
  }

  lemma TakeWhole(a: seq<Row>, rest: seq<Row>, limit: nat)
    requires |a| <= limit
    ensures LimitRows(a + rest, 0, limit) == a + LimitRows(rest, 0, limit - |a|)
  {
    assert (a + rest)[0..] == a + rest && rest[0..] == rest;
  }

  lemma TakePart(a: seq<Row>, rest: seq<Row>, limit: nat)
    requires limit < |a|
    ensures LimitRows(a + rest, 0, limit) == a[0..limit] + LimitRows(rest, 0, 0)
  {
    assert (a + rest)[0..] == a + rest;
  }

  lemma SkipBatch(a: seq<Row>, rest: seq<Row>, offset: nat, limit: nat)
    ensures |a| <= offset ==> LimitRows(a + rest, offset, limit) == LimitRows(rest, offset - |a|, limit)
    ensures offset < |a| ==> LimitRows(a + rest, offset, limit) == LimitRows(a[offset..] + rest, 0, limit)
  {
    if |a| <= offset {
      if offset <= |a + rest| { assert (a + rest)[offset..] == rest[offset - |a|..]; }
    } else {
      assert (a + rest)[offset..] == a[offset..] + rest && (a[offset..] + rest)[0..] == a[offset..] + rest;
    }
  }
}
