/** The row-at-a-time filter, projection and limit as functions of their whole input
    (engine/executor.rs). */
module RowOperators {
  import opened Bytes
  import opened Values
  import opened Expressions
  import opened Sequences

  predicate Wide(rows: seq<Row>, width: nat) { forall i :: 0 <= i < |rows| ==> |rows[i]| == width }

  /** The row-at-a-time filter over a whole input: the rows on which the predicate is TRUE, or an error. */
  function FilterRows(fpu: Fpu, e: Expr, scope: Scope, rows: seq<Row>): Result<seq<Row>>
    requires Wide(rows, |scope|)
  {
    if rows == [] then Ok([])
    else
      match PassesFilter(fpu, Some(e), scope, rows[0])
      case Err(x) => Err(x)
      case Ok(keep) =>
        match FilterRows(fpu, e, scope, rows[1..])
        case Err(x) => Err(x)
        case Ok(rest) => Ok(if keep then [rows[0]] + rest else rest)
  }

  lemma {:induction false} FilterRowsConcat(fpu: Fpu, e: Expr, scope: Scope, a: seq<Row>, b: seq<Row>)
    requires Wide(a, |scope|) && Wide(b, |scope|)
    requires FilterRows(fpu, e, scope, a).Ok? && FilterRows(fpu, e, scope, b).Ok?
    ensures FilterRows(fpu, e, scope, a + b) == Ok(FilterRows(fpu, e, scope, a).value + FilterRows(fpu, e, scope, b).value)
  {
    hide PassesFilter;
    if a == [] {
      var kept := FilterRows(fpu, e, scope, b).value;
      assert a + b == b && [] + kept == kept;
    } else {
      FilterRowsConcat(fpu, e, scope, a[1..], b);
      assert (a + b)[1..] == a[1..] + b;
      ConcatAssoc([a[0]], FilterRows(fpu, e, scope, a[1..]).value, FilterRows(fpu, e, scope, b).value);
    }
  }

  lemma FilterOne(fpu: Fpu, e: Expr, scope: Scope, row: Row, keep: bool)
    requires |row| == |scope| && PassesFilter(fpu, Some(e), scope, row) == Ok(keep)
    ensures Wide([row], |scope|) && FilterRows(fpu, e, scope, [row]) == Ok(if keep then [row] else [])
  {
    hide PassesFilter;
    assert [row][1..] == [] && [row] + [] == [row];
  }

  /** The predicate is exactly TRUE on the row. */
  predicate TrueOn(fpu: Fpu, e: Expr, scope: Scope, row: Row) {
    |row| == |scope| && Eval(fpu, e, Some(Context(scope, row))) == Ok(Bool(true))
  }

  /** The row filter keeps, in order, exactly the rows on which the predicate is TRUE, and fails exactly when
      it errs on some row. */
  lemma {:induction false} FilterRowsMeaning(fpu: Fpu, e: Expr, scope: Scope, rows: seq<Row>)
    requires Wide(rows, |scope|)
    ensures FilterRows(fpu, e, scope, rows).Ok? <==> forall i :: 0 <= i < |rows| ==> Eval(fpu, e, Some(Context(scope, rows[i]))).Ok?
    ensures FilterRows(fpu, e, scope, rows).Ok? ==>
            FilterRows(fpu, e, scope, rows).value == Filter(row => TrueOn(fpu, e, scope, row), rows)
  {
    hide Eval;
    if rows != [] {
      var rest := rows[1..];
      FilterRowsMeaning(fpu, e, scope, rest);
      assert forall i :: 0 <= i < |rest| ==> rest[i] == rows[i + 1];
      assert forall i :: 0 < i < |rows| ==> rows[i] == rest[i - 1];
    }
  }

  datatype PlainItem = ItemColumn(index: nat) | ItemExpr(e: Expr)

  predicate ItemsFit(items: seq<PlainItem>, width: nat) {
    forall k :: 0 <= k < |items| && items[k].ItemColumn? ==> items[k].index < width
  }

  /** One output value of the row-at-a-time projection. */
  function ItemValue(fpu: Fpu, item: PlainItem, scope: Scope, row: Row): Result<Value>
    requires |row| == |scope|
  {
    match item
    case ItemColumn(k) => if k < |row| then Ok(row[k]) else Err(Corruption)
    case ItemExpr(e) => Eval(fpu, e, Some(Context(scope, row)))
  }

  /** The row-at-a-time projection maps `row` to `out`. */
  ghost predicate Projects(fpu: Fpu, items: seq<PlainItem>, scope: Scope, row: Row, out: Row) {
    |row| == |scope| && |out| == |items| && forall k :: 0 <= k < |items| ==> ItemValue(fpu, items[k], scope, row) == Ok(out[k])
  }

  /** OFFSET then LIMIT over a sequence of rows. */
  function LimitRows(rows: seq<Row>, offset: nat, limit: nat): seq<Row> {
    var rest := if offset <= |rows| then rows[offset..] else [];
    if limit <= |rest| then rest[..limit] else rest
  }
}
