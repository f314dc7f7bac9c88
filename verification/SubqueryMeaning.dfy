/** What a WHERE clause with EXISTS and IN subqueries means, stated over the rows the subquery's own filter
    accepts next to the outer row (the subquery evaluator of engine/executor.rs). */
module SubqueryMeaning {
  import opened Bytes
  import opened Values
  import opened Expressions
  import opened AccessPaths
  import opened Sequences
  import opened RowOperators
  import opened ScopeChange
  import opened Subqueries
  import opened SubqueryRewrite

  /** The value of an expression for one outer row, once its subqueries have run. */
  function ValueOf(fpu: Fpu, db: Db, e: Expr, outer: Scope, l: Row): Result<Value>
    requires |outer| == |l|
  {
    match ResolveSubqueries(fpu, db, e, outer, l)
    case Ok(q) => Eval(fpu, q, Some(Context(outer, l)))
    case Err(x) => Err(x)
  }

  lemma KeepsIsTrue(fpu: Fpu, db: Db, e: Expr, outer: Scope, l: Row)
    requires |outer| == |l|
    ensures Keeps(fpu, db, e, outer, l) <==> ValueOf(fpu, db, e, outer, l) == Ok(Bool(true))
  {
    hide Eval, ResolveSubqueries;
  }

  // ---------------------------------------------------------------- the subquery's rows

  /** The subquery's filter, read with the outer row beside the inner one. */
  function OnPair(fpu: Fpu, db: Db, sel: Select, outer: Scope, l: Row, r: Row): Result<bool>
    requires |outer| == |l| && |InnerScope(db, sel)| == |r|
  {
    PassesFilter(fpu, sel.filter, outer + InnerScope(db, sel), l + r)
  }

  ghost predicate PlainSubquery(db: Db, sel: Select, outer: Scope) {
    && sel.from.name in db && sel.plain && Wide(InnerRows(db, sel), |InnerScope(db, sel)|)
    && (sel.filter.Some? ==> PlainFilter(db, sel, outer))
  }

  predicate Accepts(fpu: Fpu, db: Db, sel: Select, outer: Scope, l: Row, r: Row) {
    |outer| == |l| && |InnerScope(db, sel)| == |r| && OnPair(fpu, db, sel, outer, l, r) == Ok(true)
  }

  lemma {:induction false} FilterOnPairs(fpu: Fpu, db: Db, sel: Select, g: Expr, outer: Scope, l: Row, rows: seq<Row>)
    requires |outer| == |l| && Wide(rows, |InnerScope(db, sel)|) && sel.filter.Some? && PlainFilter(db, sel, outer)
    requires Substitute(sel.filter.value, InnerScope(db, sel), outer, l) == Ok(g)
    ensures var result := FilterRows(fpu, g, InnerScope(db, sel), rows);
            && (result.Ok? <==> forall i :: 0 <= i < |rows| ==> OnPair(fpu, db, sel, outer, l, rows[i]).Ok?)
            && (result.Ok? ==> result.value == Filter(r => Accepts(fpu, db, sel, outer, l, r), rows))
  {
    hide Substitute, ColumnsKeepMeaning, Eval, InnerScope;
    if rows != [] {
      var rest := rows[1..];
      FilterOnPairs(fpu, db, sel, g, outer, l, rest);
      SubstituteIsJoin(fpu, sel.filter.value, InnerScope(db, sel), outer, l, rows[0]);
      assert PassesFilter(fpu, Some(g), InnerScope(db, sel), rows[0]) == OnPair(fpu, db, sel, outer, l, rows[0]);
      assert forall i :: 0 <= i < |rest| ==> rest[i] == rows[i + 1];
      assert forall i :: 0 < i < |rows| ==> rows[i] == rest[i - 1];
      hide OnPair, PassesFilter;
    }
  }

  lemma {:induction false} FilterKeepsAll<T>(f: T -> bool, xs: seq<T>)
    requires forall x :: x in xs ==> f(x)
    ensures Filter(f, xs) == xs
  {
    if xs != [] {
      assert xs[0] in xs && forall x :: x in xs[1..] ==> x in xs;
      FilterKeepsAll(f, xs[1..]);
      assert xs == [xs[0]] + xs[1..];
    }
  }

  /** A plain subquery's rows for an outer row are the table's rows its filter accepts beside it, in order;
      with no filter all of them. It fails exactly when the filter errs on some row. */
  lemma MatchedRowsMeaning(fpu: Fpu, db: Db, sel: Select, outer: Scope, l: Row)
    requires |outer| == |l| && PlainSubquery(db, sel, outer)
    ensures var result, rows := MatchedRows(fpu, db, sel, outer, l), InnerRows(db, sel);
            && (result.Ok? <==> forall i :: 0 <= i < |rows| ==> OnPair(fpu, db, sel, outer, l, rows[i]).Ok?)
            && (result.Ok? ==> result.value == Filter(r => Accepts(fpu, db, sel, outer, l, r), rows))
  {
    var rows := InnerRows(db, sel);
    if sel.filter.Some? {
      SubstituteTotal(sel.filter.value, InnerScope(db, sel), outer, l);
      hide Substitute, FilterRows, ColumnsKeepMeaning, OnPair, InnerScope;
      FilterOnPairs(fpu, db, sel, Substitute(sel.filter.value, InnerScope(db, sel), outer, l).value, outer, l, rows);
    } else {
      forall r | r in rows ensures Accepts(fpu, db, sel, outer, l, r) {
        var i :| 0 <= i < |rows| && rows[i] == r;
      }
      FilterKeepsAll(r => Accepts(fpu, db, sel, outer, l, r), rows);
    }
  }

  // ---------------------------------------------------------------- EXISTS

  /** EXISTS keeps a row exactly when the subquery returns one: an aggregate always does. */
  lemma ExistsKeepsIff(fpu: Fpu, db: Db, sel: Select, outer: Scope, l: Row, ms: seq<Row>)
    requires |outer| == |l| && MatchedRows(fpu, db, sel, outer, l) == Ok(ms)
    ensures Keeps(fpu, db, Exists(sel), outer, l) <==> sel.projection.AggregateItems? || ms != []
    ensures Keeps(fpu, db, Unary(Not, Exists(sel)), outer, l) <==> !sel.projection.AggregateItems? && ms == []
  {
    hide MatchedRows;
    ExistsKeeps(fpu, db, Exists(sel), sel, outer, l);
    ExistsKeeps(fpu, db, Unary(Not, Exists(sel)), sel, outer, l);
  }

  // ---------------------------------------------------------------- IN

  /** Some row holds NULL in the column. */
  ghost predicate SomeNull(rows: seq<Row>, c: nat) {
    exists i :: 0 <= i < |rows| && c < |rows[i]| && rows[i][c].Null?
  }

  lemma {:induction false} ListHasNullMeaning(rows: seq<Row>, c: nat)
    ensures ListHasNull(rows, c) <==> SomeNull(rows, c)
  {
    if rows != [] {
      var rest := rows[1..];
      ListHasNullMeaning(rest, c);
      assert forall i :: 0 <= i < |rest| ==> rest[i] == rows[i + 1];
      if i :| 0 <= i < |rows| && c < |rows[i]| && rows[i][c].Null? {
        if i > 0 { assert rest[i - 1] == rows[i]; }
      }
    }
  }

  /** IN over the subquery's rows: NULL for a NULL probe; TRUE when some row's column equals the probe; else
      NULL when some row's column is NULL; else FALSE. NOT IN turns TRUE and FALSE round. */
  function Membership(v: Value, someEqual: bool, someNull: bool, negated: bool): Value {
    if v.Null? then Null
    else if someEqual then Bool(!negated)
    else if someNull then Null
    else Bool(negated)
  }

  lemma InValue(fpu: Fpu, db: Db, e: Expr, outer: Scope, l: Row, v: Value, ms: seq<Row>, c: nat)
    requires |outer| == |l| && e.InSubquery? && e.subquery.projection.OneColumn?
    requires MatchedRows(fpu, db, e.subquery, outer, l) == Ok(ms)
    requires Resolve(InnerScope(db, e.subquery), e.subquery.projection.ref) == Ok(c)
    requires ValueOf(fpu, db, e.probe, outer, l) == Ok(v) && Comparable(fpu, v, ms, c)
    ensures ValueOf(fpu, db, e, outer, l) == Ok(Membership(v, SomeEqual(fpu, v, ms, c), SomeNull(ms, c), e.negated))
  {
    hide MatchedRows, Resolve, ListValues, ListHasNull, EvalInList, SomeEqual, SomeNull, Comparable;
    var values, hasNull := ListValues(ms, c), ListHasNull(ms, c);
    var q := ResolveSubqueries(fpu, db, e.probe, outer, l).value;
    assert InResult(fpu, db, e.subquery, outer, l) == Ok((values, hasNull));
    assert ResolveSubqueries(fpu, db, e, outer, l) == Ok(InList(q, values, hasNull, e.negated));
    ListHasNullMeaning(ms, c);
    if v.Null? { NullProbe(fpu, values, hasNull); } else { InListMeaning(fpu, v, ms, c, hasNull); }
  }

  lemma NullProbe(fpu: Fpu, values: seq<Expr>, hasNull: bool)
    ensures EvalInList(fpu, Null, values, hasNull) == Ok(Null)
  {
  }

  /** `p IN sub` keeps the row exactly when p is not NULL and some matched row's column equals it; `p NOT IN
      sub` exactly when p is not NULL and no matched row's column equals it or is NULL. */
  lemma InKeepsIff(fpu: Fpu, db: Db, e: Expr, outer: Scope, l: Row, v: Value, ms: seq<Row>, c: nat)
    requires |outer| == |l| && e.InSubquery? && e.subquery.projection.OneColumn?
    requires MatchedRows(fpu, db, e.subquery, outer, l) == Ok(ms)
    requires Resolve(InnerScope(db, e.subquery), e.subquery.projection.ref) == Ok(c)
    requires ValueOf(fpu, db, e.probe, outer, l) == Ok(v) && Comparable(fpu, v, ms, c)
    ensures !e.negated ==> (Keeps(fpu, db, e, outer, l) <==> !v.Null? && exists i :: 0 <= i < |ms| && EqualAt(fpu, v, ms[i], c))
    ensures e.negated ==> (Keeps(fpu, db, e, outer, l) <==>
              !v.Null? && forall i :: 0 <= i < |ms| ==> !EqualAt(fpu, v, ms[i], c) && !ms[i][c].Null?)
  {
    InValue(fpu, db, e, outer, l, v, ms, c);
    KeepsIsTrue(fpu, db, e, outer, l);
    hide ValueOf, Keeps, EqualAt, CompareOp;
  }

  /** `x NOT IN (SELECT a FROM t)` with x = 1 over 2 and NULL: the list holds no 1, and the row is not kept. */
  lemma NullInListDropsRow(fpu: Fpu)
    ensures var db: Db := map["t" := DbTable([SchemaColumn("a", IntType, false)], [[Int(2)], [Null]])];
            var sel := Select(TableRef("t", "t"), OneColumn(ColumnRef(None, "a")), None, true);
            var e := InSubquery(Column(ColumnRef(None, "x")), sel, true);
            var outer := [ScopedColumn("o", "x", IntType)];
            TryIn(db, e, "o", {"o"}).None? && !Keeps(fpu, db, e, outer, [Int(1)])
  {
    var db: Db := map["t" := DbTable([SchemaColumn("a", IntType, false)], [[Int(2)], [Null]])];
    var sel := Select(TableRef("t", "t"), OneColumn(ColumnRef(None, "a")), None, true);
    var e := InSubquery(Column(ColumnRef(None, "x")), sel, true);
    var outer := [ScopedColumn("o", "x", IntType)];
    ResolveIsOnlyMatch(outer, ColumnRef(None, "x"));
    assert OnlyMatch(outer, ColumnRef(None, "x"), 0);
    ResolveIsOnlyMatch(InnerScope(db, sel), ColumnRef(None, "a"));
    assert OnlyMatch(InnerScope(db, sel), ColumnRef(None, "a"), 0);
    var ms: seq<Row> := [[Int(2)], [Null]];
    assert MatchedRows(fpu, db, sel, outer, [Int(1)]) == Ok(ms);
    hide Resolve, Keeps, MatchedRows, TryIn;
    assert ValueOf(fpu, db, e.probe, outer, [Int(1)]) == Ok(Int(1));
    InKeepsIff(fpu, db, e, outer, [Int(1)], Int(1), ms, 0);
    assert ms[1][0].Null?;
  }

  // ---------------------------------------------------------------- everything else

  /** Around subqueries an expression has the value its operator gives its parts, left before right. */
  lemma ValueByParts(fpu: Fpu, db: Db, e: Expr, outer: Scope, l: Row, u: Value, v: Value)
    requires |outer| == |l|
    ensures e.Unary? && ValueOf(fpu, db, e.arg, outer, l) == Ok(u) ==> ValueOf(fpu, db, e, outer, l) == EvalUnary(e.uop, u)
    ensures e.Binary? && ValueOf(fpu, db, e.left, outer, l) == Ok(u) && ValueOf(fpu, db, e.right, outer, l) == Ok(v) ==>
            ValueOf(fpu, db, e, outer, l) == EvalBinary(fpu, e.op, u, v)
    ensures e.IsNull? && ValueOf(fpu, db, e.arg, outer, l) == Ok(u) ==> ValueOf(fpu, db, e, outer, l) == Ok(Bool(u.Null? != e.negated))
  {
    hide EvalUnary, EvalBinary;
  }

  /** An expression without subqueries is left alone. */
  lemma {:induction false} NothingToResolve(fpu: Fpu, db: Db, e: Expr, outer: Scope, l: Row)
    requires |outer| == |l| && SubqueryFree(e)
    ensures ResolveSubqueries(fpu, db, e, outer, l) == Ok(e)
    ensures ValueOf(fpu, db, e, outer, l) == Eval(fpu, e, Some(Context(outer, l)))
  {
    hide Eval;
    match e
    case Unary(_, a) => NothingToResolve(fpu, db, a, outer, l);
    case Binary(_, a, b) => NothingToResolve(fpu, db, a, outer, l); NothingToResolve(fpu, db, b, outer, l);
    case IsNull(a, _) => NothingToResolve(fpu, db, a, outer, l);
    case InList(p, _, _, _) => NothingToResolve(fpu, db, p, outer, l);
    case _ =>
  }
}
