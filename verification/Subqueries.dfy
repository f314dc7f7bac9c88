/** Per-row evaluation of EXISTS and IN subqueries: outer references become literals, the subquery runs,
    and its rows become a boolean or a list (engine/executor.rs). */
module Subqueries {
  import opened Bytes
  import opened Values
  import opened Expressions
  import opened AccessPaths
  import opened RowOperators
  import opened ScopeChange

  /** A table with the rows the statement's snapshot sees. */
  datatype DbTable = DbTable(schema: Schema, rows: seq<Row>)

  type Db = map<string, DbTable>

  /** Rows have their table's width, and NOT NULL columns hold no NULL. */
  ghost predicate ValidDbTable(t: DbTable) {
    Wide(t.rows, |t.schema|) &&
    forall i, c :: 0 <= i < |t.rows| && 0 <= c < |t.schema| && t.schema[c].notNull ==> |t.rows[i]| == |t.schema| && !t.rows[i][c].Null?
  }

  ghost predicate ValidDb(db: Db) { forall name :: name in db ==> ValidDbTable(db[name]) }

  /** `value_to_literal`. */
  function Literal(v: Value): (e: Expr)
    ensures forall fpu, ctx: Option<Context> :: Fits(ctx) ==> Eval(fpu, e, ctx) == Ok(v)
  {
    match v
    case Null => NullLit
    case Int(n) => Integer(n)
    case Real(bits) => RealLit(bits)
    case Text(s) => Str(s)
    case Bool(b) => BoolLit(b)
  }

  /** `substitute_in_expr`: a reference the inner scope cannot resolve becomes the outer row's value. */
  function Substitute(e: Expr, inner: Scope, outer: Scope, row: Row): Result<Expr>
    requires |outer| == |row|
  {
    match e
    case Column(ref) =>
      if Resolve(inner, ref).Ok? then Ok(e)
      else (
        ResolveIsOnlyMatch(outer, ref);
        match Resolve(outer, ref)
        case Ok(k) => assert OnlyMatch(outer, ref, k); Ok(Literal(row[k]))
        case Err(x) => Err(x))
    case Unary(op, a) =>
      (match Substitute(a, inner, outer, row) case Ok(x) => Ok(Unary(op, x)) case Err(x) => Err(x))
    case Binary(op, l, r) =>
      (match Substitute(l, inner, outer, row)
       case Err(x) => Err(x)
       case Ok(a) =>
         match Substitute(r, inner, outer, row)
         case Err(x) => Err(x)
         case Ok(b) => Ok(Binary(op, a, b)))
    case IsNull(a, negated) =>
      (match Substitute(a, inner, outer, row) case Ok(x) => Ok(IsNull(x, negated)) case Err(x) => Err(x))
    case InList(p, values, hasNull, negated) =>
      (match Substitute(p, inner, outer, row) case Ok(x) => Ok(InList(x, values, hasNull, negated)) case Err(x) => Err(x))
    case InSubquery(p, sub, negated) =>
      (match Substitute(p, inner, outer, row) case Ok(x) => Ok(InSubquery(x, sub, negated)) case Err(x) => Err(x))
    case _ => Ok(e)
  }

  /** `has_outer_ref`: some column of the filter is not the subquery's own. */
  predicate HasOuterRef(e: Expr, scope: Scope) {
    match e
    case Column(ref) => Resolve(scope, ref).Err?
    case Unary(_, a) => HasOuterRef(a, scope)
    case Binary(_, l, r) => HasOuterRef(l, scope) || HasOuterRef(r, scope)
    case IsNull(a, _) => HasOuterRef(a, scope)
    case InList(p, _, _, _) => HasOuterRef(p, scope)
    case InSubquery(p, _, _) => HasOuterRef(p, scope)
    case _ => false
  }

  /** An uncorrelated filter, which the engine runs once up front, is the same for every outer row. */
  lemma {:induction false} UncorrelatedIsConstant(e: Expr, inner: Scope, outer: Scope, row: Row)
    requires |outer| == |row| && !HasOuterRef(e, inner)
    ensures Substitute(e, inner, outer, row) == Ok(e)
  {
    hide Resolve, Literal;
    match e
    case Unary(_, a) => UncorrelatedIsConstant(a, inner, outer, row);
    case Binary(_, l, r) => UncorrelatedIsConstant(l, inner, outer, row); UncorrelatedIsConstant(r, inner, outer, row);
    case IsNull(a, _) => UncorrelatedIsConstant(a, inner, outer, row);
    case InList(p, _, _, _) => UncorrelatedIsConstant(p, inner, outer, row);
    case InSubquery(p, _, _) => UncorrelatedIsConstant(p, inner, outer, row);
    case _ =>
  }

  predicate SubqueryFree(e: Expr) {
    match e
    case Unary(_, a) => SubqueryFree(a)
    case Binary(_, l, r) => SubqueryFree(l) && SubqueryFree(r)
    case IsNull(a, _) => SubqueryFree(a)
    case InList(p, _, _, _) => SubqueryFree(p)
    case InSubquery(_, _, _) => false
    case Exists(_) => false
    case OpaqueSubquery => false
    case _ => true
  }

  /** The reference means the same column in the subquery and in the joined scope. */
  predicate SameMeaning(inner: Scope, outer: Scope, ref: ColumnRef) {
    match Resolve(inner, ref)
    case Ok(k) => Resolve(outer + inner, ref) == Ok(|outer| + k)
    case Err(_) => Resolve(outer, ref).Ok? && Resolve(outer + inner, ref) == Resolve(outer, ref)
  }

  ghost predicate ColumnsKeepMeaning(inner: Scope, outer: Scope, e: Expr) {
    forall ref :: ref in Columns(e) ==> SameMeaning(inner, outer, ref)
  }

  lemma SubstituteColumn(fpu: Fpu, ref: ColumnRef, inner: Scope, outer: Scope, l: Row, r: Row)
    requires |outer| == |l| && |inner| == |r| && SameMeaning(inner, outer, ref)
    ensures Substitute(Column(ref), inner, outer, l).Ok?
    ensures Eval(fpu, Substitute(Column(ref), inner, outer, l).value, Some(Context(inner, r)))
         == Eval(fpu, Column(ref), Some(Context(outer + inner, l + r)))
  {
    ResolveIsOnlyMatch(inner, ref);
    ResolveIsOnlyMatch(outer, ref);
    ResolveIsOnlyMatch(outer + inner, ref);
    hide Resolve, Literal;
    match Resolve(inner, ref)
    case Ok(k) =>
      assert OnlyMatch(inner, ref, k) && (l + r)[|outer| + k] == r[k];
    case Err(_) =>
      var k := Resolve(outer, ref).value;
      assert OnlyMatch(outer, ref, k) && (l + r)[k] == l[k];
  }

  /** Evaluating the substituted filter on an inner row is evaluating the original on the joined row. */
  lemma {:induction false} SubstituteIsJoin(fpu: Fpu, e: Expr, inner: Scope, outer: Scope, l: Row, r: Row)
    requires |outer| == |l| && |inner| == |r| && ColumnsKeepMeaning(inner, outer, e) && SubqueryFree(e)
    ensures Substitute(e, inner, outer, l).Ok?
    ensures Eval(fpu, Substitute(e, inner, outer, l).value, Some(Context(inner, r)))
         == Eval(fpu, e, Some(Context(outer + inner, l + r)))
  {
    hide SameMeaning, EvalUnary, EvalBinary, EvalInList, Resolve;
    match e
    case Column(ref) => SubstituteColumn(fpu, ref, inner, outer, l, r);
    case Unary(_, a) => SubstituteIsJoin(fpu, a, inner, outer, l, r);
    case Binary(_, a, b) =>
      SubstituteIsJoin(fpu, a, inner, outer, l, r);
      SubstituteIsJoin(fpu, b, inner, outer, l, r);
    case IsNull(a, _) => SubstituteIsJoin(fpu, a, inner, outer, l, r);
    case InList(p, _, _, _) => SubstituteIsJoin(fpu, p, inner, outer, l, r);
    case _ =>
  }

  // ---------------------------------------------------------------- running a subquery

  function InnerScope(db: Db, sel: Select): Scope {
    if sel.from.name in db then SingleScope(sel.from.qualifier, db[sel.from.name].schema) else []
  }

  function InnerRows(db: Db, sel: Select): seq<Row> {
    if sel.from.name in db then db[sel.from.name].rows else []
  }

  /** The rows of a plain subquery's table that pass its filter, for one outer row. */
  function MatchedRows(fpu: Fpu, db: Db, sel: Select, outer: Scope, l: Row): Result<seq<Row>>
    requires |outer| == |l|
  {
    var inner, rows := InnerScope(db, sel), InnerRows(db, sel);
    if sel.from.name !in db || !sel.plain || !Wide(rows, |inner|) then Err(Exec)
    else
      match sel.filter
      case None => Ok(rows)
      case Some(f) =>
        match Substitute(f, inner, outer, l)
        case Err(x) => Err(x)
        case Ok(g) => FilterRows(fpu, g, inner, rows)
  }

  /** `execute_exists_subquery`: an aggregate without GROUP BY always returns one row. */
  function ExistsResult(fpu: Fpu, db: Db, sel: Select, outer: Scope, l: Row): Result<bool>
    requires |outer| == |l|
  {
    match MatchedRows(fpu, db, sel, outer, l)
    case Err(x) => Err(x)
    case Ok(rows) => Ok(sel.projection.AggregateItems? || rows != [])
  }

  /** The non-NULL values of column `c`, as literals. */
  function ListValues(rows: seq<Row>, c: nat): seq<Expr> {
    if rows == [] then []
    else if c < |rows[0]| && !rows[0][c].Null? then [Literal(rows[0][c])] + ListValues(rows[1..], c)
    else ListValues(rows[1..], c)
  }

  predicate ListHasNull(rows: seq<Row>, c: nat) {
    rows != [] && ((c < |rows[0]| && rows[0][c].Null?) || ListHasNull(rows[1..], c))
  }

  /** `execute_in_subquery` for a one-column projection. */
  function InResult(fpu: Fpu, db: Db, sel: Select, outer: Scope, l: Row): Result<(seq<Expr>, bool)>
    requires |outer| == |l|
  {
    if !sel.projection.OneColumn? then Err(Exec)
    else
      match (MatchedRows(fpu, db, sel, outer, l), Resolve(InnerScope(db, sel), sel.projection.ref))
      case (Ok(rows), Ok(c)) => Ok((ListValues(rows, c), ListHasNull(rows, c)))
      case _ => Err(Exec)
  }

  /** `resolve_correlated`: every subquery node becomes its result for this outer row. */
  function ResolveSubqueries(fpu: Fpu, db: Db, e: Expr, outer: Scope, l: Row): Result<Expr>
    requires |outer| == |l|
  {
    match e
    case Exists(sel) =>
      (match ExistsResult(fpu, db, sel, outer, l) case Ok(any) => Ok(BoolLit(any)) case Err(x) => Err(x))
    case InSubquery(p, sel, negated) =>
      (match InResult(fpu, db, sel, outer, l)
       case Err(x) => Err(x)
       case Ok((values, hasNull)) =>
         match ResolveSubqueries(fpu, db, p, outer, l)
         case Ok(x) => Ok(InList(x, values, hasNull, negated))
         case Err(x) => Err(x))
    case Unary(op, a) =>
      (match ResolveSubqueries(fpu, db, a, outer, l) case Ok(x) => Ok(Unary(op, x)) case Err(x) => Err(x))
    case Binary(op, a, b) =>
      (match ResolveSubqueries(fpu, db, a, outer, l)
       case Err(x) => Err(x)
       case Ok(y) =>
         match ResolveSubqueries(fpu, db, b, outer, l)
         case Err(x) => Err(x)
         case Ok(z) => Ok(Binary(op, y, z)))
    case IsNull(a, negated) =>
      (match ResolveSubqueries(fpu, db, a, outer, l) case Ok(x) => Ok(IsNull(x, negated)) case Err(x) => Err(x))
    case InList(p, values, hasNull, negated) =>
      (match ResolveSubqueries(fpu, db, p, outer, l) case Ok(x) => Ok(InList(x, values, hasNull, negated)) case Err(x) => Err(x))
    case _ => Ok(e)
  }

  /** The WHERE clause, or a conjunct of it, keeps the outer row. */
  predicate Keeps(fpu: Fpu, db: Db, e: Expr, outer: Scope, l: Row)
    requires |outer| == |l|
  {
    var resolved := ResolveSubqueries(fpu, db, e, outer, l);
    resolved.Ok? && Eval(fpu, resolved.value, Some(Context(outer, l))) == Ok(Bool(true))
  }

  /** A WHERE clause keeps a row exactly when each of its conjuncts does. */
  lemma {:induction false} KeepsByConjuncts(fpu: Fpu, db: Db, e: Expr, outer: Scope, l: Row)
    requires |outer| == |l|
    ensures Keeps(fpu, db, e, outer, l) <==> forall c :: c in Conjuncts(e) ==> Keeps(fpu, db, c, outer, l)
  {
    if e.Binary? && e.op == And {
      KeepsByConjuncts(fpu, db, e.left, outer, l);
      KeepsByConjuncts(fpu, db, e.right, outer, l);
      KeepsAnd(fpu, db, e.left, e.right, outer, l);
      hide Keeps;
      assert forall c :: c in Conjuncts(e) <==> c in Conjuncts(e.left) || c in Conjuncts(e.right);
    } else {
      hide Keeps;
      assert Conjuncts(e) == [e];
    }
  }

  lemma KeepsAnd(fpu: Fpu, db: Db, a: Expr, b: Expr, outer: Scope, l: Row)
    requires |outer| == |l|
    ensures Keeps(fpu, db, Binary(And, a, b), outer, l) <==> Keeps(fpu, db, a, outer, l) && Keeps(fpu, db, b, outer, l)
  {
    hide Eval;
    var x, y := ResolveSubqueries(fpu, db, a, outer, l), ResolveSubqueries(fpu, db, b, outer, l);
    if x.Ok? && y.Ok? {
      AndIsTrue(fpu, x.value, y.value, Some(Context(outer, l)));
    }
  }
}
