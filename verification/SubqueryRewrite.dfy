/** EXISTS and IN rewritten to semi- and anti-joins keep the rows per-row evaluation keeps, and exactly
    when they do not (engine/planner.rs). */
module SubqueryRewrite {
  import opened Bytes
  import opened Values
  import opened Expressions
  import opened AccessPaths
  import opened Sequences
  import opened RowOperators
  import opened ScopeChange
  import opened Subqueries
  import opened JoinSpec

  /** A conjunct turned into a join: the subquery's table and the ON clause. */
  datatype Extracted = Extracted(kind: JoinKind, sel: Select, on: Expr)

  // ---------------------------------------------------------------- extraction

  /** One table, a WHERE clause, no grouping, ordering or paging, and a qualifier the outer query lacks. */
  predicate Simple(db: Db, sel: Select, used: set<string>) {
    sel.plain && sel.filter.Some? && sel.from.name in db && sel.from.qualifier !in used
  }

  /** `try_extract_exists_join`; the projection is ignored. */
  function TryExists(db: Db, e: Expr, used: set<string>): Option<Extracted> {
    if e.Exists? && Simple(db, e.subquery, used) then Some(Extracted(SemiJoin, e.subquery, e.subquery.filter.value))
    else if e.Unary? && e.uop == Not && e.arg.Exists? && Simple(db, e.arg.subquery, used)
    then Some(Extracted(AntiJoin, e.arg.subquery, e.arg.subquery.filter.value))
    else None
  }

  function Qualified(ref: ColumnRef, qualifier: string): ColumnRef {
    ColumnRef(Some(if ref.table.Some? then ref.table.value else qualifier), ref.name)
  }

  /** NOT IN is rewritten only when the inner column is declared NOT NULL. */
  predicate InnerNotNull(db: Db, sel: Select, name: string) {
    sel.from.name in db &&
    match ColumnIndex(db[sel.from.name].schema, name)
    case Some(c) => db[sel.from.name].schema[c].notNull
    case None => false
  }

  /** `try_extract_in_join`: a bare outer column is qualified with the first outer table. */
  function TryIn(db: Db, e: Expr, base: string, used: set<string>): Option<Extracted> {
    if e.InSubquery? && Simple(db, e.subquery, used) && e.subquery.projection.OneColumn? && e.probe.Column? &&
       (e.negated ==> InnerNotNull(db, e.subquery, e.subquery.projection.ref.name))
    then
      var sel := e.subquery;
      var equality := Binary(Eq, Column(Qualified(e.probe.ref, base)), Column(Qualified(sel.projection.ref, sel.from.qualifier)));
      Some(Extracted(if e.negated then AntiJoin else SemiJoin, sel, Binary(And, sel.filter.value, equality)))
    else None
  }

  function TryExtract(db: Db, e: Expr, base: string, used: set<string>): Option<Extracted> {
    var x := TryExists(db, e, used);
    if x.Some? then x else TryIn(db, e, base, used)
  }

  /** What `rewrite_subquery_joins` does with a list of conjuncts. */
  function Rewrite(db: Db, cs: seq<Expr>, base: string, used: set<string>): (seq<Extracted>, seq<Expr>) {
    if cs == [] then ([], [])
    else
      match TryExtract(db, cs[0], base, used)
      case Some(x) =>
        var rest := Rewrite(db, cs[1..], base, used + {x.sel.from.qualifier});
        ([x] + rest.0, rest.1)
      case None =>
        var rest := Rewrite(db, cs[1..], base, used);
        (rest.0, [cs[0]] + rest.1)
  }

  method RewriteSubqueryJoins(db: Db, e: Expr, base: string, qualifiers: set<string>)
    returns (joins: seq<Extracted>, leftover: seq<Expr>)
    ensures (joins, leftover) == Rewrite(db, Conjuncts(e), base, qualifiers)
  {
    hide TryExtract;
    joins, leftover := [], [];
    var cs, used := Conjuncts(e), qualifiers;
    ghost var target := Rewrite(db, cs, base, qualifiers);
    assert cs[0..] == cs && [] + target.0 == target.0 && [] + target.1 == target.1;
    for i := 0 to |cs|
      invariant target.0 == joins + Rewrite(db, cs[i..], base, used).0
      invariant target.1 == leftover + Rewrite(db, cs[i..], base, used).1
    {
      RewriteStep(db, cs, i, base, used);
      hide *;
      var x := TryExtract(db, cs[i], base, used);
      if x.Some? {
        used := used + {x.value.sel.from.qualifier};
        ConcatAssoc(joins, [x.value], Rewrite(db, cs[i + 1..], base, used).0);
        joins := joins + [x.value];
      } else {
        ConcatAssoc(leftover, [cs[i]], Rewrite(db, cs[i + 1..], base, used).1);
        leftover := leftover + [cs[i]];
      }
    }
    assert cs[|cs|..] == [] && joins + [] == joins && leftover + [] == leftover;
  }

  lemma RewriteStep(db: Db, cs: seq<Expr>, i: nat, base: string, used: set<string>)
    requires i < |cs|
    ensures var x := TryExtract(db, cs[i], base, used);
            var rest := Rewrite(db, cs[i + 1..], base, if x.Some? then used + {x.value.sel.from.qualifier} else used);
            Rewrite(db, cs[i..], base, used) == if x.Some? then ([x.value] + rest.0, rest.1) else (rest.0, [cs[i]] + rest.1)
  {
    hide TryExtract;
    assert cs[i..][0] == cs[i] && cs[i..][1..] == cs[i + 1..];
  }

  // ---------------------------------------------------------------- one conjunct, one row

  function JoinOf(fpu: Fpu, db: Db, x: Extracted, outer: Scope): Join {
    Join(fpu, Some(x.on), x.kind, outer + InnerScope(db, x.sel), |InnerScope(db, x.sel)|)
  }

  /** The join emits the outer row, once. */
  predicate JoinKeeps(fpu: Fpu, db: Db, x: Extracted, outer: Scope, l: Row) {
    Emit(JoinOf(fpu, db, x, outer), l, InnerRows(db, x.sel), false) == Stream([l], false)
  }

  ghost predicate NoOnErrors(fpu: Fpu, db: Db, x: Extracted, outer: Scope, l: Row) {
    NoErrors(JoinOf(fpu, db, x, outer), l, InnerRows(db, x.sel))
  }

  function OnMatches(fpu: Fpu, db: Db, x: Extracted, outer: Scope, l: Row): seq<Row> {
    Matching(JoinOf(fpu, db, x, outer), l, InnerRows(db, x.sel))
  }

  /** A semi-join keeps a row with a match, an anti-join one without. */
  lemma JoinKeepsMeans(fpu: Fpu, db: Db, x: Extracted, outer: Scope, l: Row)
    requires NoOnErrors(fpu, db, x, outer, l) && (x.kind == SemiJoin || x.kind == AntiJoin)
    ensures JoinKeeps(fpu, db, x, outer, l) <==> (x.kind == SemiJoin <==> OnMatches(fpu, db, x, outer, l) != [])
    ensures !JoinKeeps(fpu, db, x, outer, l) ==> Emit(JoinOf(fpu, db, x, outer), l, InnerRows(db, x.sel), false) == Stream([], false)
  {
    hide Emit, Matching, OnResult;
    EmitMeaning(JoinOf(fpu, db, x, outer), l, InnerRows(db, x.sel));
  }

  /** The filter's columns mean the same in the subquery as in the join, and the filter nests no subquery. */
  ghost predicate PlainFilter(db: Db, sel: Select, outer: Scope) {
    sel.filter.Some? && SubqueryFree(sel.filter.value) && ColumnsKeepMeaning(InnerScope(db, sel), outer, sel.filter.value)
  }

  /** The subquery's matched rows are the rows the filter, as an ON clause, matches. */
  lemma {:induction false} FilterIsMatching(fpu: Fpu, f: Expr, g: Expr, inner: Scope, outer: Scope, l: Row, rows: seq<Row>)
    requires |outer| == |l| && Wide(rows, |inner|) && SubqueryFree(f) && ColumnsKeepMeaning(inner, outer, f)
    requires Substitute(f, inner, outer, l) == Ok(g)
    requires NoErrors(Join(fpu, Some(f), SemiJoin, outer + inner, |inner|), l, rows)
    ensures FilterRows(fpu, g, inner, rows) == Ok(Matching(Join(fpu, Some(f), SemiJoin, outer + inner, |inner|), l, rows))
  {
    var j := Join(fpu, Some(f), SemiJoin, outer + inner, |inner|);
    hide Substitute, ColumnsKeepMeaning, Eval;
    if rows != [] {
      assert rows[0] in rows && forall r :: r in rows[1..] ==> r in rows;
      FilterIsMatching(fpu, f, g, inner, outer, l, rows[1..]);
      SubstituteIsJoin(fpu, f, inner, outer, l, rows[0]);
      assert OnResult(j, l, rows[0]) == PassesFilter(fpu, Some(g), inner, rows[0]);
    }
  }

  lemma MatchedRowsAreMatches(fpu: Fpu, db: Db, sel: Select, outer: Scope, l: Row)
    requires ValidDb(db) && |outer| == |l| && Simple(db, sel, {}) && PlainFilter(db, sel, outer)
    requires NoOnErrors(fpu, db, Extracted(SemiJoin, sel, sel.filter.value), outer, l)
    ensures MatchedRows(fpu, db, sel, outer, l) == Ok(OnMatches(fpu, db, Extracted(SemiJoin, sel, sel.filter.value), outer, l))
  {
    var inner, f := InnerScope(db, sel), sel.filter.value;
    assert ValidDbTable(db[sel.from.name]);
    assert Substitute(f, inner, outer, l).Ok? by { SubstituteTotal(f, inner, outer, l); }
    hide Substitute, FilterRows, Matching, ColumnsKeepMeaning;
    FilterIsMatching(fpu, f, Substitute(f, inner, outer, l).value, inner, outer, l, InnerRows(db, sel));
  }

  lemma {:induction false} SubstituteTotal(e: Expr, inner: Scope, outer: Scope, l: Row)
    requires |outer| == |l| && SubqueryFree(e) && ColumnsKeepMeaning(inner, outer, e)
    ensures Substitute(e, inner, outer, l).Ok?
  {
    hide Resolve, Literal;
    match e
    case Column(ref) => assert SameMeaning(inner, outer, ref);
    case Unary(_, a) => SubstituteTotal(a, inner, outer, l);
    case Binary(_, a, b) => SubstituteTotal(a, inner, outer, l); SubstituteTotal(b, inner, outer, l);
    case IsNull(a, _) => SubstituteTotal(a, inner, outer, l);
    case InList(p, _, _, _) => SubstituteTotal(p, inner, outer, l);
    case _ =>
  }

  /** The matches of a join do not depend on its kind. */
  lemma {:induction false} MatchingKind(a: Join, b: Join, l: Row, rows: seq<Row>)
    requires a.fpu == b.fpu && a.on == b.on && a.scope == b.scope
    ensures Matching(a, l, rows) == Matching(b, l, rows)
    ensures NoErrors(a, l, rows) <==> NoErrors(b, l, rows)
  {
    assert forall r :: OnResult(a, l, r) == OnResult(b, l, r);
    hide OnResult;
    if rows != [] { MatchingKind(a, b, l, rows[1..]); }
  }

  /** EXISTS and NOT EXISTS: the join keeps the row that evaluation keeps, unless the subquery aggregates
      and no inner row matches; then they always disagree. */
  lemma ExistsRewriteIff(fpu: Fpu, db: Db, e: Expr, used: set<string>, outer: Scope, l: Row)
    requires ValidDb(db) && |outer| == |l| && TryExists(db, e, used).Some?
    requires var x := TryExists(db, e, used).value; PlainFilter(db, x.sel, outer) && NoOnErrors(fpu, db, x, outer, l)
    ensures var x := TryExists(db, e, used).value;
            (Keeps(fpu, db, e, outer, l) <==> JoinKeeps(fpu, db, x, outer, l)) <==>
            (x.sel.projection.AggregateItems? ==> OnMatches(fpu, db, x, outer, l) != [])
  {
    var x := TryExists(db, e, used).value;
    var semi := Extracted(SemiJoin, x.sel, x.on);
    MatchingKind(JoinOf(fpu, db, x, outer), JoinOf(fpu, db, semi, outer), l, InnerRows(db, x.sel));
    MatchedRowsAreMatches(fpu, db, x.sel, outer, l);
    JoinKeepsMeans(fpu, db, x, outer, l);
    hide MatchedRows, OnMatches, JoinKeeps, PlainFilter, NoOnErrors;
    assert ExistsResult(fpu, db, x.sel, outer, l) ==
           Ok(x.sel.projection.AggregateItems? || OnMatches(fpu, db, x, outer, l) != []) by { SameMatches(fpu, db, x, semi, outer, l); }
    ExistsKeeps(fpu, db, e, x.sel, outer, l);
  }

  lemma SameMatches(fpu: Fpu, db: Db, x: Extracted, y: Extracted, outer: Scope, l: Row)
    requires x.sel == y.sel && x.on == y.on
    ensures OnMatches(fpu, db, x, outer, l) == OnMatches(fpu, db, y, outer, l)
  {
    MatchingKind(JoinOf(fpu, db, x, outer), JoinOf(fpu, db, y, outer), l, InnerRows(db, x.sel));
  }

  lemma ExistsKeeps(fpu: Fpu, db: Db, e: Expr, sel: Select, outer: Scope, l: Row)
    requires |outer| == |l| && (e == Exists(sel) || e == Unary(Not, Exists(sel))) && ExistsResult(fpu, db, sel, outer, l).Ok?
    ensures Keeps(fpu, db, e, outer, l) <==> (e.Exists? <==> ExistsResult(fpu, db, sel, outer, l).value)
  {
    hide ExistsResult;
    var any := ExistsResult(fpu, db, sel, outer, l).value;
    assert ResolveSubqueries(fpu, db, Exists(sel), outer, l) == Ok(BoolLit(any));
    assert ResolveSubqueries(fpu, db, Unary(Not, Exists(sel)), outer, l) == Ok(Unary(Not, BoolLit(any)));
    assert Eval(fpu, BoolLit(any), Some(Context(outer, l))) == Ok(Bool(any));
    assert Eval(fpu, Unary(Not, BoolLit(any)), Some(Context(outer, l))) == Ok(Bool(!any));
  }

  /** The disagreement is real: `EXISTS (SELECT COUNT(*) FROM t WHERE TRUE)` over an empty table. */
  lemma AggregateExistsDiffers(fpu: Fpu)
    ensures var db: Db := map["t" := DbTable([SchemaColumn("a", IntType, false)], [])];
            var sel := Select(TableRef("t", "t"), AggregateItems, Some(BoolLit(true)), true);
            var outer := [ScopedColumn("o", "x", IntType)];
            TryExists(db, Exists(sel), {"o"}).Some? && Keeps(fpu, db, Exists(sel), outer, [Int(1)]) &&
            !JoinKeeps(fpu, db, TryExists(db, Exists(sel), {"o"}).value, outer, [Int(1)])
  {
  }

  // ---------------------------------------------------------------- IN and NOT IN

  /** The probe's column means the same once qualified and joined. */
  predicate ProbeKeepsMeaning(inner: Scope, outer: Scope, ref: ColumnRef, base: string) {
    Resolve(outer, ref).Ok? && Resolve(outer + inner, Qualified(ref, base)) == Resolve(outer, ref)
  }

  /** Every outer qualifier is among the used ones. */
  ghost predicate QualifiersUsed(outer: Scope, used: set<string>) {
    forall i :: 0 <= i < |outer| ==> outer[i].table in used
  }

  /** The subquery's own column, qualified, is found in the joined scope where it was found inside. */
  lemma InnerColumnKeepsMeaning(inner: Scope, outer: Scope, ref: ColumnRef, q: string, c: nat)
    requires forall i :: 0 <= i < |inner| ==> inner[i].table == q
    requires forall i :: 0 <= i < |outer| ==> outer[i].table != q
    requires Resolve(inner, ref) == Ok(c)
    ensures c < |inner| && Resolve(outer + inner, Qualified(ref, q)) == Ok(|outer| + c)
  {
    var full := Qualified(ref, q);
    ResolveIsOnlyMatch(inner, ref);
    ResolveIsOnlyMatch(outer + inner, full);
    hide Resolve;
    assert OnlyMatch(inner, ref, c);
    assert full.table == Some(q);
    forall i | 0 <= i < |inner| ensures Matches(inner[i], full) <==> Matches(inner[i], ref) {
      assert Matches(inner[c], ref);
    }
    assert OnlyMatch(inner, full, c);
    OnlyMatchRight(outer, inner, full, |outer| + c);
    assert OnlyMatch(outer + inner, full, |outer| + c);
  }

  /** Some row's column equals the probe. */
  ghost predicate SomeEqual(fpu: Fpu, v: Value, rows: seq<Row>, c: nat) {
    exists i :: 0 <= i < |rows| && EqualAt(fpu, v, rows[i], c)
  }

  predicate EqualAt(fpu: Fpu, v: Value, row: Row, c: nat) {
    c < |row| && CompareOp(fpu, Eq, v, row[c]) == Ok(Bool(true))
  }

  ghost predicate Comparable(fpu: Fpu, v: Value, rows: seq<Row>, c: nat) {
    forall i :: 0 <= i < |rows| ==> c < |rows[i]| && CompareOp(fpu, Eq, v, rows[i][c]).Ok?
  }

  lemma SomeEqualStep(fpu: Fpu, v: Value, rows: seq<Row>, c: nat)
    requires rows != []
    ensures SomeEqual(fpu, v, rows, c) <==> EqualAt(fpu, v, rows[0], c) || SomeEqual(fpu, v, rows[1..], c)
  {
    hide EqualAt;
    if i :| 0 <= i < |rows[1..]| && EqualAt(fpu, v, rows[1..][i], c) { assert rows[i + 1] == rows[1..][i]; }
    if SomeEqual(fpu, v, rows, c) && !EqualAt(fpu, v, rows[0], c) {
      var i :| 0 <= i < |rows| && EqualAt(fpu, v, rows[i], c);
      assert rows[1..][i - 1] == rows[i];
    }
  }

  /** What IN over the collected list means: three-valued membership. */
  lemma {:induction false} InListMeaning(fpu: Fpu, v: Value, rows: seq<Row>, c: nat, hasNull: bool)
    requires Comparable(fpu, v, rows, c) && !v.Null?
    ensures EvalInList(fpu, v, ListValues(rows, c), hasNull) ==
            Ok(if SomeEqual(fpu, v, rows, c) then Bool(true) else if hasNull then Null else Bool(false))
  {
    if rows != [] {
      hide CompareOp, Literal;
      SomeEqualStep(fpu, v, rows, c);
      InListMeaning(fpu, v, rows[1..], c, hasNull);
      hide SomeEqual;
      NullNeverEqual(fpu, v, rows[0], c);
      var tail := ListValues(rows[1..], c);
      if !rows[0][c].Null? {
        assert ([Literal(rows[0][c])] + tail)[1..] == tail;
        assert Eval(fpu, Literal(rows[0][c]), None) == Ok(rows[0][c]);
      }
    }
  }

  lemma NullNeverEqual(fpu: Fpu, v: Value, row: Row, c: nat)
    ensures c < |row| && row[c].Null? ==> !EqualAt(fpu, v, row, c)
    ensures v.Null? ==> !EqualAt(fpu, v, row, c)
  {
  }

  lemma NullProbeEqualsNothing(fpu: Fpu, v: Value, rows: seq<Row>, c: nat)
    ensures v.Null? ==> !SomeEqual(fpu, v, rows, c)
  {
    forall i | 0 <= i < |rows| ensures v.Null? ==> !EqualAt(fpu, v, rows[i], c) { NullNeverEqual(fpu, v, rows[i], c); }
  }

  lemma {:induction false} NotNullColumn(rows: seq<Row>, c: nat)
    requires forall i :: 0 <= i < |rows| ==> c < |rows[i]| && !rows[i][c].Null?
    ensures !ListHasNull(rows, c)
  {
    if rows != [] { NotNullColumn(rows[1..], c); }
  }

  /** The ON clause of an IN join on one pair: the filter and the equality. */
  lemma InOnResult(fpu: Fpu, f: Expr, a: ColumnRef, b: ColumnRef, inner: Scope, outer: Scope, l: Row, r: Row, k: nat, c: nat)
    requires |outer| == |l| && |inner| == |r| && k < |l| && c < |r|
    requires Resolve(outer + inner, a) == Ok(k) && Resolve(outer + inner, b) == Ok(|outer| + c)
    requires var on := Binary(And, f, Binary(Eq, Column(a), Column(b)));
             Eval(fpu, on, Some(Context(outer + inner, l + r))).Ok?
    ensures var ctx, on := Some(Context(outer + inner, l + r)), Binary(And, f, Binary(Eq, Column(a), Column(b)));
            Eval(fpu, f, ctx).Ok? && CompareOp(fpu, Eq, l[k], r[c]).Ok? &&
            (Eval(fpu, on, ctx) == Ok(Bool(true)) <==> Eval(fpu, f, ctx) == Ok(Bool(true)) && EqualAt(fpu, l[k], r, c))
  {
    hide Resolve, CompareOp;
    var ctx := Some(Context(outer + inner, l + r));
    var eq := Binary(Eq, Column(a), Column(b));
    assert (l + r)[k] == l[k] && (l + r)[|outer| + c] == r[c];
    assert Eval(fpu, eq, ctx) == CompareOp(fpu, Eq, l[k], r[c]);
    AndIsTrue(fpu, f, eq, ctx);
  }

  /** What the rewrite of an IN conjunct assumes of its columns, and where they are found. */
  ghost predicate InColumns(db: Db, e: Expr, base: string, used: set<string>, outer: Scope, k: nat, c: nat) {
    e.InSubquery? && e.probe.Column? && e.subquery.projection.OneColumn? &&
    PlainFilter(db, e.subquery, outer) && QualifiersUsed(outer, used) &&
    Resolve(outer, e.probe.ref) == Ok(k) && ProbeKeepsMeaning(InnerScope(db, e.subquery), outer, e.probe.ref, base) &&
    Resolve(InnerScope(db, e.subquery), e.subquery.projection.ref) == Ok(c)
  }

  /** On one pair, the IN join's ON clause is the filter and the equality; neither fails unless it does. */
  lemma InPair(fpu: Fpu, db: Db, e: Expr, base: string, used: set<string>, outer: Scope, l: Row, r: Row, k: nat, c: nat)
    requires |outer| == |l| && TryIn(db, e, base, used).Some? && InColumns(db, e, base, used, outer, k, c)
    requires |r| == |InnerScope(db, e.subquery)|
    requires OnResult(JoinOf(fpu, db, TryIn(db, e, base, used).value, outer), l, r).Ok?
    ensures k < |l| && c < |r|
    ensures var x, f := TryIn(db, e, base, used).value, Extracted(SemiJoin, e.subquery, e.subquery.filter.value);
            OnResult(JoinOf(fpu, db, f, outer), l, r).Ok? && CompareOp(fpu, Eq, l[k], r[c]).Ok? &&
            (OnResult(JoinOf(fpu, db, x, outer), l, r) == Ok(true) <==>
             OnResult(JoinOf(fpu, db, f, outer), l, r) == Ok(true) && EqualAt(fpu, l[k], r, c))
  {
    var sel, inner := e.subquery, InnerScope(db, e.subquery);
    ResolveIsOnlyMatch(outer, e.probe.ref);
    assert OnlyMatch(outer, e.probe.ref, k);
    InnerColumnKeepsMeaning(inner, outer, sel.projection.ref, sel.from.qualifier, c);
    hide Resolve, Eval, CompareOp, EqualAt, PlainFilter;
    InOnResult(fpu, sel.filter.value, Qualified(e.probe.ref, base), Qualified(sel.projection.ref, sel.from.qualifier),
               inner, outer, l, r, k, c);
  }

  /** On the pair, `jx` is `jf` and the equality, and nothing fails. */
  ghost predicate PairSplits(fpu: Fpu, jx: Join, jf: Join, v: Value, c: nat, l: Row, r: Row) {
    OnResult(jf, l, r).Ok? && c < |r| && CompareOp(fpu, Eq, v, r[c]).Ok? &&
    (OnResult(jx, l, r) == Ok(true) <==> OnResult(jf, l, r) == Ok(true) && EqualAt(fpu, v, r, c))
  }

  /** Matching the conjunction is matching the filter and then the equality. */
  lemma {:induction false} MatchingSplits(fpu: Fpu, jx: Join, jf: Join, v: Value, c: nat, l: Row, rows: seq<Row>)
    requires forall r :: r in rows ==> PairSplits(fpu, jx, jf, v, c, l, r)
    ensures Matching(jx, l, rows) != [] <==> SomeEqual(fpu, v, Matching(jf, l, rows), c)
  {
    hide OnResult, EqualAt;
    if rows != [] {
      assert rows[0] in rows && forall r :: r in rows[1..] ==> r in rows;
      MatchingSplits(fpu, jx, jf, v, c, l, rows[1..]);
      var rest := Matching(jf, l, rows[1..]);
      if OnResult(jf, l, rows[0]) == Ok(true) {
        SomeEqualStep(fpu, v, [rows[0]] + rest, c);
        assert ([rows[0]] + rest)[1..] == rest;
      }
    }
  }

  /** The subquery's list for this row, and whether the join matches. */
  lemma InListForRow(fpu: Fpu, db: Db, e: Expr, base: string, used: set<string>, outer: Scope, l: Row, k: nat, c: nat)
    returns (ms: seq<Row>)
    requires ValidDb(db) && |outer| == |l| && TryIn(db, e, base, used).Some? && InColumns(db, e, base, used, outer, k, c)
    requires NoOnErrors(fpu, db, TryIn(db, e, base, used).value, outer, l)
    ensures k < |l| && InResult(fpu, db, e.subquery, outer, l) == Ok((ListValues(ms, c), ListHasNull(ms, c)))
    ensures Comparable(fpu, l[k], ms, c) && (e.negated ==> !ListHasNull(ms, c))
    ensures OnMatches(fpu, db, TryIn(db, e, base, used).value, outer, l) != [] <==> SomeEqual(fpu, l[k], ms, c)
  {
    var x, sel, rows := TryIn(db, e, base, used).value, e.subquery, InnerRows(db, e.subquery);
    var f := Extracted(SemiJoin, sel, sel.filter.value);
    var jx, jf := JoinOf(fpu, db, x, outer), JoinOf(fpu, db, f, outer);
    assert ValidDbTable(db[sel.from.name]);
    ResolveIsOnlyMatch(outer, e.probe.ref);
    assert OnlyMatch(outer, e.probe.ref, k);
    ms := Matching(jf, l, rows);
    hide CompareOp, EqualAt, OnResult, Resolve, PlainFilter, Matching, SomeEqual, ProbeKeepsMeaning;
    forall r | r in rows ensures PairSplits(fpu, jx, jf, l[k], c, l, r) { InPair(fpu, db, e, base, used, outer, l, r, k, c); }
    MatchedRowsAreMatches(fpu, db, sel, outer, l);
    MatchingSplits(fpu, jx, jf, l[k], c, l, rows);
    MatchesAreAccepted(jf, l, rows);
    forall i | 0 <= i < |ms| ensures c < |ms[i]| && CompareOp(fpu, Eq, l[k], ms[i][c]).Ok? {
      assert ms[i] in ms && PairSplits(fpu, jx, jf, l[k], c, l, ms[i]);
    }
    hide *;
    if e.negated { InnerHasNoNull(db, sel, ms, c); }
  }

  lemma InnerHasNoNull(db: Db, sel: Select, ms: seq<Row>, c: nat)
    requires ValidDb(db) && sel.from.name in db && sel.projection.OneColumn? && InnerNotNull(db, sel, sel.projection.ref.name)
    requires Resolve(InnerScope(db, sel), sel.projection.ref) == Ok(c) && forall r :: r in ms ==> r in InnerRows(db, sel)
    ensures !ListHasNull(ms, c)
  {
    var t, ref := db[sel.from.name], sel.projection.ref;
    ResolveIsOnlyMatch(InnerScope(db, sel), ref);
    assert OnlyMatch(InnerScope(db, sel), ref, c) && ValidDbTable(t);
    OnlyNameIsColumnIndex(t.schema, sel.from.qualifier, ref, c);
    forall i | 0 <= i < |ms| ensures c < |ms[i]| && !ms[i][c].Null? {
      assert ms[i] in ms;
      var n :| 0 <= n < |t.rows| && t.rows[n] == ms[i];
    }
    NotNullColumn(ms, c);
  }

  /** IN always agrees with its semi-join; NOT IN agrees with its anti-join exactly when the outer value is
      not NULL. */
  lemma InRewriteIff(fpu: Fpu, db: Db, e: Expr, base: string, used: set<string>, outer: Scope, l: Row, k: nat, c: nat)
    requires ValidDb(db) && |outer| == |l| && TryIn(db, e, base, used).Some? && InColumns(db, e, base, used, outer, k, c)
    requires NoOnErrors(fpu, db, TryIn(db, e, base, used).value, outer, l)
    ensures k < |l|
    ensures (Keeps(fpu, db, e, outer, l) <==> JoinKeeps(fpu, db, TryIn(db, e, base, used).value, outer, l))
       <==> (e.negated ==> !l[k].Null?)
  {
    var x := TryIn(db, e, base, used).value;
    var ms := InListForRow(fpu, db, e, base, used, outer, l, k, c);
    JoinKeepsMeans(fpu, db, x, outer, l);
    var v, values, hasNull := l[k], ListValues(ms, c), ListHasNull(ms, c);
    if !v.Null? { InListMeaning(fpu, v, ms, c, hasNull); }
    NullProbeEqualsNothing(fpu, v, ms, c);
    InKeeps(fpu, db, e, outer, l, k, values, hasNull);
  }

  lemma InKeeps(fpu: Fpu, db: Db, e: Expr, outer: Scope, l: Row, k: nat, values: seq<Expr>, hasNull: bool)
    requires |outer| == |l| && e.InSubquery? && e.probe.Column? && Resolve(outer, e.probe.ref) == Ok(k) && k < |l|
    requires InResult(fpu, db, e.subquery, outer, l) == Ok((values, hasNull))
    ensures var r := EvalInList(fpu, l[k], values, hasNull);
            Keeps(fpu, db, e, outer, l) <==> r == Ok(Bool(!e.negated))
  {
    hide InResult, Resolve, EvalInList;
    var list := InList(e.probe, values, hasNull, e.negated);
    assert ResolveSubqueries(fpu, db, e.probe, outer, l) == Ok(e.probe);
    assert ResolveSubqueries(fpu, db, e, outer, l) == Ok(list);
    assert Eval(fpu, e.probe, Some(Context(outer, l))) == Ok(l[k]);
  }

  // ---------------------------------------------------------------- the whole WHERE clause

  /** The conditions under which replacing conjunct `e` by its join is exact for outer row `l`. */
  ghost predicate SafeFor(fpu: Fpu, db: Db, e: Expr, base: string, used: set<string>, outer: Scope, l: Row) {
    |outer| == |l| &&
    match TryExtract(db, e, base, used)
    case None => true
    case Some(x) =>
      NoOnErrors(fpu, db, x, outer, l) &&
      if TryExists(db, e, used).Some? then PlainFilter(db, x.sel, outer) && !x.sel.projection.AggregateItems?
      else exists k: nat, c: nat :: InColumns(db, e, base, used, outer, k, c) && k < |l| && (e.negated ==> !l[k].Null?)
  }

  lemma ConjunctRewriteSound(fpu: Fpu, db: Db, e: Expr, base: string, used: set<string>, outer: Scope, l: Row)
    requires ValidDb(db) && TryExtract(db, e, base, used).Some? && SafeFor(fpu, db, e, base, used, outer, l)
    ensures Keeps(fpu, db, e, outer, l) <==> JoinKeeps(fpu, db, TryExtract(db, e, base, used).value, outer, l)
  {
    assert TryIn(db, e, base, used).Some? ==> e.InSubquery?;
    hide Keeps, JoinKeeps, NoOnErrors, InColumns, PlainFilter, TryIn;
    if TryExists(db, e, used).Some? {
      ExistsRewriteIff(fpu, db, e, used, outer, l);
    } else {
      var k: nat, c: nat :| InColumns(db, e, base, used, outer, k, c) && k < |l| && (e.negated ==> !l[k].Null?);
      InRewriteIff(fpu, db, e, base, used, outer, l, k, c);
    }
  }

  /** Every conjunct is safe for the row, with the qualifiers in use when its turn comes. */
  ghost predicate AllSafe(fpu: Fpu, db: Db, cs: seq<Expr>, base: string, used: set<string>, outer: Scope, l: Row) {
    cs == [] || (SafeFor(fpu, db, cs[0], base, used, outer, l) &&
                 AllSafe(fpu, db, cs[1..], base, UsedAfter(db, cs[0], base, used), outer, l))
  }

  function UsedAfter(db: Db, e: Expr, base: string, used: set<string>): set<string> {
    match TryExtract(db, e, base, used)
    case Some(x) => used + {x.sel.from.qualifier}
    case None => used
  }

  ghost predicate AllJoinsKeep(fpu: Fpu, db: Db, joins: seq<Extracted>, outer: Scope, l: Row) {
    forall i :: 0 <= i < |joins| ==> JoinKeeps(fpu, db, joins[i], outer, l)
  }

  ghost predicate AllKeep(fpu: Fpu, db: Db, cs: seq<Expr>, outer: Scope, l: Row)
    requires |outer| == |l|
  {
    forall i :: 0 <= i < |cs| ==> Keeps(fpu, db, cs[i], outer, l)
  }

  lemma {:induction false} RewriteSound(fpu: Fpu, db: Db, cs: seq<Expr>, base: string, used: set<string>, outer: Scope, l: Row)
    requires ValidDb(db) && |outer| == |l| && AllSafe(fpu, db, cs, base, used, outer, l)
    ensures var r := Rewrite(db, cs, base, used);
            AllKeep(fpu, db, cs, outer, l) <==> AllJoinsKeep(fpu, db, r.0, outer, l) && AllKeep(fpu, db, r.1, outer, l)
  {
    hide Keeps, JoinKeeps, SafeFor, TryExtract;
    if cs != [] {
      var x := TryExtract(db, cs[0], base, used);
      var after := UsedAfter(db, cs[0], base, used);
      RewriteSound(fpu, db, cs[1..], base, after, outer, l);
      var rest := Rewrite(db, cs[1..], base, after);
      assert cs == [cs[0]] + cs[1..];
      AllKeepCons(fpu, db, cs[0], cs[1..], outer, l);
      if x.Some? {
        ConjunctRewriteSound(fpu, db, cs[0], base, used, outer, l);
        AllJoinsKeepCons(fpu, db, x.value, rest.0, outer, l);
      } else {
        AllKeepCons(fpu, db, cs[0], rest.1, outer, l);
      }
    }
  }

  lemma AllKeepCons(fpu: Fpu, db: Db, c: Expr, cs: seq<Expr>, outer: Scope, l: Row)
    requires |outer| == |l|
    ensures AllKeep(fpu, db, [c] + cs, outer, l) <==> Keeps(fpu, db, c, outer, l) && AllKeep(fpu, db, cs, outer, l)
  {
    hide Keeps;
    var all := [c] + cs;
    assert all[0] == c && forall i :: 0 <= i < |cs| ==> all[i + 1] == cs[i];
  }

  lemma AllJoinsKeepCons(fpu: Fpu, db: Db, x: Extracted, xs: seq<Extracted>, outer: Scope, l: Row)
    ensures AllJoinsKeep(fpu, db, [x] + xs, outer, l) <==> JoinKeeps(fpu, db, x, outer, l) && AllJoinsKeep(fpu, db, xs, outer, l)
  {
    hide JoinKeeps;
    var all := [x] + xs;
    assert all[0] == x && forall i :: 0 <= i < |xs| ==> all[i + 1] == xs[i];
  }

  /** The appended joins, applied in order to the outer rows; each yields left columns only. */
  function ApplyJoins(fpu: Fpu, db: Db, joins: seq<Extracted>, outer: Scope, ls: seq<Row>): seq<Row> {
    if joins == [] then ls
    else ApplyJoins(fpu, db, joins[1..], outer, JoinStream(JoinOf(fpu, db, joins[0], outer), ls, Whole(InnerRows(db, joins[0].sel))).rows)
  }

  /** The outer rows the original WHERE clause keeps, in order and with multiplicity. */
  ghost function KeptRows(fpu: Fpu, db: Db, cs: seq<Expr>, outer: Scope, ls: seq<Row>): seq<Row>
    requires Wide(ls, |outer|)
  {
    if ls == [] then []
    else if AllKeep(fpu, db, cs, outer, ls[0]) then [ls[0]] + KeptRows(fpu, db, cs, outer, ls[1..])
    else KeptRows(fpu, db, cs, outer, ls[1..])
  }

  ghost function JoinedRows(fpu: Fpu, db: Db, joins: seq<Extracted>, outer: Scope, ls: seq<Row>): (r: seq<Row>)
    ensures forall l :: l in r ==> l in ls
  {
    if ls == [] then []
    else if AllJoinsKeep(fpu, db, joins, outer, ls[0]) then [ls[0]] + JoinedRows(fpu, db, joins, outer, ls[1..])
    else JoinedRows(fpu, db, joins, outer, ls[1..])
  }

  /** Each join raises no error on any of the rows. */
  ghost predicate JoinsFine(fpu: Fpu, db: Db, joins: seq<Extracted>, outer: Scope, ls: seq<Row>) {
    forall x, l :: x in joins && l in ls ==> (x.kind == SemiJoin || x.kind == AntiJoin) && NoOnErrors(fpu, db, x, outer, l)
  }

  lemma {:induction false} OneJoinFilters(fpu: Fpu, db: Db, x: Extracted, outer: Scope, ls: seq<Row>)
    requires JoinsFine(fpu, db, [x], outer, ls)
    ensures JoinStream(JoinOf(fpu, db, x, outer), ls, Whole(InnerRows(db, x.sel))) == Stream(JoinedRows(fpu, db, [x], outer, ls), false)
  {
    hide Emit, NoOnErrors, JoinOf;
    if ls != [] {
      var rows := InnerRows(db, x.sel);
      assert x in [x] && ls[0] in ls && forall l :: l in ls[1..] ==> l in ls;
      OneJoinFilters(fpu, db, x, outer, ls[1..]);
      JoinKeepsMeans(fpu, db, x, outer, ls[0]);
      assert AllJoinsKeep(fpu, db, [x], outer, ls[0]) <==> JoinKeeps(fpu, db, x, outer, ls[0]);
      assert Candidates(Whole(rows), ls[0]) == rows;
    }
  }

  lemma {:induction false} JoinedInTurn(fpu: Fpu, db: Db, x: Extracted, xs: seq<Extracted>, outer: Scope, ls: seq<Row>)
    ensures JoinedRows(fpu, db, xs, outer, JoinedRows(fpu, db, [x], outer, ls)) == JoinedRows(fpu, db, [x] + xs, outer, ls)
  {
    hide JoinKeeps, AllJoinsKeep;
    if ls != [] {
      JoinedInTurn(fpu, db, x, xs, outer, ls[1..]);
      AllJoinsKeepCons(fpu, db, x, xs, outer, ls[0]);
      AllJoinsKeepCons(fpu, db, x, [], outer, ls[0]);
      assert AllJoinsKeep(fpu, db, [], outer, ls[0]) by { NoJoinsKeep(fpu, db, outer, ls[0]); }
      assert [x] + [] == [x];
      var rest := JoinedRows(fpu, db, [x], outer, ls[1..]);
      assert ([ls[0]] + rest)[1..] == rest;
    }
  }

  lemma NoJoinsKeep(fpu: Fpu, db: Db, outer: Scope, l: Row)
    ensures AllJoinsKeep(fpu, db, [], outer, l)
  {
  }

  lemma {:induction false} NoJoinsKeepAll(fpu: Fpu, db: Db, outer: Scope, ls: seq<Row>)
    ensures JoinedRows(fpu, db, [], outer, ls) == ls
  {
    if ls != [] {
      NoJoinsKeepAll(fpu, db, outer, ls[1..]);
      assert ls == [ls[0]] + ls[1..];
    }
  }

  /** The joins applied one after another keep the rows each of them keeps. */
  lemma {:induction false} ApplyJoinsFilters(fpu: Fpu, db: Db, joins: seq<Extracted>, outer: Scope, ls: seq<Row>)
    requires JoinsFine(fpu, db, joins, outer, ls)
    ensures ApplyJoins(fpu, db, joins, outer, ls) == JoinedRows(fpu, db, joins, outer, ls)
    decreases |joins|
  {
    hide NoOnErrors, JoinedRows, JoinStream;
    if joins == [] {
      NoJoinsKeepAll(fpu, db, outer, ls);
    } else {
      assert joins[0] in joins && forall x :: x in joins[1..] ==> x in joins;
      OneJoinFilters(fpu, db, joins[0], outer, ls);
      ApplyJoinsFilters(fpu, db, joins[1..], outer, JoinedRows(fpu, db, [joins[0]], outer, ls));
      JoinedInTurn(fpu, db, joins[0], joins[1..], outer, ls);
      assert joins == [joins[0]] + joins[1..];
    }
  }

  lemma {:induction false} SafeMeansFine(fpu: Fpu, db: Db, cs: seq<Expr>, base: string, used: set<string>, outer: Scope, l: Row)
    requires AllSafe(fpu, db, cs, base, used, outer, l)
    ensures JoinsFine(fpu, db, Rewrite(db, cs, base, used).0, outer, [l])
  {
    hide NoOnErrors, InColumns, PlainFilter;
    if cs != [] {
      SafeMeansFine(fpu, db, cs[1..], base, UsedAfter(db, cs[0], base, used), outer, l);
      var joins, rest := Rewrite(db, cs, base, used).0, Rewrite(db, cs[1..], base, UsedAfter(db, cs[0], base, used)).0;
      var x := TryExtract(db, cs[0], base, used);
      assert joins == if x.Some? then [x.value] + rest else rest;
    }
  }

  /** Keeping the row is surviving the joins and passing what is left. */
  ghost predicate Splits(fpu: Fpu, db: Db, cs: seq<Expr>, joins: seq<Extracted>, leftover: seq<Expr>, outer: Scope, l: Row) {
    |l| == |outer| &&
    (AllKeep(fpu, db, cs, outer, l) <==> AllJoinsKeep(fpu, db, joins, outer, l) && AllKeep(fpu, db, leftover, outer, l))
  }

  lemma {:induction false} LeftoverThenKept(fpu: Fpu, db: Db, cs: seq<Expr>, joins: seq<Extracted>, leftover: seq<Expr>,
                                            outer: Scope, ls: seq<Row>)
    requires Wide(ls, |outer|) && Wide(JoinedRows(fpu, db, joins, outer, ls), |outer|)
    requires forall l :: l in ls ==> Splits(fpu, db, cs, joins, leftover, outer, l)
    ensures KeptRows(fpu, db, leftover, outer, JoinedRows(fpu, db, joins, outer, ls)) == KeptRows(fpu, db, cs, outer, ls)
  {
    hide AllKeep, AllJoinsKeep;
    if ls != [] {
      assert ls[0] in ls && forall l :: l in ls[1..] ==> l in ls;
      var rest := JoinedRows(fpu, db, joins, outer, ls[1..]);
      assert ([ls[0]] + rest)[1..] == rest;
      assert Wide(rest, |outer|) by {
        forall i | 0 <= i < |rest| ensures |rest[i]| == |outer| { assert rest[i] in rest; }
      }
      LeftoverThenKept(fpu, db, cs, joins, leftover, outer, ls[1..]);
    }
  }

  /** The rewritten query keeps exactly the outer rows, in order and with multiplicity, that per-row
      three-valued evaluation of the WHERE clause keeps. */
  lemma RewriteKeepsRows(fpu: Fpu, db: Db, e: Expr, base: string, used: set<string>, outer: Scope, ls: seq<Row>)
    requires ValidDb(db) && Wide(ls, |outer|)
    requires forall l :: l in ls ==> AllSafe(fpu, db, Conjuncts(e), base, used, outer, l)
    ensures var (joins, leftover) := Rewrite(db, Conjuncts(e), base, used);
            var joined := ApplyJoins(fpu, db, joins, outer, ls);
            Wide(joined, |outer|) && KeptRows(fpu, db, leftover, outer, joined) == KeptRows(fpu, db, [e], outer, ls)
  {
    hide Rewrite, AllSafe, AllKeep, AllJoinsKeep, NoOnErrors, Keeps, ApplyJoins;
    var (joins, leftover) := Rewrite(db, Conjuncts(e), base, used);
    forall x, l | x in joins && l in ls ensures (x.kind == SemiJoin || x.kind == AntiJoin) && NoOnErrors(fpu, db, x, outer, l) {
      SafeMeansFine(fpu, db, Conjuncts(e), base, used, outer, l);
      assert l in [l];
    }
    ApplyJoinsFilters(fpu, db, joins, outer, ls);
    var joined := JoinedRows(fpu, db, joins, outer, ls);
    forall i | 0 <= i < |joined| ensures |joined[i]| == |outer| { assert joined[i] in joined && joined[i] in ls; }
    forall l | l in ls ensures Splits(fpu, db, [e], joins, leftover, outer, l) {
      RewriteSound(fpu, db, Conjuncts(e), base, used, outer, l);
      WholeOrConjuncts(fpu, db, e, outer, l);
    }
    LeftoverThenKept(fpu, db, [e], joins, leftover, outer, ls);
  }

  lemma WholeOrConjuncts(fpu: Fpu, db: Db, e: Expr, outer: Scope, l: Row)
    requires |outer| == |l|
    ensures AllKeep(fpu, db, [e], outer, l) <==> AllKeep(fpu, db, Conjuncts(e), outer, l)
  {
    KeepsByConjuncts(fpu, db, e, outer, l);
    hide Keeps;
    var cs := Conjuncts(e);
    assert [e][0] == e;
    assert (forall c :: c in cs ==> Keeps(fpu, db, c, outer, l)) <==> (forall i :: 0 <= i < |cs| ==> Keeps(fpu, db, cs[i], outer, l));
  }

  /** The guard matters: with a NULL outer value NOT IN is NULL, and the anti-join still emits the row. */
  lemma NullNotInDiffers(fpu: Fpu)
    ensures var db: Db := map["t" := DbTable([SchemaColumn("a", IntType, true)], [])];
            var sel := Select(TableRef("t", "t"), OneColumn(ColumnRef(None, "a")), Some(BoolLit(true)), true);
            var e := InSubquery(Column(ColumnRef(None, "x")), sel, true);
            var outer := [ScopedColumn("o", "x", IntType)];
            TryIn(db, e, "o", {"o"}).Some? && !Keeps(fpu, db, e, outer, [Null]) &&
            JoinKeeps(fpu, db, TryIn(db, e, "o", {"o"}).value, outer, [Null])
  {
    var db: Db := map["t" := DbTable([SchemaColumn("a", IntType, true)], [])];
    var sel := Select(TableRef("t", "t"), OneColumn(ColumnRef(None, "a")), Some(BoolLit(true)), true);
    var e := InSubquery(Column(ColumnRef(None, "x")), sel, true);
    var outer := [ScopedColumn("o", "x", IntType)];
    ResolveIsOnlyMatch(outer, ColumnRef(None, "x"));
    assert OnlyMatch(outer, ColumnRef(None, "x"), 0);
    ResolveIsOnlyMatch(InnerScope(db, sel), ColumnRef(None, "a"));
    assert OnlyMatch(InnerScope(db, sel), ColumnRef(None, "a"), 0);
    assert InResult(fpu, db, sel, outer, [Null]) == Ok(([], false));
    InKeeps(fpu, db, e, outer, [Null], 0, [], false);
  }
}
