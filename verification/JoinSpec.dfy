/** What a join yields, stated once for every algorithm, and how the planner picks a join key (the join
    operators of engine/executor.rs). */
module JoinSpec {
  import opened Bytes
  import opened Values
  import opened Expressions
  import opened IndexKeys
  import opened AccessPaths
  import opened Sequences
  import opened IndexScans

  datatype JoinKind = InnerJoin | LeftJoin | CrossJoin | SemiJoin | AntiJoin

  /** `scope` spans the left columns, then the `rightWidth` columns of the joined table. */
  datatype Join = Join(fpu: Fpu, on: Option<Expr>, kind: JoinKind, scope: Scope, rightWidth: nat)

  /** The rows an operator emits in order, and whether it then stops with an error. */
  datatype Stream = Stream(rows: seq<Row>, fails: bool)

  function Cons(row: Row, s: Stream): Stream { Stream([row] + s.rows, s.fails) }

  function Then(a: Stream, b: Stream): Stream {
    if a.fails then a else Stream(a.rows + b.rows, b.fails)
  }

  /** The ON predicate on a pair of rows. */
  function OnResult(j: Join, l: Row, r: Row): Result<bool> {
    if |l| + |r| == |j.scope| then PassesFilter(j.fpu, j.on, j.scope, l + r) else Err(Exec)
  }

  function Nulls(n: nat): (r: Row)
    ensures |r| == n && forall i :: 0 <= i < n ==> r[i] == Null
  {
    seq(n, _ => Null)
  }

  /** What a left row yields once its candidates are spent. */
  function AtEnd(j: Join, l: Row, matched: bool): seq<Row> {
    if matched then []
    else if j.kind == LeftJoin then [l + Nulls(j.rightWidth)]
    else if j.kind == AntiJoin then [l]
    else []
  }

  /** Pairing one left row with the candidates still to be tried. */
  function Emit(j: Join, l: Row, candidates: seq<Row>, matched: bool): Stream {
    if candidates == [] then Stream(AtEnd(j, l, matched), false)
    else
      match OnResult(j, l, candidates[0])
      case Err(_) => Stream([], true)
      case Ok(false) => Emit(j, l, candidates[1..], matched)
      case Ok(true) =>
        if j.kind == SemiJoin then Stream([l], false)
        else if j.kind == AntiJoin then Stream([], false)
        else Cons(l + candidates[0], Emit(j, l, candidates[1..], true))
  }

  // ---------------------------------------------------------------- candidates

  /** Where a left row finds its candidates. */
  datatype Source =
    | Whole(rows: seq<Row>)
    | Bucketed(rows: seq<Row>, build: nat, probe: nat)
    | Indexed(table: Table, keys: seq<ByteString>, columns: seq<nat>, visible: (u64, u64) -> bool, probe: nat)

  function KeyAt(row: Row, column: nat): Option<ByteString> {
    if column < |row| && !row[column].Null? then Some(EncodeValue(row[column])) else None
  }

  /** The rows whose build key is `key`, in input order. */
  function Bucket(rows: seq<Row>, build: nat, key: ByteString): seq<Row> {
    if rows == [] then []
    else if KeyAt(rows[0], build) == Some(key) then [rows[0]] + Bucket(rows[1..], build, key)
    else Bucket(rows[1..], build, key)
  }

  function RowsOf(t: Table, ids: seq<ByteString>): (r: seq<Row>)
    ensures |r| == |ids|
  {
    Map(id => if id in t.rows then t.rows[id].values else [], ids)
  }

  function Candidates(src: Source, l: Row): seq<Row> {
    match src
    case Whole(rows) => rows
    case Bucketed(rows, build, probe) =>
      var key := KeyAt(l, probe);
      if key.None? then [] else Bucket(rows, build, key.value)
    case Indexed(t, keys, _, visible, probe) =>
      var key := KeyAt(l, probe);
      if key.None? then []
      else RowsOf(t, VisibleIds(t, visible, IndexedIds(keys, key.value, UpperBound(key.value))))
  }

  /** The whole join: each left row against its candidates, in left order. */
  function JoinStream(j: Join, ls: seq<Row>, src: Source): Stream {
    if ls == [] then Stream([], false)
    else Then(Emit(j, ls[0], Candidates(src, ls[0]), false), JoinStream(j, ls[1..], src))
  }

  // ---------------------------------------------------------------- what it means

  function Matching(j: Join, l: Row, rs: seq<Row>): seq<Row> {
    if rs == [] then []
    else if OnResult(j, l, rs[0]) == Ok(true) then [rs[0]] + Matching(j, l, rs[1..])
    else Matching(j, l, rs[1..])
  }

  function Pairs(l: Row, rs: seq<Row>): seq<Row> {
    if rs == [] then [] else [l + rs[0]] + Pairs(l, rs[1..])
  }

  /** SQL's definition of each join for one left row, given its matching rows. */
  function Declared(j: Join, l: Row, matches: seq<Row>): seq<Row> {
    match j.kind
    case InnerJoin => Pairs(l, matches)
    case CrossJoin => Pairs(l, matches)
    case LeftJoin => if matches == [] then [l + Nulls(j.rightWidth)] else Pairs(l, matches)
    case SemiJoin => if matches == [] then [] else [l]
    case AntiJoin => if matches == [] then [l] else []
  }

  ghost predicate NoErrors(j: Join, l: Row, rs: seq<Row>) {
    forall r :: r in rs ==> OnResult(j, l, r).Ok?
  }

  predicate PairsUp(j: Join) { j.kind in {InnerJoin, LeftJoin, CrossJoin} }

  lemma {:induction false} EmitAfterMatch(j: Join, l: Row, rs: seq<Row>)
    requires NoErrors(j, l, rs) && PairsUp(j)
    ensures Emit(j, l, rs, true) == Stream(Pairs(l, Matching(j, l, rs)), false)
  {
    hide OnResult;
    if rs != [] {
      EmitAfterMatch(j, l, rs[1..]);
      assert rs[0] in rs;
      var ms := Matching(j, l, rs[1..]);
      assert ([rs[0]] + ms)[1..] == ms;
    }
  }

  /** The step-by-step pairing yields exactly what the join kind declares. */
  lemma {:induction false} EmitMeaning(j: Join, l: Row, rs: seq<Row>)
    requires NoErrors(j, l, rs)
    ensures Emit(j, l, rs, false) == Stream(Declared(j, l, Matching(j, l, rs)), false)
  {
    hide OnResult;
    if rs != [] {
      assert rs[0] in rs;
      var ms := Matching(j, l, rs[1..]);
      if OnResult(j, l, rs[0]) == Ok(true) {
        if PairsUp(j) {
          EmitAfterMatch(j, l, rs[1..]);
          assert ([rs[0]] + ms)[1..] == ms;
        }
      } else {
        EmitMeaning(j, l, rs[1..]);
      }
    }
  }

  /** A pairing join evaluates ON on every candidate, so it fails exactly when some pair does. */
  lemma {:induction false} EmitFailsIff(j: Join, l: Row, rs: seq<Row>, matched: bool)
    requires PairsUp(j)
    ensures Emit(j, l, rs, matched).fails <==> !NoErrors(j, l, rs)
  {
    hide OnResult;
    if rs != [] {
      EmitFailsIff(j, l, rs[1..], matched);
      EmitFailsIff(j, l, rs[1..], true);
      assert rs[0] in rs && forall r :: r in rs <==> r == rs[0] || r in rs[1..];
    }
  }

  /** A row of a pairing join: the left row followed by a candidate ON accepts, or, in a LEFT join with no
      such candidate, by NULLs. */
  ghost predicate EmittedRow(j: Join, l: Row, rs: seq<Row>, row: Row) {
    |l| <= |row| && row[..|l|] == l &&
    ((exists r :: r in rs && OnResult(j, l, r) == Ok(true) && row[|l|..] == r) ||
     (j.kind == LeftJoin && (forall r :: r in rs ==> OnResult(j, l, r) != Ok(true)) &&
      |row| == |l| + j.rightWidth && forall k :: |l| <= k < |row| ==> row[k].Null?))
  }

  lemma {:induction false} PairedRows(j: Join, l: Row, rs: seq<Row>, matches: seq<Row>)
    requires forall r :: r in matches ==> r in rs && OnResult(j, l, r) == Ok(true)
    ensures |Pairs(l, matches)| == |matches| && forall row :: row in Pairs(l, matches) ==> EmittedRow(j, l, rs, row)
  {
    hide OnResult;
    if matches != [] {
      assert matches[0] in matches && forall r :: r in matches[1..] ==> r in matches;
      PairedRows(j, l, rs, matches[1..]);
      var row := l + matches[0];
      assert row[..|l|] == l && row[|l|..] == matches[0];
    }
  }

  lemma {:induction false} MatchesAreAccepted(j: Join, l: Row, rs: seq<Row>)
    ensures forall r :: r in Matching(j, l, rs) <==> r in rs && OnResult(j, l, r) == Ok(true)
  {
    hide OnResult;
    if rs != [] {
      MatchesAreAccepted(j, l, rs[1..]);
      assert forall r :: r in rs <==> r == rs[0] || r in rs[1..];
    }
  }

  /** What a left row yields: one row per match, or the padded row alone when a LEFT join finds none. */
  lemma EmitShape(j: Join, l: Row, rs: seq<Row>)
    requires PairsUp(j) && NoErrors(j, l, rs)
    ensures var rows := Emit(j, l, rs, false).rows;
            && (forall row :: row in rows ==> EmittedRow(j, l, rs, row))
            && |rows| == if j.kind == LeftJoin && Matching(j, l, rs) == [] then 1 else |Matching(j, l, rs)|
  {
    hide OnResult, Emit, Matching;
    EmitMeaning(j, l, rs);
    MatchesAreAccepted(j, l, rs);
    var matches := Matching(j, l, rs);
    PairedRows(j, l, rs, matches);
    if j.kind == LeftJoin && matches == [] {
      var row := l + Nulls(j.rightWidth);
      assert row[..|l|] == l && forall r :: r in rs ==> OnResult(j, l, r) != Ok(true);
      assert EmittedRow(j, l, rs, row);
    }
  }

  // ---------------------------------------------------------------- equi-joins

  /** `equi_join_columns`. */
  function EquiJoinColumns(l: Expr, r: Expr, leftLen: nat, scope: Scope): Option<(nat, nat)> {
    if !l.Column? || !r.Column? then None
    else
      match (Resolve(scope, l.ref), Resolve(scope, r.ref))
      case (Ok(a), Ok(b)) =>
        if a < leftLen <= b && b < |scope| && scope[a].ty == scope[b].ty then Some((a, b - leftLen))
        else if b < leftLen <= a && a < |scope| && scope[a].ty == scope[b].ty then Some((b, a - leftLen))
        else None
      case _ => None
  }

  /** `find_equi_join`: the first usable equality among the conjuncts. */
  function FindEquiJoin(on: Expr, leftLen: nat, scope: Scope): Option<(nat, nat)> {
    if on.Binary? && on.op == And then
      var first := FindEquiJoin(on.left, leftLen, scope);
      if first.Some? then first else FindEquiJoin(on.right, leftLen, scope)
    else if on.Binary? && on.op == Eq then EquiJoinColumns(on.left, on.right, leftLen, scope)
    else None
  }

  function ScopeTypes(scope: Scope): (r: seq<Type>)
    ensures |r| == |scope| && forall i :: 0 <= i < |r| ==> r[i] == scope[i].ty
  {
    seq(|scope|, i requires 0 <= i < |scope| => scope[i].ty)
  }

  ghost predicate TypedPair(j: Join, l: Row, r: Row) {
    |r| == j.rightWidth && RowHasTypes(l + r, ScopeTypes(j.scope))
  }

  lemma EquiColumnsEqual(fpu: Fpu, l: Expr, r: Expr, scope: Scope, leftLen: nat, row: Row, p: nat, b: nat)
    requires leftLen <= |scope| == |row| && RowHasTypes(row, ScopeTypes(scope))
    requires EquiJoinColumns(l, r, leftLen, scope) == Some((p, b))
    requires Eval(fpu, Binary(Eq, l, r), Some(Context(scope, row))) == Ok(Bool(true))
    ensures p < leftLen && leftLen + b < |row| && scope[p].ty == scope[leftLen + b].ty
    ensures !row[p].Null? && !row[leftLen + b].Null?
    ensures row[p] == row[leftLen + b] || OppositeZeros(row[p], row[leftLen + b])
  {
    hide Eval, Resolve, CompareOp, HasType;
    var ctx := Some(Context(scope, row));
    BinaryIsTrue(fpu, Eq, l, r, ctx);
    ColumnIsItsMatch(fpu, l.ref, ctx);
    ColumnIsItsMatch(fpu, r.ref, ctx);
    var x, y := Resolve(scope, l.ref).value, Resolve(scope, r.ref).value;
    EqualColumns(fpu, row[x], row[y], scope[x].ty);
  }

  /** Two values of one type that `=` calls equal are the same value or the two zeros. */
  lemma EqualColumns(fpu: Fpu, a: Value, b: Value, ty: Type)
    requires HasType(a, ty) && HasType(b, ty)
    requires CompareOp(fpu, Eq, a, b) == Ok(Bool(true))
    ensures !a.Null? && !b.Null? && (a == b || OppositeZeros(a, b))
  {
  }

  /** Some conjunct of ON equates left column `probe` with inner column `build` of the same type. */
  ghost predicate EquiOn(j: Join, probe: nat, build: nat) {
    j.on.Some? && j.rightWidth <= |j.scope| &&
    exists e :: e in Conjuncts(j.on.value) && IsEquality(e, |j.scope| - j.rightWidth, j.scope, probe, build)
  }

  predicate IsEquality(e: Expr, leftLen: nat, scope: Scope, probe: nat, build: nat) {
    e.Binary? && e.op == Eq && EquiJoinColumns(e.left, e.right, leftLen, scope) == Some((probe, build))
  }

  /** One side names column `probe` of the left rows and the other column `build` of the joined table, in
      either order, and the types agree. */
  lemma IsEqualityMeaning(e: Expr, leftLen: nat, scope: Scope, probe: nat, build: nat)
    ensures IsEquality(e, leftLen, scope, probe, build) <==>
              e.Binary? && e.op == Eq && e.left.Column? && e.right.Column? &&
              probe < leftLen && leftLen + build < |scope| && scope[probe].ty == scope[leftLen + build].ty &&
              ((Resolve(scope, e.left.ref) == Ok(probe) && Resolve(scope, e.right.ref) == Ok(leftLen + build)) ||
               (Resolve(scope, e.right.ref) == Ok(probe) && Resolve(scope, e.left.ref) == Ok(leftLen + build)))
  {
    hide Resolve;
  }

  /** What `find_equi_join` returns is an equality among the conjuncts, and it returns one if there is one. */
  lemma {:induction false} FindEquiJoinFinds(on: Expr, leftLen: nat, scope: Scope)
    ensures match FindEquiJoin(on, leftLen, scope)
            case Some((p, b)) => exists e :: e in Conjuncts(on) && IsEquality(e, leftLen, scope, p, b)
            case None => forall e, p, b :: e in Conjuncts(on) ==> !IsEquality(e, leftLen, scope, p, b)
  {
    hide EquiJoinColumns;
    if on.Binary? && on.op == And {
      FindEquiJoinFinds(on.left, leftLen, scope);
      FindEquiJoinFinds(on.right, leftLen, scope);
      assert forall e :: e in Conjuncts(on) <==> e in Conjuncts(on.left) || e in Conjuncts(on.right);
    } else {
      assert Conjuncts(on) == [on] && on in Conjuncts(on);
      match FindEquiJoin(on, leftLen, scope)
      case Some((p, b)) => assert IsEquality(on, leftLen, scope, p, b);
      case None =>
    }
  }

  /** `equi_join_index` for the inner table's indexes: the left key and the first index led by the column. */
  function EquiJoinIndex(l: Expr, r: Expr, leftLen: nat, scope: Scope, indexes: seq<Index>): Option<(Expr, Index)> {
    match EquiJoinColumns(l, r, leftLen, scope)
    case None => None
    case Some((probe, build)) =>
      var key := if Resolve(scope, l.ref) == Ok(probe) then l else r;
      match LedBy(indexes, build)
      case None => None
      case Some(index) => Some((key, index))
  }

  function LedBy(indexes: seq<Index>, column: nat): (r: Option<Index>)
    ensures r.Some? ==> r.value in indexes && r.value.columns != [] && r.value.columns[0] == column
    ensures r.None? ==> forall index :: index in indexes && index.columns != [] ==> index.columns[0] != column
  {
    if indexes == [] then None
    else if indexes[0].columns != [] && indexes[0].columns[0] == column then Some(indexes[0])
    else LedBy(indexes[1..], column)
  }

  /** `find_index_join`: the first conjunct an index of the inner table can serve. */
  function FindIndexJoin(on: Expr, leftLen: nat, scope: Scope, indexes: seq<Index>): Option<(Expr, Index)> {
    if on.Binary? && on.op == And then
      var first := FindIndexJoin(on.left, leftLen, scope, indexes);
      if first.Some? then first else FindIndexJoin(on.right, leftLen, scope, indexes)
    else if on.Binary? && on.op == Eq then EquiJoinIndex(on.left, on.right, leftLen, scope, indexes)
    else None
  }

  /** The key resolves to a left column that some conjunct equates with the index's leading column. */
  lemma {:induction false} FindIndexJoinFinds(on: Expr, leftLen: nat, scope: Scope, indexes: seq<Index>, key: Expr, index: Index)
    requires FindIndexJoin(on, leftLen, scope, indexes) == Some((key, index))
    ensures index in indexes && index.columns != [] && key.Column?
    ensures exists e, p: nat :: e in Conjuncts(on) && IsEquality(e, leftLen, scope, p, index.columns[0]) &&
              p < leftLen && Resolve(scope, key.ref) == Ok(p)
  {
    if on.op == And {
      var side := if FindIndexJoin(on.left, leftLen, scope, indexes).Some? then on.left else on.right;
      FindIndexJoinFinds(side, leftLen, scope, indexes, key, index);
      assert forall e :: e in Conjuncts(side) ==> e in Conjuncts(on);
    } else {
      hide Resolve;
      var (p, b) := EquiJoinColumns(on.left, on.right, leftLen, scope).value;
      assert on in Conjuncts(on) && IsEquality(on, leftLen, scope, p, b);
    }
  }

  ghost predicate NoneLedBy(indexes: seq<Index>, column: nat) {
    forall index :: index in indexes && index.columns != [] ==> index.columns[0] != column
  }

  /** A key is found whenever some conjunct equates a left column with the leading column of an index. */
  lemma {:induction false} FindIndexJoinMisses(on: Expr, leftLen: nat, scope: Scope, indexes: seq<Index>)
    requires FindIndexJoin(on, leftLen, scope, indexes).None?
    ensures forall e, p, b :: e in Conjuncts(on) && IsEquality(e, leftLen, scope, p, b) ==> NoneLedBy(indexes, b)
  {
    hide EquiJoinColumns;
    if on.Binary? && on.op == And {
      FindIndexJoinMisses(on.left, leftLen, scope, indexes);
      FindIndexJoinMisses(on.right, leftLen, scope, indexes);
      assert forall e :: e in Conjuncts(on) <==> e in Conjuncts(on.left) || e in Conjuncts(on.right);
    } else {
      assert Conjuncts(on) == [on];
    }
  }

  /** The two equated columns hold -0.0 and 0.0. */
  predicate ZerosOpposed(l: Row, r: Row, probe: nat, build: nat) {
    probe < |l| && build < |r| && OppositeZeros(l[probe], r[build])
  }

  /** A pair ON accepts has a key on both sides, and the keys are the same bytes unless the equated
      columns hold opposite zeros. */
  lemma MatchSharesKey(j: Join, l: Row, r: Row, probe: nat, build: nat)
    requires EquiOn(j, probe, build) && TypedPair(j, l, r) && OnResult(j, l, r) == Ok(true)
    ensures probe < |l| && build < |r| && KeyAt(l, probe).Some? && KeyAt(r, build).Some?
    ensures KeyAt(r, build) == KeyAt(l, probe) <==> !ZerosOpposed(l, r, probe, build)
  {
    var e :| e in Conjuncts(j.on.value) && IsEquality(e, |l|, j.scope, probe, build);
    ConjunctsAllTrue(j.fpu, j.on.value, Some(Context(j.scope, l + r)));
    hide EquiJoinColumns, RowHasTypes, Eval, Conjuncts, EncodeValue, OppositeZeros;
    EquatedColumns(j, l, r, e, probe, build);
    KeysOfEquated(j.fpu, l, r, probe, build);
  }

  lemma EquatedColumns(j: Join, l: Row, r: Row, e: Expr, probe: nat, build: nat)
    requires TypedPair(j, l, r) && |l| + |r| == |j.scope| && IsEquality(e, |l|, j.scope, probe, build)
    requires Eval(j.fpu, e, Some(Context(j.scope, l + r))) == Ok(Bool(true))
    ensures probe < |l| && build < |r| && !l[probe].Null? && !r[build].Null?
    ensures l[probe] == r[build] || OppositeZeros(l[probe], r[build])
  {
    hide EquiJoinColumns, RowHasTypes, Eval;
    EquiColumnsEqual(j.fpu, e.left, e.right, j.scope, |l|, l + r, probe, build);
    assert (l + r)[|l| + build] == r[build] && (l + r)[probe] == l[probe];
  }

  lemma KeysOfEquated(fpu: Fpu, l: Row, r: Row, probe: nat, build: nat)
    requires probe < |l| && build < |r| && !l[probe].Null? && !r[build].Null?
    requires l[probe] == r[build] || OppositeZeros(l[probe], r[build])
    ensures KeyAt(l, probe).Some? && KeyAt(r, build).Some?
    ensures KeyAt(r, build) == KeyAt(l, probe) <==> !ZerosOpposed(l, r, probe, build)
  {
    hide EncodeValue;
    if OppositeZeros(l[probe], r[build]) { EncodeValueInjective(fpu, l[probe], r[build], RealType); }
  }

  lemma EncodeValueInjective(fpu: Fpu, a: Value, b: Value, ty: Type)
    requires HasType(a, ty) && HasType(b, ty)
    ensures EncodeValue(a) == EncodeValue(b) ==> a == b
  {
    hide EncodeValue;
    EncodeValueOrder(fpu, a, b, ty);
  }
}
