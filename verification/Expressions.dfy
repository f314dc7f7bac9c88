/** Expressions, scopes and row-at-a-time evaluation (sql/ast.rs and the evaluator of
    engine/executor.rs). */
module Expressions {
  import opened Bytes
  import opened Values

  datatype UnaryOp = Neg | Not
  datatype BinaryOp = Add | Sub | Mul | Div | Eq | NotEq | Lt | LtEq | Gt | GtEq | And | Or

  datatype ColumnRef = ColumnRef(table: Option<string>, name: string)

  /** `OpaqueSubquery` stands for the subquery forms the modelled code only ever rejects. */
  datatype Expr =
    | NullLit
    | Integer(n: i64)
    | RealLit(bits: u64)
    | Str(bytes: ByteString)
    | BoolLit(b: bool)
    | Column(ref: ColumnRef)
    | Aggregate
    | Unary(uop: UnaryOp, arg: Expr)
    | Binary(op: BinaryOp, left: Expr, right: Expr)
    | IsNull(arg: Expr, negated: bool)
    | InList(probe: Expr, values: seq<Expr>, hasNull: bool, negated: bool)
    | InSubquery(probe: Expr, subquery: Select, negated: bool)
    | Exists(subquery: Select)
    | OpaqueSubquery

  /** A table in FROM and the name its columns answer to. */
  datatype TableRef = TableRef(name: string, qualifier: string)

  datatype Projection = AllColumns | OneColumn(ref: ColumnRef) | AggregateItems | OtherItems

  /** A subquery: `plain` when it has no join, grouping, ordering or paging. */
  datatype Select = Select(from: TableRef, projection: Projection, filter: Option<Expr>, plain: bool)

  // ---------------------------------------------------------------- scopes

  datatype ScopedColumn = ScopedColumn(table: string, name: string, ty: Type)

  type Scope = seq<ScopedColumn>

  predicate Matches(column: ScopedColumn, ref: ColumnRef) {
    (ref.table.Some? ==> ref.table.value == column.table) && column.name == ref.name
  }

  /** The scan of `Scope::resolve` from position `i`, with the match found so far. */
  function ResolveFrom(scope: Scope, ref: ColumnRef, i: nat, found: Option<nat>): Result<nat>
    requires i <= |scope|
    decreases |scope| - i
  {
    if i == |scope| then
      if found.Some? then Ok(found.value) else Err(Exec)
    else if Matches(scope[i], ref) then
      if found.Some? then Err(Exec) else ResolveFrom(scope, ref, i + 1, Some(i))
    else ResolveFrom(scope, ref, i + 1, found)
  }

  function Resolve(scope: Scope, ref: ColumnRef): Result<nat> {
    ResolveFrom(scope, ref, 0, None)
  }

  ghost predicate OnlyMatch(scope: Scope, ref: ColumnRef, k: nat) {
    k < |scope| && Matches(scope[k], ref) && forall j :: 0 <= j < |scope| && Matches(scope[j], ref) ==> j == k
  }

  /** A reference resolves to a position exactly when that position is its only match. */
  lemma ResolveIsOnlyMatch(scope: Scope, ref: ColumnRef)
    ensures forall k: nat :: Resolve(scope, ref) == Ok(k) <==> OnlyMatch(scope, ref, k)
  {
    ResolveFromIsOnlyMatch(scope, ref, 0, None);
  }

  lemma {:induction false} ResolveFromIsOnlyMatch(scope: Scope, ref: ColumnRef, i: nat, found: Option<nat>)
    requires i <= |scope|
    requires found.Some? ==> found.value < i && Matches(scope[found.value], ref)
    requires forall j :: 0 <= j < i && Matches(scope[j], ref) ==> found == Some(j)
    ensures forall k: nat :: ResolveFrom(scope, ref, i, found) == Ok(k) <==> OnlyMatch(scope, ref, k)
    decreases |scope| - i
  {
    if i < |scope| {
      if !Matches(scope[i], ref) {
        ResolveFromIsOnlyMatch(scope, ref, i + 1, found);
      } else if found.None? {
        ResolveFromIsOnlyMatch(scope, ref, i + 1, Some(i));
      } else {
        assert Matches(scope[i], ref) && Matches(scope[found.value], ref);
      }
    }
  }

  /** The row a column reference is read from, with the scope that names its columns. */
  datatype Context = Context(scope: Scope, values: Row)

  predicate Fits(ctx: Option<Context>) {
    ctx.Some? ==> |ctx.value.scope| == |ctx.value.values|
  }

  // ---------------------------------------------------------------- operators

  function InI64(n: int): Result<Value> {
    if 0 - TWO_63 <= n < TWO_63 then Ok(Int(n)) else Err(Exec)
  }

  /** Integer division truncating toward zero. */
  function TruncDiv(a: int, b: int): int
    requires b != 0
  {
    if a >= 0 then (if b > 0 then a / b else -(a / -b))
    else (if b > 0 then -(-a / b) else (-a) / (-b))
  }

  predicate IsArithmetic(op: BinaryOp) { op in {Add, Sub, Mul, Div} }
  predicate IsComparison(op: BinaryOp) { op in {Eq, NotEq, Lt, LtEq, Gt, GtEq} }

  function ArithmeticInts(op: BinaryOp, a: i64, b: i64): Result<Value>
    requires IsArithmetic(op)
  {
    match op
    case Add => InI64(a + b)
    case Sub => InI64(a - b)
    case Mul => InI64(a * b)
    case Div => if b == 0 then Err(Exec) else InI64(TruncDiv(a, b))
  }

  function ArithmeticReals(fpu: Fpu, op: BinaryOp, a: u64, b: u64): Result<Value>
    requires IsArithmetic(op)
  {
    match op
    case Add => Ok(Real(fpu.add(a, b)))
    case Sub => Ok(Real(fpu.sub(a, b)))
    case Mul => Ok(Real(fpu.mul(a, b)))
    case Div => if IsZero(b) then Err(Exec) else Ok(Real(fpu.div(a, b)))
  }

  function Arithmetic(fpu: Fpu, op: BinaryOp, a: Value, b: Value): Result<Value>
    requires IsArithmetic(op)
  {
    if a.Null? || b.Null? then Ok(Null)
    else if a.Int? && b.Int? then ArithmeticInts(op, a.n, b.n)
    else
      match (AsNumber(fpu, a), AsNumber(fpu, b))
      case (Ok(x), Ok(y)) => ArithmeticReals(fpu, op, x, y)
      case _ => Err(Exec)
  }

  function Verdict(op: BinaryOp, o: Ordering): bool
    requires IsComparison(op)
  {
    match op
    case Eq => o == Equal
    case NotEq => o != Equal
    case Lt => o == LessThan
    case LtEq => o != GreaterThan
    case Gt => o == GreaterThan
    case GtEq => o != LessThan
  }

  function CompareOp(fpu: Fpu, op: BinaryOp, a: Value, b: Value): (r: Result<Value>)
    requires IsComparison(op)
    ensures r.Ok? ==> r.value.Bool? || r.value.Null?
  {
    if a.Null? || b.Null? then Ok(Null)
    else
      match Compare(fpu, a, b)
      case Ok(o) => Ok(Bool(Verdict(op, o)))
      case Err(e) => Err(e)
  }

  function AsBool(v: Value): Result<Option<bool>> {
    match v
    case Null => Ok(None)
    case Bool(b) => Ok(Some(b))
    case _ => Err(Exec)
  }

  /** AND and OR of SQL's three-valued logic. */
  function Logic3(op: BinaryOp, a: Option<bool>, b: Option<bool>): Value {
    if op == And then
      if a == Some(false) || b == Some(false) then Bool(false)
      else if a == Some(true) && b == Some(true) then Bool(true)
      else Null
    else
      if a == Some(true) || b == Some(true) then Bool(true)
      else if a == Some(false) && b == Some(false) then Bool(false)
      else Null
  }

  function Logic(op: BinaryOp, a: Value, b: Value): Result<Value> {
    match (AsBool(a), AsBool(b))
    case (Ok(x), Ok(y)) => Ok(Logic3(op, x, y))
    case _ => Err(Exec)
  }

  function EvalUnary(op: UnaryOp, v: Value): Result<Value> {
    match (op, v)
    case (_, Null) => Ok(Null)
    case (Neg, Int(n)) => InI64(0 - n)
    case (Neg, Real(bits)) => Ok(Real(Negate(bits)))
    case (Not, Bool(b)) => Ok(Bool(!b))
    case _ => Err(Exec)
  }

  function EvalBinary(fpu: Fpu, op: BinaryOp, a: Value, b: Value): Result<Value> {
    if IsArithmetic(op) then Arithmetic(fpu, op, a, b)
    else if IsComparison(op) then CompareOp(fpu, op, a, b)
    else Logic(op, a, b)
  }

  function NegateBool(v: Value): Value
    requires v.Bool? || v.Null?
  {
    if v.Null? then Null else Bool(!v.b)
  }

  // ---------------------------------------------------------------- evaluation

  function Eval(fpu: Fpu, e: Expr, ctx: Option<Context>): Result<Value>
    requires Fits(ctx)
    decreases e, 1
  {
    match e
    case NullLit => Ok(Null)
    case Integer(n) => Ok(Int(n))
    case RealLit(bits) => Ok(Real(bits))
    case Str(s) => Ok(Text(s))
    case BoolLit(b) => Ok(Bool(b))
    case Column(ref) =>
      if ctx.None? then Err(Exec)
      else (
        ResolveIsOnlyMatch(ctx.value.scope, ref);
        match Resolve(ctx.value.scope, ref)
        case Ok(k) => assert OnlyMatch(ctx.value.scope, ref, k); Ok(ctx.value.values[k])
        case Err(x) => Err(x))
    case Unary(op, arg) =>
      (match Eval(fpu, arg, ctx)
       case Ok(v) => EvalUnary(op, v)
       case Err(x) => Err(x))
    case Binary(op, l, r) =>
      (match Eval(fpu, l, ctx)
       case Err(x) => Err(x)
       case Ok(a) =>
         match Eval(fpu, r, ctx)
         case Err(x) => Err(x)
         case Ok(b) => EvalBinary(fpu, op, a, b))
    case IsNull(arg, negated) =>
      (match Eval(fpu, arg, ctx)
       case Ok(v) => Ok(Bool(v.Null? != negated))
       case Err(x) => Err(x))
    case InList(probe, values, hasNull, negated) =>
      (match Eval(fpu, probe, ctx)
       case Err(x) => Err(x)
       case Ok(p) =>
         match EvalInList(fpu, p, values, hasNull)
         case Err(x) => Err(x)
         case Ok(v) => Ok(if negated then NegateBool(v) else v))
    case Aggregate => Err(Exec)
    case _ => Err(Corruption)
  }

  /** Three-valued IN over a materialised list, stopping at the first match. */
  function EvalInList(fpu: Fpu, probe: Value, values: seq<Expr>, hasNull: bool): (r: Result<Value>)
    ensures r.Ok? ==> r.value.Bool? || r.value.Null?
    decreases values, 0
  {
    if probe.Null? then Ok(Null)
    else if values == [] then Ok(if hasNull then Null else Bool(false))
    else
      match Eval(fpu, values[0], None)
      case Err(x) => Err(x)
      case Ok(v) =>
        match CompareOp(fpu, Eq, probe, v)
        case Err(x) => Err(x)
        case Ok(c) => if c == Bool(true) then Ok(Bool(true)) else EvalInList(fpu, probe, values[1..], hasNull)
  }

  /** A row passes only when the predicate is exactly TRUE. */
  function PassesFilter(fpu: Fpu, filter: Option<Expr>, scope: Scope, row: Row): Result<bool>
    requires |scope| == |row|
  {
    match filter
    case None => Ok(true)
    case Some(e) =>
      match Eval(fpu, e, Some(Context(scope, row)))
      case Ok(v) => Ok(v == Bool(true))
      case Err(x) => Err(x)
  }

  // ---------------------------------------------------------------- conjunctions

  /** The leaves of the top-level AND tree, left to right. */
  function Conjuncts(e: Expr): seq<Expr> {
    if e.Binary? && e.op == And then Conjuncts(e.left) + Conjuncts(e.right) else [e]
  }

  lemma AndIsTrue(fpu: Fpu, a: Expr, b: Expr, ctx: Option<Context>)
    requires Fits(ctx)
    ensures Eval(fpu, Binary(And, a, b), ctx) == Ok(Bool(true))
       <==> Eval(fpu, a, ctx) == Ok(Bool(true)) && Eval(fpu, b, ctx) == Ok(Bool(true))
  {
    hide Arithmetic, CompareOp, EvalUnary, EvalInList, Resolve, NegateBool, Matches, OnlyMatch;
  }

  /** A conjunction that is TRUE has every conjunct TRUE, and conversely. */
  lemma {:induction false} ConjunctsAllTrue(fpu: Fpu, e: Expr, ctx: Option<Context>)
    requires Fits(ctx)
    ensures Eval(fpu, e, ctx) == Ok(Bool(true))
       <==> forall c :: c in Conjuncts(e) ==> Eval(fpu, c, ctx) == Ok(Bool(true))
  {
    if e.Binary? && e.op == And {
      AndIsTrue(fpu, e.left, e.right, ctx);
      ConjunctsAllTrue(fpu, e.left, ctx);
      ConjunctsAllTrue(fpu, e.right, ctx);
      forall c ensures c in Conjuncts(e) <==> c in Conjuncts(e.left) || c in Conjuncts(e.right) {}
    } else {
      assert Conjuncts(e) == [e];
    }
  }
}
