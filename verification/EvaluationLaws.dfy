/** Laws of the row evaluator that do not mention how it computes (`eval` and its helpers in
    engine/executor.rs). */
module EvaluationLaws {
  import opened Bytes
  import opened Values
  import opened Expressions

  /** Three-valued negation of a result: TRUE and FALSE change places, NULL and errors stay. */
  function Flipped(r: Result<Value>): Result<Value> {
    match r
    case Ok(Bool(b)) => Ok(Bool(!b))
    case _ => r
  }

  // ---------------------------------------------------------------- comparison

  /** `<>`, `>=` and `<=` are the negations of `=`, `<` and `>`, for all values, NULLs and errors included. */
  lemma NegatedComparisons(fpu: Fpu, a: Value, b: Value)
    ensures EvalBinary(fpu, NotEq, a, b) == Flipped(EvalBinary(fpu, Eq, a, b))
    ensures EvalBinary(fpu, GtEq, a, b) == Flipped(EvalBinary(fpu, Lt, a, b))
    ensures EvalBinary(fpu, LtEq, a, b) == Flipped(EvalBinary(fpu, Gt, a, b))
  {
    hide Compare;
  }

  /** The same of expressions on any row: `x <> y` is `NOT (x = y)`, and so on. */
  lemma NegatedComparisonExprs(fpu: Fpu, x: Expr, y: Expr, ctx: Option<Context>)
    requires Fits(ctx)
    ensures Eval(fpu, Binary(NotEq, x, y), ctx) == Eval(fpu, Unary(Not, Binary(Eq, x, y)), ctx)
    ensures Eval(fpu, Binary(GtEq, x, y), ctx) == Eval(fpu, Unary(Not, Binary(Lt, x, y)), ctx)
    ensures Eval(fpu, Binary(LtEq, x, y), ctx) == Eval(fpu, Unary(Not, Binary(Gt, x, y)), ctx)
  {
    forall a, b
      ensures EvalBinary(fpu, NotEq, a, b) == Flipped(EvalBinary(fpu, Eq, a, b))
      ensures EvalBinary(fpu, GtEq, a, b) == Flipped(EvalBinary(fpu, Lt, a, b))
      ensures EvalBinary(fpu, LtEq, a, b) == Flipped(EvalBinary(fpu, Gt, a, b))
    {
      NegatedComparisons(fpu, a, b);
    }
    hide Eval, EvalBinary;
    NegatedExpr(fpu, NotEq, Eq, x, y, ctx);
    NegatedExpr(fpu, GtEq, Lt, x, y, ctx);
    NegatedExpr(fpu, LtEq, Gt, x, y, ctx);
  }

  lemma NegatedExpr(fpu: Fpu, negative: BinaryOp, positive: BinaryOp, x: Expr, y: Expr, ctx: Option<Context>)
    requires Fits(ctx) && IsComparison(positive)
    requires forall a, b :: EvalBinary(fpu, negative, a, b) == Flipped(EvalBinary(fpu, positive, a, b))
    ensures Eval(fpu, Binary(negative, x, y), ctx) == Eval(fpu, Unary(Not, Binary(positive, x, y)), ctx)
  {
    BinaryStep(fpu, negative, x, y, ctx);
    BinaryStep(fpu, positive, x, y, ctx);
    UnaryStep(fpu, Not, Binary(positive, x, y), ctx);
    hide Eval;
    if Eval(fpu, x, ctx).Ok? && Eval(fpu, y, ctx).Ok? {
      var a, b := Eval(fpu, x, ctx).value, Eval(fpu, y, ctx).value;
      ComparisonOutcome(fpu, positive, a, b);
      hide EvalBinary;
    }
  }

  /** An operator's result from its operands' results: the left error first. */
  function OfParts(fpu: Fpu, op: BinaryOp, a: Result<Value>, b: Result<Value>): Result<Value> {
    if a.Err? then a else if b.Err? then b else EvalBinary(fpu, op, a.value, b.value)
  }

  predicate IsTrue(r: Result<Value>) { r == Ok(Bool(true)) }

  /** With a NULL operand every comparison is NULL; otherwise it is TRUE, FALSE or an error. */
  lemma ComparisonOutcome(fpu: Fpu, op: BinaryOp, a: Value, b: Value)
    requires IsComparison(op)
    ensures EvalBinary(fpu, op, a, b) == Ok(Null) <==> a.Null? || b.Null?
    ensures EvalBinary(fpu, op, a, b).Ok? && !a.Null? && !b.Null? ==> EvalBinary(fpu, op, a, b).value.Bool?
  {
    hide Compare;
  }

  /** Of comparable values exactly one of `<`, `=` and `>` holds, and `>` is `<` read backwards. */
  lemma Trichotomy(fpu: Fpu, a: Value, b: Value)
    requires !a.Null? && !b.Null? && EvalBinary(fpu, Eq, a, b).Ok?
    ensures IsTrue(EvalBinary(fpu, Lt, a, b)) || IsTrue(EvalBinary(fpu, Eq, a, b)) || IsTrue(EvalBinary(fpu, Gt, a, b))
    ensures !(IsTrue(EvalBinary(fpu, Lt, a, b)) && IsTrue(EvalBinary(fpu, Eq, a, b)))
    ensures !(IsTrue(EvalBinary(fpu, Eq, a, b)) && IsTrue(EvalBinary(fpu, Gt, a, b)))
    ensures !(IsTrue(EvalBinary(fpu, Lt, a, b)) && IsTrue(EvalBinary(fpu, Gt, a, b)))
  {
    hide Compare;
  }

  lemma ReadBackwards(fpu: Fpu, a: Value, b: Value)
    ensures IsTrue(EvalBinary(fpu, Gt, a, b)) <==> IsTrue(EvalBinary(fpu, Lt, b, a))
    ensures IsTrue(EvalBinary(fpu, Eq, a, b)) <==> IsTrue(EvalBinary(fpu, Eq, b, a))
    ensures EvalBinary(fpu, Eq, a, b).Ok? <==> EvalBinary(fpu, Eq, b, a).Ok?
  {
    if a.Text? && b.Text? {
      LessTotal(a.bytes, b.bytes);
      LessIrreflexive(a.bytes);
      if Less(a.bytes, b.bytes) { LessAsymmetric(a.bytes, b.bytes); }
      if Less(b.bytes, a.bytes) { LessAsymmetric(b.bytes, a.bytes); }
      hide Less;
    }
  }

  /** On values of one type: a comparison errs exactly on NaN; `=` is being the same value or the two zeros;
      `<` is coming first in ORDER BY without being the two zeros. */
  lemma ComparisonMeaning(fpu: Fpu, a: Value, b: Value, ty: Type)
    requires HasType(a, ty) && HasType(b, ty) && !a.Null? && !b.Null?
    ensures EvalBinary(fpu, Eq, a, b).Err? <==> NotANumber(a) || NotANumber(b)
    ensures EvalBinary(fpu, Eq, a, b).Ok? ==> (IsTrue(EvalBinary(fpu, Eq, a, b)) <==> a == b || OppositeZeros(a, b))
    ensures EvalBinary(fpu, Eq, a, b).Ok? ==>
            (IsTrue(EvalBinary(fpu, Lt, a, b)) <==> OrderValues(fpu, a, b) == LessThan && !OppositeZeros(a, b))
  {
    CompareAgreesWithOrder(fpu, a, b, ty);
    OrderValuesAntisymmetric(fpu, a, b, ty);
    hide Compare, OrderValues, OppositeZeros;
    assert OppositeZeros(a, b) ==> !NotANumber(a) && !NotANumber(b) by { ZerosAreNumbers(a, b); }
  }

  lemma ZerosAreNumbers(a: Value, b: Value)
    ensures OppositeZeros(a, b) ==> !NotANumber(a) && !NotANumber(b)
  {
  }

  /** An INT beside a REAL counts as the REAL it converts to, in comparisons and in arithmetic. */
  lemma MixedNumbers(fpu: Fpu, op: BinaryOp, n: i64, bits: u64)
    requires IsComparison(op) || IsArithmetic(op)
    ensures EvalBinary(fpu, op, Int(n), Real(bits)) == EvalBinary(fpu, op, Real(fpu.ofInt(n)), Real(bits))
    ensures EvalBinary(fpu, op, Real(bits), Int(n)) == EvalBinary(fpu, op, Real(bits), Real(fpu.ofInt(n)))
  {
    hide ArithmeticReals, PartialCompare;
  }

  /** Values of different kinds, not both numbers, are never comparable. */
  lemma MixedKindsErr(fpu: Fpu, op: BinaryOp, a: Value, b: Value)
    requires IsComparison(op) && !a.Null? && !b.Null?
    requires a.Bool? != b.Bool? || a.Text? != b.Text?
    ensures EvalBinary(fpu, op, a, b).Err?
  {
  }

  // ---------------------------------------------------------------- arithmetic

  predicate FitsI64(n: int) { -0x8000_0000_0000_0000 <= n < 0x8000_0000_0000_0000 }

  /** Integer addition, subtraction and multiplication give the exact result, or an error exactly when it
      does not fit 64 bits. */
  lemma IntegerArithmetic(fpu: Fpu, a: i64, b: i64)
    ensures EvalBinary(fpu, Add, Int(a), Int(b)).Ok? <==> FitsI64(a + b)
    ensures forall c: i64 :: EvalBinary(fpu, Add, Int(a), Int(b)) == Ok(Int(c)) <==> c - b == a
    ensures EvalBinary(fpu, Sub, Int(a), Int(b)).Ok? <==> FitsI64(a - b)
    ensures forall c: i64 :: EvalBinary(fpu, Sub, Int(a), Int(b)) == Ok(Int(c)) <==> c + b == a
    ensures EvalBinary(fpu, Mul, Int(a), Int(b)).Ok? <==> FitsI64(a * b)
    ensures forall c: i64 :: EvalBinary(fpu, Mul, Int(a), Int(b)) == Ok(Int(c)) <==> c == a * b
  {
  }

  /** Subtraction undoes addition, and addition subtraction. */
  lemma SubtractionUndoesAddition(fpu: Fpu, a: i64, b: i64, c: i64)
    ensures EvalBinary(fpu, Add, Int(a), Int(b)) == Ok(Int(c)) <==> EvalBinary(fpu, Sub, Int(c), Int(b)) == Ok(Int(a))
  {
    IntegerArithmetic(fpu, a, b);
    IntegerArithmetic(fpu, c, b);
    hide EvalBinary;
  }

  /** Smaller than the divisor, and zero or of the dividend's sign. */
  predicate IsRemainder(a: int, b: int, r: int) {
    -Abs(b) < r < Abs(b) && (r == 0 || (r > 0) == (a > 0))
  }

  /** `a` is `q` times `b` plus a remainder. */
  predicate TruncatedQuotient(a: int, b: int, q: int) { IsRemainder(a, b, a - q * b) }

  function Abs(n: int): int { if n < 0 then -n else n }

  lemma QuotientUnique(a: int, b: int, p: int, q: int)
    requires b != 0 && TruncatedQuotient(a, b, p) && TruncatedQuotient(a, b, q)
    ensures p == q
  {
    if p != q {
      Products(b, p, q);
      RemaindersClash(a, b, a - p * b, a - q * b);
    }
  }

  /** Products of different factors with `b` are at least `b` apart. */
  lemma Products(b: int, p: int, q: int)
    requires b != 0 && p != q
    ensures Abs(p * b - q * b) >= Abs(b)
  {
    var d := p - q;
    Distributes(b, p, q);
    Signs(Abs(d), Abs(b));
    AtLeastOnce(Abs(d), Abs(b));
    assert d * b == Abs(d) * Abs(b) || d * b == -(Abs(d) * Abs(b));
  }

  lemma Distributes(b: int, p: int, q: int)
    ensures p * b - q * b == (p - q) * b
  {
  }

  lemma AtLeastOnce(k: int, n: int)
    requires k >= 1 && n >= 1
    ensures k * n >= n
  {
    assert k * n == (k - 1) * n + n;
  }

  lemma RemaindersClash(a: int, b: int, r: int, s: int)
    requires b != 0 && Abs(r - s) >= Abs(b)
    ensures !(IsRemainder(a, b, r) && IsRemainder(a, b, s))
  {
  }

  lemma TruncDivIsQuotient(a: int, b: int)
    requires b != 0
    ensures TruncatedQuotient(a, b, TruncDiv(a, b))
  {
    var m, n := Abs(a), Abs(b);
    var k := m / n;
    PositiveQuotient(m, n);
    assert TruncDiv(a, b) == if (a >= 0) == (b > 0) then k else -k;
    Signs(k, n);
    hide TruncDiv;
    assert IsRemainder(a, b, if a >= 0 then m - k * n else -(m - k * n));
  }

  lemma Signs(k: int, n: int)
    ensures k * -n == -(k * n) && -k * n == -(k * n) && -k * -n == k * n
  {
  }

  lemma PositiveQuotient(a: int, b: int)
    requires a >= 0 && b > 0
    ensures 0 <= a - (a / b) * b < b
  {
  }

  /** Integer division truncates toward zero; it errs exactly for a zero divisor or a quotient that does not
      fit. */
  lemma IntegerDivision(fpu: Fpu, a: i64, b: i64)
    ensures b == 0 ==> EvalBinary(fpu, Div, Int(a), Int(b)).Err?
    ensures b != 0 ==> forall q: i64 :: EvalBinary(fpu, Div, Int(a), Int(b)) == Ok(Int(q)) <==> TruncatedQuotient(a, b, q)
    ensures b != 0 && EvalBinary(fpu, Div, Int(a), Int(b)).Err? ==> forall q: i64 :: !TruncatedQuotient(a, b, q)
  {
    if b != 0 {
      TruncDivIsQuotient(a, b);
      forall q: i64 | TruncatedQuotient(a, b, q) ensures q == TruncDiv(a, b) { QuotientUnique(a, b, q, TruncDiv(a, b)); }
      hide TruncDiv, TruncatedQuotient;
    }
  }

  /** An `Fpu` that adds, subtracts, multiplies and divides exactly, under some reading of bits as numbers. */
  ghost predicate Exact(fpu: Fpu, val: u64 -> real) {
    forall x: u64, y: u64 ::
      && val(fpu.add(x, y)) == val(x) + val(y) && val(fpu.sub(x, y)) == val(x) - val(y)
      && val(fpu.mul(x, y)) == val(x) * val(y) && (val(y) != 0.0 ==> val(fpu.div(x, y)) == val(x) / val(y))
  }

  /** Where the processor is exact, REAL arithmetic is: each operator computes its own operation, and only
      division by a zero errs. */
  lemma RealArithmetic(fpu: Fpu, val: u64 -> real, a: u64, b: u64)
    requires Exact(fpu, val)
    ensures exists c: u64 :: EvalBinary(fpu, Add, Real(a), Real(b)) == Ok(Real(c)) && val(c) == val(a) + val(b)
    ensures exists c: u64 :: EvalBinary(fpu, Sub, Real(a), Real(b)) == Ok(Real(c)) && val(c) == val(a) - val(b)
    ensures exists c: u64 :: EvalBinary(fpu, Mul, Real(a), Real(b)) == Ok(Real(c)) && val(c) == val(a) * val(b)
    ensures EvalBinary(fpu, Div, Real(a), Real(b)).Err? <==> b == 0 || b == TWO_63
    ensures b != 0 && b != TWO_63 && val(b) != 0.0 ==>
            exists c: u64 :: EvalBinary(fpu, Div, Real(a), Real(b)) == Ok(Real(c)) && val(c) == val(a) / val(b)
  {
    assert EvalBinary(fpu, Add, Real(a), Real(b)) == Ok(Real(fpu.add(a, b))) && val(fpu.add(a, b)) == val(a) + val(b);
    assert EvalBinary(fpu, Sub, Real(a), Real(b)) == Ok(Real(fpu.sub(a, b))) && val(fpu.sub(a, b)) == val(a) - val(b);
    assert EvalBinary(fpu, Mul, Real(a), Real(b)) == Ok(Real(fpu.mul(a, b))) && val(fpu.mul(a, b)) == val(a) * val(b);
    if b != 0 && b != TWO_63 && val(b) != 0.0 {
      assert EvalBinary(fpu, Div, Real(a), Real(b)) == Ok(Real(fpu.div(a, b))) && val(fpu.div(a, b)) == val(a) / val(b);
    }
  }

  /** A NULL operand makes arithmetic NULL; any other operand that is not a number is an error. */
  lemma ArithmeticOnOthers(fpu: Fpu, op: BinaryOp, a: Value, b: Value)
    requires IsArithmetic(op)
    ensures a.Null? || b.Null? ==> EvalBinary(fpu, op, a, b) == Ok(Null)
    ensures !a.Null? && !b.Null? && (a.Text? || a.Bool? || b.Text? || b.Bool?) ==> EvalBinary(fpu, op, a, b).Err?
  {
  }

  /** Different bits, opposite numbers. */
  predicate Mirrored(a: u64, b: u64) { a != b && NumericRank(a) + NumericRank(b) == 0 }

  /** Negation: twice is nothing, the exact opposite of an INT, the mirrored REAL, NULL of NULL. */
  lemma Negation(v: Value)
    ensures v.Int? ==> forall c: i64 :: EvalUnary(Neg, v) == Ok(Int(c)) <==> c + v.n == 0
    ensures v.Int? ==> (EvalUnary(Neg, v).Err? <==> !FitsI64(0 - v.n))
    ensures v.Real? ==> exists c: u64 :: EvalUnary(Neg, v) == Ok(Real(c)) && Mirrored(c, v.bits)
    ensures v.Real? && EvalUnary(Neg, v).Ok? ==> EvalUnary(Neg, EvalUnary(Neg, v).value) == Ok(v)
    ensures v.Null? <==> EvalUnary(Neg, v) == Ok(Null)
    ensures v.Text? || v.Bool? ==> EvalUnary(Neg, v).Err?
  {
    if v.Real? {
      var c := Negate(v.bits);
      assert EvalUnary(Neg, v) == Ok(Real(c)) && Mirrored(c, v.bits);
    }
  }

  // ---------------------------------------------------------------- logic

  predicate Truth(v: Value) { v.Bool? || v.Null? }

  /** AND is TRUE when both are and FALSE when one is; OR is TRUE when one is and FALSE when both are; what
      is neither is NULL; an operand that is no truth value is an error. */
  lemma TruthTables(fpu: Fpu, a: Value, b: Value)
    ensures EvalBinary(fpu, And, a, b).Ok? <==> Truth(a) && Truth(b)
    ensures EvalBinary(fpu, Or, a, b).Ok? <==> Truth(a) && Truth(b)
    ensures Truth(a) && Truth(b) ==> (EvalBinary(fpu, And, a, b) == Ok(Bool(true)) <==> a == Bool(true) && b == Bool(true))
    ensures Truth(a) && Truth(b) ==> (EvalBinary(fpu, And, a, b) == Ok(Bool(false)) <==> a == Bool(false) || b == Bool(false))
    ensures Truth(a) && Truth(b) ==> (EvalBinary(fpu, Or, a, b) == Ok(Bool(true)) <==> a == Bool(true) || b == Bool(true))
    ensures Truth(a) && Truth(b) ==> (EvalBinary(fpu, Or, a, b) == Ok(Bool(false)) <==> a == Bool(false) && b == Bool(false))
    ensures Truth(a) && Truth(b) ==> Truth(EvalBinary(fpu, And, a, b).value) && Truth(EvalBinary(fpu, Or, a, b).value)
  {
  }

  /** NOT is three-valued negation on truth values, and an error elsewhere. */
  lemma NotTable(v: Value)
    ensures Truth(v) ==> EvalUnary(Not, v) == Flipped(Ok(v))
    ensures !Truth(v) ==> EvalUnary(Not, v).Err?
  {
  }

  /** Both errors, or the same value. */
  predicate SameOutcome(a: Result<Value>, b: Result<Value>) { (a.Err? && b.Err?) || a == b }

  /** De Morgan and double negation, on any row. */
  lemma DeMorgan(fpu: Fpu, x: Expr, y: Expr, ctx: Option<Context>)
    requires Fits(ctx)
    ensures SameOutcome(Eval(fpu, Unary(Not, Binary(And, x, y)), ctx), Eval(fpu, Binary(Or, Unary(Not, x), Unary(Not, y)), ctx))
    ensures SameOutcome(Eval(fpu, Unary(Not, Binary(Or, x, y)), ctx), Eval(fpu, Binary(And, Unary(Not, x), Unary(Not, y)), ctx))
  {
    var a, b := Eval(fpu, x, ctx), Eval(fpu, y, ctx);
    UnaryStep(fpu, Not, x, ctx);
    UnaryStep(fpu, Not, y, ctx);
    UnaryStep(fpu, Not, Binary(And, x, y), ctx);
    UnaryStep(fpu, Not, Binary(Or, x, y), ctx);
    BinaryStep(fpu, And, x, y, ctx);
    BinaryStep(fpu, Or, x, y, ctx);
    BinaryStep(fpu, And, Unary(Not, x), Unary(Not, y), ctx);
    BinaryStep(fpu, Or, Unary(Not, x), Unary(Not, y), ctx);
    hide Eval;
    if a.Ok? && b.Ok? {
      TruthTables(fpu, a.value, b.value);
      NotTable(a.value);
      NotTable(b.value);
      if Truth(a.value) && Truth(b.value) {
        var p, q := Flipped(a).value, Flipped(b).value;
        TruthTables(fpu, p, q);
        NotTable(EvalBinary(fpu, And, a.value, b.value).value);
        NotTable(EvalBinary(fpu, Or, a.value, b.value).value);
      }
    }
    hide EvalBinary, EvalUnary;
  }

  lemma UnaryStep(fpu: Fpu, op: UnaryOp, x: Expr, ctx: Option<Context>)
    requires Fits(ctx)
    ensures Eval(fpu, Unary(op, x), ctx) == match Eval(fpu, x, ctx) case Ok(v) => EvalUnary(op, v) case Err(e) => Err(e)
  {
    hide EvalUnary;
  }

  lemma BinaryStep(fpu: Fpu, op: BinaryOp, x: Expr, y: Expr, ctx: Option<Context>)
    requires Fits(ctx)
    ensures Eval(fpu, Binary(op, x, y), ctx) == OfParts(fpu, op, Eval(fpu, x, ctx), Eval(fpu, y, ctx))
  {
    hide EvalBinary;
  }

  // ---------------------------------------------------------------- NULL tests and lists

  /** IS NULL is TRUE exactly where the operand is NULL and FALSE at every other value; IS NOT NULL is its
      negation. */
  lemma NullTest(fpu: Fpu, x: Expr, ctx: Option<Context>)
    requires Fits(ctx)
    ensures Eval(fpu, IsNull(x, false), ctx) == Ok(Bool(true)) <==> Eval(fpu, x, ctx) == Ok(Null)
    ensures Eval(fpu, IsNull(x, false), ctx) == Ok(Bool(false)) <==> Eval(fpu, x, ctx).Ok? && Eval(fpu, x, ctx) != Ok(Null)
    ensures Eval(fpu, IsNull(x, true), ctx) == Eval(fpu, Unary(Not, IsNull(x, false)), ctx)
  {
  }

  /** NOT IN is the negation of IN. */
  lemma NotInIsNegation(fpu: Fpu, x: Expr, values: seq<Expr>, hasNull: bool, ctx: Option<Context>)
    requires Fits(ctx)
    ensures Eval(fpu, InList(x, values, hasNull, true), ctx) == Eval(fpu, Unary(Not, InList(x, values, hasNull, false)), ctx)
  {
    hide EvalInList;
  }

  /** IN a list of literals, with nothing incomparable in it: `x IN (e, rest)` is `x = e OR x IN (rest)`, and
      IN the empty list is FALSE, or NULL when the list held a NULL. */
  lemma InListByParts(fpu: Fpu, x: Expr, e: Expr, values: seq<Expr>, hasNull: bool, ctx: Option<Context>)
    requires Fits(ctx) && Eval(fpu, e, None).Ok? && Eval(fpu, x, ctx).Ok? && !Eval(fpu, x, ctx).value.Null?
    ensures Eval(fpu, InList(x, [], hasNull, false), ctx) == Ok(if hasNull then Null else Bool(false))
    ensures var v := Eval(fpu, x, ctx).value;
            var here, rest := EvalBinary(fpu, Eq, v, Eval(fpu, e, None).value), Eval(fpu, InList(x, values, hasNull, false), ctx);
            Eval(fpu, InList(x, [e] + values, hasNull, false), ctx) ==
            if here.Err? || here == Ok(Bool(true)) then here else rest
  {
    hide CompareOp;
    assert ([e] + values)[1..] == values && ([e] + values)[0] == e;
  }

  // ---------------------------------------------------------------- coercion

  /** A value is stored in a column exactly when it has the column's type, NULL included, or is an INT going
      into a REAL column; only then does it change. */
  lemma Coercion(fpu: Fpu, v: Value, ty: Type)
    ensures Coerce(fpu, v, ty).Ok? <==> HasType(v, ty) || (v.Int? && ty == RealType)
    ensures HasType(v, ty) ==> Coerce(fpu, v, ty) == Ok(v)
    ensures v.Int? && ty == RealType ==> Coerce(fpu, v, ty) == Ok(Real(fpu.ofInt(v.n)))
    ensures Coerce(fpu, v, ty).Ok? ==> HasType(Coerce(fpu, v, ty).value, ty)
  {
  }
}
