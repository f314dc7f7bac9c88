/** Columnwise expression evaluation (`eval_batch` and its helpers in engine/executor.rs): it returns a
    column exactly when the column types fit the operators and the row evaluator errs on no row, and the
    column then holds the row evaluator's values. */
module Columnar {
  import opened Bytes
  import opened Values
  import opened Expressions
  import opened ColumnBatches

  /** A column of the same length whose every value is `f` of the input's. */
  ghost predicate PointwiseUnary(op: UnaryOp, c: Column, r: Column) {
    c.Valid() && r.Valid() && r.Len() == c.Len() && forall i: nat :: i < c.Len() ==> EvalUnary(op, c.ValueAt(i)) == Ok(r.ValueAt(i))
  }

  ghost predicate PointwiseBinary(fpu: Fpu, op: BinaryOp, a: Column, b: Column, r: Column) {
    a.Valid() && b.Valid() && r.Valid() && r.Len() == a.Len() == b.Len() &&
    forall i: nat :: i < a.Len() ==> EvalBinary(fpu, op, a.ValueAt(i), b.ValueAt(i)) == Ok(r.ValueAt(i))
  }

  ghost predicate UnaryNeverErrs(op: UnaryOp, c: Column)
    requires c.Valid()
  {
    forall i: nat :: i < c.Len() ==> EvalUnary(op, c.ValueAt(i)).Ok?
  }

  ghost predicate BinaryNeverErrs(fpu: Fpu, op: BinaryOp, a: Column, b: Column)
    requires a.Valid() && b.Valid() && a.Len() == b.Len()
  {
    forall i: nat :: i < a.Len() ==> EvalBinary(fpu, op, a.ValueAt(i), b.ValueAt(i)).Ok?
  }

  // ---------------------------------------------------------------- column types

  predicate IsNumeric(ty: Type) { ty == IntType || ty == RealType }

  /** The type of a unary result, where the columnar form has one. */
  function UnaryType(op: UnaryOp, ty: Type): Option<Type> {
    match op
    case Neg => if IsNumeric(ty) then Some(ty) else None
    case Not => if ty == BoolType then Some(BoolType) else None
  }

  function BinaryType(op: BinaryOp, a: Type, b: Type): Option<Type> {
    if IsArithmetic(op) then
      if a == IntType && b == IntType then Some(IntType)
      else if IsNumeric(a) && IsNumeric(b) then Some(RealType)
      else None
    else if IsComparison(op) then Some(BoolType)
    else if a == BoolType && b == BoolType then Some(BoolType)
    else None
  }

  /** A column type is missing exactly where the row operator errs on all values of the operand's type. */
  lemma UnaryTypeMeaning(op: UnaryOp, ty: Type)
    ensures UnaryType(op, ty).None? <==> forall v :: HasType(v, ty) && !v.Null? ==> EvalUnary(op, v).Err?
    ensures forall v :: HasType(v, ty) && UnaryType(op, ty).Some? && EvalUnary(op, v).Ok? ==>
              HasType(EvalUnary(op, v).value, UnaryType(op, ty).value)
  {
    assert ty == IntType ==> HasType(Int(0), ty) && EvalUnary(Neg, Int(0)).Ok?;
    assert ty == RealType ==> HasType(Real(0), ty) && EvalUnary(Neg, Real(0)).Ok?;
    assert ty == BoolType ==> HasType(Bool(true), ty) && EvalUnary(Not, Bool(true)).Ok?;
  }

  /** The same for arithmetic and logic; a comparison always has a type, and errs on what cannot be compared. */
  lemma BinaryTypeMeaning(fpu: Fpu, op: BinaryOp, a: Type, b: Type)
    requires !IsZero(fpu.ofInt(1))
    ensures IsComparison(op) ==> BinaryType(op, a, b) == Some(BoolType)
    ensures !IsComparison(op) ==>
            (BinaryType(op, a, b).None? <==>
             forall u, v :: HasType(u, a) && HasType(v, b) && !u.Null? && !v.Null? ==> EvalBinary(fpu, op, u, v).Err?)
    ensures forall u, v :: HasType(u, a) && HasType(v, b) && BinaryType(op, a, b).Some? && EvalBinary(fpu, op, u, v).Ok? ==>
              HasType(EvalBinary(fpu, op, u, v).value, BinaryType(op, a, b).value)
  {
    var u, v := Sample(a), Sample(b);
    assert HasType(u, a) && HasType(v, b) && !u.Null? && !v.Null?;
    if !IsComparison(op) && BinaryType(op, a, b).Some? { SamplesEvaluate(fpu, op, a, b); }
    forall x, y | HasType(x, a) && HasType(y, b) && BinaryType(op, a, b).Some? && EvalBinary(fpu, op, x, y).Ok?
      ensures HasType(EvalBinary(fpu, op, x, y).value, BinaryType(op, a, b).value)
    {
      ResultHasType(fpu, op, a, b, x, y);
    }
    forall x, y | HasType(x, a) && HasType(y, b) && BinaryType(op, a, b).None? && !x.Null? && !y.Null?
      ensures EvalBinary(fpu, op, x, y).Err?
    {
      UntypedErrs(fpu, op, a, b, x, y);
    }
    hide EvalBinary, BinaryType;
  }

  /** A value of the type on which no operator that takes the type errs. */
  function Sample(ty: Type): Value {
    match ty
    case IntType => Int(1)
    case RealType => Real(1)
    case TextType => Text([])
    case BoolType => Bool(true)
  }

  lemma SamplesEvaluate(fpu: Fpu, op: BinaryOp, a: Type, b: Type)
    requires !IsComparison(op) && BinaryType(op, a, b).Some? && !IsZero(fpu.ofInt(1))
    ensures EvalBinary(fpu, op, Sample(a), Sample(b)).Ok?
  {
  }

  lemma ResultHasType(fpu: Fpu, op: BinaryOp, a: Type, b: Type, x: Value, y: Value)
    requires HasType(x, a) && HasType(y, b) && BinaryType(op, a, b).Some? && EvalBinary(fpu, op, x, y).Ok?
    ensures HasType(EvalBinary(fpu, op, x, y).value, BinaryType(op, a, b).value)
  {
    hide TruncDiv, Compare;
  }

  lemma UntypedErrs(fpu: Fpu, op: BinaryOp, a: Type, b: Type, x: Value, y: Value)
    requires HasType(x, a) && HasType(y, b) && BinaryType(op, a, b).None? && !x.Null? && !y.Null?
    ensures EvalBinary(fpu, op, x, y).Err?
  {
  }

  /** The type of an expression over columns of the given types; a NULL literal is a BOOL column. */
  function TypeOf(e: Expr, scope: Scope, types: seq<Type>): Option<Type> {
    match e
    case NullLit => Some(BoolType)
    case Integer(_) => Some(IntType)
    case RealLit(_) => Some(RealType)
    case Str(_) => Some(TextType)
    case BoolLit(_) => Some(BoolType)
    case Column(ref) =>
      (match Resolve(scope, ref)
       case Ok(k) => if k < |types| then Some(types[k]) else None
       case Err(_) => None)
    case Unary(op, x) =>
      (match TypeOf(x, scope, types)
       case Some(t) => UnaryType(op, t)
       case None => None)
    case Binary(op, x, y) =>
      (match (TypeOf(x, scope, types), TypeOf(y, scope, types))
       case (Some(a), Some(b)) => BinaryType(op, a, b)
       case _ => None)
    case IsNull(x, _) => if TypeOf(x, scope, types).Some? then Some(BoolType) else None
    case InList(x, _, _, _) => if TypeOf(x, scope, types).Some? then Some(BoolType) else None
    case _ => None
  }

  function BatchTypes(b: ColumnBatch): (r: seq<Type>)
    ensures |r| == |b.columns| && forall k :: 0 <= k < |r| ==> r[k] == b.columns[k].Ty()
  {
    seq(|b.columns|, k requires 0 <= k < |b.columns| => b.columns[k].Ty())
  }

  // ---------------------------------------------------------------- literals

  function BroadcastBool(v: bool, n: nat): (c: Column)
    ensures c.Valid() && c.Len() == n && c.Ty() == BoolType && forall i: nat :: i < n ==> c.ValueAt(i) == Bool(v)
  {
    BoolColumn(seq(n, _ => v), AllValid(n))
  }

  function BroadcastInt(v: i64, n: nat): (c: Column)
    ensures c.Valid() && c.Len() == n && c.Ty() == IntType && forall i: nat :: i < n ==> c.ValueAt(i) == Int(v)
  {
    IntColumn(seq(n, _ => v), AllValid(n))
  }

  function BroadcastReal(v: u64, n: nat): (c: Column)
    ensures c.Valid() && c.Len() == n && c.Ty() == RealType && forall i: nat :: i < n ==> c.ValueAt(i) == Real(v)
  {
    RealColumn(seq(n, _ => v), AllValid(n))
  }

  function BroadcastText(v: ByteString, n: nat): (c: Column)
    ensures c.Valid() && c.Len() == n && c.Ty() == TextType && forall i: nat :: i < n ==> c.ValueAt(i) == Text(v)
  {
    TextColumn(seq(n, _ => v), AllValid(n))
  }

  /** An all-NULL column, represented as BOOL. */
  method BroadcastNull(n: nat) returns (c: Column)
    ensures c.Valid() && c.Len() == n && c.Ty() == BoolType && forall i: nat :: i < n ==> c.ValueAt(i) == Null
  {
    c := EmptyColumn(BoolType);
    for k := 0 to n
      invariant c.Valid() && c.Ty() == BoolType && c.Len() == k && forall i: nat :: i < k ==> c.ValueAt(i) == Null
    {
      c := Grow(c, Null);
    }
  }

  // ---------------------------------------------------------------- columns

  /** `gather_column`: the rows of `c` at the given physical positions. */
  method GatherColumn(c: Column, selection: seq<nat>) returns (r: Column)
    requires c.Valid() && forall k :: 0 <= k < |selection| ==> selection[k] < c.Len()
    ensures r.Valid() && r.Ty() == c.Ty() && r.Len() == |selection|
    ensures forall k: nat :: k < |selection| ==> r.ValueAt(k) == c.ValueAt(selection[k])
  {
    r := EmptyColumn(c.Ty());
    for n := 0 to |selection|
      invariant r.Valid() && r.Ty() == c.Ty() && r.Len() == n
      invariant forall k: nat :: k < n ==> r.ValueAt(k) == c.ValueAt(selection[k])
    {
      r := Grow(r, c.ValueAt(selection[n]));
    }
  }

  /** `materialise_column`: column `k` of the batch in logical row order. */
  method MaterialiseColumn(b: ColumnBatch, k: nat) returns (r: Column)
    requires b.Valid() && k < |b.columns|
    ensures r.Valid() && r.Ty() == b.columns[k].Ty() && r.Len() == b.nRows
    ensures forall i: nat :: i < b.nRows ==> r.ValueAt(i) == b.RowAt(i)[k]
  {
    if b.selection.None? {
      r := b.columns[k];
    } else {
      r := GatherColumn(b.columns[k], b.selection.value);
    }
  }

  // ---------------------------------------------------------------- operators

  method UnaryColumnar(op: UnaryOp, c: Column) returns (r: Result<Column>)
    requires c.Valid()
    ensures r.Ok? <==> UnaryType(op, c.Ty()).Some? && UnaryNeverErrs(op, c)
    ensures r.Ok? ==> PointwiseUnary(op, c, r.value) && UnaryType(op, c.Ty()) == Some(r.value.Ty())
  {
    if op == Neg && c.IntColumn? {
      r := NegateInts(c);
    } else if op == Neg && c.RealColumn? {
      var out := RealColumn(seq(|c.reals|, i requires 0 <= i < |c.reals| => Negate(c.reals[i])), c.nulls);
      r := Ok(out);
    } else if op == Not && c.BoolColumn? {
      var out := BoolColumn(seq(|c.bools|, i requires 0 <= i < |c.bools| => !c.bools[i]), c.nulls);
      r := Ok(out);
    } else {
      r := Err(Exec);
    }
  }

  method NegateInts(c: Column) returns (r: Result<Column>)
    requires c.Valid() && c.IntColumn?
    ensures r.Ok? <==> UnaryNeverErrs(Neg, c)
    ensures r.Ok? ==> PointwiseUnary(Neg, c, r.value) && r.value.IntColumn?
  {
    var out := EmptyColumn(IntType);
    for n := 0 to c.Len()
      invariant out.Valid() && out.Ty() == IntType && out.Len() == n
      invariant forall i: nat :: i < n ==> EvalUnary(Neg, c.ValueAt(i)) == Ok(out.ValueAt(i))
    {
      if c.nulls.IsValid(n) {
        var x: int := c.ints[n];
        var v := InI64(0 - x);
        assert EvalUnary(Neg, c.ValueAt(n)) == v;
        if v.Err? { return Err(Exec); }
        out := Grow(out, v.value);
      } else {
        out := Grow(out, Null);
      }
    }
    r := Ok(out);
  }

  method BinaryColumnar(fpu: Fpu, op: BinaryOp, a: Column, b: Column) returns (r: Result<Column>)
    requires a.Valid() && b.Valid() && a.Len() == b.Len()
    ensures r.Ok? <==> BinaryType(op, a.Ty(), b.Ty()).Some? && BinaryNeverErrs(fpu, op, a, b)
    ensures r.Ok? ==> PointwiseBinary(fpu, op, a, b, r.value) && BinaryType(op, a.Ty(), b.Ty()) == Some(r.value.Ty())
  {
    if IsArithmetic(op) {
      if a.IntColumn? && b.IntColumn? {
        r := ArithmeticInt(fpu, op, a, b);
      } else if (a.IntColumn? || a.RealColumn?) && (b.IntColumn? || b.RealColumn?) {
        r := ArithmeticReal(fpu, op, a, b);
      } else {
        r := Err(Exec);
      }
    } else if IsComparison(op) {
      r := CompareColumnar(fpu, op, a, b);
    } else {
      r := LogicColumnar(fpu, op, a, b);
    }
  }

  /** Two INT columns: checked integer arithmetic row by row. */
  method ArithmeticInt(fpu: Fpu, op: BinaryOp, a: Column, b: Column) returns (r: Result<Column>)
    requires a.Valid() && b.Valid() && a.Len() == b.Len() && IsArithmetic(op) && a.IntColumn? && b.IntColumn?
    ensures r.Ok? <==> BinaryNeverErrs(fpu, op, a, b)
    ensures r.Ok? ==> PointwiseBinary(fpu, op, a, b, r.value) && r.value.IntColumn?
  {
    hide EvalBinary, NullMask.Valid, NullMask.IsValid;
    var out := EmptyColumn(IntType);
    for n := 0 to a.Len()
      invariant out.Valid() && out.Ty() == IntType && out.Len() == n
      invariant forall i: nat :: i < n ==> EvalBinary(fpu, op, a.ValueAt(i), b.ValueAt(i)) == Ok(out.ValueAt(i))
    {
      IntRow(fpu, op, a, b, n);
      if a.nulls.IsValid(n) && b.nulls.IsValid(n) {
        var v := ArithmeticInts(op, a.ints[n], b.ints[n]);
        if v.Err? { return Err(Exec); }
        out := Grow(out, v.value);
      } else {
        out := Grow(out, Null);
      }
    }
    r := Ok(out);
  }

  lemma IntRow(fpu: Fpu, op: BinaryOp, a: Column, b: Column, n: nat)
    requires a.Valid() && b.Valid() && a.Len() == b.Len() && IsArithmetic(op) && n < a.Len() && a.IntColumn? && b.IntColumn?
    ensures EvalBinary(fpu, op, a.ValueAt(n), b.ValueAt(n)) ==
            if a.nulls.IsValid(n) && b.nulls.IsValid(n) then ArithmeticInts(op, a.ints[n], b.ints[n]) else Ok(Null)
    ensures ArithmeticInts(op, a.ints[n], b.ints[n]).Ok? ==> ArithmeticInts(op, a.ints[n], b.ints[n]).value.Int?
  {
  }

  function ColumnAsReal(fpu: Fpu, c: Column, i: nat): Option<u64>
    requires c.Valid() && i < c.Len()
  {
    if !c.nulls.IsValid(i) then None
    else if c.IntColumn? then Some(fpu.ofInt(c.ints[i]))
    else if c.RealColumn? then Some(c.reals[i])
    else None
  }

  /** Numeric columns of which at least one is REAL. */
  method ArithmeticReal(fpu: Fpu, op: BinaryOp, a: Column, b: Column) returns (r: Result<Column>)
    requires a.Valid() && b.Valid() && a.Len() == b.Len() && IsArithmetic(op)
    requires (a.IntColumn? || a.RealColumn?) && (b.IntColumn? || b.RealColumn?) && !(a.IntColumn? && b.IntColumn?)
    ensures r.Ok? <==> BinaryNeverErrs(fpu, op, a, b)
    ensures r.Ok? ==> PointwiseBinary(fpu, op, a, b, r.value) && r.value.RealColumn?
  {
    hide EvalBinary, ColumnAsReal, NullMask.Valid, NullMask.IsValid;
    var out := EmptyColumn(RealType);
    for n := 0 to a.Len()
      invariant out.Valid() && out.Ty() == RealType && out.Len() == n
      invariant forall i: nat :: i < n ==> EvalBinary(fpu, op, a.ValueAt(i), b.ValueAt(i)) == Ok(out.ValueAt(i))
    {
      var x, y := ColumnAsReal(fpu, a, n), ColumnAsReal(fpu, b, n);
      RealRow(fpu, op, a, b, n);
      if x.Some? && y.Some? {
        var v := ArithmeticReals(fpu, op, x.value, y.value);
        if v.Err? { return Err(Exec); }
        out := Grow(out, v.value);
      } else {
        out := Grow(out, Null);
      }
    }
    r := Ok(out);
  }

  lemma RealRow(fpu: Fpu, op: BinaryOp, a: Column, b: Column, n: nat)
    requires a.Valid() && b.Valid() && a.Len() == b.Len() && IsArithmetic(op) && n < a.Len()
    requires (a.IntColumn? || a.RealColumn?) && (b.IntColumn? || b.RealColumn?) && !(a.IntColumn? && b.IntColumn?)
    ensures var x, y := ColumnAsReal(fpu, a, n), ColumnAsReal(fpu, b, n);
            EvalBinary(fpu, op, a.ValueAt(n), b.ValueAt(n)) ==
            if x.Some? && y.Some? then ArithmeticReals(fpu, op, x.value, y.value) else Ok(Null)
  {
    hide ArithmeticReals;
  }

  lemma CompareRow(fpu: Fpu, op: BinaryOp, a: Value, b: Value)
    requires IsComparison(op)
    ensures EvalBinary(fpu, op, a, b) == CompareOp(fpu, op, a, b)
  {
  }

  method CompareColumnar(fpu: Fpu, op: BinaryOp, a: Column, b: Column) returns (r: Result<Column>)
    requires a.Valid() && b.Valid() && a.Len() == b.Len() && IsComparison(op)
    ensures r.Ok? <==> BinaryNeverErrs(fpu, op, a, b)
    ensures r.Ok? ==> PointwiseBinary(fpu, op, a, b, r.value) && r.value.BoolColumn?
  {
    hide CompareOp, EvalBinary, IsComparison, NullMask.Valid, NullMask.IsValid;
    var out := EmptyColumn(BoolType);
    for n := 0 to a.Len()
      invariant out.Valid() && out.Ty() == BoolType && out.Len() == n
      invariant forall i: nat :: i < n ==> EvalBinary(fpu, op, a.ValueAt(i), b.ValueAt(i)) == Ok(out.ValueAt(i))
    {
      var v := CompareOp(fpu, op, a.ValueAt(n), b.ValueAt(n));
      CompareRow(fpu, op, a.ValueAt(n), b.ValueAt(n));
      if v.Err? { return Err(v.error); }
      out := Grow(out, v.value);
    }
    r := Ok(out);
  }

  /** One row of `logic_columnar`: a definite FALSE or TRUE can dominate a NULL. */
  function LogicBits(op: BinaryOp, lv: bool, lValid: bool, rv: bool, rValid: bool): (bool, bool) {
    if op == And then
      if lValid && rValid then (lv && rv, true)
      else if lValid && !rValid && !lv then (false, true)
      else if !lValid && rValid && !rv then (false, true)
      else (false, false)
    else
      if lValid && rValid then (lv || rv, true)
      else if lValid && !rValid && lv then (true, true)
      else if !lValid && rValid && rv then (true, true)
      else (false, false)
  }

  lemma LogicRow(fpu: Fpu, op: BinaryOp, a: Column, b: Column, n: nat)
    requires a.Valid() && b.Valid() && a.Len() == b.Len() && !IsArithmetic(op) && !IsComparison(op) && n < a.Len()
    requires a.BoolColumn? && b.BoolColumn?
    ensures var bits := LogicBits(op, a.bools[n], a.nulls.IsValid(n), b.bools[n], b.nulls.IsValid(n));
            EvalBinary(fpu, op, a.ValueAt(n), b.ValueAt(n)) == Ok(if bits.1 then Bool(bits.0) else Null)
  {
    var av, bv := a.nulls.IsValid(n), b.nulls.IsValid(n);
    assert a.ValueAt(n) == if av then Bool(a.bools[n]) else Null;
    assert b.ValueAt(n) == if bv then Bool(b.bools[n]) else Null;
  }

  method LogicColumnar(fpu: Fpu, op: BinaryOp, a: Column, b: Column) returns (r: Result<Column>)
    requires a.Valid() && b.Valid() && a.Len() == b.Len() && !IsArithmetic(op) && !IsComparison(op)
    ensures r.Ok? <==> a.BoolColumn? && b.BoolColumn?
    ensures r.Ok? ==> PointwiseBinary(fpu, op, a, b, r.value) && r.value.BoolColumn?
  {
    if !a.BoolColumn? || !b.BoolColumn? { return Err(Exec); }
    hide EvalBinary, LogicBits, NullMask.Valid, NullMask.IsValid;
    var out := EmptyColumn(BoolType);
    for n := 0 to a.Len()
      invariant out.Valid() && out.Ty() == BoolType && out.Len() == n
      invariant forall i: nat :: i < n ==> EvalBinary(fpu, op, a.ValueAt(i), b.ValueAt(i)) == Ok(out.ValueAt(i))
    {
      var bits := LogicBits(op, a.bools[n], a.nulls.IsValid(n), b.bools[n], b.nulls.IsValid(n));
      LogicRow(fpu, op, a, b, n);
      out := Grow(out, if bits.1 then Bool(bits.0) else Null);
    }
    r := Ok(out);
  }

  method IsNullColumnar(c: Column, negated: bool) returns (r: Column)
    requires c.Valid()
    ensures r.Valid() && r.Ty() == BoolType && r.Len() == c.Len()
    ensures forall i: nat :: i < c.Len() ==> r.ValueAt(i) == Bool(c.ValueAt(i).Null? != negated)
  {
    r := EmptyColumn(BoolType);
    for n := 0 to c.Len()
      invariant r.Valid() && r.Ty() == BoolType && r.Len() == n
      invariant forall i: nat :: i < n ==> r.ValueAt(i) == Bool(c.ValueAt(i).Null? != negated)
    {
      var isNull := !c.nulls.IsValid(n);
      r := Grow(r, Bool(isNull != negated));
    }
  }

  function InListValue(fpu: Fpu, probe: Value, values: seq<Expr>, hasNull: bool, negated: bool): (r: Result<Value>)
    ensures r.Ok? ==> r.value.Bool? || r.value.Null?
  {
    match EvalInList(fpu, probe, values, hasNull)
    case Err(e) => Err(e)
    case Ok(v) => Ok(if negated then NegateBool(v) else v)
  }

  ghost predicate InListNeverErrs(fpu: Fpu, probes: Column, values: seq<Expr>, hasNull: bool, negated: bool)
    requires probes.Valid()
  {
    forall i: nat :: i < probes.Len() ==> InListValue(fpu, probes.ValueAt(i), values, hasNull, negated).Ok?
  }

  method InListColumnar(fpu: Fpu, probes: Column, values: seq<Expr>, hasNull: bool, negated: bool) returns (r: Result<Column>)
    requires probes.Valid()
    ensures r.Ok? <==> InListNeverErrs(fpu, probes, values, hasNull, negated)
    ensures r.Ok? ==> r.value.Valid() && r.value.Ty() == BoolType && r.value.Len() == probes.Len()
    ensures r.Ok? ==> forall i: nat :: i < probes.Len() ==> InListValue(fpu, probes.ValueAt(i), values, hasNull, negated) == Ok(r.value.ValueAt(i))
  {
    hide InListValue;
    var out := EmptyColumn(BoolType);
    for n := 0 to probes.Len()
      invariant out.Valid() && out.Ty() == BoolType && out.Len() == n
      invariant forall i: nat :: i < n ==> InListValue(fpu, probes.ValueAt(i), values, hasNull, negated) == Ok(out.ValueAt(i))
    {
      var v := InListValue(fpu, probes.ValueAt(n), values, hasNull, negated);
      if v.Err? { return Err(v.error); }
      out := Grow(out, v.value);
    }
    r := Ok(out);
  }

  // ---------------------------------------------------------------- evaluation

  /** The column holds the row evaluator's value for every logical row. */
  ghost predicate Agrees(fpu: Fpu, e: Expr, b: ColumnBatch, scope: Scope, c: Column) {
    b.Valid() && |scope| == |b.columns| && c.Valid() && c.Len() == b.nRows &&
    forall i: nat :: i < b.nRows ==> RowValue(fpu, e, b, scope, i) == Ok(c.ValueAt(i))
  }

  ghost function RowValue(fpu: Fpu, e: Expr, b: ColumnBatch, scope: Scope, i: nat): Result<Value>
    requires b.Valid() && |scope| == |b.columns| && i < b.nRows
  {
    Eval(fpu, e, Some(Context(scope, b.RowAt(i))))
  }

  ghost predicate RowsNeverErr(fpu: Fpu, e: Expr, b: ColumnBatch, scope: Scope)
    requires b.Valid() && |scope| == |b.columns|
  {
    forall i: nat :: i < b.nRows ==> RowValue(fpu, e, b, scope, i).Ok?
  }

  /** The column types fit the expression, and the row evaluator errs on no logical row. */
  ghost predicate Evaluates(fpu: Fpu, e: Expr, b: ColumnBatch, scope: Scope)
    requires b.Valid() && |scope| == |b.columns|
  {
    TypeOf(e, scope, BatchTypes(b)).Some? && RowsNeverErr(fpu, e, b, scope)
  }

  lemma AgreesNeverErrs(fpu: Fpu, e: Expr, b: ColumnBatch, scope: Scope, c: Column)
    requires Agrees(fpu, e, b, scope, c)
    ensures RowsNeverErr(fpu, e, b, scope)
  {
    forall i: nat | i < b.nRows ensures RowValue(fpu, e, b, scope, i).Ok? {
      assert RowValue(fpu, e, b, scope, i) == Ok(c.ValueAt(i));
    }
  }

  lemma UnaryErrs(fpu: Fpu, op: UnaryOp, e: Expr, b: ColumnBatch, scope: Scope)
    requires b.Valid() && |scope| == |b.columns|
    ensures RowsNeverErr(fpu, Unary(op, e), b, scope) ==> RowsNeverErr(fpu, e, b, scope)
    ensures forall c :: Agrees(fpu, e, b, scope, c) ==> (RowsNeverErr(fpu, Unary(op, e), b, scope) <==> UnaryNeverErrs(op, c))
  {
    hide EvalUnary;
    if RowsNeverErr(fpu, Unary(op, e), b, scope) {
      forall i: nat | i < b.nRows ensures RowValue(fpu, e, b, scope, i).Ok? { assert RowValue(fpu, Unary(op, e), b, scope, i).Ok?; }
    }
    forall c | Agrees(fpu, e, b, scope, c) ensures RowsNeverErr(fpu, Unary(op, e), b, scope) <==> UnaryNeverErrs(op, c) {
      forall i: nat | i < b.nRows ensures RowValue(fpu, Unary(op, e), b, scope, i) == EvalUnary(op, c.ValueAt(i)) {
        assert RowValue(fpu, e, b, scope, i) == Ok(c.ValueAt(i));
      }
    }
  }

  lemma BinaryErrs(fpu: Fpu, op: BinaryOp, x: Expr, y: Expr, b: ColumnBatch, scope: Scope)
    requires b.Valid() && |scope| == |b.columns|
    ensures RowsNeverErr(fpu, Binary(op, x, y), b, scope) ==> RowsNeverErr(fpu, x, b, scope) && RowsNeverErr(fpu, y, b, scope)
  {
    hide EvalBinary;
    if RowsNeverErr(fpu, Binary(op, x, y), b, scope) {
      forall i: nat | i < b.nRows ensures RowValue(fpu, x, b, scope, i).Ok? && RowValue(fpu, y, b, scope, i).Ok? {
        assert RowValue(fpu, Binary(op, x, y), b, scope, i).Ok?;
      }
    }
  }

  lemma BinaryErrsOnRows(fpu: Fpu, op: BinaryOp, x: Expr, y: Expr, b: ColumnBatch, scope: Scope, cx: Column, cy: Column)
    requires Agrees(fpu, x, b, scope, cx) && Agrees(fpu, y, b, scope, cy)
    ensures RowsNeverErr(fpu, Binary(op, x, y), b, scope) <==> BinaryNeverErrs(fpu, op, cx, cy)
  {
    hide EvalBinary;
    forall i: nat | i < b.nRows
      ensures RowValue(fpu, Binary(op, x, y), b, scope, i) == EvalBinary(fpu, op, cx.ValueAt(i), cy.ValueAt(i))
    {
      assert RowValue(fpu, x, b, scope, i) == Ok(cx.ValueAt(i)) && RowValue(fpu, y, b, scope, i) == Ok(cy.ValueAt(i));
    }
  }

  lemma IsNullErrs(fpu: Fpu, e: Expr, negated: bool, b: ColumnBatch, scope: Scope)
    requires b.Valid() && |scope| == |b.columns|
    ensures RowsNeverErr(fpu, IsNull(e, negated), b, scope) <==> RowsNeverErr(fpu, e, b, scope)
  {
    forall i: nat | i < b.nRows ensures RowValue(fpu, IsNull(e, negated), b, scope, i).Ok? <==> RowValue(fpu, e, b, scope, i).Ok? {}
  }

  lemma InListErrs(fpu: Fpu, e: Expr, values: seq<Expr>, hasNull: bool, negated: bool, b: ColumnBatch, scope: Scope)
    requires b.Valid() && |scope| == |b.columns|
    ensures RowsNeverErr(fpu, InList(e, values, hasNull, negated), b, scope) ==> RowsNeverErr(fpu, e, b, scope)
  {
    hide EvalInList;
    var list := InList(e, values, hasNull, negated);
    if RowsNeverErr(fpu, list, b, scope) {
      forall i: nat | i < b.nRows ensures RowValue(fpu, e, b, scope, i).Ok? { assert RowValue(fpu, list, b, scope, i).Ok?; }
    }
  }

  lemma InListErrsOnRows(fpu: Fpu, e: Expr, values: seq<Expr>, hasNull: bool, negated: bool, b: ColumnBatch, scope: Scope, c: Column)
    requires Agrees(fpu, e, b, scope, c)
    ensures RowsNeverErr(fpu, InList(e, values, hasNull, negated), b, scope) <==> InListNeverErrs(fpu, c, values, hasNull, negated)
  {
    hide EvalInList;
    var list := InList(e, values, hasNull, negated);
    forall i: nat | i < b.nRows ensures RowValue(fpu, list, b, scope, i) == InListValue(fpu, c.ValueAt(i), values, hasNull, negated) {
      assert RowValue(fpu, e, b, scope, i) == Ok(c.ValueAt(i));
    }
  }

  lemma UnaryAgrees(fpu: Fpu, op: UnaryOp, e: Expr, b: ColumnBatch, scope: Scope, c: Column, r: Column)
    requires Agrees(fpu, e, b, scope, c) && PointwiseUnary(op, c, r)
    ensures Agrees(fpu, Unary(op, e), b, scope, r)
  {
    hide EvalUnary;
    forall i: nat | i < b.nRows ensures RowValue(fpu, Unary(op, e), b, scope, i) == Ok(r.ValueAt(i)) {
      assert RowValue(fpu, e, b, scope, i) == Ok(c.ValueAt(i));
    }
  }

  lemma BinaryRow(fpu: Fpu, op: BinaryOp, x: Expr, y: Expr, b: ColumnBatch, scope: Scope, i: nat, u: Value, v: Value)
    requires b.Valid() && |scope| == |b.columns| && i < b.nRows
    requires RowValue(fpu, x, b, scope, i) == Ok(u) && RowValue(fpu, y, b, scope, i) == Ok(v)
    ensures RowValue(fpu, Binary(op, x, y), b, scope, i) == EvalBinary(fpu, op, u, v)
  {
    hide EvalBinary;
  }

  lemma BinaryAgrees(fpu: Fpu, op: BinaryOp, x: Expr, y: Expr, b: ColumnBatch, scope: Scope, cx: Column, cy: Column, r: Column)
    requires Agrees(fpu, x, b, scope, cx) && Agrees(fpu, y, b, scope, cy) && PointwiseBinary(fpu, op, cx, cy, r)
    ensures Agrees(fpu, Binary(op, x, y), b, scope, r)
  {
    hide EvalBinary, RowValue, Column.ValueAt;
    forall i: nat | i < b.nRows ensures RowValue(fpu, Binary(op, x, y), b, scope, i) == Ok(r.ValueAt(i)) {
      BinaryRow(fpu, op, x, y, b, scope, i, cx.ValueAt(i), cy.ValueAt(i));
    }
  }

  lemma IsNullAgrees(fpu: Fpu, e: Expr, negated: bool, b: ColumnBatch, scope: Scope, c: Column, r: Column)
    requires Agrees(fpu, e, b, scope, c) && r.Valid() && r.Len() == c.Len()
    requires forall i: nat :: i < c.Len() ==> r.ValueAt(i) == Bool(c.ValueAt(i).Null? != negated)
    ensures Agrees(fpu, IsNull(e, negated), b, scope, r)
  {
    forall i: nat | i < b.nRows ensures RowValue(fpu, IsNull(e, negated), b, scope, i) == Ok(r.ValueAt(i)) {
      assert RowValue(fpu, e, b, scope, i) == Ok(c.ValueAt(i));
    }
  }

  lemma InListAgrees(fpu: Fpu, e: Expr, values: seq<Expr>, hasNull: bool, negated: bool, b: ColumnBatch, scope: Scope, c: Column, r: Column)
    requires Agrees(fpu, e, b, scope, c) && r.Valid() && r.Len() == c.Len()
    requires forall i: nat :: i < c.Len() ==> InListValue(fpu, c.ValueAt(i), values, hasNull, negated) == Ok(r.ValueAt(i))
    ensures Agrees(fpu, InList(e, values, hasNull, negated), b, scope, r)
  {
    hide EvalInList;
    forall i: nat | i < b.nRows ensures RowValue(fpu, InList(e, values, hasNull, negated), b, scope, i) == Ok(r.ValueAt(i)) {
      assert RowValue(fpu, e, b, scope, i) == Ok(c.ValueAt(i));
    }
  }

  lemma ColumnAgrees(fpu: Fpu, ref: ColumnRef, b: ColumnBatch, scope: Scope, k: nat, r: Column)
    requires b.Valid() && |scope| == |b.columns| && Resolve(scope, ref) == Ok(k) && k < |scope|
    requires r.Valid() && r.Len() == b.nRows && forall i: nat :: i < b.nRows ==> r.ValueAt(i) == b.RowAt(i)[k]
    ensures Agrees(fpu, Column(ref), b, scope, r)
  {
    hide Resolve;
    forall i: nat | i < b.nRows ensures RowValue(fpu, Expr.Column(ref), b, scope, i) == Ok(r.ValueAt(i)) {}
  }

  lemma LiteralAgrees(fpu: Fpu, e: Expr, v: Value, b: ColumnBatch, scope: Scope, r: Column)
    requires b.Valid() && |scope| == |b.columns| && (e.NullLit? || e.Integer? || e.RealLit? || e.Str? || e.BoolLit?)
    requires Eval(fpu, e, None) == Ok(v)
    requires r.Valid() && r.Len() == b.nRows && forall i: nat :: i < b.nRows ==> r.ValueAt(i) == v
    ensures Agrees(fpu, e, b, scope, r)
  {
  }

  /** What evaluating `e` columnwise must give: a column exactly when `e` evaluates, of its type and in
      agreement with `eval` on every row. */
  ghost predicate IsResult(fpu: Fpu, e: Expr, b: ColumnBatch, scope: Scope, r: Result<Column>)
    requires b.Valid() && |scope| == |b.columns|
  {
    && (r.Ok? <==> Evaluates(fpu, e, b, scope))
    && (r.Ok? ==> Agrees(fpu, e, b, scope, r.value) && TypeOf(e, scope, BatchTypes(b)) == Some(r.value.Ty()))
  }

  /** `eval_batch`, for every expression, batch and selection vector. */
  method EvalBatch(fpu: Fpu, e: Expr, b: ColumnBatch, scope: Scope) returns (r: Result<Column>)
    requires b.Valid() && |scope| == |b.columns|
    ensures IsResult(fpu, e, b, scope, r)
    decreases e
  {
    hide IsResult;
    match e
    case Column(ref) => r := EvalColumn(fpu, ref, b, scope);
    case Unary(op, x) =>
      var c := EvalBatch(fpu, x, b, scope);
      r := ApplyUnary(fpu, op, x, b, scope, c);
    case Binary(op, x, y) =>
      var cx := EvalBatch(fpu, x, b, scope);
      if cx.Err? {
        LeftErrs(fpu, op, x, y, b, scope, cx);
        return cx;
      }
      var cy := EvalBatch(fpu, y, b, scope);
      r := ApplyBinary(fpu, op, x, y, b, scope, cx, cy);
    case IsNull(x, negated) =>
      var c := EvalBatch(fpu, x, b, scope);
      r := ApplyIsNull(fpu, x, negated, b, scope, c);
    case InList(x, values, hasNull, negated) =>
      var c := EvalBatch(fpu, x, b, scope);
      r := ApplyInList(fpu, x, values, hasNull, negated, b, scope, c);
    case Aggregate =>
      r := Err(Exec);
      NoType(fpu, e, b, scope, r);
    case InSubquery(_, _, _) =>
      r := Err(Corruption);
      NoType(fpu, e, b, scope, r);
    case Exists(_) =>
      r := Err(Corruption);
      NoType(fpu, e, b, scope, r);
    case OpaqueSubquery =>
      r := Err(Corruption);
      NoType(fpu, e, b, scope, r);
    case _ => r := EvalLiteral(fpu, e, b, scope);
  }

  lemma NoType(fpu: Fpu, e: Expr, b: ColumnBatch, scope: Scope, r: Result<Column>)
    requires b.Valid() && |scope| == |b.columns| && r.Err? && TypeOf(e, scope, BatchTypes(b)).None?
    ensures IsResult(fpu, e, b, scope, r)
  {
  }

  predicate IsLiteral(e: Expr) { e.NullLit? || e.Integer? || e.RealLit? || e.Str? || e.BoolLit? }

  /** The literals, broadcast to a full column. */
  method EvalLiteral(fpu: Fpu, e: Expr, b: ColumnBatch, scope: Scope) returns (r: Result<Column>)
    requires b.Valid() && |scope| == |b.columns| && IsLiteral(e)
    ensures IsResult(fpu, e, b, scope, r)
  {
    hide Agrees, RowsNeverErr, ColumnBatch.Valid, Column.Valid, Column.ValueAt, Column.Len;
    var n := b.nRows;
    var c;
    match e {
      case NullLit =>
        c := BroadcastNull(n);
        LiteralAgrees(fpu, e, Null, b, scope, c);
      case Integer(v) =>
        c := BroadcastInt(v, n);
        LiteralAgrees(fpu, e, Int(v), b, scope, c);
      case RealLit(v) =>
        c := BroadcastReal(v, n);
        LiteralAgrees(fpu, e, Real(v), b, scope, c);
      case Str(v) =>
        c := BroadcastText(v, n);
        LiteralAgrees(fpu, e, Text(v), b, scope, c);
      case BoolLit(v) =>
        c := BroadcastBool(v, n);
        LiteralAgrees(fpu, e, Bool(v), b, scope, c);
    }
    AgreesNeverErrs(fpu, e, b, scope, c);
    r := Ok(c);
  }

  method ApplyUnary(fpu: Fpu, op: UnaryOp, x: Expr, b: ColumnBatch, scope: Scope, c: Result<Column>) returns (r: Result<Column>)
    requires b.Valid() && |scope| == |b.columns| && IsResult(fpu, x, b, scope, c)
    ensures IsResult(fpu, Unary(op, x), b, scope, r)
  {
    hide Agrees, PointwiseUnary, RowsNeverErr, UnaryNeverErrs, ColumnBatch.Valid, UnaryType;
    UnaryErrs(fpu, op, x, b, scope);
    if c.Err? { return c; }
    AgreesIsValid(fpu, x, b, scope, c.value);
    r := UnaryColumnar(op, c.value);
    if r.Ok? {
      UnaryAgrees(fpu, op, x, b, scope, c.value, r.value);
      AgreesNeverErrs(fpu, Unary(op, x), b, scope, r.value);
    }
  }

  lemma LeftErrs(fpu: Fpu, op: BinaryOp, x: Expr, y: Expr, b: ColumnBatch, scope: Scope, cx: Result<Column>)
    requires b.Valid() && |scope| == |b.columns| && IsResult(fpu, x, b, scope, cx) && cx.Err?
    ensures IsResult(fpu, Binary(op, x, y), b, scope, cx)
  {
    hide Agrees, RowsNeverErr, ColumnBatch.Valid, BinaryType;
    BinaryErrs(fpu, op, x, y, b, scope);
  }

  method ApplyBinary(fpu: Fpu, op: BinaryOp, x: Expr, y: Expr, b: ColumnBatch, scope: Scope, cx: Result<Column>, cy: Result<Column>)
    returns (r: Result<Column>)
    requires b.Valid() && |scope| == |b.columns| && cx.Ok?
    requires IsResult(fpu, x, b, scope, cx) && IsResult(fpu, y, b, scope, cy)
    ensures IsResult(fpu, Binary(op, x, y), b, scope, r)
  {
    hide Agrees, PointwiseBinary, RowsNeverErr, BinaryNeverErrs, ColumnBatch.Valid, BinaryType;
    BinaryErrs(fpu, op, x, y, b, scope);
    if cy.Err? { return cy; }
    AgreesIsValid(fpu, x, b, scope, cx.value);
    AgreesIsValid(fpu, y, b, scope, cy.value);
    BinaryErrsOnRows(fpu, op, x, y, b, scope, cx.value, cy.value);
    r := BinaryColumnar(fpu, op, cx.value, cy.value);
    if r.Ok? { BinaryAgrees(fpu, op, x, y, b, scope, cx.value, cy.value, r.value); }
  }

  method ApplyIsNull(fpu: Fpu, x: Expr, negated: bool, b: ColumnBatch, scope: Scope, c: Result<Column>) returns (r: Result<Column>)
    requires b.Valid() && |scope| == |b.columns| && IsResult(fpu, x, b, scope, c)
    ensures IsResult(fpu, IsNull(x, negated), b, scope, r)
  {
    hide Agrees, RowsNeverErr, ColumnBatch.Valid;
    IsNullErrs(fpu, x, negated, b, scope);
    if c.Err? { return c; }
    AgreesIsValid(fpu, x, b, scope, c.value);
    var out := IsNullColumnar(c.value, negated);
    IsNullAgrees(fpu, x, negated, b, scope, c.value, out);
    r := Ok(out);
  }

  method ApplyInList(fpu: Fpu, x: Expr, values: seq<Expr>, hasNull: bool, negated: bool, b: ColumnBatch, scope: Scope, c: Result<Column>)
    returns (r: Result<Column>)
    requires b.Valid() && |scope| == |b.columns| && IsResult(fpu, x, b, scope, c)
    ensures IsResult(fpu, InList(x, values, hasNull, negated), b, scope, r)
  {
    hide Agrees, RowsNeverErr, InListNeverErrs, ColumnBatch.Valid;
    InListErrs(fpu, x, values, hasNull, negated, b, scope);
    if c.Err? { return c; }
    AgreesIsValid(fpu, x, b, scope, c.value);
    InListErrsOnRows(fpu, x, values, hasNull, negated, b, scope, c.value);
    r := InListColumnar(fpu, c.value, values, hasNull, negated);
    if r.Ok? { InListAgrees(fpu, x, values, hasNull, negated, b, scope, c.value, r.value); }
  }

  lemma AgreesIsValid(fpu: Fpu, e: Expr, b: ColumnBatch, scope: Scope, c: Column)
    requires Agrees(fpu, e, b, scope, c)
    ensures c.Valid() && c.Len() == b.nRows
  {
  }

  method EvalColumn(fpu: Fpu, ref: ColumnRef, b: ColumnBatch, scope: Scope) returns (r: Result<Column>)
    requires b.Valid() && |scope| == |b.columns|
    ensures IsResult(fpu, Expr.Column(ref), b, scope, r)
  {
    hide Agrees, RowsNeverErr;
    var k := Resolve(scope, ref);
    if k.Err? { return Err(k.error); }
    ResolveIsOnlyMatch(scope, ref);
    assert OnlyMatch(scope, ref, k.value);
    var c := MaterialiseColumn(b, k.value);
    ColumnAgrees(fpu, ref, b, scope, k.value, c);
    AgreesNeverErrs(fpu, Expr.Column(ref), b, scope, c);
    r := Ok(c);
  }

  /** Where the two evaluators part: arithmetic on a bare NULL has a value row by row and no column type, and
      so has a negated NULL. */
  lemma NullOperandDiverges(fpu: Fpu, scope: Scope, types: seq<Type>, ctx: Option<Context>, op: BinaryOp, n: i64)
    requires Fits(ctx) && IsArithmetic(op)
    ensures Eval(fpu, Binary(op, NullLit, Integer(n)), ctx) == Ok(Null) && TypeOf(Binary(op, NullLit, Integer(n)), scope, types) == None
    ensures Eval(fpu, Unary(Neg, NullLit), ctx) == Ok(Null) && TypeOf(Unary(Neg, NullLit), scope, types) == None
  {
    hide Resolve, ArithmeticInts, ArithmeticReals;
  }

  /** And a WHERE value that is not a boolean keeps no row in one and is an error in the other. */
  lemma NonBooleanFilterDiverges(fpu: Fpu, scope: Scope, types: seq<Type>, row: Row, n: i64)
    requires |row| == |scope|
    ensures PassesFilter(fpu, Some(Integer(n)), scope, row) == Ok(false) && TypeOf(Integer(n), scope, types) == Some(IntType)
  {
  }
}
