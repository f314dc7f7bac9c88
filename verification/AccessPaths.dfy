/** Index access-path selection (engine/planner.rs) and the byte ranges it produces. */
module AccessPaths {
  import opened Bytes
  import opened Values
  import opened Expressions
  import opened IndexKeys
  import opened Sequences

  datatype SchemaColumn = SchemaColumn(name: string, ty: Type, notNull: bool)

  type Schema = seq<SchemaColumn>

  datatype Index = Index(root: nat, columns: seq<nat>, isBuilding: bool)

  /** The scope of a single-table query. */
  function SingleScope(qualifier: string, schema: Schema): (r: Scope)
    ensures |r| == |schema|
    ensures forall i :: 0 <= i < |r| ==> r[i] == ScopedColumn(qualifier, schema[i].name, schema[i].ty)
  {
    seq(|schema|, i requires 0 <= i < |schema| => ScopedColumn(qualifier, schema[i].name, schema[i].ty))
  }

  function Types(schema: Schema): (r: seq<Type>)
    ensures |r| == |schema|
    ensures forall i :: 0 <= i < |r| ==> r[i] == schema[i].ty
  {
    seq(|schema|, i requires 0 <= i < |schema| => schema[i].ty)
  }

  /** The first column with the given name. */
  function ColumnIndex(schema: Schema, name: string): (r: Option<nat>)
    ensures r.Some? ==> r.value < |schema| && schema[r.value].name == name
  {
    if schema == [] then None
    else if schema[0].name == name then Some(0)
    else
      match ColumnIndex(schema[1..], name)
      case Some(i) => Some(i + 1)
      case None => None
  }

  // ---------------------------------------------------------------- classification

  datatype PredKind =
    | EqualTo(v: Value)
    | Above(v: Value, inclusive: bool)
    | Below(v: Value, inclusive: bool)

  datatype ColumnPredicate = ColumnPredicate(column: nat, kind: PredKind)

  function LiteralValue(e: Expr): Option<Value> {
    match e
    case Integer(n) => Some(Int(n))
    case RealLit(bits) => Some(Real(bits))
    case Str(s) => Some(Text(s))
    case BoolLit(b) => Some(Bool(b))
    case _ => None
  }

  function FlipOp(op: BinaryOp): BinaryOp {
    match op
    case Lt => Gt
    case LtEq => GtEq
    case Gt => Lt
    case GtEq => LtEq
    case _ => op
  }

  function ClassifyOriented(fpu: Fpu, schema: Schema, ref: ColumnRef, literal: Option<Value>, op: BinaryOp)
    : Option<ColumnPredicate>
  {
    match (literal, ColumnIndex(schema, ref.name))
    case (Some(lit), Some(column)) =>
      (match Coerce(fpu, lit, schema[column].ty)
       case Err(_) => None
       case Ok(v) =>
         if v.Null? then None
         else
           match op
           case Eq => Some(ColumnPredicate(column, EqualTo(v)))
           case Gt => Some(ColumnPredicate(column, Above(v, false)))
           case GtEq => Some(ColumnPredicate(column, Above(v, true)))
           case Lt => Some(ColumnPredicate(column, Below(v, false)))
           case LtEq => Some(ColumnPredicate(column, Below(v, true)))
           case _ => None)
    case _ => None
  }

  /** Recognise a conjunct that compares one column with one literal, on either side. */
  function Classify(fpu: Fpu, schema: Schema, e: Expr): Option<ColumnPredicate> {
    if !e.Binary? then None
    else if e.left.Column? then ClassifyOriented(fpu, schema, e.left.ref, LiteralValue(e.right), e.op)
    else if e.right.Column? then ClassifyOriented(fpu, schema, e.right.ref, LiteralValue(e.left), FlipOp(e.op))
    else None
  }

  function ClassifyAll(fpu: Fpu, schema: Schema, es: seq<Expr>): seq<ColumnPredicate> {
    if es == [] then []
    else
      match Classify(fpu, schema, es[0])
      case Some(p) => [p] + ClassifyAll(fpu, schema, es[1..])
      case None => ClassifyAll(fpu, schema, es[1..])
  }

  /** What a classified predicate says of a column value, in ORDER BY's terms. */
  predicate Within(fpu: Fpu, kind: PredKind, x: Value) {
    match kind
    case EqualTo(v) => x == v
    case Above(v, inclusive) => OrderValues(fpu, x, v) == GreaterThan || (inclusive && x == v)
    case Below(v, inclusive) => OrderValues(fpu, x, v) == LessThan || (inclusive && x == v)
  }

  /** The column and the literal are opposite zeros, and `=`, `>=` or `<=` holds between them where ORDER BY
      puts the column on the other side. */
  predicate Clashes(kind: PredKind, x: Value) {
    OppositeZeros(x, kind.v) &&
    match kind
    case EqualTo(_) => true
    case Above(_, inclusive) => inclusive && SignBit(x.bits)
    case Below(_, inclusive) => inclusive && !SignBit(x.bits)
  }

  predicate Typed(schema: Schema, p: ColumnPredicate) {
    p.column < |schema| && HasType(p.kind.v, schema[p.column].ty)
  }

  predicate AllTyped(schema: Schema, ps: seq<ColumnPredicate>) {
    forall i :: 0 <= i < |ps| ==> Typed(schema, ps[i])
  }

  lemma OnlyNameIsColumnIndex(schema: Schema, qualifier: string, ref: ColumnRef, k: nat)
    requires OnlyMatch(SingleScope(qualifier, schema), ref, k)
    ensures ColumnIndex(schema, ref.name) == Some(k)
  {
    ColumnIndexIsFirst(schema, ref.name, k);
    var r := ColumnIndex(schema, ref.name);
    assert Matches(SingleScope(qualifier, schema)[r.value], ref);
  }

  lemma {:induction false} ColumnIndexIsFirst(schema: Schema, name: string, k: nat)
    requires k < |schema| && schema[k].name == name
    ensures ColumnIndex(schema, name).Some? && ColumnIndex(schema, name).value <= k
  {
    if schema[0].name != name { ColumnIndexIsFirst(schema[1..], name, k - 1); }
  }

  /** Comparing with the uncoerced literal is comparing with the coerced one. */
  lemma CoercionKeepsComparison(fpu: Fpu, x: Value, lit: Value, ty: Type, v: Value)
    requires HasType(x, ty) && !x.Null? && !lit.Null?
    requires Coerce(fpu, lit, ty) == Ok(v)
    ensures HasType(v, ty) && !v.Null?
    ensures Compare(fpu, x, lit) == Compare(fpu, x, v)
    ensures Compare(fpu, lit, x) == Compare(fpu, v, x)
  {
  }

  /** A comparison with a literal that is TRUE, on either side, bounds the column value, unless both are
      zeros of the wrong signs. */
  lemma ComparisonBounds(fpu: Fpu, schema: Schema, ref: ColumnRef, lit: Value, op: BinaryOp, x: Value, p: ColumnPredicate)
    requires ClassifyOriented(fpu, schema, ref, Some(lit), op) == Some(p)
    requires HasType(x, schema[p.column].ty) && !lit.Null?
    requires IsComparison(op) && IsComparison(FlipOp(op))
    requires CompareOp(fpu, op, x, lit) == Ok(Bool(true)) || CompareOp(fpu, FlipOp(op), lit, x) == Ok(Bool(true))
    ensures Typed(schema, p) && (Within(fpu, p.kind, x) <==> !Clashes(p.kind, x))
  {
    var ty, v := schema[p.column].ty, p.kind.v;
    CoercionKeepsComparison(fpu, x, lit, ty, v);
    CompareAgreesWithOrder(fpu, x, v, ty);
    CompareAgreesWithOrder(fpu, v, x, ty);
    OrderValuesAntisymmetric(fpu, x, v, ty);
    if OppositeZeros(x, v) { ZeroOrder(fpu, x, v); }
    hide OrderValues, Compare, OppositeZeros, Coerce, ColumnIndex, HasType;
  }

  lemma ZeroOrder(fpu: Fpu, x: Value, v: Value)
    requires OppositeZeros(x, v)
    ensures OrderValues(fpu, x, v) == if SignBit(x.bits) then LessThan else GreaterThan
  {
  }

  lemma BinaryIsTrue(fpu: Fpu, op: BinaryOp, l: Expr, r: Expr, ctx: Option<Context>)
    requires Fits(ctx) && IsComparison(op) && Eval(fpu, Binary(op, l, r), ctx) == Ok(Bool(true))
    ensures Eval(fpu, l, ctx).Ok? && Eval(fpu, r, ctx).Ok?
    ensures CompareOp(fpu, op, Eval(fpu, l, ctx).value, Eval(fpu, r, ctx).value) == Ok(Bool(true))
  {
    hide CompareOp;
  }

  lemma ColumnIsItsMatch(fpu: Fpu, ref: ColumnRef, ctx: Option<Context>)
    requires Fits(ctx) && ctx.Some? && Eval(fpu, Column(ref), ctx).Ok?
    ensures Resolve(ctx.value.scope, ref).Ok? && OnlyMatch(ctx.value.scope, ref, Resolve(ctx.value.scope, ref).value)
    ensures var k := Resolve(ctx.value.scope, ref).value;
            k < |ctx.value.values| && Eval(fpu, Column(ref), ctx) == Ok(ctx.value.values[k])
  {
    ResolveIsOnlyMatch(ctx.value.scope, ref);
  }

  lemma LiteralIsItsValue(fpu: Fpu, e: Expr, ctx: Option<Context>)
    requires Fits(ctx)
    ensures LiteralValue(e).Some? ==> Eval(fpu, e, ctx) == Ok(LiteralValue(e).value)
  {
  }

  /** A conjunct that is TRUE on a row makes its classified predicate hold of the row's column, unless the
      column and the literal are zeros of the wrong signs. */
  lemma ClassifySound(fpu: Fpu, schema: Schema, qualifier: string, e: Expr, row: Row, p: ColumnPredicate)
    requires RowHasTypes(row, Types(schema))
    requires Classify(fpu, schema, e) == Some(p)
    requires Eval(fpu, e, Some(Context(SingleScope(qualifier, schema), row))) == Ok(Bool(true))
    ensures Typed(schema, p) && (Within(fpu, p.kind, row[p.column]) <==> !Clashes(p.kind, row[p.column]))
  {
    hide CompareOp, Within, Clashes, Coerce, Eval, Resolve, OnlyMatch, ColumnIndex, HasType;
    var scope := SingleScope(qualifier, schema);
    var ctx := Some(Context(scope, row));
    var ref := if e.left.Column? then e.left.ref else e.right.ref;
    BinaryIsTrue(fpu, e.op, e.left, e.right, ctx);
    ColumnIsItsMatch(fpu, ref, ctx);
    LiteralIsItsValue(fpu, if e.left.Column? then e.right else e.left, ctx);
    var k := Resolve(scope, ref).value;
    OnlyNameIsColumnIndex(schema, qualifier, ref, k);
    if e.left.Column? {
      ComparisonBounds(fpu, schema, ref, LiteralValue(e.right).value, e.op, row[k], p);
    } else {
      ComparisonBounds(fpu, schema, ref, LiteralValue(e.left).value, FlipOp(e.op), row[k], p);
    }
  }

  /** For a column value that is neither NULL nor NaN, and zero only where the literal's zero has the same
      sign, the conjunct is TRUE exactly when the value lies where the predicate says. */
  lemma ClassifyExact(fpu: Fpu, schema: Schema, qualifier: string, e: Expr, row: Row, p: ColumnPredicate)
    requires RowHasTypes(row, Types(schema)) && Classify(fpu, schema, e) == Some(p)
    requires Resolve(SingleScope(qualifier, schema), if e.left.Column? then e.left.ref else e.right.ref).Ok?
    requires p.column < |row| && Plain(row[p.column]) && Plain(p.kind.v) && !OppositeZeros(row[p.column], p.kind.v)
    ensures Eval(fpu, e, Some(Context(SingleScope(qualifier, schema), row))) == Ok(Bool(true)) <==> Within(fpu, p.kind, row[p.column])
  {
    hide Coerce, Within, OppositeZeros, ColumnIndex, CompareOp;
    var scope := SingleScope(qualifier, schema);
    var ctx := Some(Context(scope, row));
    var ref := if e.left.Column? then e.left.ref else e.right.ref;
    var literal := if e.left.Column? then e.right else e.left;
    ResolveIsOnlyMatch(scope, ref);
    var k := Resolve(scope, ref).value;
    OnlyNameIsColumnIndex(schema, qualifier, ref, k);
    LiteralIsItsValue(fpu, literal, ctx);
    assert Eval(fpu, Column(ref), ctx) == Ok(row[k]);
    ComparedAsWritten(fpu, e, ctx);
    hide Eval, Resolve, OnlyMatch, HasType;
    OrientedExact(fpu, schema, ref, LiteralValue(literal).value, if e.left.Column? then e.op else FlipOp(e.op), row[k], p);
  }

  predicate Plain(v: Value) { !v.Null? && !NotANumber(v) }

  lemma ComparedAsWritten(fpu: Fpu, e: Expr, ctx: Option<Context>)
    requires Fits(ctx) && e.Binary? && IsComparison(e.op) && Eval(fpu, e.left, ctx).Ok? && Eval(fpu, e.right, ctx).Ok?
    ensures Eval(fpu, e, ctx) == CompareOp(fpu, e.op, Eval(fpu, e.left, ctx).value, Eval(fpu, e.right, ctx).value)
  {
    hide CompareOp;
  }

  lemma OrientedExact(fpu: Fpu, schema: Schema, ref: ColumnRef, lit: Value, op: BinaryOp, x: Value, p: ColumnPredicate)
    requires ClassifyOriented(fpu, schema, ref, Some(lit), op) == Some(p) && HasType(x, schema[p.column].ty)
    requires Plain(x) && Plain(p.kind.v) && !lit.Null? && !OppositeZeros(x, p.kind.v)
    ensures IsComparison(op) && (CompareOp(fpu, op, x, lit) == Ok(Bool(true)) <==> Within(fpu, p.kind, x))
    ensures IsComparison(FlipOp(op)) && (CompareOp(fpu, FlipOp(op), lit, x) == Ok(Bool(true)) <==> Within(fpu, p.kind, x))
  {
    var ty, v := schema[p.column].ty, p.kind.v;
    CoercionKeepsComparison(fpu, x, lit, ty, v);
    CompareAgreesWithOrder(fpu, x, v, ty);
    CompareAgreesWithOrder(fpu, v, x, ty);
    OrderValuesAntisymmetric(fpu, x, v, ty);
    assert !OppositeZeros(v, x);
    hide OrderValues, Compare, OppositeZeros, Coerce, ColumnIndex, HasType;
  }

  /** A conjunct is classified exactly when it compares a column of the table with a literal the column's type
      takes, by `=`, `<`, `<=`, `>` or `>=`; a literal on the left reads the comparison backwards. */
  lemma ClassifiedIff(fpu: Fpu, schema: Schema, e: Expr)
    ensures Classify(fpu, schema, e).Some? <==>
              e.Binary? && e.op in {Eq, Lt, LtEq, Gt, GtEq} &&
              (if e.left.Column? then Takes(fpu, schema, e.left.ref, e.right)
               else e.right.Column? && Takes(fpu, schema, e.right.ref, e.left))
  {
    hide ColumnIndex;
  }

  /** The reference names a column, and the literal fits its type. */
  predicate Takes(fpu: Fpu, schema: Schema, ref: ColumnRef, literal: Expr) {
    LiteralValue(literal).Some? && ColumnIndex(schema, ref.name).Some? &&
    Coerce(fpu, LiteralValue(literal).value, schema[ColumnIndex(schema, ref.name).value].ty).Ok?
  }

  /** Every predicate classified from a WHERE clause holds of a row on which the clause is TRUE, unless it
      clashes. */
  lemma {:induction false} ClassifyAllSound(fpu: Fpu, schema: Schema, qualifier: string, es: seq<Expr>, row: Row)
    requires RowHasTypes(row, Types(schema))
    requires forall e :: e in es ==> Eval(fpu, e, Some(Context(SingleScope(qualifier, schema), row))) == Ok(Bool(true))
    ensures HoldUnlessClash(fpu, ClassifyAll(fpu, schema, es), row)
  {
    hide Eval, Within, Clashes, Classify;
    if es != [] {
      assert es[0] in es && forall e :: e in es[1..] ==> e in es;
      var all := ClassifyAll(fpu, schema, es);
      match Classify(fpu, schema, es[0])
      case Some(p) =>
        assert all[0] == p && all[1..] == ClassifyAll(fpu, schema, es[1..]);
        ClassifySound(fpu, schema, qualifier, es[0], row, p);
        ClassifyAllSound(fpu, schema, qualifier, es[1..], row);
      case None =>
        ClassifyAllSound(fpu, schema, qualifier, es[1..], row);
    }
  }

  predicate HoldUnlessClash(fpu: Fpu, ps: seq<ColumnPredicate>, row: Row) {
    forall i :: 0 <= i < |ps| ==>
      ps[i].column < |row| && (Within(fpu, ps[i].kind, row[ps[i].column]) <==> !Clashes(ps[i].kind, row[ps[i].column]))
  }

  lemma {:induction false} ClassifyAllTyped(fpu: Fpu, schema: Schema, es: seq<Expr>)
    ensures AllTyped(schema, ClassifyAll(fpu, schema, es))
  {
    if es != [] { ClassifyAllTyped(fpu, schema, es[1..]); }
  }

  // ---------------------------------------------------------------- bounded index scans

  /** `pinned` leading columns are fixed by equalities; the scan is `[lower, upper)`. */
  datatype IndexPlan = IndexPlan(pinned: nat, hasRange: bool, lower: ByteString, upper: Option<ByteString>)

  function FindEqual(ps: seq<ColumnPredicate>, column: nat): (r: Option<Value>)
    ensures r.Some? ==> exists i :: 0 <= i < |ps| && ps[i] == ColumnPredicate(column, EqualTo(r.value))
    ensures r.None? ==> forall i :: 0 <= i < |ps| ==> !(ps[i].column == column && ps[i].kind.EqualTo?)
  {
    if ps == [] then None
    else if ps[0].column == column && ps[0].kind.EqualTo? then assert ps[0] == ColumnPredicate(column, EqualTo(ps[0].kind.v)); Some(ps[0].kind.v)
    else
      var r := FindEqual(ps[1..], column);
      assert forall i :: 0 <= i < |ps[1..]| ==> ps[1..][i] == ps[i + 1];
      assert forall i :: 0 < i < |ps| ==> ps[i] == ps[1..][i - 1];
      r
  }

  function FindAbove(ps: seq<ColumnPredicate>, column: nat): (r: Option<PredKind>)
    ensures r.Some? ==> r.value.Above? && exists i :: 0 <= i < |ps| && ps[i] == ColumnPredicate(column, r.value)
    ensures r.None? ==> forall i :: 0 <= i < |ps| ==> !(ps[i].column == column && ps[i].kind.Above?)
  {
    if ps == [] then None
    else if ps[0].column == column && ps[0].kind.Above? then assert ps[0] == ColumnPredicate(column, ps[0].kind); Some(ps[0].kind)
    else
      var r := FindAbove(ps[1..], column);
      assert forall i :: 0 <= i < |ps[1..]| ==> ps[1..][i] == ps[i + 1];
      assert forall i :: 0 < i < |ps| ==> ps[i] == ps[1..][i - 1];
      r
  }

  function FindBelow(ps: seq<ColumnPredicate>, column: nat): (r: Option<PredKind>)
    ensures r.Some? ==> r.value.Below? && exists i :: 0 <= i < |ps| && ps[i] == ColumnPredicate(column, r.value)
    ensures r.None? ==> forall i :: 0 <= i < |ps| ==> !(ps[i].column == column && ps[i].kind.Below?)
  {
    if ps == [] then None
    else if ps[0].column == column && ps[0].kind.Below? then assert ps[0] == ColumnPredicate(column, ps[0].kind); Some(ps[0].kind)
    else
      var r := FindBelow(ps[1..], column);
      assert forall i :: 0 <= i < |ps[1..]| ==> ps[1..][i] == ps[i + 1];
      assert forall i :: 0 < i < |ps| ==> ps[i] == ps[1..][i - 1];
      r
  }

  /** The values of the equality-pinned leading columns. */
  function PinnedValues(columns: seq<nat>, ps: seq<ColumnPredicate>): (r: seq<Value>)
    ensures |r| <= |columns|
    ensures |r| < |columns| ==> FindEqual(ps, columns[|r|]).None?
    ensures forall i :: 0 <= i < |r| ==> FindEqual(ps, columns[i]) == Some(r[i])
  {
    if columns == [] then []
    else
      match FindEqual(ps, columns[0])
      case Some(v) => [v] + PinnedValues(columns[1..], ps)
      case None => []
  }

  function RangeLow(columns: seq<nat>, ps: seq<ColumnPredicate>): Option<PredKind> {
    var k := |PinnedValues(columns, ps)|;
    if k < |columns| then FindAbove(ps, columns[k]) else None
  }

  function RangeHigh(columns: seq<nat>, ps: seq<ColumnPredicate>): Option<PredKind> {
    var k := |PinnedValues(columns, ps)|;
    if k < |columns| then FindBelow(ps, columns[k]) else None
  }

  function LowerKey(prefix: ByteString, low: Option<PredKind>): Option<ByteString> {
    match low
    case None => Some(prefix)
    case Some(k) =>
      if k.Above? && !k.inclusive then
        match UpperBound(EncodeValue(k.v))
        case Some(b) => Some(prefix + b)
        case None => None
      else Some(prefix + EncodeValue(k.v))
  }

  /** The upper key; the outer option is the early `?` exit, the inner one an open-ended scan. */
  function UpperKey(prefix: ByteString, pinned: nat, high: Option<PredKind>): Option<Option<ByteString>> {
    match high
    case Some(k) =>
      if k.Below? && k.inclusive then
        match UpperBound(EncodeValue(k.v))
        case Some(b) => Some(Some(prefix + b))
        case None => None
      else Some(Some(prefix + EncodeValue(k.v)))
    case None => Some(if pinned > 0 then UpperBound(prefix) else None)
  }

  /** What `build_index_scan` computes, by the leftmost-prefix rule. */
  function PlanFor(columns: seq<nat>, ps: seq<ColumnPredicate>): Option<IndexPlan> {
    var values := PinnedValues(columns, ps);
    var low, high := RangeLow(columns, ps), RangeHigh(columns, ps);
    var hasRange := low.Some? || high.Some?;
    if values == [] && !hasRange then None
    else
      match (LowerKey(EncodeTuple(values), low), UpperKey(EncodeTuple(values), |values|, high))
      case (Some(l), Some(u)) => Some(IndexPlan(|values|, hasRange, l, u))
      case _ => None
  }

  /** The loop of `build_index_scan`. */
  method BuildIndexScan(columns: seq<nat>, ps: seq<ColumnPredicate>) returns (r: Option<IndexPlan>)
    ensures r == PlanFor(columns, ps)
  {
    ghost var values := PinnedValues(columns, ps);
    var prefix: ByteString, pinned := [], 0;
    var low, high: Option<PredKind> := None, None;
    var i := 0;
    assert EncodeTuple(values[..0]) == [];
    hide EncodeTuple, EncodeValue, UpperBound;
    while i < |columns|
      invariant 0 <= i <= |columns| && i == pinned <= |values|
      invariant prefix == EncodeTuple(values[..pinned])
      invariant low == None && high == None
    {
      var found := FindEqual(ps, columns[i]);
      if found.Some? {
        assert i < |values|;
        EncodeTupleStep(values, i);
        prefix := prefix + EncodeValue(found.value);
        pinned := pinned + 1;
      } else {
        low, high := FindAbove(ps, columns[i]), FindBelow(ps, columns[i]);
        break;
      }
      i := i + 1;
    }
    assert pinned == |values| && values[..pinned] == values;
    var hasRange := low.Some? || high.Some?;
    if pinned == 0 && !hasRange { return None; }
    var lower := prefix;
    if low.Some? {
      if low.value.inclusive {
        lower := lower + EncodeValue(low.value.v);
      } else {
        var bound := PrefixUpperBound(EncodeValue(low.value.v));
        if bound.None? { return None; }
        lower := lower + bound.value;
      }
    }
    var upper: Option<ByteString>;
    if high.Some? {
      if high.value.inclusive {
        var bound := PrefixUpperBound(EncodeValue(high.value.v));
        if bound.None? { return None; }
        upper := Some(prefix + bound.value);
      } else {
        upper := Some(prefix + EncodeValue(high.value.v));
      }
    } else if pinned > 0 {
      upper := PrefixUpperBound(prefix);
    } else {
      upper := None;
    }
    r := Some(IndexPlan(pinned, hasRange, lower, upper));
  }

  predicate InRange(key: ByteString, lower: ByteString, upper: Option<ByteString>) {
    AtMost(lower, key) && (upper.Some? ==> Less(key, upper.value))
  }

  // ---------------------------------------------------------------- what the range covers

  /** How an encoded value `v` compares with any key that starts with the encoding of `x`. */
  lemma EncodedHead(fpu: Fpu, v: Value, x: Value, ty: Type, tail: ByteString)
    requires HasType(v, ty) && HasType(x, ty)
    ensures v == x ==> IsPrefix(EncodeValue(v), EncodeValue(x) + tail) && !Less(EncodeValue(x) + tail, EncodeValue(v))
    ensures v != x ==> !IsPrefix(EncodeValue(v), EncodeValue(x) + tail)
    ensures v != x ==> (Less(EncodeValue(x) + tail, EncodeValue(v)) <==> OrderValues(fpu, x, v) == LessThan)
  {
    var ev, ex := EncodeValue(v), EncodeValue(x);
    if v == x {
      PrefixIsAtMost(ev, ex + tail);
    } else {
      EncodeValueOrder(fpu, x, v, ty);
      EncodeValueOrder(fpu, v, x, ty);
      LessDecidedByHeads(ex, ev, tail, []);
      assert ev + [] == ev;
      PrefixOfConcat(ev, ex, tail);
    }
  }

  /** The row holds the pinned values. */
  predicate PinsMatch(columns: seq<nat>, ps: seq<ColumnPredicate>, row: Row)
    requires ColumnsInRange(columns, |row|)
  {
    forall i :: 0 <= i < |PinnedValues(columns, ps)| ==> row[columns[i]] == PinnedValues(columns, ps)[i]
  }

  /** The predicates the plan uses hold of the row: the pins, and the range on the next column. */
  predicate PlanHolds(fpu: Fpu, columns: seq<nat>, ps: seq<ColumnPredicate>, row: Row)
    requires ColumnsInRange(columns, |row|)
  {
    var k := |PinnedValues(columns, ps)|;
    PinsMatch(columns, ps, row) &&
    (k < |columns| ==> RangeHolds(fpu, RangeLow(columns, ps), row[columns[k]]) && RangeHolds(fpu, RangeHigh(columns, ps), row[columns[k]]))
  }

  predicate RangeHolds(fpu: Fpu, bound: Option<PredKind>, x: Value) { bound.Some? ==> Within(fpu, bound.value, x) }

  /** A tuple's encoding is a prefix of another's only if the tuple is. */
  lemma {:induction false} TuplePrefix(fpu: Fpu, a: seq<Value>, b: seq<Value>, types: seq<Type>, tail: ByteString)
    requires |a| <= |b| == |types| && TupleHasTypes(a, types[..|a|]) && TupleHasTypes(b, types)
    ensures IsPrefix(EncodeTuple(a), EncodeTuple(b) + tail) <==> a == b[..|a|]
  {
    hide EncodeValue, HasType;
    if a != [] {
      var x, y, more := EncodeValue(a[0]), EncodeValue(b[0]), EncodeTuple(b[1..]) + tail;
      ConcatAssoc(y, EncodeTuple(b[1..]), tail);
      EncodedHead(fpu, a[0], b[0], types[0], more);
      TuplePrefix(fpu, a[1..], b[1..], types[1..], tail);
      HeadThenTail(x, EncodeTuple(a[1..]), y + more);
      if a[0] == b[0] { assert (y + more)[|x|..] == more; }
      assert a[1..] == b[..|a|][1..] <==> a[1..] == b[1..][..|a| - 1] by { assert b[..|a|][1..] == b[1..][..|a| - 1]; }
      assert a == b[..|a|] <==> a[0] == b[0] && a[1..] == b[1..][..|a| - 1] by {
        assert a == [a[0]] + a[1..] && b[..|a|] == [b[0]] + b[1..][..|a| - 1];
      }
    }
  }

  lemma HeadThenTail(p: ByteString, q: ByteString, s: ByteString)
    ensures IsPrefix(p + q, s) <==> IsPrefix(p, s) && IsPrefix(q, s[|p|..])
  {
    if |p + q| <= |s| {
      assert s[..|p + q|][..|p|] == s[..|p|] && s[..|p + q|][|p|..] == s[|p|..][..|q|];
      assert s[..|p + q|] == s[..|p|] + s[|p|..][..|q|];
    }
  }

  /** The plan's prefix is a prefix of the row's key exactly when the row holds the pinned values. */
  lemma PrefixIffPinned(fpu: Fpu, schema: Schema, columns: seq<nat>, ps: seq<ColumnPredicate>, row: Row, rowid: ByteString)
    requires ColumnsInRange(columns, |schema|) && RowHasTypes(row, Types(schema)) && AllTyped(schema, ps)
    ensures IsPrefix(EncodeTuple(PinnedValues(columns, ps)), IndexKey(row, columns, rowid)) <==> PinsMatch(columns, ps, row)
  {
    hide EncodeTuple, HasType, PinnedValues;
    var pins, tuple := PinnedValues(columns, ps), Project(row, columns);
    var types := seq(|columns|, i requires 0 <= i < |columns| => schema[columns[i]].ty);
    forall i | 0 <= i < |pins| ensures HasType(pins[i], types[i]) {
      var j :| 0 <= j < |ps| && ps[j] == ColumnPredicate(columns[i], EqualTo(pins[i]));
      assert Typed(schema, ps[j]);
    }
    assert TupleHasTypes(tuple, types);
    TuplePrefix(fpu, pins, tuple, types, rowid);
  }

  /** The row's key is the encoding of its pinned columns, then that of the first unpinned one. */
  lemma KeySplit(columns: seq<nat>, row: Row, rowid: ByteString, k: nat) returns (tail: ByteString)
    requires ColumnsInRange(columns, |row|) && k < |columns|
    ensures IndexKey(row, columns, rowid) == EncodeTuple(Project(row, columns)[..k]) + (EncodeValue(row[columns[k]]) + tail)
  {
    hide EncodeValue;
    var tuple := Project(row, columns);
    EncodeTupleSplit(tuple, k);
    var prefix, rest, after := EncodeTuple(tuple[..k]), EncodeTuple(tuple[k..]), EncodeTuple(tuple[k..][1..]);
    ConcatAssoc(prefix, rest, rowid);
    tail := after + rowid;
    ConcatAssoc(EncodeValue(tuple[k]), after, rowid);
  }

  /** What lies between `p` and an extension of it starts with `p`. */
  lemma {:induction false} BetweenHasPrefix(p: ByteString, x: ByteString, y: ByteString, s: ByteString)
    requires AtMost(p + x, s) && Less(s, p + y)
    ensures IsPrefix(p, s)
  {
    if p != [] {
      assert s != [] && s[0] == p[0];
      assert (p + x)[1..] == p[1..] + x && (p + y)[1..] == p[1..] + y;
      BetweenHasPrefix(p[1..], x, y, s[1..]);
      assert s == [s[0]] + s[1..] && p == [p[0]] + p[1..];
      assert s[..|p|] == [s[0]] + s[1..][..|p| - 1];
    }
  }

  lemma AboveExtension(p: ByteString, x: ByteString, s: ByteString)
    requires AtMost(p + x, s)
    ensures AtMost(p, s)
  {
    assert IsPrefix(p, p + x);
    PrefixIsAtMost(p, p + x);
    AtMostTransitive(p, p + x, s);
  }

  /** Every key in the planned range starts with the plan's prefix. */
  lemma RangeHasPrefix(columns: seq<nat>, ps: seq<ColumnPredicate>, key: ByteString)
    requires PlanFor(columns, ps).Some? && InRange(key, PlanFor(columns, ps).value.lower, PlanFor(columns, ps).value.upper)
    ensures IsPrefix(EncodeTuple(PinnedValues(columns, ps)), key)
  {
    assert EncodeTuple([]) == [];
    hide EncodeTuple, EncodeValue, UpperBound, Less;
    var pins, plan := PinnedValues(columns, ps), PlanFor(columns, ps).value;
    var prefix, low, high := EncodeTuple(pins), RangeLow(columns, ps), RangeHigh(columns, ps);
    var x := LowerRest(prefix, low);
    assert plan.lower == prefix + x;
    AboveExtension(prefix, x, key);
    if high.Some? {
      var y := if high.value.inclusive then UpperBound(EncodeValue(high.value.v)).value else EncodeValue(high.value.v);
      assert plan.upper == Some(prefix + y);
      BetweenHasPrefix(prefix, x, y, key);
    } else if pins != [] {
      UpperBoundIsExact(prefix, key);
    }
  }

  lemma LowerRest(prefix: ByteString, low: Option<PredKind>) returns (x: ByteString)
    ensures LowerKey(prefix, low).Some? ==> LowerKey(prefix, low).value == prefix + x
  {
    hide EncodeValue, UpperBound;
    x := [];
    match low
    case None => assert prefix + [] == prefix;
    case Some(k) =>
      if LowerKey(prefix, low).Some? {
        x := if k.Above? && !k.inclusive then UpperBound(EncodeValue(k.v)).value else EncodeValue(k.v);
      }
  }

  /** The lower end admits a key that starts with the prefix exactly when the lower predicate holds. */
  lemma LowIff(fpu: Fpu, ty: Type, low: PredKind, x: Value, prefix: ByteString, tail: ByteString)
    requires low.Above? && HasType(low.v, ty) && HasType(x, ty) && LowerKey(prefix, Some(low)).Some?
    ensures AtMost(LowerKey(prefix, Some(low)).value, prefix + (EncodeValue(x) + tail)) <==> Within(fpu, low, x)
  {
    hide EncodeValue, UpperBound, Less, OrderValues;
    var v := low.v;
    EncodedHead(fpu, v, x, ty, tail);
    OrderValuesAntisymmetric(fpu, x, v, ty);
    UpperBoundIsExact(EncodeValue(v), EncodeValue(x) + tail);
    var bound := if low.inclusive then EncodeValue(v) else UpperBound(EncodeValue(v)).value;
    LessCommonPrefix(prefix, EncodeValue(x) + tail, bound);
  }

  /** The upper end likewise. */
  lemma HighIff(fpu: Fpu, ty: Type, high: PredKind, x: Value, prefix: ByteString, tail: ByteString)
    requires high.Below? && HasType(high.v, ty) && HasType(x, ty) && UpperKey(prefix, 0, Some(high)).Some?
    ensures UpperKey(prefix, 0, Some(high)).value.Some?
    ensures Less(prefix + (EncodeValue(x) + tail), UpperKey(prefix, 0, Some(high)).value.value) <==> Within(fpu, high, x)
  {
    hide EncodeValue, UpperBound, Less, OrderValues;
    var v := high.v;
    EncodedHead(fpu, v, x, ty, tail);
    OrderValuesAntisymmetric(fpu, x, v, ty);
    UpperBoundIsExact(EncodeValue(v), EncodeValue(x) + tail);
    var bound := if high.inclusive then UpperBound(EncodeValue(v)).value else EncodeValue(v);
    LessCommonPrefix(prefix, EncodeValue(x) + tail, bound);
  }

  lemma RangeTyped(schema: Schema, columns: seq<nat>, ps: seq<ColumnPredicate>)
    requires AllTyped(schema, ps) && |PinnedValues(columns, ps)| < |columns|
    ensures var k := |PinnedValues(columns, ps)|;
            (RangeLow(columns, ps).Some? ==> RangeLow(columns, ps).value.Above? && columns[k] < |schema| &&
                                             HasType(RangeLow(columns, ps).value.v, schema[columns[k]].ty)) &&
            (RangeHigh(columns, ps).Some? ==> RangeHigh(columns, ps).value.Below? && columns[k] < |schema| &&
                                              HasType(RangeHigh(columns, ps).value.v, schema[columns[k]].ty))
  {
    hide HasType, PinnedValues;
    var k, low, high := |PinnedValues(columns, ps)|, RangeLow(columns, ps), RangeHigh(columns, ps);
    if low.Some? {
      var j :| 0 <= j < |ps| && ps[j] == ColumnPredicate(columns[k], low.value);
      assert Typed(schema, ps[j]);
    }
    if high.Some? {
      var j :| 0 <= j < |ps| && ps[j] == ColumnPredicate(columns[k], high.value);
      assert Typed(schema, ps[j]);
    }
  }

  /** Among the rows with the pinned values the range decides by the next column. */
  lemma RangeAmongPinned(fpu: Fpu, schema: Schema, columns: seq<nat>, ps: seq<ColumnPredicate>, row: Row, rowid: ByteString)
    requires ColumnsInRange(columns, |schema|) && RowHasTypes(row, Types(schema)) && AllTyped(schema, ps)
    requires PlanFor(columns, ps).Some? && PinsMatch(columns, ps, row)
    ensures var plan := PlanFor(columns, ps).value;
            InRange(IndexKey(row, columns, rowid), plan.lower, plan.upper) <==> PlanHolds(fpu, columns, ps, row)
  {
    hide HasType, PinnedValues, EncodeTuple, EncodeValue, UpperBound, Less, Within;
    var pins, low, high := PinnedValues(columns, ps), RangeLow(columns, ps), RangeHigh(columns, ps);
    var k, prefix, key := |pins|, EncodeTuple(pins), IndexKey(row, columns, rowid);
    PrefixIffPinned(fpu, schema, columns, ps, row, rowid);
    PrefixIsAtMost(prefix, key);
    UpperBoundIsExact(prefix, key);
    if k < |columns| {
      assert pins == Project(row, columns)[..k];
      var tail := KeySplit(columns, row, rowid, k);
      RangeTyped(schema, columns, ps);
      if low.Some? { LowIff(fpu, schema[columns[k]].ty, low.value, row[columns[k]], prefix, tail); }
      if high.Some? { HighIff(fpu, schema[columns[k]].ty, high.value, row[columns[k]], prefix, tail); }
    }
  }

  /** A row's index key falls in the planned range exactly when the predicates the plan uses hold of it. */
  lemma RangeIsExact(fpu: Fpu, schema: Schema, columns: seq<nat>, ps: seq<ColumnPredicate>, row: Row, rowid: ByteString)
    requires ColumnsInRange(columns, |schema|) && RowHasTypes(row, Types(schema)) && AllTyped(schema, ps)
    requires PlanFor(columns, ps).Some?
    ensures var plan := PlanFor(columns, ps).value;
            InRange(IndexKey(row, columns, rowid), plan.lower, plan.upper) <==> PlanHolds(fpu, columns, ps, row)
  {
    assert ColumnsInRange(columns, |row|);
    hide PlanFor, InRange, PinsMatch, RangeHolds, IndexKey, EncodeTuple, AllTyped, RowHasTypes;
    var key, plan := IndexKey(row, columns, rowid), PlanFor(columns, ps).value;
    PrefixIffPinned(fpu, schema, columns, ps, row, rowid);
    if PinsMatch(columns, ps, row) {
      RangeAmongPinned(fpu, schema, columns, ps, row, rowid);
    } else if InRange(key, plan.lower, plan.upper) {
      RangeHasPrefix(columns, ps, key);
    }
  }

  /** No predicate the plan uses clashes with the row. */
  predicate NoClash(columns: seq<nat>, ps: seq<ColumnPredicate>, row: Row)
    requires ColumnsInRange(columns, |row|)
  {
    var pins := PinnedValues(columns, ps);
    (forall i :: 0 <= i < |pins| ==> !OppositeZeros(row[columns[i]], pins[i])) &&
    (|pins| < |columns| ==> NoRangeClash(RangeLow(columns, ps), row[columns[|pins|]]) && NoRangeClash(RangeHigh(columns, ps), row[columns[|pins|]]))
  }

  predicate NoRangeClash(bound: Option<PredKind>, x: Value) { bound.Some? ==> !Clashes(bound.value, x) }

  /** For a row on which every predicate holds unless it clashes, the plan holds exactly without a clash. */
  lemma PlanHoldsIffNoClash(fpu: Fpu, columns: seq<nat>, ps: seq<ColumnPredicate>, row: Row)
    requires ColumnsInRange(columns, |row|) && HoldUnlessClash(fpu, ps, row)
    ensures PlanHolds(fpu, columns, ps, row) <==> NoClash(columns, ps, row)
  {
    hide OrderValues, OppositeZeros, PinnedValues;
    var pins, low, high := PinnedValues(columns, ps), RangeLow(columns, ps), RangeHigh(columns, ps);
    forall i | 0 <= i < |pins| ensures row[columns[i]] == pins[i] <==> !OppositeZeros(row[columns[i]], pins[i]) {
      var j :| 0 <= j < |ps| && ps[j] == ColumnPredicate(columns[i], EqualTo(pins[i]));
      assert Within(fpu, ps[j].kind, row[ps[j].column]) <==> !Clashes(ps[j].kind, row[ps[j].column]);
    }
    hide Within, Clashes;
    if |pins| < |columns| {
      if low.Some? {
        var j :| 0 <= j < |ps| && ps[j] == ColumnPredicate(columns[|pins|], low.value);
        assert Within(fpu, ps[j].kind, row[ps[j].column]) <==> !Clashes(ps[j].kind, row[ps[j].column]);
      }
      if high.Some? {
        var j :| 0 <= j < |ps| && ps[j] == ColumnPredicate(columns[|pins|], high.value);
        assert Within(fpu, ps[j].kind, row[ps[j].column]) <==> !Clashes(ps[j].kind, row[ps[j].column]);
      }
    }
  }

  // ---------------------------------------------------------------- choosing among indexes

  /** An index the planner may use: finished, and with a bounded scan from the predicates. */
  predicate Usable(index: Index, ps: seq<ColumnPredicate>) {
    !index.isBuilding && PlanFor(index.columns, ps).Some?
  }

  predicate Better(a: IndexPlan, b: IndexPlan) {
    a.pinned > b.pinned || (a.pinned == b.pinned && a.hasRange && !b.hasRange)
  }

  /** No finished plan pins more columns, and among those that pin as many none adds a range where the
      chosen one has none. */
  predicate MostSelective(plan: IndexPlan, other: IndexPlan) {
    other.pinned <= plan.pinned && (other.pinned == plan.pinned && other.hasRange ==> plan.hasRange)
  }

  /** The selection loop of `choose_access`: the first usable index no other usable one beats. */
  method ChooseIndex(indexes: seq<Index>, ps: seq<ColumnPredicate>) returns (best: Option<(nat, IndexPlan)>)
    ensures best.None? ==> forall i :: 0 <= i < |indexes| ==> !Usable(indexes[i], ps)
    ensures best.Some? ==>
      var (at, plan) := best.value;
      && at < |indexes| && Usable(indexes[at], ps) && PlanFor(indexes[at].columns, ps) == Some(plan)
      && (forall i :: 0 <= i < |indexes| && Usable(indexes[i], ps) ==> MostSelective(plan, PlanFor(indexes[i].columns, ps).value))
      && (forall i :: 0 <= i < at && Usable(indexes[i], ps) ==> !MostSelective(PlanFor(indexes[i].columns, ps).value, plan))
  {
    hide PlanFor;
    best := None;
    for n := 0 to |indexes|
      invariant best.None? ==> forall i :: 0 <= i < n ==> !Usable(indexes[i], ps)
      invariant best.Some? ==>
        var (at, plan) := best.value;
        && at < n && Usable(indexes[at], ps) && PlanFor(indexes[at].columns, ps) == Some(plan)
        && (forall i :: 0 <= i < n && Usable(indexes[i], ps) ==> !Better(PlanFor(indexes[i].columns, ps).value, plan))
        && (forall i :: 0 <= i < at && Usable(indexes[i], ps) ==> Better(plan, PlanFor(indexes[i].columns, ps).value))
    {
      if indexes[n].isBuilding { continue; }
      var plan := BuildIndexScan(indexes[n].columns, ps);
      if plan.None? { continue; }
      if best.None? || Better(plan.value, best.value.1) {
        best := Some((n, plan.value));
      }
    }
  }
}
