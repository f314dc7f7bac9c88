/** SQL values, their sort order and their comparison (engine/value.rs and the
    comparison helpers of engine/executor.rs). A REAL is its 64-bit IEEE 754 pattern. */
module Values {
  import opened Bytes

  datatype Type = IntType | RealType | TextType | BoolType

  /** `Text` holds the UTF-8 bytes of the string. */
  datatype Value = Null | Int(n: i64) | Real(bits: u64) | Text(bytes: ByteString) | Bool(b: bool)

  type Row = seq<Value>

  /** The floating-point operations whose results the model leaves open. */
  datatype Fpu = Fpu(
    ofInt: i64 -> u64,
    add: (u64, u64) -> u64,
    sub: (u64, u64) -> u64,
    mul: (u64, u64) -> u64,
    div: (u64, u64) -> u64)

  datatype Ordering = LessThan | Equal | GreaterThan {
    function Reverse(): Ordering {
      match this
      case LessThan => GreaterThan
      case Equal => Equal
      case GreaterThan => LessThan
    }
  }

  function CompareInts(a: int, b: int): Ordering {
    if a < b then LessThan else if a == b then Equal else GreaterThan
  }

  function CompareBytes(a: ByteString, b: ByteString): Ordering {
    if Less(a, b) then LessThan else if a == b then Equal else GreaterThan
  }

  function CompareBools(a: bool, b: bool): Ordering {
    if a == b then Equal else if b then LessThan else GreaterThan
  }

  // ---------------------------------------------------------------- floats

  predicate SignBit(bits: u64) { bits >= TWO_63 }

  function Magnitude(bits: u64): nat {
    if SignBit(bits) then bits - TWO_63 else bits
  }

  predicate IsNaN(bits: u64) { Magnitude(bits) > 0x7FF0_0000_0000_0000 }

  /** The position of a pattern in the totalOrder predicate of section 5.10 of IEEE 754-2008. */
  function TotalOrderRank(bits: u64): int {
    if SignBit(bits) then -1 - Magnitude(bits) else Magnitude(bits)
  }

  function TotalCompare(a: u64, b: u64): Ordering {
    CompareInts(TotalOrderRank(a), TotalOrderRank(b))
  }

  /** The number a non-NaN pattern denotes, up to a strictly monotone rescaling; both zeros are 0. */
  function NumericRank(bits: u64): int {
    if SignBit(bits) then 0 - Magnitude(bits) else Magnitude(bits)
  }

  predicate IsZero(bits: u64) { NumericRank(bits) == 0 }

  /** `f64::partial_cmp`: NaN is unordered and the two zeros are equal. */
  function PartialCompare(a: u64, b: u64): Option<Ordering> {
    if IsNaN(a) || IsNaN(b) then None
    else Some(CompareInts(NumericRank(a), NumericRank(b)))
  }

  function Negate(bits: u64): u64 {
    if SignBit(bits) then bits - TWO_63 else bits + TWO_63
  }

  // ---------------------------------------------------------------- types

  predicate HasType(v: Value, ty: Type) {
    match v
    case Null => true
    case Int(_) => ty == IntType
    case Real(_) => ty == RealType
    case Text(_) => ty == TextType
    case Bool(_) => ty == BoolType
  }

  predicate RowHasTypes(row: Row, types: seq<Type>) {
    |row| == |types| && forall i :: 0 <= i < |row| ==> HasType(row[i], types[i])
  }

  /** -0.0 and 0.0, in either order: equal as numbers, different as bits. */
  predicate OppositeZeros(a: Value, b: Value) {
    a.Real? && b.Real? && IsZero(a.bits) && IsZero(b.bits) && a.bits != b.bits
  }

  predicate NotANumber(v: Value) { v.Real? && IsNaN(v.bits) }

  /** Adapt a value to a column's type: NULL fits anywhere, INT widens into REAL. */
  function Coerce(fpu: Fpu, v: Value, ty: Type): Result<Value> {
    match (v, ty)
    case (Null, _) => Ok(Null)
    case (Int(n), IntType) => Ok(v)
    case (Int(n), RealType) => Ok(Real(fpu.ofInt(n)))
    case (Real(_), RealType) => Ok(v)
    case (Text(_), TextType) => Ok(v)
    case (Bool(_), BoolType) => Ok(v)
    case _ => Err(Exec)
  }

  // ---------------------------------------------------------------- order

  function ValueRank(v: Value): nat {
    match v
    case Null => 0
    case Bool(_) => 1
    case Int(_) => 2
    case Real(_) => 2
    case Text(_) => 3
  }

  /** `order_values`: the order behind ORDER BY, NULL first. */
  function OrderValues(fpu: Fpu, a: Value, b: Value): Ordering {
    match (a, b)
    case (Null, Null) => Equal
    case (Null, _) => LessThan
    case (_, Null) => GreaterThan
    case (Int(x), Int(y)) => CompareInts(x, y)
    case (Real(x), Real(y)) => TotalCompare(x, y)
    case (Int(x), Real(y)) => TotalCompare(fpu.ofInt(x), y)
    case (Real(x), Int(y)) => TotalCompare(x, fpu.ofInt(y))
    case (Text(x), Text(y)) => CompareBytes(x, y)
    case (Bool(x), Bool(y)) => CompareBools(x, y)
    case _ => CompareInts(ValueRank(a), ValueRank(b))
  }

  function AsNumber(fpu: Fpu, v: Value): Result<u64> {
    match v
    case Int(n) => Ok(fpu.ofInt(n))
    case Real(bits) => Ok(bits)
    case _ => Err(Exec)
  }

  /** `compare`: the comparison behind `=`, `<` and the rest; NaN and mixed types are errors. */
  function Compare(fpu: Fpu, a: Value, b: Value): Result<Ordering> {
    match (a, b)
    case (Int(x), Int(y)) => Ok(CompareInts(x, y))
    case (Text(x), Text(y)) => Ok(CompareBytes(x, y))
    case (Bool(x), Bool(y)) => Ok(CompareBools(x, y))
    case _ =>
      match (AsNumber(fpu, a), AsNumber(fpu, b))
      case (Ok(x), Ok(y)) =>
        (match PartialCompare(x, y)
         case Some(o) => Ok(o)
         case None => Err(Exec))
      case _ => Err(Exec)
  }

  /** On non-NULL values of one type WHERE's comparison and ORDER BY's order agree except on NaN and on
      the two zeros. */
  lemma CompareAgreesWithOrder(fpu: Fpu, a: Value, b: Value, ty: Type)
    requires HasType(a, ty) && HasType(b, ty) && !a.Null? && !b.Null?
    ensures Compare(fpu, a, b) == Ok(OrderValues(fpu, a, b)) <==> !NotANumber(a) && !NotANumber(b) && !OppositeZeros(a, b)
    ensures NotANumber(a) || NotANumber(b) ==> Compare(fpu, a, b).Err?
    ensures OppositeZeros(a, b) ==> Compare(fpu, a, b) == Ok(Equal) && OrderValues(fpu, a, b) != Equal
  {
    if a.Real? {
      assert !OppositeZeros(a, b) ==> (NumericRank(a.bits) < NumericRank(b.bits) <==> TotalOrderRank(a.bits) < TotalOrderRank(b.bits));
    }
  }

  lemma OrderValuesReflexive(fpu: Fpu, a: Value)
    ensures OrderValues(fpu, a, a) == Equal
  {
    if a.Text? { LessIrreflexive(a.bytes); }
  }

  lemma OrderValuesAntisymmetric(fpu: Fpu, a: Value, b: Value, ty: Type)
    requires HasType(a, ty) && HasType(b, ty)
    ensures OrderValues(fpu, b, a) == OrderValues(fpu, a, b).Reverse()
    ensures OrderValues(fpu, a, b) == Equal <==> a == b
  {
    if a.Text? && b.Text? {
      LessTotal(a.bytes, b.bytes);
      LessIrreflexive(a.bytes);
      if Less(a.bytes, b.bytes) { LessAsymmetric(a.bytes, b.bytes); }
    }
  }

  lemma OrderValuesTransitive(fpu: Fpu, a: Value, b: Value, c: Value, ty: Type)
    requires HasType(a, ty) && HasType(b, ty) && HasType(c, ty)
    requires OrderValues(fpu, a, b) == LessThan && OrderValues(fpu, b, c) == LessThan
    ensures OrderValues(fpu, a, c) == LessThan
  {
    if a.Text? && b.Text? && c.Text? { LessTransitive(a.bytes, b.bytes, c.bytes); }
  }

  // ---------------------------------------------------------------- UTF-8

  predicate Continuation(b: byte) { 0x80 <= b <= 0xBF }

  /** The length of the well-formed UTF-8 sequence at the start of `s`, 0 if there is none. */
  function Utf8Head(s: ByteString): (n: nat)
    ensures n <= |s|
  {
    if s == [] then 0
    else if s[0] < 0x80 then 1
    else if |s| >= 2 && 0xC2 <= s[0] <= 0xDF && Continuation(s[1]) then 2
    else if |s| >= 3 && Continuation(s[1]) && Continuation(s[2]) &&
            0xE0 <= s[0] <= 0xEF && (s[0] == 0xE0 ==> s[1] >= 0xA0) && (s[0] == 0xED ==> s[1] <= 0x9F) then 3
    else if |s| >= 4 && Continuation(s[1]) && Continuation(s[2]) && Continuation(s[3]) &&
            0xF0 <= s[0] <= 0xF4 && (s[0] == 0xF0 ==> s[1] >= 0x90) && (s[0] == 0xF4 ==> s[1] <= 0x8F) then 4
    else 0
  }

  predicate ValidUtf8(s: ByteString) {
    s == [] || (Utf8Head(s) > 0 && ValidUtf8(s[Utf8Head(s)..]))
  }
}
