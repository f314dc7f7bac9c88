/** Columnar batches: typed columns with packed null masks and selection vectors (engine/batch.rs). */
module ColumnBatches {
  import opened Bytes
  import opened Values

  // ---------------------------------------------------------------- words

  /** Bit `j` of a word. */
  predicate Bit(w: nat, j: nat)
    decreases j
  {
    if j == 0 then w % 2 == 1 else Bit(w / 2, j - 1)
  }

  /** `w | (1 << j)`. */
  function SetBit(w: nat, j: nat): nat
    decreases j
  {
    if j == 0 then (if w % 2 == 1 then w else w + 1) else 2 * SetBit(w / 2, j - 1) + w % 2
  }

  /** `(1 << n) - 1`; all bits of a word for 64. */
  function Ones(n: nat): nat {
    if n == 0 then 0 else 2 * Ones(n - 1) + 1
  }

  function Pow2(n: nat): nat { if n == 0 then 1 else 2 * Pow2(n - 1) }

  lemma {:induction false} SetBitBits(w: nat, j: nat, k: nat)
    ensures Bit(SetBit(w, j), k) <==> k == j || Bit(w, k)
    decreases j
  {
    if j > 0 && k > 0 {
      SetBitBits(w / 2, j - 1, k - 1);
      assert SetBit(w, j) / 2 == SetBit(w / 2, j - 1);
    } else if j == 0 && k > 0 {
      assert SetBit(w, 0) / 2 == w / 2;
    }
  }

  lemma {:induction false} SetBitFits(w: nat, j: nat, n: nat)
    requires w < Pow2(n) && j < n
    ensures SetBit(w, j) < Pow2(n)
    decreases j
  {
    if j > 0 { SetBitFits(w / 2, j - 1, n - 1); }
  }

  lemma {:induction false} OnesBits(n: nat, k: nat)
    ensures Bit(Ones(n), k) <==> k < n
    decreases n, k
  {
    if n > 0 && k > 0 {
      OnesBits(n - 1, k - 1);
      assert Ones(n) / 2 == Ones(n - 1);
    } else if n == 0 && k > 0 {
      OnesBits(0, k - 1);
    }
  }

  lemma {:induction false} OnesFits(n: nat)
    ensures Ones(n) < Pow2(n) && Pow2(n) > 0
  {
    if n > 0 { OnesFits(n - 1); }
  }

  lemma {:induction false} Pow2Monotone(a: nat, b: nat)
    requires a <= b
    ensures Pow2(a) <= Pow2(b)
  {
    if a < b { Pow2Monotone(a, b - 1); }
  }

  lemma {:induction false} ZeroBits(k: nat)
    ensures !Bit(0, k)
  {
    if k > 0 { ZeroBits(k - 1); }
  }

  // ---------------------------------------------------------------- null masks

  /** One bit per row, packed into 64-bit words: set means the row holds a value. */
  datatype NullMask = NullMask(bits: seq<nat>, nRows: nat) {

    ghost predicate Valid() {
      && |bits| == (nRows + 63) / 64
      && (forall w :: 0 <= w < |bits| ==> bits[w] < Pow2(64))
      && (forall w :: 0 <= w < |bits| ==> ClearFrom(bits[w], nRows - 64 * w))
    }

    predicate IsValid(i: nat) { i / 64 < |bits| && Bit(bits[i / 64], i % 64) }
  }

  /** No bit of the word at or above `n` is set. */
  ghost predicate ClearFrom(w: nat, n: int) { forall k: nat :: k < 64 && k >= n ==> !Bit(w, k) }

  const EMPTY_MASK: NullMask := NullMask([], 0)

  /** `NullMask::push`. */
  function PushBit(m: NullMask, valid: bool): (r: NullMask)
    requires m.Valid()
    ensures r.Valid() && r.nRows == m.nRows + 1
    ensures forall k: nat :: k < r.nRows ==> (r.IsValid(k) <==> if k == m.nRows then valid else m.IsValid(k))
  {
    hide NullMask.Valid, NullMask.IsValid, SetBit;
    var i := m.nRows;
    var word := i / 64;
    var grown := if word >= |m.bits| then m.bits + [0] else m.bits;
    PushBitFacts(m, valid, grown);
    NullMask(if valid then grown[word := SetBit(grown[word], i % 64)] else grown, i + 1)
  }

  lemma GrownWord(m: NullMask, grown: seq<nat>)
    requires m.Valid() && grown == if m.nRows / 64 >= |m.bits| then m.bits + [0] else m.bits
    ensures |grown| == (m.nRows + 64) / 64 && m.nRows / 64 == |grown| - 1
    ensures forall w :: 0 <= w < |grown| ==> grown[w] < Pow2(64) && ClearFrom(grown[w], m.nRows - 64 * w)
    ensures forall w :: 0 <= w < |m.bits| ==> grown[w] == m.bits[w]
  {
    hide Bit, Ones, Pow2;
    OnesFits(64);
    forall k: nat ensures !Bit(0, k) { ZeroBits(k); }
    assert ClearFrom(0, 0);
    hide ClearFrom;
  }

  lemma PushBitFacts(m: NullMask, valid: bool, grown: seq<nat>)
    requires m.Valid() && grown == if m.nRows / 64 >= |m.bits| then m.bits + [0] else m.bits
    ensures m.nRows / 64 < |grown|
    ensures var word := m.nRows / 64;
            var r := NullMask(if valid then grown[word := SetBit(grown[word], m.nRows % 64)] else grown, m.nRows + 1);
            r.Valid() && forall k: nat :: k < r.nRows ==>
              (r.IsValid(k) <==> if k == m.nRows then valid else m.IsValid(k))
  {
    hide Bit, SetBit, Pow2;
    GrownWord(m, grown);
    var i, word := m.nRows, m.nRows / 64;
    var last, bit := grown[word], i % 64;
    SetBitFits(last, bit, 64);
    forall k: nat ensures Bit(SetBit(last, bit), k) <==> k == bit || Bit(last, k) { SetBitBits(last, bit, k); }
    var r := NullMask(if valid then grown[word := SetBit(last, bit)] else grown, i + 1);
    forall w | 0 <= w < |r.bits| ensures ClearFrom(r.bits[w], r.nRows - 64 * w) {
      assert ClearFrom(grown[w], i - 64 * w);
    }
    assert !Bit(last, bit) by { assert ClearFrom(last, i - 64 * word); }
    forall k: nat | k < r.nRows ensures r.IsValid(k) <==> (if k == i then valid else m.IsValid(k)) {
      assert k / 64 < |r.bits|;
      assert k / 64 == word && k % 64 == bit <==> k == i;
    }
  }

  /** `NullMask::all_valid`: whole words of ones, the last one trimmed. */
  function AllValid(n: nat): (r: NullMask)
    ensures r.Valid() && r.nRows == n
    ensures forall k: nat :: k < n ==> r.IsValid(k)
  {
    var words := (n + 63) / 64;
    var bits := seq(words, _ => Ones(64));
    AllValidFacts(n);
    NullMask(if n % 64 != 0 then bits[words - 1 := Ones(n % 64)] else bits, n)
  }

  lemma AllValidFacts(n: nat)
    ensures n % 64 != 0 ==> (n + 63) / 64 > 0
    ensures var words := (n + 63) / 64;
            var bits := seq(words, _ => Ones(64));
            var r := NullMask(if n % 64 != 0 then bits[words - 1 := Ones(n % 64)] else bits, n);
            r.Valid() && forall k: nat :: k < n ==> r.IsValid(k)
  {
    hide Bit, Ones, Pow2;
    var words, t := (n + 63) / 64, n % 64;
    var bits := seq(words, _ => Ones(64));
    var r := NullMask(if t != 0 then bits[words - 1 := Ones(t)] else bits, n);
    OnesFits(64);
    OnesFits(t);
    Pow2Monotone(t, 64);
    forall k: nat ensures (Bit(Ones(64), k) <==> k < 64) && (Bit(Ones(t), k) <==> k < t) {
      OnesBits(64, k);
      OnesBits(t, k);
    }
    forall w | 0 <= w < |r.bits| ensures ClearFrom(r.bits[w], n - 64 * w) {}
  }

  // ---------------------------------------------------------------- columns

  /** A typed value array with its null mask; the slot of a NULL row is never read. */
  datatype Column =
    | IntColumn(ints: seq<i64>, nulls: NullMask)
    | RealColumn(reals: seq<u64>, nulls: NullMask)
    | TextColumn(texts: seq<ByteString>, nulls: NullMask)
    | BoolColumn(bools: seq<bool>, nulls: NullMask)
  {
    function Len(): nat { nulls.nRows }

    function Slots(): nat {
      match this
      case IntColumn(v, _) => |v|
      case RealColumn(v, _) => |v|
      case TextColumn(v, _) => |v|
      case BoolColumn(v, _) => |v|
    }

    ghost predicate Valid() { nulls.Valid() && Slots() == Len() }

    function Ty(): Type {
      match this
      case IntColumn(_, _) => IntType
      case RealColumn(_, _) => RealType
      case TextColumn(_, _) => TextType
      case BoolColumn(_, _) => BoolType
    }

    function ValueAt(i: nat): (v: Value)
      requires Valid() && i < Len()
      ensures HasType(v, Ty())
    {
      if !nulls.IsValid(i) then Null
      else
        match this
        case IntColumn(v, _) => Int(v[i])
        case RealColumn(v, _) => Real(v[i])
        case TextColumn(v, _) => Text(v[i])
        case BoolColumn(v, _) => Bool(v[i])
    }
  }

  function EmptyColumn(ty: Type): (c: Column)
    ensures c.Valid() && c.Len() == 0 && c.Ty() == ty
  {
    match ty
    case IntType => IntColumn([], EMPTY_MASK)
    case RealType => RealColumn([], EMPTY_MASK)
    case TextType => TextColumn([], EMPTY_MASK)
    case BoolType => BoolColumn([], EMPTY_MASK)
  }

  /** Append a slot and its validity bit; a NULL takes the type's zero. */
  function Grow(c: Column, v: Value): (r: Column)
    requires c.Valid() && HasType(v, c.Ty())
    ensures r.Valid() && r.Ty() == c.Ty() && r.Len() == c.Len() + 1
    ensures forall k: nat :: k < c.Len() ==> r.ValueAt(k) == c.ValueAt(k)
    ensures r.ValueAt(c.Len()) == v
  {
    var nulls := PushBit(c.nulls, !v.Null?);
    match c
    case IntColumn(s, _) => IntColumn(s + [if v.Int? then v.n else 0], nulls)
    case RealColumn(s, _) => RealColumn(s + [if v.Real? then v.bits else 0], nulls)
    case TextColumn(s, _) => TextColumn(s + [if v.Text? then v.bytes else []], nulls)
    case BoolColumn(s, _) => BoolColumn(s + [if v.Bool? then v.b else false], nulls)
  }

  /** `push_value`: NULL fits any column, INT widens into REAL, anything else must match. */
  function PushValue(fpu: Fpu, c: Column, v: Value): (r: Result<Column>)
    requires c.Valid()
    ensures r.Ok? <==> Coerce(fpu, v, c.Ty()).Ok?
    ensures r.Ok? ==> Pushed(fpu, c, v, r.value)
  {
    match (c, v)
    case (IntColumn(_, _), Int(_)) => Ok(Grow(c, v))
    case (RealColumn(_, _), Real(_)) => Ok(Grow(c, v))
    case (RealColumn(_, _), Int(n)) => Ok(Grow(c, Real(fpu.ofInt(n))))
    case (TextColumn(_, _), Text(_)) => Ok(Grow(c, v))
    case (BoolColumn(_, _), Bool(_)) => Ok(Grow(c, v))
    case (_, Null) => Ok(Grow(c, Null))
    case _ => Err(Exec)
  }

  // ---------------------------------------------------------------- batches

  datatype ColumnBatch = ColumnBatch(columns: seq<Column>, nRows: nat, selection: Option<seq<nat>>) {

    ghost predicate Valid() {
      && (forall c :: 0 <= c < |columns| ==> columns[c].Valid())
      && (selection.None? ==> forall c :: 0 <= c < |columns| ==> columns[c].Len() == nRows)
      && (selection.Some? ==> |selection.value| == nRows && InColumns(selection.value))
    }

    ghost predicate InColumns(sel: seq<nat>) {
      forall c, k :: 0 <= c < |columns| && 0 <= k < |sel| ==> sel[k] < columns[c].Len()
    }

    /** `physical_for`. */
    function Physical(i: nat): (p: nat)
      requires Valid() && i < nRows
      ensures forall c :: 0 <= c < |columns| ==> p < columns[c].Len()
    {
      if selection.Some? then selection.value[i] else i
    }

    /** `row_at`: the row at a logical position. */
    function RowAt(i: nat): (r: Row)
      requires Valid() && i < nRows
      ensures |r| == |columns| && forall c :: 0 <= c < |r| ==> r[c] == columns[c].ValueAt(Physical(i))
    {
      seq(|columns|, c requires 0 <= c < |columns| => columns[c].ValueAt(Physical(i)))
    }

    function Rows(): (r: seq<Row>)
      requires Valid()
      ensures |r| == nRows && forall i :: 0 <= i < nRows ==> r[i] == RowAt(i)
    {
      seq(nRows, i requires 0 <= i < nRows => RowAt(i))
    }
  }

  /** A batch being built row by row: `with_types` and `push_row`. */
  class BatchBuilder {
    var columns: seq<Column>
    var nRows: nat

    ghost predicate Valid()
      reads this
    {
      forall c :: 0 <= c < |columns| ==> columns[c].Valid() && columns[c].Len() == nRows
    }

    ghost function Batch(): ColumnBatch reads this { ColumnBatch(columns, nRows, None) }

    ghost function Types(): (r: seq<Type>)
      reads this
      ensures |r| == |columns| && forall c :: 0 <= c < |r| ==> r[c] == columns[c].Ty()
    {
      seq(|columns|, c requires 0 <= c < |columns| reads this => columns[c].Ty())
    }

    constructor (types: seq<Type>)
      ensures Valid() && Types() == types && nRows == 0
    {
      columns := seq(|types|, c requires 0 <= c < |types| => EmptyColumn(types[c]));
      nRows := 0;
    }

    /** Append one row, coerced to the column types; `Err` when a value fits no column. */
    method PushRow(fpu: Fpu, row: Row) returns (r: Result<()>)
      requires Valid()
      modifies this
      ensures r.Ok? <==> |row| == |old(columns)| && forall c :: 0 <= c < |row| ==> Coerce(fpu, row[c], old(columns)[c].Ty()).Ok?
      ensures r.Ok? ==> Valid() && Types() == old(Types()) && nRows == old(nRows) + 1
      ensures r.Ok? ==> Batch().Rows()[..old(nRows)] == old(Batch().Rows())
      ensures r.Ok? ==> forall c :: 0 <= c < |row| ==> Batch().RowAt(old(nRows))[c] == Coerce(fpu, row[c], Types()[c]).value
    {
      if |row| != |columns| { return Err(Corruption); }
      ghost var before := columns;
      for c := 0 to |row|
        invariant |columns| == |before| == |row| && nRows == old(nRows)
        invariant forall k :: c <= k < |columns| ==> columns[k] == before[k]
        invariant forall k :: 0 <= k < c ==> Pushed(fpu, before[k], row[k], columns[k])
      {
        assert before[c].Valid();
        var pushed := PushValue(fpu, columns[c], row[c]);
        if pushed.Err? {
          assert Coerce(fpu, row[c], before[c].Ty()).Err?;
          return Err(pushed.error);
        }
        columns := columns[c := pushed.value];
      }
      nRows := nRows + 1;
      forall k | 0 <= k < |columns| ensures columns[k].Valid() && columns[k].Len() == nRows && columns[k].Ty() == before[k].Ty() {
        assert Pushed(fpu, before[k], row[k], columns[k]);
      }
      forall i | 0 <= i < old(nRows) ensures Batch().RowAt(i) == old(Batch()).RowAt(i) {
        forall k | 0 <= k < |columns| ensures columns[k].ValueAt(i) == before[k].ValueAt(i) {
          assert Pushed(fpu, before[k], row[k], columns[k]);
        }
      }
      r := Ok(());
    }
  }

  /** `after` is `before` with the coerced value appended. */
  ghost predicate Pushed(fpu: Fpu, before: Column, v: Value, after: Column) {
    && before.Valid() && after.Valid() && after.Ty() == before.Ty() && after.Len() == before.Len() + 1
    && Coerce(fpu, v, before.Ty()).Ok? && after.ValueAt(before.Len()) == Coerce(fpu, v, before.Ty()).value
    && forall k: nat :: k < before.Len() ==> after.ValueAt(k) == before.ValueAt(k)
  }
}
