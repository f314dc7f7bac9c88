/** Order-preserving, self-delimiting index keys (engine/codec.rs, secondary-index part). */
module IndexKeys {
  import opened Bytes
  import opened Values
  import opened Sequences

  const IDX_NULL: byte := 0x00
  const IDX_BOOL: byte := 0x01
  const IDX_INT: byte := 0x02
  const IDX_REAL: byte := 0x03
  const IDX_TEXT: byte := 0x04

  // ---------------------------------------------------------------- encoding

  /** A signed 64-bit integer as the unsigned pattern that holds it. */
  function AsUnsigned(n: i64): u64 {
    if n < 0 then n + TWO_64 else n
  }

  function FlipSignBit(u: u64): u64 {
    if u < TWO_63 then u + TWO_63 else u - TWO_63
  }

  /** The remapping of IEEE 754 bits: complement a negative pattern, set the sign bit of the rest. */
  function OrderedBits(bits: u64): u64 {
    if SignBit(bits) then TWO_64 - 1 - bits else bits + TWO_63
  }

  /** TEXT body: each 0x00 becomes 0x00 0x01, and 0x00 0x00 ends the value. */
  function EscapeText(s: ByteString): ByteString {
    if s == [] then [0x00, 0x00]
    else (if s[0] == 0x00 then [0x00, 0x01] else [s[0]]) + EscapeText(s[1..])
  }

  function EncodeValue(v: Value): ByteString {
    match v
    case Null => [IDX_NULL]
    case Bool(b) => [IDX_BOOL, if b then 1 else 0]
    case Int(n) => [IDX_INT] + BigEndian(FlipSignBit(AsUnsigned(n)), 8)
    case Real(bits) => [IDX_REAL] + BigEndian(OrderedBits(bits), 8)
    case Text(s) => [IDX_TEXT] + EscapeText(s)
  }

  function EncodeTuple(vs: seq<Value>): ByteString {
    if vs == [] then [] else EncodeValue(vs[0]) + EncodeTuple(vs[1..])
  }

  predicate ColumnsInRange(columns: seq<nat>, width: nat) {
    forall i :: 0 <= i < |columns| ==> columns[i] < width
  }

  /** The values of `row` at the index's columns, in index order. */
  function Project(row: Row, columns: seq<nat>): (r: seq<Value>)
    requires ColumnsInRange(columns, |row|)
    ensures |r| == |columns|
    ensures forall i :: 0 <= i < |r| ==> r[i] == row[columns[i]]
  {
    seq(|columns|, i requires 0 <= i < |columns| => row[columns[i]])
  }

  lemma ProjectTail(row: Row, columns: seq<nat>)
    requires ColumnsInRange(columns, |row|) && columns != []
    ensures ColumnsInRange(columns[1..], |row|)
    ensures Project(row, columns)[0] == row[columns[0]] && Project(row, columns)[1..] == Project(row, columns[1..])
  {
  }

  /** The key of a row in an index: the encoded tuple, then the 8-byte rowid. */
  function IndexKey(row: Row, columns: seq<nat>, rowid: ByteString): ByteString
    requires ColumnsInRange(columns, |row|)
  {
    EncodeTuple(Project(row, columns)) + rowid
  }

  /** The text branch of `encode_index_value`, byte by byte. */
  method EncodeTextLoop(s: ByteString) returns (out: ByteString)
    ensures out == EncodeValue(Text(s))
  {
    out := [IDX_TEXT];
    for i := 0 to |s|
      invariant out + EscapeText(s[i..]) == EncodeValue(Text(s))
    {
      assert s[i..][0] == s[i] && s[i..][1..] == s[i + 1..];
      ghost var before := out;
      out := out + [s[i]];
      if s[i] == 0x00 { out := out + [0x01]; }
      assert out + EscapeText(s[i + 1..]) == before + EscapeText(s[i..]);
    }
    assert s[|s|..] == [];
    out := out + [0x00, 0x00];
  }

  lemma {:induction false} EncodeTupleSnoc(vs: seq<Value>, v: Value)
    ensures EncodeTuple(vs + [v]) == EncodeTuple(vs) + EncodeValue(v)
  {
    hide EncodeValue;
    if vs == [] {
      assert [v][1..] == [] && vs + [v] == [v];
    } else {
      EncodeTupleSnoc(vs[1..], v);
      assert (vs + [v])[1..] == vs[1..] + [v];
      ConcatAssoc(EncodeValue(vs[0]), EncodeTuple(vs[1..]), EncodeValue(v));
    }
  }

  lemma EncodeTupleStep(vs: seq<Value>, i: nat)
    requires i < |vs|
    ensures EncodeTuple(vs[..i + 1]) == EncodeTuple(vs[..i]) + EncodeValue(vs[i])
  {
    EncodeTupleSnoc(vs[..i], vs[i]);
    assert vs[..i + 1] == vs[..i] + [vs[i]];
  }

  lemma {:induction false} EncodeTupleSplit(vs: seq<Value>, k: nat)
    requires k <= |vs|
    ensures EncodeTuple(vs) == EncodeTuple(vs[..k]) + EncodeTuple(vs[k..])
  {
    hide EncodeValue;
    if k == 0 {
      assert vs[..0] == [] && vs[0..] == vs;
    } else {
      EncodeTupleSplit(vs[1..], k - 1);
      assert vs[..k][1..] == vs[1..][..k - 1] && vs[1..][k - 1..] == vs[k..];
      ConcatAssoc(EncodeValue(vs[0]), EncodeTuple(vs[..k][1..]), EncodeTuple(vs[k..]));
    }
  }

  /** `encode_index_key`: concatenate the encodings of the indexed columns, then the rowid. */
  method EncodeIndexKey(row: Row, columns: seq<nat>, rowid: ByteString) returns (key: ByteString)
    requires ColumnsInRange(columns, |row|)
    ensures key == IndexKey(row, columns, rowid)
  {
    ghost var vs := Project(row, columns);
    key := [];
    assert EncodeTuple(vs[..0]) == [];
    hide EncodeTuple, EncodeValue;
    for i := 0 to |columns|
      invariant key == EncodeTuple(vs[..i])
    {
      var encoded := EncodeValue(row[columns[i]]);
      if row[columns[i]].Text? { encoded := EncodeTextLoop(row[columns[i]].bytes); }
      EncodeTupleStep(vs, i);
      key := key + encoded;
    }
    assert vs[..|columns|] == vs;
    key := key + rowid;
  }

  // ---------------------------------------------------------------- one value

  lemma FlipSignBitOrders(n: i64)
    ensures FlipSignBit(AsUnsigned(n)) == n + TWO_63
  {
  }

  lemma OrderedBitsOrders(a: u64)
    ensures OrderedBits(a) == TotalOrderRank(a) + TWO_63
  {
  }

  /** Escaped texts: byte order is text order, and neither is a prefix of the other unless equal. */
  lemma {:induction false} EscapeTextOrder(s: ByteString, t: ByteString)
    ensures Less(EscapeText(s), EscapeText(t)) <==> Less(s, t)
    ensures s != t ==> !IsPrefix(EscapeText(s), EscapeText(t))
    decreases |s| + |t|
  {
    if s == [] || t == [] {
      EscapeEmptyOrder(s, t);
    } else if s[0] == t[0] {
      EscapeTextOrder(s[1..], t[1..]);
      EscapeSameHead(s, t);
    } else {
      EscapeTextHeads(s);
      EscapeTextHeads(t);
      PrefixAt(EscapeText(s), EscapeText(t), 0);
    }
  }

  lemma EscapeEmptyOrder(s: ByteString, t: ByteString)
    requires s == [] || t == []
    ensures Less(EscapeText(s), EscapeText(t)) <==> Less(s, t)
    ensures s != t ==> !IsPrefix(EscapeText(s), EscapeText(t))
  {
    var es, et := EscapeText(s), EscapeText(t);
    EscapeTextHeads(s);
    EscapeTextHeads(t);
    hide EscapeText;
    if s == t { LessIrreflexive(es); }
    else {
      assert es == [es[0], es[1]] + es[2..] && et == [et[0], et[1]] + et[2..];
      LessEqualLengthHeads([es[0], es[1]], [et[0], et[1]], es[2..], et[2..]);
      assert [es[0], es[1]][1..] == [es[1]] && [et[0], et[1]][1..] == [et[1]];
      PrefixAt(es, et, 0);
      PrefixAt(es, et, 1);
    }
  }

  lemma EscapeSameHead(s: ByteString, t: ByteString)
    requires s != [] && t != [] && s[0] == t[0]
    ensures Less(EscapeText(s), EscapeText(t)) <==> Less(EscapeText(s[1..]), EscapeText(t[1..]))
    ensures IsPrefix(EscapeText(s), EscapeText(t)) ==> IsPrefix(EscapeText(s[1..]), EscapeText(t[1..]))
    ensures Less(s, t) <==> Less(s[1..], t[1..])
    ensures s == t <==> s[1..] == t[1..]
  {
    var h: ByteString := if s[0] == 0x00 then [0x00, 0x01] else [s[0]];
    var es, et := EscapeText(s[1..]), EscapeText(t[1..]);
    LessCommonPrefix(h, es, et);
    assert s == [s[0]] + s[1..] && t == [t[0]] + t[1..];
    if IsPrefix(h + es, h + et) { assert et[..|es|] == (h + et)[..|h + es|][|h|..]; }
  }

  /** An escaped text is at least two bytes; its first two are 0x00 0x00 exactly for the empty text. */
  lemma EscapeTextHeads(s: ByteString)
    ensures |EscapeText(s)| >= 2
    ensures s == [] <==> EscapeText(s)[0] == 0x00 && EscapeText(s)[1] == 0x00
    ensures s != [] ==> EscapeText(s)[0] == s[0] && (s[0] == 0x00 ==> EscapeText(s)[1] == 0x01)
  {
    if s != [] { EscapeTextHeads(s[1..]); }
  }

  /** Byte order of encodings is `order_values` order, for two values of one column type. */
  lemma EncodeValueOrder(fpu: Fpu, a: Value, b: Value, ty: Type)
    requires HasType(a, ty) && HasType(b, ty)
    ensures Less(EncodeValue(a), EncodeValue(b)) <==> OrderValues(fpu, a, b) == LessThan
    ensures a != b ==> !IsPrefix(EncodeValue(a), EncodeValue(b))
  {
    var ea, eb := EncodeValue(a), EncodeValue(b);
    if a.Null? || b.Null? {
      PrefixAt(ea, eb, 0);
    } else if a.Int? {
      FlipSignBitOrders(a.n);
      FlipSignBitOrders(b.n);
      FixedWidthOrder(IDX_INT, FlipSignBit(AsUnsigned(a.n)), FlipSignBit(AsUnsigned(b.n)));
    } else if a.Real? {
      OrderedBitsOrders(a.bits);
      OrderedBitsOrders(b.bits);
      FixedWidthOrder(IDX_REAL, OrderedBits(a.bits), OrderedBits(b.bits));
    } else if a.Text? {
      EscapeTextOrder(a.bytes, b.bytes);
      LessCommonPrefix([IDX_TEXT], EscapeText(a.bytes), EscapeText(b.bytes));
      if IsPrefix(ea, eb) {
        assert eb[1..][..|ea| - 1] == eb[..|ea|][1..];
        assert IsPrefix(EscapeText(a.bytes), EscapeText(b.bytes));
      }
    } else {
      assert ea[1..][1..] == [] && eb[1..][1..] == [];
      LessCommonPrefix([IDX_BOOL], ea[1..], eb[1..]);
      assert ea == [IDX_BOOL] + ea[1..] && eb == [IDX_BOOL] + eb[1..];
      PrefixAt(ea, eb, 1);
    }
  }

  lemma FixedWidthOrder(tag: byte, n: u64, m: u64)
    ensures Less([tag] + BigEndian(n, 8), [tag] + BigEndian(m, 8)) <==> n < m
    ensures n != m ==> !IsPrefix([tag] + BigEndian(n, 8), [tag] + BigEndian(m, 8))
  {
    Pow256Values();
    BigEndianOrder(n, m, 8);
    LessCommonPrefix([tag], BigEndian(n, 8), BigEndian(m, 8));
    var a, b := [tag] + BigEndian(n, 8), [tag] + BigEndian(m, 8);
    if IsPrefix(a, b) {
      assert b == b[..|a|];
      assert a[1..] == BigEndian(n, 8) && b[1..] == BigEndian(m, 8);
      BigEndianInjective(n, m, 8);
    }
  }

  // ---------------------------------------------------------------- tuples

  predicate TupleHasTypes(vs: seq<Value>, types: seq<Type>) {
    |vs| <= |types| && forall i :: 0 <= i < |vs| ==> HasType(vs[i], types[i])
  }

  /** Lexicographic order of tuples under `order_values`. */
  predicate TupleLess(fpu: Fpu, a: seq<Value>, b: seq<Value>)
    requires |a| == |b|
  {
    a != [] && (OrderValues(fpu, a[0], b[0]) == LessThan ||
                (OrderValues(fpu, a[0], b[0]) == Equal && TupleLess(fpu, a[1..], b[1..])))
  }

  /** Byte order of keys is tuple order, the bytes after the tuples breaking ties. */
  lemma {:induction false} EncodeTupleOrder(fpu: Fpu, a: seq<Value>, b: seq<Value>, types: seq<Type>,
                                            x: ByteString, y: ByteString)
    requires |a| == |b| && TupleHasTypes(a, types) && TupleHasTypes(b, types)
    ensures Less(EncodeTuple(a) + x, EncodeTuple(b) + y) <==> TupleLess(fpu, a, b) || (a == b && Less(x, y))
  {
    hide EncodeValue, OrderValues, Less;
    if a == [] {
      assert EncodeTuple(a) + x == x && EncodeTuple(b) + y == y;
    } else {
      var ta, tb := EncodeTuple(a[1..]) + x, EncodeTuple(b[1..]) + y;
      ConcatAssoc(EncodeValue(a[0]), EncodeTuple(a[1..]), x);
      ConcatAssoc(EncodeValue(b[0]), EncodeTuple(b[1..]), y);
      assert a == [a[0]] + a[1..] && b == [b[0]] + b[1..];
      OrderValuesAntisymmetric(fpu, a[0], b[0], types[0]);
      if a[0] == b[0] {
        LessCommonPrefix(EncodeValue(a[0]), ta, tb);
        EncodeTupleOrder(fpu, a[1..], b[1..], types[1..], x, y);
      } else {
        EncodeValueOrder(fpu, a[0], b[0], types[0]);
        EncodeValueOrder(fpu, b[0], a[0], types[0]);
        LessDecidedByHeads(EncodeValue(a[0]), EncodeValue(b[0]), ta, tb);
      }
    }
  }

  /** Equal encodings come from equal tuples. */
  lemma EncodeTupleInjective(fpu: Fpu, a: seq<Value>, b: seq<Value>, types: seq<Type>)
    requires |a| == |b| && TupleHasTypes(a, types) && TupleHasTypes(b, types)
    requires EncodeTuple(a) == EncodeTuple(b)
    ensures a == b
  {
    LessIrreflexive(EncodeTuple(a));
    EncodeTupleOrder(fpu, a, b, types, [], []);
    EncodeTupleOrder(fpu, b, a, types, [], []);
    assert EncodeTuple(a) + [] == EncodeTuple(a);
    TupleLessTotal(fpu, a, b, types);
  }

  lemma {:induction false} TupleLessTotal(fpu: Fpu, a: seq<Value>, b: seq<Value>, types: seq<Type>)
    requires |a| == |b| && TupleHasTypes(a, types) && TupleHasTypes(b, types)
    ensures TupleLess(fpu, a, b) || a == b || TupleLess(fpu, b, a)
  {
    if a != [] {
      OrderValuesAntisymmetric(fpu, a[0], b[0], types[0]);
      TupleLessTotal(fpu, a[1..], b[1..], types[1..]);
      assert a == [a[0]] + a[1..] && b == [b[0]] + b[1..];
    }
  }

  /** Distinct rowids give distinct keys, whatever the rows hold. */
  lemma IndexKeyDeterminesRowid(r1: Row, r2: Row, columns: seq<nat>, id1: ByteString, id2: ByteString)
    requires ColumnsInRange(columns, |r1|) && ColumnsInRange(columns, |r2|)
    requires |id1| == |id2| == 8
    requires IndexKey(r1, columns, id1) == IndexKey(r2, columns, id2)
    ensures id1 == id2
  {
    var k1, k2 := IndexKey(r1, columns, id1), IndexKey(r2, columns, id2);
    assert k1[|k1| - 8..] == id1 && k2[|k2| - 8..] == id2;
  }

  lemma IndexKeyEndsWithRowid(row: Row, columns: seq<nat>, rowid: ByteString)
    requires ColumnsInRange(columns, |row|) && |rowid| == 8
    ensures |IndexKey(row, columns, rowid)| >= 8
    ensures IndexKey(row, columns, rowid)[|IndexKey(row, columns, rowid)| - 8..] == rowid
  {
  }

  // ---------------------------------------------------------------- upper bound of a prefix

  /** The specification of `prefix_upper_bound`: drop trailing 0xFF bytes, bump the last one left. */
  function UpperBound(p: ByteString): Option<ByteString> {
    if p == [] then None
    else if p[|p| - 1] != 0xFF then Some(p[..|p| - 1] + [p[|p| - 1] + 1])
    else UpperBound(p[..|p| - 1])
  }

  /** The pop-and-bump loop of `prefix_upper_bound`. */
  method PrefixUpperBound(prefix: ByteString) returns (r: Option<ByteString>)
    ensures r == UpperBound(prefix)
  {
    var bound := prefix;
    while bound != []
      invariant UpperBound(bound) == UpperBound(prefix)
      decreases |bound|
    {
      var last := bound[|bound| - 1];
      bound := bound[..|bound| - 1];
      if last != 0xFF { return Some(bound + [last + 1]); }
    }
    r := None;
  }

  predicate AllFF(p: ByteString) { forall i :: 0 <= i < |p| ==> p[i] == 0xFF }

  /** `s` is below the bound exactly when it is below the prefix or starts with it; there is no
      bound exactly when the prefix is empty or all 0xFF. */
  lemma {:induction false} UpperBoundIsExact(p: ByteString, s: ByteString)
    ensures UpperBound(p).None? <==> AllFF(p)
    ensures UpperBound(p).Some? ==> (Less(s, UpperBound(p).value) <==> Less(s, p) || IsPrefix(p, s))
    ensures UpperBound(p).None? ==> Less(s, p) || IsPrefix(p, s)
  {
    if p != [] {
      var h, last := p[..|p| - 1], p[|p| - 1];
      assert p == h + [last];
      if last != 0xFF {
        assert !AllFF(p) by { assert p[|p| - 1] != 0xFF; }
        BumpedLast(h, last, s);
      } else {
        UpperBoundIsExact(h, s);
        assert AllFF(p) <==> AllFF(h);
        SplitAtMaximalByte(h, s);
      }
    }
  }

  /** Bumping the last byte of `h + [last]` steps past exactly the strings that start with it. */
  lemma {:induction false} BumpedLast(h: ByteString, last: byte, s: ByteString)
    requires last != 0xFF
    ensures Less(s, h + [last + 1]) <==> Less(s, h + [last]) || IsPrefix(h + [last], s)
  {
    if h == [] {
      assert h + [last + 1] == [last + 1] && h + [last] == [last];
      assert [last + 1][1..] == [] && [last][1..] == [];
      if s != [] { assert IsPrefix([last], s) <==> s[0] == last; }
    } else {
      assert (h + [last + 1])[1..] == h[1..] + [last + 1] && (h + [last])[1..] == h[1..] + [last];
      if s != [] && s[0] == h[0] {
        BumpedLast(h[1..], last, s[1..]);
        PrefixStep(h + [last], s);
      } else if s != [] {
        PrefixAt(h + [last], s, 0);
      }
    }
  }

  lemma PrefixStep(p: ByteString, s: ByteString)
    requires p != [] && s != [] && p[0] == s[0]
    ensures IsPrefix(p, s) <==> IsPrefix(p[1..], s[1..])
  {
    assert p == [p[0]] + p[1..] && s == [s[0]] + s[1..];
    if IsPrefix(p[1..], s[1..]) { assert s[..|p|] == [s[0]] + s[1..][..|p| - 1]; }
    if IsPrefix(p, s) { assert s[1..][..|p| - 1] == s[..|p|][1..]; }
  }

  /** Below `h` or starting with it is the same as below `h + [0xFF]` or starting with it. */
  lemma {:induction false} SplitAtMaximalByte(h: ByteString, s: ByteString)
    ensures Less(s, h) || IsPrefix(h, s) <==> Less(s, h + [0xFF]) || IsPrefix(h + [0xFF], s)
  {
    if h == [] {
      assert h + [0xFF] == [0xFF] && [0xFF][1..] == [];
      assert s[..0] == [];
      if s != [] && s[0] == 0xFF { assert s[..1] == [0xFF]; }
    } else if s != [] {
      assert (h + [0xFF])[1..] == h[1..] + [0xFF];
      if s[0] == h[0] {
        SplitAtMaximalByte(h[1..], s[1..]);
        PrefixStep(h, s);
        PrefixStep(h + [0xFF], s);
      } else {
        PrefixAt(h, s, 0);
        PrefixAt(h + [0xFF], s, 0);
      }
    }
  }
}
