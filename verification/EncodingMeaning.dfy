/** What the primitive encodings stand for: byte order, little-endian numbers, UTF-8 and binary64, each
    against its own definition. */
module EncodingMeaning {
  import opened Bytes
  import opened Values
  import opened Expressions
  import opened Sequences

  // ---------------------------------------------------------------- byte order and integers

  /** `a` and `b` agree up to `k`, where `a` ends or holds the smaller byte. */
  ghost predicate DiffersAt(a: ByteString, b: ByteString, k: nat) {
    k <= |a| && k < |b| && a[..k] == b[..k] && (k == |a| || a[k] < b[k])
  }

  lemma SameFirst(a: ByteString, b: ByteString, k: nat)
    requires DiffersAt(a, b, k) && k > 0
    ensures a != [] && b != [] && a[0] == b[0]
  {
    assert a[..k][0] == b[..k][0];
  }

  /** Byte-lexicographic order is decided at the first difference. */
  lemma {:induction false} LessMeaning(a: ByteString, b: ByteString)
    ensures Less(a, b) <==> exists k: nat :: DiffersAt(a, b, k)
    decreases |a|
  {
    if a == [] || b == [] || a[0] != b[0] {
      assert Less(a, b) ==> DiffersAt(a, b, 0);
      if k: nat :| DiffersAt(a, b, k) { if k > 0 { SameFirst(a, b, k); } }
    } else {
      LessMeaning(a[1..], b[1..]);
      if k: nat :| DiffersAt(a[1..], b[1..], k) {
        assert a[..k + 1] == [a[0]] + a[1..][..k] && b[..k + 1] == [b[0]] + b[1..][..k];
        assert DiffersAt(a, b, k + 1);
      }
      if k: nat :| DiffersAt(a, b, k) {
        assert k > 0;
        assert a[1..][..k - 1] == a[..k][1..] && b[1..][..k - 1] == b[..k][1..];
        assert DiffersAt(a[1..], b[1..], k - 1);
      }
    }
  }

  /** The first `k` bytes, byte `i` weighing 256 to the `i`. */
  function WeightedSum(s: ByteString, k: nat): nat
    requires k <= |s|
  {
    if k == 0 then 0 else WeightedSum(s, k - 1) + s[k - 1] * Pow256(k - 1)
  }

  lemma {:induction false} FromLittleEndianSnoc(s: ByteString, b: byte)
    ensures FromLittleEndian(s + [b]) == FromLittleEndian(s) + b * Pow256(|s|)
  {
    if s == [] {
      assert [] + [b] == [b] && [b][1..] == [];
    } else {
      FromLittleEndianSnoc(s[1..], b);
      assert (s + [b])[1..] == s[1..] + [b];
      assert 256 * (b * Pow256(|s| - 1)) == b * Pow256(|s|);
    }
  }

  /** A little-endian string denotes its weighted sum, and a number that fits is written as the string that
      denotes it. */
  lemma LittleEndianMeaning(s: ByteString, n: nat, w: nat)
    ensures FromLittleEndian(s) == WeightedSum(s, |s|)
    ensures n < Pow256(w) ==> |LittleEndian(n, w)| == w && WeightedSum(LittleEndian(n, w), w) == n
  {
    FromIsSum(s, |s|);
    FromIsSum(LittleEndian(n, w), w);
    assert s[..|s|] == s && LittleEndian(n, w)[..w] == LittleEndian(n, w);
    if n < Pow256(w) { LittleEndianRoundTrip(n, w); }
  }

  lemma {:induction false} FromIsSum(s: ByteString, k: nat)
    requires k <= |s|
    ensures FromLittleEndian(s[..k]) == WeightedSum(s, k)
  {
    if k > 0 {
      FromIsSum(s, k - 1);
      assert s[..k] == s[..k - 1] + [s[k - 1]];
      FromLittleEndianSnoc(s[..k - 1], s[k - 1]);
    }
  }

  // ---------------------------------------------------------------- UTF-8

  /** A Unicode scalar value: a code point that is no surrogate. */
  predicate Scalar(c: nat) { c <= 0x10FFFF && !(0xD800 <= c <= 0xDFFF) }

  /** Section 3 of RFC 3629. */
  function EncodeScalar(c: nat): (r: ByteString)
    requires Scalar(c)
    ensures 1 <= |r| <= 4
  {
    if c < 0x80 then [c]
    else if c < 0x800 then [0xC0 + c / 64, 0x80 + c % 64]
    else if c < 0x10000 then [0xE0 + c / 4096, 0x80 + c / 64 % 64, 0x80 + c % 64]
    else [0xF0 + c / 262144, 0x80 + c / 4096 % 64, 0x80 + c / 64 % 64, 0x80 + c % 64]
  }

  ghost predicate Scalars(cs: seq<nat>) { forall i :: 0 <= i < |cs| ==> Scalar(cs[i]) }

  function EncodeScalars(cs: seq<nat>): ByteString
    requires Scalars(cs)
  {
    if cs == [] then [] else EncodeScalar(cs[0]) + EncodeScalars(cs[1..])
  }

  /** The scanner steps over exactly one encoded scalar. */
  lemma HeadOfEncoded(c: nat, rest: ByteString)
    requires Scalar(c)
    ensures Utf8Head(EncodeScalar(c) + rest) == |EncodeScalar(c)|
    ensures (EncodeScalar(c) + rest)[|EncodeScalar(c)|..] == rest
  {
    var e := EncodeScalar(c);
    var s := e + rest;
    assert forall i :: 0 <= i < |e| ==> s[i] == e[i];
  }

  /** The base-64 digits of a number. */
  lemma Digits(a: nat, b: nat, c: nat, d: nat)
    requires b < 64 && c < 64 && d < 64
    ensures var n := a * 262144 + b * 4096 + c * 64 + d;
            n / 262144 == a && n / 4096 % 64 == b && n / 64 % 64 == c && n % 64 == d
  {
    var n := a * 262144 + b * 4096 + c * 64 + d;
    var high := a * 4096 + b * 64 + c;
    assert n == 64 * high + d && n / 64 == high && high % 64 == c;
    var higher := a * 64 + b;
    assert high == 64 * higher + c && n / 4096 == higher && higher % 64 == b;
    assert n / 262144 == a;
  }

  lemma TwoBytes(s: ByteString) returns (c: nat)
    requires Utf8Head(s) == 2
    ensures Scalar(c) && s[..2] == EncodeScalar(c)
  {
    var a: int, d: int := s[0] - 0xC0, s[1] - 0x80;
    c := a * 64 + d;
    Digits(0, 0, a, d);
    assert 0x80 <= c < 0x800 && c / 64 == a && c % 64 == d;
  }

  lemma ThreeBytes(s: ByteString) returns (c: nat)
    requires Utf8Head(s) == 3
    ensures Scalar(c) && s[..3] == EncodeScalar(c)
  {
    var a: int, b: int, d: int := s[0] - 0xE0, s[1] - 0x80, s[2] - 0x80;
    hide Utf8Head;
    c := a * 4096 + b * 64 + d;
    Digits(0, a, b, d);
    assert 0x800 <= c < 0x10000 && c / 4096 == a && c / 64 % 64 == b && c % 64 == d;
  }

  lemma FourBytes(s: ByteString) returns (c: nat)
    requires Utf8Head(s) == 4
    ensures Scalar(c) && s[..4] == EncodeScalar(c)
  {
    var a: int, b: int, x: int, d: int := s[0] - 0xF0, s[1] - 0x80, s[2] - 0x80, s[3] - 0x80;
    hide Utf8Head;
    c := a * 262144 + b * 4096 + x * 64 + d;
    Digits(a, b, x, d);
    assert 0x10000 <= c < 0x110000;
  }

  /** What the scanner steps over is an encoded scalar. */
  lemma HeadIsEncoded(s: ByteString) returns (c: nat)
    requires Utf8Head(s) > 0
    ensures Scalar(c) && s[..Utf8Head(s)] == EncodeScalar(c)
  {
    var n := Utf8Head(s);
    if n == 2 { c := TwoBytes(s); }
    else if n == 3 { c := ThreeBytes(s); }
    else if n == 4 { c := FourBytes(s); }
    else { c := s[0]; }
  }

  lemma {:induction false} EncodedIsValid(cs: seq<nat>)
    requires Scalars(cs)
    ensures ValidUtf8(EncodeScalars(cs))
  {
    hide EncodeScalar, Utf8Head;
    if cs != [] {
      EncodedIsValid(cs[1..]);
      HeadOfEncoded(cs[0], EncodeScalars(cs[1..]));
    }
  }

  lemma {:induction false} ValidIsEncoded(s: ByteString) returns (cs: seq<nat>)
    requires ValidUtf8(s)
    ensures Scalars(cs) && EncodeScalars(cs) == s
    decreases |s|
  {
    hide EncodeScalar, Utf8Head;
    cs := [];
    if s != [] {
      var n := Utf8Head(s);
      var c := HeadIsEncoded(s);
      var rest := ValidIsEncoded(s[n..]);
      cs := [c] + rest;
      assert cs[1..] == rest && s == s[..n] + s[n..];
    }
  }

  /** The decoder accepts a text exactly when it is the UTF-8 encoding of Unicode scalar values. */
  lemma ValidUtf8Iff(s: ByteString)
    ensures ValidUtf8(s) <==> exists cs :: Scalars(cs) && EncodeScalars(cs) == s
  {
    if ValidUtf8(s) { var cs := ValidIsEncoded(s); }
    if cs :| Scalars(cs) && EncodeScalars(cs) == s { EncodedIsValid(cs); }
  }

  // ---------------------------------------------------------------- binary64

  const TWO_52: nat := 0x10_0000_0000_0000

  function Pow2(n: nat): nat { if n == 0 then 1 else 2 * Pow2(n - 1) }

  /** The magnitude a pattern denotes, times 2 to the 1074, by section 3.4 of IEEE 754-2008: a biased
      exponent, and a significand whose leading bit is implicit unless the exponent is 0. Infinity comes out
      as the number one step past the largest. */
  function Denoted(magnitude: nat): nat {
    var exponent, fraction := magnitude / TWO_52, magnitude % TWO_52;
    if exponent == 0 then fraction else (TWO_52 + fraction) * Pow2(exponent - 1)
  }

  function SignedValue(bits: u64): int {
    if bits >= TWO_63 then 0 - Denoted(bits - TWO_63) else Denoted(bits)
  }

  lemma {:induction false} Pow2Grows(m: nat, n: nat)
    requires m <= n
    ensures 1 <= Pow2(m) <= Pow2(n)
    decreases n
  {
    if n > 0 { Pow2Grows(if m < n then m else n - 1, n - 1); }
  }

  lemma Scaled(x: nat, y: nat, p: nat)
    requires x < y && p >= 1
    ensures x * p < y * p
  {
  }

  lemma ScaledAtMost(x: nat, p: nat, q: nat)
    requires p <= q
    ensures x * p <= x * q
  {
  }

  /** Below the next exponent's smallest number. */
  lemma BelowNext(magnitude: nat)
    ensures Denoted(magnitude) < TWO_52 * Pow2(magnitude / TWO_52)
  {
    var exponent, fraction := magnitude / TWO_52, magnitude % TWO_52;
    Pow2Grows(exponent, exponent);
    if exponent > 0 {
      Pow2Grows(exponent - 1, exponent - 1);
      Scaled(TWO_52 + fraction, 2 * TWO_52, Pow2(exponent - 1));
      assert 2 * TWO_52 * Pow2(exponent - 1) == TWO_52 * Pow2(exponent);
    }
  }

  lemma DenotedGrows(m: nat, n: nat)
    requires m < n
    ensures Denoted(m) < Denoted(n)
  {
    var d, e := m / TWO_52, n / TWO_52;
    if d == e {
      if d > 0 {
        Pow2Grows(d - 1, d - 1);
        Scaled(TWO_52 + m % TWO_52, TWO_52 + n % TWO_52, Pow2(d - 1));
      }
    } else {
      BelowNext(m);
      Pow2Grows(d, e - 1);
      ScaledAtMost(TWO_52, Pow2(d), Pow2(e - 1));
      ScaledSum(TWO_52, n % TWO_52, Pow2(e - 1));
    }
  }

  lemma ScaledSum(x: nat, y: nat, p: nat)
    ensures x * p <= (x + y) * p
  {
  }

  /** The rank patterns are compared by orders them as the numbers they denote. */
  lemma RankIsNumericOrder(a: u64, b: u64)
    ensures NumericRank(a) < NumericRank(b) <==> SignedValue(a) < SignedValue(b)
    ensures NumericRank(a) == NumericRank(b) <==> SignedValue(a) == SignedValue(b)
  {
    var x, y := Magnitude(a), Magnitude(b);
    assert Denoted(0) == 0;
    if x < y { DenotedGrows(x, y); } else if y < x { DenotedGrows(y, x); }
    if x > 0 { DenotedGrows(0, x); }
    if y > 0 { DenotedGrows(0, y); }
    hide Denoted;
  }

  /** NaN has the largest exponent and a fraction. */
  lemma NaNMeaning(bits: u64)
    ensures IsNaN(bits) <==> (bits % TWO_63) / TWO_52 == 0x7FF && bits % TWO_52 != 0
  {
  }

  /** On REALs `<` and `=` compare the numbers denoted, and err exactly on NaN. */
  lemma RealComparison(fpu: Fpu, a: u64, b: u64)
    ensures EvalBinary(fpu, Lt, Real(a), Real(b)) == if IsNaN(a) || IsNaN(b) then Err(Exec) else Ok(Bool(SignedValue(a) < SignedValue(b)))
    ensures EvalBinary(fpu, Eq, Real(a), Real(b)) == if IsNaN(a) || IsNaN(b) then Err(Exec) else Ok(Bool(SignedValue(a) == SignedValue(b)))
  {
    RankIsNumericOrder(a, b);
    hide SignedValue, NumericRank, IsNaN;
  }

  // ---------------------------------------------------------------- ORDER BY on values

  /** ORDER BY puts NULL first, then truth values, numbers and texts; FALSE before TRUE, numbers by size and
      texts by bytes. Of REALs the negative patterns come first, -0.0 before 0.0, and NaN beyond the infinity of
      its sign. */
  lemma OrderMeaning(fpu: Fpu, a: Value, b: Value)
    ensures a.Null? && !b.Null? ==> OrderValues(fpu, a, b) == LessThan
    ensures a.Bool? && b.Bool? ==> (OrderValues(fpu, a, b) == LessThan <==> !a.b && b.b)
    ensures a.Int? && b.Int? ==> (OrderValues(fpu, a, b) == LessThan <==> a.n < b.n)
    ensures a.Text? && b.Text? ==> (OrderValues(fpu, a, b) == LessThan <==> Less(a.bytes, b.bytes))
    ensures a.Real? && b.Real? && SignedValue(a.bits) < SignedValue(b.bits) ==> OrderValues(fpu, a, b) == LessThan
    ensures a.Real? && b.Real? && a.bits >= TWO_63 && b.bits < TWO_63 ==> OrderValues(fpu, a, b) == LessThan
    ensures a.Real? && b.Real? && (a.bits >= TWO_63) == (b.bits >= TWO_63) ==>
            (OrderValues(fpu, a, b) == LessThan <==> if a.bits >= TWO_63 then a.bits > b.bits else a.bits < b.bits)
    ensures a.Bool? && (b.Int? || b.Real? || b.Text?) ==> OrderValues(fpu, a, b) == LessThan
    ensures (a.Int? || a.Real?) && b.Text? ==> OrderValues(fpu, a, b) == LessThan
    ensures a.Int? && b.Real? ==> OrderValues(fpu, a, b) == OrderValues(fpu, Real(fpu.ofInt(a.n)), b)
  {
    if a.Real? && b.Real? {
      RankIsNumericOrder(a.bits, b.bits);
      hide SignedValue;
    }
  }
}
