/** Byte strings, their lexicographic order, and fixed-width integer encodings. */
module Bytes {

  type byte = n: int | 0 <= n < 256
  type ByteString = seq<byte>

  const TWO_63: nat := 0x8000_0000_0000_0000
  const TWO_64: nat := 0x1_0000_0000_0000_0000
  const TWO_32: nat := 0x1_0000_0000
  const TWO_16: nat := 0x1_0000

  type u64 = n: int | 0 <= n < 0x1_0000_0000_0000_0000
  type u32 = n: int | 0 <= n < 0x1_0000_0000
  type i64 = n: int | -0x8000_0000_0000_0000 <= n < 0x8000_0000_0000_0000

  datatype Option<+T> = None | Some(value: T)

  /** The errors the engine distinguishes where the model needs them. */
  datatype Error = Exec | Corruption | Conflict | Serialization

  datatype Result<+T> = Ok(value: T) | Err(error: Error)

  // ---------------------------------------------------------------- order

  /** Strict byte-lexicographic order, the order B+tree keys are compared in. */
  predicate Less(a: ByteString, b: ByteString)
    decreases |a|
  {
    b != [] && (a == [] || a[0] < b[0] || (a[0] == b[0] && Less(a[1..], b[1..])))
  }

  predicate AtMost(a: ByteString, b: ByteString) {
    !Less(b, a)
  }

  predicate IsPrefix(p: ByteString, s: ByteString) {
    |p| <= |s| && s[..|p|] == p
  }

  lemma PrefixAt(p: ByteString, s: ByteString, k: nat)
    requires k < |p| && k < |s|
    ensures IsPrefix(p, s) ==> s[k] == p[k]
  {
    if IsPrefix(p, s) { assert s[..|p|][k] == p[k]; }
  }

  lemma PrefixOfConcat(p: ByteString, a: ByteString, x: ByteString)
    ensures IsPrefix(p, a + x) ==> IsPrefix(p, a) || IsPrefix(a, p)
  {
    if IsPrefix(p, a + x) {
      if |p| <= |a| { assert a[..|p|] == (a + x)[..|p|]; }
      else { assert p[..|a|] == (a + x)[..|p|][..|a|]; }
    }
  }

  lemma {:induction false} LessIrreflexive(a: ByteString)
    ensures !Less(a, a)
  {
    if a != [] { LessIrreflexive(a[1..]); }
  }

  lemma {:induction false} LessTotal(a: ByteString, b: ByteString)
    ensures Less(a, b) || a == b || Less(b, a)
  {
    if a != [] && b != [] && a[0] == b[0] {
      LessTotal(a[1..], b[1..]);
      assert a == [a[0]] + a[1..] && b == [b[0]] + b[1..];
    }
  }

  lemma {:induction false} LessTransitive(a: ByteString, b: ByteString, c: ByteString)
    requires Less(a, b) && Less(b, c)
    ensures Less(a, c)
  {
    if a != [] && a[0] == b[0] && b[0] == c[0] {
      LessTransitive(a[1..], b[1..], c[1..]);
    }
  }

  lemma LessAsymmetric(a: ByteString, b: ByteString)
    requires Less(a, b)
    ensures !Less(b, a)
  {
    if Less(b, a) {
      LessTransitive(a, b, a);
      LessIrreflexive(a);
    }
  }

  lemma LessAtMost(a: ByteString, b: ByteString, c: ByteString)
    requires Less(a, b) && AtMost(b, c)
    ensures Less(a, c)
  {
    LessTotal(b, c);
    if Less(b, c) { LessTransitive(a, b, c); }
  }

  lemma AtMostTransitive(a: ByteString, b: ByteString, c: ByteString)
    requires AtMost(a, b) && AtMost(b, c)
    ensures AtMost(a, c)
  {
    if Less(c, a) { LessAtMost(c, a, b); }
  }

  /** A shared prefix never decides a comparison. */
  lemma {:induction false} LessCommonPrefix(p: ByteString, a: ByteString, b: ByteString)
    ensures Less(p + a, p + b) <==> Less(a, b)
  {
    if p == [] {
      assert p + a == a && p + b == b;
    } else {
      LessCommonPrefix(p[1..], a, b);
      assert (p + a)[1..] == p[1..] + a && (p + b)[1..] == p[1..] + b;
    }
  }

  /** Once neither string is a prefix of the other, what follows cannot change the verdict. */
  lemma {:induction false} LessDecidedByHeads(a: ByteString, b: ByteString, x: ByteString, y: ByteString)
    requires !IsPrefix(a, b) && !IsPrefix(b, a)
    ensures Less(a + x, b + y) <==> Less(a, b)
  {
    assert a != [] && b != [];
    assert (a + x)[1..] == a[1..] + x && (b + y)[1..] == b[1..] + y;
    if a[0] == b[0] {
      assert a == [a[0]] + a[1..] && b == [b[0]] + b[1..];
      LessDecidedByHeads(a[1..], b[1..], x, y);
    }
  }

  /** Heads of equal length are compared first, then the tails. */
  lemma LessEqualLengthHeads(a: ByteString, b: ByteString, x: ByteString, y: ByteString)
    requires |a| == |b|
    ensures Less(a + x, b + y) <==> Less(a, b) || (a == b && Less(x, y))
  {
    if a == b {
      LessCommonPrefix(a, x, y);
      LessIrreflexive(a);
    } else {
      assert !IsPrefix(a, b) && !IsPrefix(b, a) by {
        assert a[..|b|] == a && b[..|a|] == b;
      }
      LessDecidedByHeads(a, b, x, y);
    }
  }

  lemma {:induction false} PrefixIsAtMost(p: ByteString, s: ByteString)
    requires IsPrefix(p, s)
    ensures AtMost(p, s)
  {
    if p != [] {
      assert s[0] == s[..|p|][0] == p[0];
      assert s[1..][..|p[1..]|] == s[..|p|][1..];
      PrefixIsAtMost(p[1..], s[1..]);
    }
  }

  // ---------------------------------------------------------------- sorted key runs

  /** Strictly ascending keys: what a B+tree scan yields. */
  ghost predicate StrictlySorted(keys: seq<ByteString>) {
    forall i, j :: 0 <= i < j < |keys| ==> Less(keys[i], keys[j])
  }

  // ---------------------------------------------------------------- integers

  function Pow256(w: nat): nat {
    if w == 0 then 1 else 256 * Pow256(w - 1)
  }

  lemma Pow256Values()
    ensures Pow256(2) == TWO_16 && Pow256(4) == TWO_32 && Pow256(8) == TWO_64
  {
    assert Pow256(1) == 256 * Pow256(0);
    assert Pow256(3) == 256 * Pow256(2);
    assert Pow256(5) == 256 * Pow256(4);
    assert Pow256(6) == 256 * Pow256(5);
    assert Pow256(7) == 256 * Pow256(6);
  }

  /** The low `w` bytes of `n`, most significant first. */
  function BigEndian(n: nat, w: nat): (r: ByteString)
    ensures |r| == w
  {
    if w == 0 then [] else BigEndian(n / 256, w - 1) + [n % 256]
  }

  /** The low `w` bytes of `n`, least significant first. */
  function LittleEndian(n: nat, w: nat): (r: ByteString)
    ensures |r| == w
  {
    if w == 0 then [] else [n % 256] + LittleEndian(n / 256, w - 1)
  }

  function FromLittleEndian(s: ByteString): nat {
    if s == [] then 0 else s[0] + 256 * FromLittleEndian(s[1..])
  }

  lemma {:induction false} BigEndianInjective(n: nat, m: nat, w: nat)
    requires n < Pow256(w) && m < Pow256(w)
    requires BigEndian(n, w) == BigEndian(m, w)
    ensures n == m
  {
    if w != 0 {
      var a, b := BigEndian(n / 256, w - 1), BigEndian(m / 256, w - 1);
      assert a == BigEndian(n, w)[..w - 1] && b == BigEndian(m, w)[..w - 1];
      assert n % 256 == BigEndian(n, w)[w - 1] && m % 256 == BigEndian(m, w)[w - 1];
      BigEndianInjective(n / 256, m / 256, w - 1);
    }
  }

  /** Big-endian byte order is numeric order. */
  lemma {:induction false} BigEndianOrder(n: nat, m: nat, w: nat)
    requires n < Pow256(w) && m < Pow256(w)
    ensures Less(BigEndian(n, w), BigEndian(m, w)) <==> n < m
  {
    if w != 0 {
      var a, b := BigEndian(n / 256, w - 1), BigEndian(m / 256, w - 1);
      BigEndianOrder(n / 256, m / 256, w - 1);
      LessEqualLengthHeads(a, b, [n % 256], [m % 256]);
      if a == b { BigEndianInjective(n / 256, m / 256, w - 1); }
    }
  }

  lemma {:induction false} LittleEndianRoundTrip(n: nat, w: nat)
    requires n < Pow256(w)
    ensures FromLittleEndian(LittleEndian(n, w)) == n
  {
    if w != 0 {
      LittleEndianRoundTrip(n / 256, w - 1);
      assert LittleEndian(n, w)[1..] == LittleEndian(n / 256, w - 1);
    }
  }

  lemma {:induction false} FromLittleEndianBound(s: ByteString)
    ensures FromLittleEndian(s) < Pow256(|s|)
  {
    if s != [] { FromLittleEndianBound(s[1..]); }
  }
}
