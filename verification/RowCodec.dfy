/** The byte form of stored and spilled rows (engine/codec.rs, row part). */
module RowCodec {
  import opened Bytes
  import opened Values
  import opened IndexKeys
  import opened Sequences

  const TAG_NULL: byte := 0
  const TAG_INT: byte := 1
  const TAG_REAL: byte := 2
  const TAG_TEXT: byte := 3
  const TAG_BOOL: byte := 4

  /** One value: a tag, then its little-endian payload; a text carries the low 32 bits of its length. */
  function EncodeTagged(v: Value): ByteString {
    match v
    case Null => [TAG_NULL]
    case Int(n) => [TAG_INT] + LittleEndian(AsUnsigned(n), 8)
    case Real(bits) => [TAG_REAL] + LittleEndian(bits, 8)
    case Text(s) => [TAG_TEXT] + LittleEndian(|s|, 4) + s
    case Bool(b) => [TAG_BOOL, if b then 1 else 0]
  }

  function EncodeValues(vs: seq<Value>): ByteString {
    if vs == [] then [] else EncodeTagged(vs[0]) + EncodeValues(vs[1..])
  }

  function EncodeRow(txMin: u64, txMax: u64, vs: seq<Value>): ByteString {
    LittleEndian(txMin, 8) + LittleEndian(txMax, 8) + EncodeValues(vs)
  }

  /** A stored row starts with its creator and its deleter, eight bytes each. */
  lemma RowHeader(txMin: u64, txMax: u64, vs: seq<Value>)
    ensures var s := EncodeRow(txMin, txMax, vs);
            |s| >= 16 && FromLittleEndian(s[..8]) == txMin && FromLittleEndian(s[8..16]) == txMax && s[16..] == EncodeValues(vs)
  {
    Pow256Values();
    LittleEndianRoundTrip(txMin, 8);
    LittleEndianRoundTrip(txMax, 8);
    hide LittleEndian, FromLittleEndian, EncodeValues;
    var s := EncodeRow(txMin, txMax, vs);
    assert s[..8] == LittleEndian(txMin, 8) && s[8..16] == LittleEndian(txMax, 8);
  }

  lemma {:induction false} EncodeValuesSnoc(vs: seq<Value>, v: Value)
    ensures EncodeValues(vs + [v]) == EncodeValues(vs) + EncodeTagged(v)
  {
    hide EncodeTagged;
    if vs == [] {
      assert vs + [v] == [v] && [v][1..] == [];
      assert EncodeTagged(v) + [] == EncodeTagged(v);
    } else {
      EncodeValuesSnoc(vs[1..], v);
      assert (vs + [v])[1..] == vs[1..] + [v];
      ConcatAssoc(EncodeTagged(vs[0]), EncodeValues(vs[1..]), EncodeTagged(v));
    }
  }

  /** The column loop of `encode_values` and, after a header, of `encode_row`. */
  method AppendValues(header: ByteString, values: Row) returns (out: ByteString)
    ensures out == header + EncodeValues(values)
  {
    hide EncodeTagged;
    out := header;
    for i := 0 to |values|
      invariant out == header + EncodeValues(values[..i])
    {
      EncodeValuesSnoc(values[..i], values[i]);
      assert values[..i + 1] == values[..i] + [values[i]];
      ConcatAssoc(header, EncodeValues(values[..i]), EncodeTagged(values[i]));
      out := out + EncodeTagged(values[i]);
    }
    assert values[..|values|] == values;
  }

  method EncodeRowBytes(txMin: u64, txMax: u64, values: Row) returns (out: ByteString)
    ensures out == EncodeRow(txMin, txMax, values)
  {
    out := AppendValues(LittleEndian(txMin, 8) + LittleEndian(txMax, 8), values);
  }

  function AsSigned(u: u64): i64 {
    if u < TWO_63 then u else u - TWO_64
  }

  /** A cursor over encoded bytes. */
  class Reader {
    const data: ByteString
    var pos: nat

    ghost predicate Valid() reads this { pos <= |data| }

    /** The bytes not yet read. */
    ghost function Rest(): ByteString reads this requires Valid() { data[pos..] }

    constructor (bytes: ByteString)
      ensures Valid() && data == bytes && pos == 0 && Rest() == bytes
    {
      data, pos := bytes, 0;
    }

    method Take(n: nat) returns (r: Result<ByteString>)
      requires Valid()
      modifies this
      ensures Valid()
      ensures if n <= |old(Rest())| then r == Ok(old(Rest())[..n]) && Rest() == old(Rest())[n..]
              else r == Err(Corruption) && Rest() == old(Rest())
    {
      if pos + n > |data| { return Err(Corruption); }
      assert data[pos..][..n] == data[pos..pos + n] && data[pos..][n..] == data[pos + n..];
      r := Ok(data[pos..pos + n]);
      pos := pos + n;
    }

    /** `width` bytes as a little-endian number: `u8`, `u32` and `u64`. */
    method Number(width: nat) returns (r: Result<nat>)
      requires Valid()
      modifies this
      ensures Valid()
      ensures if width <= |old(Rest())|
              then r == Ok(FromLittleEndian(old(Rest())[..width])) && Rest() == old(Rest())[width..]
              else r == Err(Corruption)
    {
      var taken := Take(width);
      r := match taken case Ok(s) => Ok(FromLittleEndian(s)) case Err(e) => Err(e);
    }

    method IsEmpty() returns (r: bool)
      requires Valid()
      ensures r <==> Rest() == []
    {
      r := pos >= |data|;
    }
  }

  // ---------------------------------------------------------------- decoding

  /** One value from the front of `s`, and the bytes after it. */
  function ParseValue(s: ByteString): Result<(Value, ByteString)> {
    if s == [] then Err(Corruption)
    else
      var tag, body := s[0], s[1..];
      if tag == TAG_NULL then Ok((Null, body))
      else if tag == TAG_INT || tag == TAG_REAL then
        if |body| < 8 then Err(Corruption)
        else
          var n := FromLittleEndian(body[..8]);
          NumberFits(body[..8]);
          Ok((if tag == TAG_INT then Int(AsSigned(n)) else Real(n), body[8..]))
      else if tag == TAG_TEXT then
        if |body| < 4 then Err(Corruption) else ParseText(FromLittleEndian(body[..4]), body[4..])
      else if tag == TAG_BOOL then
        if body == [] then Err(Corruption) else Ok((Bool(body[0] != 0), body[1..]))
      else Err(Corruption)
  }

  function ParseText(n: nat, s: ByteString): Result<(Value, ByteString)> {
    if |s| < n || !ValidUtf8(s[..n]) then Err(Corruption) else Ok((Text(s[..n]), s[n..]))
  }

  lemma NumberFits(s: ByteString)
    requires |s| == 8
    ensures FromLittleEndian(s) < TWO_64
  {
    Pow256Values();
    FromLittleEndianBound(s);
  }

  function ParseValues(s: ByteString, count: nat): Result<(seq<Value>, ByteString)>
    decreases count
  {
    if count == 0 then Ok(([], s))
    else
      match ParseValue(s)
      case Err(e) => Err(e)
      case Ok((v, rest)) =>
        match ParseValues(rest, count - 1)
        case Err(e) => Err(e)
        case Ok((vs, left)) => Ok(([v] + vs, left))
  }

  /** Exactly `count` values and nothing after them. */
  function Decode(s: ByteString, count: nat): Result<seq<Value>> {
    match ParseValues(s, count)
    case Ok((vs, rest)) => if rest == [] then Ok(vs) else Err(Corruption)
    case Err(e) => Err(e)
  }

  datatype RowRecord = RowRecord(txMin: u64, txMax: u64, values: Row)

  function DecodeRecord(s: ByteString, count: nat): Result<RowRecord> {
    if |s| < 16 then Err(Corruption)
    else
      NumberFits(s[..8]);
      NumberFits(s[8..16]);
      match Decode(s[16..], count)
      case Ok(vs) => Ok(RowRecord(FromLittleEndian(s[..8]), FromLittleEndian(s[8..16]), vs))
      case Err(e) => Err(e)
  }

  method ReadValue(reader: Reader) returns (r: Result<Value>)
    requires reader.Valid()
    modifies reader
    ensures reader.Valid()
    ensures match ParseValue(old(reader.Rest()))
            case Ok((v, rest)) => r == Ok(v) && reader.Rest() == rest
            case Err(e) => r == Err(e)
  {
    ghost var start := reader.Rest();
    var tag := reader.Number(1);
    if tag.Err? { return Err(Corruption); }
    assert start[..1] == [start[0]] && start[..1][1..] == [];
    assert tag.value == start[0];
    ghost var body := reader.Rest();
    if tag.value == TAG_NULL { return Ok(Null); }
    if tag.value == TAG_INT || tag.value == TAG_REAL {
      var n := reader.Number(8);
      if n.Err? { return Err(Corruption); }
      NumberFits(body[..8]);
      return Ok(if tag.value == TAG_INT then Int(AsSigned(n.value)) else Real(n.value));
    }
    if tag.value == TAG_TEXT {
      var n := reader.Number(4);
      if n.Err? { return Err(Corruption); }
      var raw := reader.Take(n.value);
      if raw.Err? { return Err(Corruption); }
      if !ValidUtf8(raw.value) { return Err(Corruption); }
      return Ok(Text(raw.value));
    }
    if tag.value == TAG_BOOL {
      var flag := reader.Number(1);
      if flag.Err? { return Err(Corruption); }
      assert body[..1] == [body[0]] && body[..1][1..] == [];
      return Ok(Bool(flag.value != 0));
    }
    r := Err(Corruption);
  }

  /** What parsing yields once `values` have already been read. */
  function After(values: seq<Value>, p: Result<(seq<Value>, ByteString)>): Result<(seq<Value>, ByteString)> {
    match p
    case Ok((vs, rest)) => Ok((values + vs, rest))
    case Err(e) => Err(e)
  }

  lemma AfterNothing(p: Result<(seq<Value>, ByteString)>)
    ensures After([], p) == p
  {
    if p.Ok? { assert [] + p.value.0 == p.value.0; }
  }

  lemma AfterOneMore(values: seq<Value>, s: ByteString, count: nat)
    requires count > 0 && ParseValue(s).Ok?
    ensures var (v, rest) := ParseValue(s).value;
            After(values, ParseValues(s, count)) == After(values + [v], ParseValues(rest, count - 1))
  {
    var (v, rest) := ParseValue(s).value;
    var p := ParseValues(rest, count - 1);
    if p.Ok? { assert values + ([v] + p.value.0) == (values + [v]) + p.value.0; }
  }

  /** The column loop shared by `decode_values` and `decode_row`. */
  method ReadValues(reader: Reader, count: nat) returns (r: Result<seq<Value>>)
    requires reader.Valid()
    modifies reader
    ensures reader.Valid()
    ensures r == Decode(old(reader.Rest()), count)
  {
    hide ParseValue;
    ghost var start := reader.Rest();
    var values: seq<Value> := [];
    AfterNothing(ParseValues(start, count));
    for i := 0 to count
      invariant reader.Valid()
      invariant ParseValues(start, count) == After(values, ParseValues(reader.Rest(), count - i))
    {
      ghost var before, rest := values, reader.Rest();
      var v := ReadValue(reader);
      if v.Err? { return Err(v.error); }
      values := values + [v.value];
      AfterOneMore(before, rest, count - i);
    }
    var done := reader.IsEmpty();
    if !done { return Err(Corruption); }
    assert values + [] == values;
    r := Ok(values);
  }

  method DecodeValues(bytes: ByteString, count: nat) returns (r: Result<seq<Value>>)
    ensures r == Decode(bytes, count)
  {
    var reader := new Reader(bytes);
    r := ReadValues(reader, count);
  }

  method DecodeRow(bytes: ByteString, count: nat) returns (r: Result<RowRecord>)
    ensures r == DecodeRecord(bytes, count)
  {
    var reader := new Reader(bytes);
    var txMin := reader.Number(8);
    if txMin.Err? { return Err(Corruption); }
    var txMax := reader.Number(8);
    if txMax.Err? { return Err(Corruption); }
    assert bytes[8..][..8] == bytes[8..16] && bytes[8..][8..] == bytes[16..];
    NumberFits(bytes[..8]);
    NumberFits(bytes[8..16]);
    var values := ReadValues(reader, count);
    r := match values case Ok(vs) => Ok(RowRecord(txMin.value, txMax.value, vs)) case Err(e) => Err(e);
  }

  // ---------------------------------------------------------------- round trip

  /** A value its encoding can represent: well-formed text shorter than 2^32 bytes. */
  predicate Storable(v: Value) {
    v.Text? ==> |v.bytes| < TWO_32 && ValidUtf8(v.bytes)
  }

  predicate StorableRow(vs: seq<Value>) {
    forall i :: 0 <= i < |vs| ==> Storable(vs[i])
  }

  lemma SplitHead(a: ByteString, b: ByteString)
    ensures (a + b)[..|a|] == a && (a + b)[|a|..] == b
  {
  }

  lemma ParseEncoded(v: Value, rest: ByteString)
    requires Storable(v)
    ensures ParseValue(EncodeTagged(v) + rest) == Ok((v, rest))
  {
    var s := EncodeTagged(v) + rest;
    match v
    case Null =>
      assert s[1..] == rest;
    case Bool(b) =>
      assert s[1..][1..] == rest;
    case Int(n) => ParseEncodedNumber(TAG_INT, AsUnsigned(n), rest);
    case Real(bits) => ParseEncodedNumber(TAG_REAL, bits, rest);
    case Text(t) => ParseEncodedText(t, rest);
  }

  lemma ParseEncodedNumber(tag: byte, n: u64, rest: ByteString)
    requires tag == TAG_INT || tag == TAG_REAL
    ensures ParseValue([tag] + LittleEndian(n, 8) + rest)
         == Ok((if tag == TAG_INT then Int(AsSigned(n)) else Real(n), rest))
  {
    var body := LittleEndian(n, 8);
    var s := [tag] + body + rest;
    assert s[0] == tag && s[1..] == body + rest;
    SplitHead(body, rest);
    Pow256Values();
    LittleEndianRoundTrip(n, 8);
    hide LittleEndian, FromLittleEndian;
  }

  lemma ParseEncodedText(t: ByteString, rest: ByteString)
    requires |t| < TWO_32 && ValidUtf8(t)
    ensures ParseValue([TAG_TEXT] + LittleEndian(|t|, 4) + t + rest) == Ok((Text(t), rest))
  {
    hide *;
    var head, tail := LittleEndian(|t|, 4), t + rest;
    var s := [TAG_TEXT] + head + t + rest;
    assert s[0] == TAG_TEXT && s[1..] == head + tail;
    SplitHead(head, tail);
    Pow256Values();
    LittleEndianRoundTrip(|t|, 4);
    ParseSplitText(t, rest);
    ParseTaggedText(s, head, tail);
  }

  lemma ParseSplitText(t: ByteString, rest: ByteString)
    requires ValidUtf8(t)
    ensures ParseText(|t|, t + rest) == Ok((Text(t), rest))
  {
    hide ValidUtf8;
    SplitHead(t, rest);
  }

  lemma ParseTaggedText(s: ByteString, head: ByteString, tail: ByteString)
    requires s != [] && s[0] == TAG_TEXT && s[1..] == head + tail && |head| == 4
    ensures ParseValue(s) == ParseText(FromLittleEndian(head), tail)
  {
    hide FromLittleEndian, ParseText;
    SplitHead(head, tail);
  }

  lemma {:induction false} ParseEncodedValues(vs: seq<Value>, rest: ByteString)
    requires StorableRow(vs)
    ensures ParseValues(EncodeValues(vs) + rest, |vs|) == Ok((vs, rest))
  {
    hide ParseValue, EncodeTagged, Storable;
    if vs == [] {
      assert EncodeValues(vs) + rest == rest;
    } else {
      ConcatAssoc(EncodeTagged(vs[0]), EncodeValues(vs[1..]), rest);
      ParseEncoded(vs[0], EncodeValues(vs[1..]) + rest);
      ParseEncodedValues(vs[1..], rest);
      assert vs == [vs[0]] + vs[1..];
    }
  }

  lemma ParsedIsStorable(s: ByteString)
    ensures ParseValue(s).Ok? ==> Storable(ParseValue(s).value.0)
  {
    Pow256Values();
    if |s| >= 5 { FromLittleEndianBound(s[1..][..4]); }
  }

  lemma {:induction false} DecodedIsStorable(s: ByteString, count: nat)
    ensures ParseValues(s, count).Ok? ==>
              |ParseValues(s, count).value.0| == count && StorableRow(ParseValues(s, count).value.0)
    decreases count
  {
    hide ParseValue, Storable;
    if count > 0 && ParseValue(s).Ok? {
      ParsedIsStorable(s);
      DecodedIsStorable(ParseValue(s).value.1, count - 1);
    }
  }

  /** Decoding undoes encoding exactly for the rows whose texts are well formed and shorter than 2^32. */
  lemma ValuesRoundTrip(vs: seq<Value>)
    ensures Decode(EncodeValues(vs), |vs|) == Ok(vs) <==> StorableRow(vs)
  {
    DecodedIsStorable(EncodeValues(vs), |vs|);
    if StorableRow(vs) {
      ParseEncodedValues(vs, []);
      assert EncodeValues(vs) + [] == EncodeValues(vs);
    }
  }

  /** The MVCC header and the values come back as written. */
  lemma RowRoundTrip(txMin: u64, txMax: u64, vs: seq<Value>)
    ensures DecodeRecord(EncodeRow(txMin, txMax, vs), |vs|) == Ok(RowRecord(txMin, txMax, vs)) <==> StorableRow(vs)
  {
    var a, b := LittleEndian(txMin, 8), LittleEndian(txMax, 8);
    var s := EncodeRow(txMin, txMax, vs);
    Pow256Values();
    LittleEndianRoundTrip(txMin, 8);
    LittleEndianRoundTrip(txMax, 8);
    assert s[..8] == a && s[8..16] == b && s[16..] == EncodeValues(vs);
    ValuesRoundTrip(vs);
  }
}
