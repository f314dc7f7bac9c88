/** The commit log: records, the file image, and opening it (engine/clog.rs). */
module CommitLog {
  import opened Bytes
  import opened Sequences

  datatype Status = Committed | RolledBack
  datatype Record = Record(tx: u64, status: Status)

  type StatusMap = map<u64, Status>

  const RECORD_SIZE: nat := 9
  const HEADER_SIZE: nat := 16
  const STATUS_COMMITTED: byte := 1
  const STATUS_ROLLED_BACK: byte := 2
  /** "PREHCLG1" */
  const CLOG_MAGIC: ByteString := [0x50, 0x52, 0x45, 0x48, 0x43, 0x4C, 0x47, 0x31]

  function Lookup(m: map<nat, Status>, tx: nat): Option<Status> {
    if tx in m then Some(m[tx]) else None
  }

  /** `Clog::status`: below the floor every id reads as committed. */
  function ReadStatus(m: map<nat, Status>, floor: nat, tx: nat): Option<Status> {
    if tx < floor then Some(Committed) else Lookup(m, tx)
  }

  // ---------------------------------------------------------------- replaying records

  /** Insert the records into `m`, first to last. */
  function ReplayOnto(m: StatusMap, rs: seq<Record>): StatusMap
    decreases |rs|
  {
    if rs == [] then m else ReplayOnto(m[rs[0].tx := rs[0].status], rs[1..])
  }

  function Replay(rs: seq<Record>): StatusMap {
    ReplayOnto(map[], rs)
  }

  lemma {:induction false} ReplayOntoConcat(m: StatusMap, a: seq<Record>, b: seq<Record>)
    ensures ReplayOnto(m, a + b) == ReplayOnto(ReplayOnto(m, a), b)
    decreases |a|
  {
    if a == [] { assert a + b == b; }
    else {
      ReplayOntoConcat(m[a[0].tx := a[0].status], a[1..], b);
      assert (a + b)[1..] == a[1..] + b;
    }
  }

  /** The status of one id depends only on what the map said of that id. */
  lemma {:induction false} ReplayOntoPointwise(m: StatusMap, n: StatusMap, rs: seq<Record>, tx: u64)
    requires Lookup(m, tx) == Lookup(n, tx)
    ensures Lookup(ReplayOnto(m, rs), tx) == Lookup(ReplayOnto(n, rs), tx)
    decreases |rs|
  {
    if rs != [] {
      ReplayOntoPointwise(m[rs[0].tx := rs[0].status], n[rs[0].tx := rs[0].status], rs[1..], tx);
    }
  }

  /** Some order of the map's entries, as a hash map's iterator yields them. */
  ghost predicate Enumerates(rs: seq<Record>, m: StatusMap) {
    && (forall i, j :: 0 <= i < j < |rs| ==> rs[i].tx != rs[j].tx)
    && (forall i :: 0 <= i < |rs| ==> Lookup(m, rs[i].tx) == Some(rs[i].status))
    && (forall tx :: tx in m ==> Record(tx, m[tx]) in rs)
  }

  /** Replaying an enumeration, in whatever order, rebuilds the map. */
  lemma ReplayEnumeration(rs: seq<Record>, m: StatusMap)
    requires Enumerates(rs, m)
    ensures Replay(rs) == m
  {
    forall tx: u64 ensures Lookup(Replay(rs), tx) == Lookup(m, tx) {
      ReplayDistinct(map[], rs, tx);
      if tx in m { assert Record(tx, m[tx]) in rs; }
    }
    assert forall tx :: tx in Replay(rs) <==> Lookup(Replay(rs), tx).Some?;
    assert forall tx :: tx in m <==> Lookup(m, tx).Some?;
    assert forall tx :: tx in m ==> Lookup(m, tx).value == m[tx];
    assert forall tx :: tx in m ==> Lookup(Replay(rs), tx).value == Replay(rs)[tx];
  }

  lemma {:induction false} ReplayDistinct(m: StatusMap, rs: seq<Record>, tx: u64)
    requires forall i, j :: 0 <= i < j < |rs| ==> rs[i].tx != rs[j].tx
    ensures (forall i :: 0 <= i < |rs| ==> rs[i].tx != tx) ==> Lookup(ReplayOnto(m, rs), tx) == Lookup(m, tx)
    ensures forall i :: 0 <= i < |rs| && rs[i].tx == tx ==> Lookup(ReplayOnto(m, rs), tx) == Some(rs[i].status)
    decreases |rs|
  {
    if rs != [] {
      ReplayDistinct(m[rs[0].tx := rs[0].status], rs[1..], tx);
      forall i | 0 <= i < |rs| && rs[i].tx == tx ensures Lookup(ReplayOnto(m, rs), tx) == Some(rs[i].status) {
        if i > 0 { assert rs[1..][i - 1] == rs[i]; }
      }
    }
  }

  // ---------------------------------------------------------------- the file image

  function Tag(s: Status): byte {
    if s == Committed then STATUS_COMMITTED else STATUS_ROLLED_BACK
  }

  function EncodeRecord(r: Record): (s: ByteString)
    ensures |s| == RECORD_SIZE
  {
    LittleEndian(r.tx, 8) + [Tag(r.status)]
  }

  function EncodeRecords(rs: seq<Record>): (s: ByteString)
    ensures |s| == RECORD_SIZE * |rs|
  {
    if rs == [] then [] else EncodeRecord(rs[0]) + EncodeRecords(rs[1..])
  }

  function Header(minTx: u64): (s: ByteString)
    ensures |s| == HEADER_SIZE
  {
    CLOG_MAGIC + LittleEndian(minTx, 8)
  }

  /** A record is the transaction id in eight bytes and then 1 for committed or 2 for rolled back; the file
      begins with eight bytes of magic and the floor. */
  lemma LogLayout(r: Record, minTx: u64)
    ensures FromLittleEndian(EncodeRecord(r)[..8]) == r.tx && EncodeRecord(r)[8] == match r.status case Committed => 1 case RolledBack => 2
    ensures Header(minTx)[..8] == CLOG_MAGIC && FromLittleEndian(Header(minTx)[8..16]) == minTx
  {
    Pow256Values();
    LittleEndianRoundTrip(r.tx, 8);
    LittleEndianRoundTrip(minTx, 8);
    hide LittleEndian, FromLittleEndian;
    assert EncodeRecord(r)[..8] == LittleEndian(r.tx, 8);
    assert Header(minTx)[..8] == CLOG_MAGIC && Header(minTx)[8..16] == LittleEndian(minTx, 8);
  }

  /** A whole log file: header, then the records. */
  function Image(minTx: u64, rs: seq<Record>): ByteString {
    Header(minTx) + EncodeRecords(rs)
  }

  /** The buffer `write_and_fsync` builds for one batch. */
  method EncodeBatch(batch: seq<Record>) returns (buf: ByteString)
    ensures buf == EncodeRecords(batch)
  {
    buf := [];
    for i := 0 to |batch|
      invariant buf == EncodeRecords(batch[..i])
    {
      EncodeRecordsConcat(batch[..i], [batch[i]]);
      assert batch[..i + 1] == batch[..i] + [batch[i]];
      assert EncodeRecords([batch[i]]) == EncodeRecord(batch[i]) + EncodeRecords([]);
      buf := buf + LittleEndian(batch[i].tx, 8) + [Tag(batch[i].status)];
      assert buf == EncodeRecords(batch[..i]) + EncodeRecord(batch[i]);
    }
    assert batch[..|batch|] == batch;
  }

  lemma {:induction false} EncodeRecordsConcat(a: seq<Record>, b: seq<Record>)
    ensures EncodeRecords(a + b) == EncodeRecords(a) + EncodeRecords(b)
  {
    hide EncodeRecord;
    if a == [] { assert a + b == b; }
    else {
      EncodeRecordsConcat(a[1..], b);
      assert (a + b)[1..] == a[1..] + b;
      ConcatAssoc(EncodeRecord(a[0]), EncodeRecords(a[1..]), EncodeRecords(b));
    }
  }

  // ---------------------------------------------------------------- opening

  datatype Opened = Opened(minTx: u64, statuses: StatusMap)

  function ReadU64(s: ByteString): u64
    requires |s| == 8
  {
    FromLittleEndianBound(s);
    Pow256Values();
    FromLittleEndian(s)
  }

  /** Decode 9-byte records into `m`; a short tail is skipped, an unknown tag is corruption. */
  function DecodeRecords(body: ByteString, m: StatusMap): Result<StatusMap> {
    if |body| < RECORD_SIZE then Ok(m)
    else if body[8] == STATUS_COMMITTED then DecodeRecords(body[9..], m[ReadU64(body[..8]) := Committed])
    else if body[8] == STATUS_ROLLED_BACK then DecodeRecords(body[9..], m[ReadU64(body[..8]) := RolledBack])
    else Err(Corruption)
  }

  /** What `Clog::open` makes of the file's bytes; an empty file is a fresh log. */
  function OpenFile(file: ByteString): Result<Opened> {
    if file == [] then Ok(Opened(0, map[]))
    else if |file| < HEADER_SIZE || file[..8] != CLOG_MAGIC then Err(Corruption)
    else
      match DecodeRecords(file[16..], map[])
      case Ok(m) => Ok(Opened(ReadU64(file[8..16]), m))
      case Err(e) => Err(e)
  }

  /** The read loop of `Clog::open`. */
  method Open(file: ByteString) returns (r: Result<Opened>)
    ensures r == OpenFile(file)
  {
    if file == [] { return Ok(Opened(0, map[])); }
    if |file| < HEADER_SIZE || file[..8] != CLOG_MAGIC { return Err(Corruption); }
    var minTx := ReadU64(file[8..16]);
    var m: StatusMap := map[];
    var pos := HEADER_SIZE;
    while pos + RECORD_SIZE <= |file|
      invariant HEADER_SIZE <= pos <= |file|
      invariant DecodeRecords(file[16..], map[]) == DecodeRecords(file[pos..], m)
    {
      var buf := file[pos..pos + RECORD_SIZE];
      assert file[pos..][..8] == buf[..8] && file[pos..][8] == buf[8] && file[pos..][9..] == file[pos + 9..];
      var tx := ReadU64(buf[..8]);
      if buf[8] == STATUS_COMMITTED {
        m := m[tx := Committed];
      } else if buf[8] == STATUS_ROLLED_BACK {
        m := m[tx := RolledBack];
      } else {
        return Err(Corruption);
      }
      pos := pos + RECORD_SIZE;
    }
    r := Ok(Opened(minTx, m));
  }

  lemma {:induction false} DecodeEncoded(rs: seq<Record>, tail: ByteString, m: StatusMap)
    ensures DecodeRecords(EncodeRecords(rs) + tail, m) == DecodeRecords(tail, ReplayOnto(m, rs))
  {
    hide EncodeRecord, DecodeRecords;
    if rs == [] {
      assert EncodeRecords(rs) + tail == tail;
    } else {
      DecodeOne(rs[0], EncodeRecords(rs[1..]) + tail, m);
      ConcatAssoc(EncodeRecord(rs[0]), EncodeRecords(rs[1..]), tail);
      DecodeEncoded(rs[1..], tail, m[rs[0].tx := rs[0].status]);
    }
  }

  lemma DecodeOne(r: Record, tail: ByteString, m: StatusMap)
    ensures DecodeRecords(EncodeRecord(r) + tail, m) == DecodeRecords(tail, m[r.tx := r.status])
  {
    var body := EncodeRecord(r) + tail;
    assert body[..8] == LittleEndian(r.tx, 8) && body[8] == Tag(r.status) && body[9..] == tail;
    Pow256Values();
    LittleEndianRoundTrip(r.tx, 8);
  }

  lemma OpenWithHeader(minTx: u64, body: ByteString)
    ensures OpenFile(Header(minTx) + body) ==
              match DecodeRecords(body, map[])
              case Ok(m) => Ok(Opened(minTx, m))
              case Err(e) => Err(e)
  {
    var file := Header(minTx) + body;
    assert file[..8] == CLOG_MAGIC && file[8..16] == LittleEndian(minTx, 8) && file[16..] == body;
    Pow256Values();
    LittleEndianRoundTrip(minTx, 8);
  }

  /** A whole image opens to its floor and its replayed records, even with a torn record at its end. */
  lemma OpenImage(minTx: u64, rs: seq<Record>, torn: ByteString)
    requires |torn| < RECORD_SIZE
    ensures OpenFile(Image(minTx, rs) + torn) == Ok(Opened(minTx, Replay(rs)))
  {
    assert Image(minTx, rs) + torn == Header(minTx) + (EncodeRecords(rs) + torn);
    OpenWithHeader(minTx, EncodeRecords(rs) + torn);
    DecodeEncoded(rs, torn, map[]);
  }

  /** After reopening a log, every later append decodes back exactly when the file held whole records. */
  lemma AppendAfterReopen(minTx: u64, rs: seq<Record>, torn: ByteString)
    requires |torn| < RECORD_SIZE
    ensures (forall r: Record :: OpenFile((Image(minTx, rs) + torn) + EncodeRecord(r)) == Ok(Opened(minTx, Replay(rs + [r]))))
       <==> torn == []
  {
    var file := Image(minTx, rs) + torn;
    if torn == [] {
      forall r: Record ensures OpenFile(file + EncodeRecord(r)) == Ok(Opened(minTx, Replay(rs + [r]))) {
        EncodeRecordsConcat(rs, [r]);
        assert EncodeRecords([r]) == EncodeRecord(r) + EncodeRecords([]) == EncodeRecord(r);
        assert file + EncodeRecord(r) == Image(minTx, rs + [r]) + [];
        OpenImage(minTx, rs + [r], []);
      }
    } else {
      var r := TornAppendIsCorrupt(minTx, rs, torn);
      assert OpenFile(file + EncodeRecord(r)).Err?;
    }
  }

  /** A torn tail shifts the next record so that a byte of its id is read as a status tag. */
  lemma TornAppendIsCorrupt(minTx: u64, rs: seq<Record>, torn: ByteString) returns (r: Record)
    requires 0 < |torn| < RECORD_SIZE
    ensures OpenFile((Image(minTx, rs) + torn) + EncodeRecord(r)).Err?
  {
    r := Record(0x0707_0707_0707_0707, Committed);
    var enc := EncodeRecord(r);
    AllSevens();
    var body := torn + enc;
    assert body[8] == enc[8 - |torn|] == 7;
    assert (Image(minTx, rs) + torn) + enc == Header(minTx) + (EncodeRecords(rs) + body);
    OpenWithHeader(minTx, EncodeRecords(rs) + body);
    DecodeEncoded(rs, body, map[]);
  }

  lemma AllSevens()
    ensures LittleEndian(0x0707_0707_0707_0707, 8) == [7, 7, 7, 7, 7, 7, 7, 7]
  {
    assert LittleEndian(0x0707, 2) == [7, 7];
    assert LittleEndian(0x0707_0707, 4) == [7, 7, 7, 7];
    assert LittleEndian(0x0707_0707_0707, 6) == [7, 7, 7, 7, 7, 7];
  }
}
