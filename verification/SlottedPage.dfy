/** Slotted pages: building a 4096-byte page from ordered entries, reading it back, and binary search
    over it (storage/page.rs). */
module SlottedPage {
  import opened Bytes

  const PAGE_SIZE: nat := 4096
  const HEADER_SIZE: nat := 16
  const USABLE: nat := 4080
  const SLOT_SIZE: nat := 2
  const CELL_HEADER: nat := 6
  const OFF_CELL_COUNT: nat := 2
  const OFF_FREE_END: nat := 4
  const OFF_RIGHT_LINK: nat := 8
  const PAGE_INTERNAL: byte := 1
  const PAGE_LEAF: byte := 2

  // ---------------------------------------------------------------- writing bytes

  /** `p` with `s` written at `at`. */
  function Written(p: ByteString, at: nat, s: ByteString): (r: ByteString)
    requires at + |s| <= |p|
    ensures |r| == |p|
  {
    p[..at] + s + p[at + |s|..]
  }

  lemma WrittenSlice(p: ByteString, at: nat, s: ByteString, a: nat, b: nat)
    requires at + |s| <= |p| && a <= b <= |p|
    ensures Written(p, at, s)[at..at + |s|] == s
    ensures b <= at || at + |s| <= a ==> Written(p, at, s)[a..b] == p[a..b]
  {
  }

  /** `copy_from_slice` and the `put_` helpers. */
  method WriteBytes(buf: array<byte>, at: nat, s: ByteString)
    requires at + |s| <= buf.Length
    modifies buf
    ensures buf[..] == Written(old(buf[..]), at, s)
  {
    ghost var p := buf[..];
    for i := 0 to |s|
      invariant buf[..] == Written(p, at, s[..i])
    {
      buf[at + i] := s[i];
      assert s[..i + 1] == s[..i] + [s[i]];
      assert buf[..] == Written(p, at, s[..i + 1]);
    }
    assert s[..|s|] == s;
  }

  // ---------------------------------------------------------------- layout

  /** The bytes taken by the first `i` cells. */
  function CellBytes(cells: seq<ByteString>, i: nat): nat
    requires i <= |cells|
  {
    if i == 0 then 0 else CellBytes(cells, i - 1) + |cells[i - 1]|
  }

  /** Where the build cursor stands after `i` cells; cell `i - 1` starts there. */
  function Cursor(cells: seq<ByteString>, i: nat): int
    requires i <= |cells|
  {
    PAGE_SIZE - CellBytes(cells, i)
  }

  /** All cells with their slots fit between header and page end. */
  predicate FitsPage(cells: seq<ByteString>) { SLOT_SIZE * |cells| + CellBytes(cells, |cells|) <= USABLE }

  lemma {:induction false} CursorOrder(cells: seq<ByteString>, i: nat, j: nat)
    requires i <= j <= |cells|
    ensures Cursor(cells, j) <= Cursor(cells, i) <= PAGE_SIZE
    ensures i < j ==> Cursor(cells, j) + |cells[j - 1]| <= Cursor(cells, i)
    decreases j
  {
    if i < j { CursorOrder(cells, i, j - 1); }
    else if i > 0 { CursorOrder(cells, i - 1, i - 1); }
  }

  function SlotAt(i: nat): nat { HEADER_SIZE + i * SLOT_SIZE }

  /** Cell `i` and its slot are in place. */
  ghost predicate CellInPlace(p: ByteString, cells: seq<ByteString>, i: nat)
    requires |p| == PAGE_SIZE && i < |cells|
  {
    var at := Cursor(cells, i + 1);
    && HEADER_SIZE <= at && at + |cells[i]| <= PAGE_SIZE && SlotAt(i) + SLOT_SIZE <= PAGE_SIZE
    && p[at..at + |cells[i]|] == cells[i]
    && p[SlotAt(i)..SlotAt(i) + SLOT_SIZE] == LittleEndian(at, SLOT_SIZE)
  }

  ghost predicate CellsInPlace(p: ByteString, cells: seq<ByteString>, n: nat) {
    |p| == PAGE_SIZE && n <= |cells| && forall i :: 0 <= i < n ==> CellInPlace(p, cells, i)
  }

  /** The slot array and the cells never overlap, and neither do two cells. */
  lemma RegionsDisjoint(cells: seq<ByteString>, i: nat, j: nat)
    requires FitsPage(cells) && i < j < |cells|
    ensures SlotAt(|cells|) <= Cursor(cells, |cells|) <= Cursor(cells, j + 1)
    ensures Cursor(cells, j + 1) + |cells[j]| <= Cursor(cells, i + 1) && Cursor(cells, i + 1) + |cells[i]| <= PAGE_SIZE
  {
    CursorOrder(cells, j + 1, |cells|);
    CursorOrder(cells, i + 1, j + 1);
    CursorOrder(cells, 0, i + 1);
  }

  /** Writing outside a cell and its slot leaves both in place. */
  lemma CellUndisturbed(p: ByteString, cells: seq<ByteString>, i: nat, at: nat, s: ByteString)
    requires |p| == PAGE_SIZE && i < |cells| && at + |s| <= |p| && CellInPlace(p, cells, i)
    requires at + |s| <= Cursor(cells, i + 1)
    requires at + |s| <= SlotAt(i) || SlotAt(i) + SLOT_SIZE <= at
    ensures CellInPlace(Written(p, at, s), cells, i)
  {
    hide CellBytes, LittleEndian, Written;
    var c := Cursor(cells, i + 1);
    WrittenSlice(p, at, s, c, c + |cells[i]|);
    WrittenSlice(p, at, s, SlotAt(i), SlotAt(i) + SLOT_SIZE);
  }

  /** One round of the build loop: write cell `i` below the cursor, then its slot. */
  lemma PlaceCell(p: ByteString, cells: seq<ByteString>, i: nat)
    requires CellsInPlace(p, cells, i) && i < |cells| && FitsPage(cells)
    ensures var at := Cursor(cells, i + 1);
            HEADER_SIZE <= SlotAt(i) && SlotAt(i) + SLOT_SIZE <= at && at + |cells[i]| <= PAGE_SIZE &&
            CellsInPlace(Written(Written(p, at, cells[i]), SlotAt(i), LittleEndian(at, SLOT_SIZE)), cells, i + 1)
  {
    hide LittleEndian, Written, CellInPlace;
    CursorOrder(cells, i + 1, |cells|);
    CursorOrder(cells, 0, i + 1);
    var at := Cursor(cells, i + 1);
    var slot := LittleEndian(at, SLOT_SIZE);
    var q := Written(p, at, cells[i]);
    var r := Written(q, SlotAt(i), slot);
    forall k | 0 <= k < i ensures CellInPlace(r, cells, k) {
      assert CellInPlace(p, cells, k);
      EarlierCellKept(p, cells, k, i);
    }
    NewCell(p, cells, i);
  }

  lemma EarlierCellKept(p: ByteString, cells: seq<ByteString>, k: nat, i: nat)
    requires |p| == PAGE_SIZE && k < i < |cells| && FitsPage(cells) && CellInPlace(p, cells, k)
    requires SlotAt(i) + SLOT_SIZE <= Cursor(cells, i + 1) && Cursor(cells, i + 1) + |cells[i]| <= PAGE_SIZE
    ensures var at := Cursor(cells, i + 1);
            CellInPlace(Written(Written(p, at, cells[i]), SlotAt(i), LittleEndian(at, SLOT_SIZE)), cells, k)
  {
    hide LittleEndian, Written, CellInPlace, CellBytes;
    CursorOrder(cells, k + 1, i + 1);
    var at := Cursor(cells, i + 1);
    CellUndisturbed(p, cells, k, at, cells[i]);
    CellUndisturbed(Written(p, at, cells[i]), cells, k, SlotAt(i), LittleEndian(at, SLOT_SIZE));
  }

  lemma NewCell(p: ByteString, cells: seq<ByteString>, i: nat)
    requires |p| == PAGE_SIZE && i < |cells|
    requires SlotAt(i) + SLOT_SIZE <= Cursor(cells, i + 1) && Cursor(cells, i + 1) + |cells[i]| <= PAGE_SIZE
    ensures var at := Cursor(cells, i + 1);
            CellInPlace(Written(Written(p, at, cells[i]), SlotAt(i), LittleEndian(at, SLOT_SIZE)), cells, i)
  {
    hide LittleEndian, Written, CellBytes;
    var at := Cursor(cells, i + 1);
    var q := Written(p, at, cells[i]);
    WrittenSlice(p, at, cells[i], at, at);
    WrittenSlice(q, SlotAt(i), LittleEndian(at, SLOT_SIZE), at, at + |cells[i]|);
  }

  // ---------------------------------------------------------------- cells

  datatype LeafEntry = LeafEntry(key: ByteString, value: ByteString)
  datatype InternalEntry = InternalEntry(key: ByteString, child: u32)

  function LeafCell(e: LeafEntry): ByteString {
    LittleEndian(|e.key|, 2) + LittleEndian(|e.value|, 4) + e.key + e.value
  }

  function InternalCell(e: InternalEntry): ByteString {
    LittleEndian(e.child, 4) + LittleEndian(|e.key|, 2) + e.key
  }

  function LeafCells(es: seq<LeafEntry>): (r: seq<ByteString>)
    ensures |r| == |es| && forall i :: 0 <= i < |r| ==> r[i] == LeafCell(es[i]) && |r[i]| == CELL_HEADER + |es[i].key| + |es[i].value|
  {
    seq(|es|, i requires 0 <= i < |es| => LeafCell(es[i]))
  }

  function InternalCells(es: seq<InternalEntry>): (r: seq<ByteString>)
    ensures |r| == |es| && forall i :: 0 <= i < |r| ==> r[i] == InternalCell(es[i]) && |r[i]| == CELL_HEADER + |es[i].key|
  {
    seq(|es|, i requires 0 <= i < |es| => InternalCell(es[i]))
  }

  /** The header fields and every cell are where the readers look for them. */
  ghost predicate PageHolds(p: ByteString, kind: byte, link: u32, cells: seq<ByteString>) {
    && CellsInPlace(p, cells, |cells|) && p[0] == kind && |cells| < TWO_16
    && p[OFF_CELL_COUNT..OFF_CELL_COUNT + 2] == LittleEndian(|cells|, 2)
    && Cursor(cells, |cells|) >= 0 && p[OFF_FREE_END..OFF_FREE_END + 2] == LittleEndian(Cursor(cells, |cells|), 2)
    && p[OFF_RIGHT_LINK..OFF_RIGHT_LINK + 4] == LittleEndian(link, 4)
  }

  /** The steps common to `build_leaf` and `build_internal` before the cells: a zeroed page with its header. */
  method NewPage(kind: byte, link: u32) returns (buf: array<byte>)
    ensures fresh(buf) && buf.Length == PAGE_SIZE && buf[0] == kind
    ensures buf[..][OFF_RIGHT_LINK..OFF_RIGHT_LINK + 4] == LittleEndian(link, 4)
  {
    buf := new byte[PAGE_SIZE](_ => 0);
    buf[0] := kind;
    ghost var p := buf[..];
    WriteBytes(buf, OFF_FREE_END, LittleEndian(PAGE_SIZE, 2));
    ghost var q := buf[..];
    WrittenSlice(p, OFF_FREE_END, LittleEndian(PAGE_SIZE, 2), 0, 1);
    assert q[0] == q[0..1][0] && p[0] == p[0..1][0];
    WriteBytes(buf, OFF_RIGHT_LINK, LittleEndian(link, 4));
    WrittenSlice(q, OFF_RIGHT_LINK, LittleEndian(link, 4), 0, 1);
    assert buf[0] == buf[..][0..1][0];
  }

  /** A header field survives any write at or above the slot array. */
  lemma HeaderKept(p: ByteString, at: nat, s: ByteString, a: nat, b: nat)
    requires at + |s| <= |p| && a <= b <= HEADER_SIZE <= at
    ensures Written(p, at, s)[a..b] == p[a..b]
  {
    WrittenSlice(p, at, s, a, b);
  }

  /** One cell below the cursor, in the pieces the source writes, then its slot. */
  method PutCell(buf: array<byte>, at: nat, pieces: seq<ByteString>, slot: nat, ghost cell: ByteString)
    requires buf.Length == PAGE_SIZE && cell == Concat(pieces) && at + |cell| <= PAGE_SIZE && slot + SLOT_SIZE <= PAGE_SIZE
    modifies buf
    ensures buf[..] == Written(Written(old(buf[..]), at, cell), slot, LittleEndian(at, SLOT_SIZE))
  {
    ghost var p := buf[..];
    var here := at;
    assert Written(p, at, []) == p && Concat(pieces[..0]) == [];
    for i := 0 to |pieces|
      invariant here == at + |Concat(pieces[..i])| && here <= at + |cell|
      invariant buf[..] == Written(p, at, Concat(pieces[..i]))
    {
      ConcatStep(pieces, i);
      ConcatPrefix(pieces, i + 1);
      WriteBytes(buf, here, pieces[i]);
      WriteNext(p, at, Concat(pieces[..i]), pieces[i]);
      here := here + |pieces[i]|;
    }
    assert pieces[..|pieces|] == pieces;
    WriteBytes(buf, slot, LittleEndian(at, SLOT_SIZE));
  }

  function Concat(pieces: seq<ByteString>): ByteString {
    if pieces == [] then [] else Concat(pieces[..|pieces| - 1]) + pieces[|pieces| - 1]
  }

  lemma ConcatStep(pieces: seq<ByteString>, i: nat)
    requires i < |pieces|
    ensures Concat(pieces[..i + 1]) == Concat(pieces[..i]) + pieces[i]
  {
    assert pieces[..i + 1][..i] == pieces[..i];
  }

  lemma {:induction false} ConcatPrefix(pieces: seq<ByteString>, i: nat)
    requires i <= |pieces|
    ensures |Concat(pieces[..i])| <= |Concat(pieces)|
    decreases |pieces| - i
  {
    if i < |pieces| {
      ConcatStep(pieces, i);
      ConcatPrefix(pieces, i + 1);
    } else {
      assert pieces[..i] == pieces;
    }
  }

  lemma WriteNext(p: ByteString, at: nat, s: ByteString, t: ByteString)
    requires at + |s| + |t| <= |p|
    ensures Written(Written(p, at, s), at + |s|, t) == Written(p, at, s + t)
  {
  }

  /** The build loop over the cells, given the pieces of each. */
  method PlaceCells(buf: array<byte>, pieces: seq<seq<ByteString>>, ghost cells: seq<ByteString>, ghost kind: byte, ghost link: u32)
    requires buf.Length == PAGE_SIZE && |pieces| == |cells| && FitsPage(cells)
    requires forall i :: 0 <= i < |cells| ==> cells[i] == Concat(pieces[i])
    requires buf[0] == kind && buf[..][OFF_RIGHT_LINK..OFF_RIGHT_LINK + 4] == LittleEndian(link, 4)
    modifies buf
    ensures PageHolds(buf[..], kind, link, cells)
  {
    var cursor := PAGE_SIZE;
    hide LittleEndian, Concat, CellBytes;
    assert Cursor(cells, 0) == PAGE_SIZE by { CursorZero(cells); }
    for i := 0 to |pieces|
      invariant cursor == Cursor(cells, i) && CellsInPlace(buf[..], cells, i)
      invariant buf[..][0..1] == [kind] && buf[..][OFF_RIGHT_LINK..OFF_RIGHT_LINK + 4] == LittleEndian(link, 4)
    {
      ghost var p, at := buf[..], Cursor(cells, i + 1);
      CursorStep(cells, i);
      PlaceCell(p, cells, i);
      hide Written, CellsInPlace, FitsPage;
      var length := |Concat(pieces[i])|;
      cursor := cursor - length;
      PutCell(buf, cursor, pieces[i], HEADER_SIZE + i * SLOT_SIZE, cells[i]);
      ghost var q, slot := Written(p, at, cells[i]), LittleEndian(at, SLOT_SIZE);
      HeaderKept(p, at, cells[i], 0, 1);
      HeaderKept(q, SlotAt(i), slot, 0, 1);
      HeaderKept(p, at, cells[i], OFF_RIGHT_LINK, OFF_RIGHT_LINK + 4);
      HeaderKept(q, SlotAt(i), slot, OFF_RIGHT_LINK, OFF_RIGHT_LINK + 4);
    }
    FinishHeader(buf, |pieces|, cursor, cells, kind, link);
  }

  lemma CursorZero(cells: seq<ByteString>)
    ensures Cursor(cells, 0) == PAGE_SIZE
  {
  }

  lemma CursorStep(cells: seq<ByteString>, i: nat)
    requires i < |cells|
    ensures Cursor(cells, i + 1) == Cursor(cells, i) - |cells[i]|
  {
  }

  /** The last two writes: the cell count and the free-space boundary. */
  method FinishHeader(buf: array<byte>, count: nat, cursor: nat, ghost cells: seq<ByteString>, ghost kind: byte, ghost link: u32)
    requires buf.Length == PAGE_SIZE && CellsInPlace(buf[..], cells, |cells|) && count == |cells| && FitsPage(cells)
    requires buf[..][0..1] == [kind] && buf[..][OFF_RIGHT_LINK..OFF_RIGHT_LINK + 4] == LittleEndian(link, 4)
    requires cursor == Cursor(cells, |cells|)
    modifies buf
    ensures PageHolds(buf[..], kind, link, cells)
  {
    ghost var p := buf[..];
    var n, end := LittleEndian(count, 2), LittleEndian(cursor, 2);
    WriteBytes(buf, OFF_CELL_COUNT, n);
    ghost var q := buf[..];
    WriteBytes(buf, OFF_FREE_END, end);
    hide LittleEndian, Written;
    WrittenSlice(p, OFF_CELL_COUNT, n, 0, 1);
    WrittenSlice(q, OFF_FREE_END, end, 0, 1);
    WrittenSlice(p, OFF_CELL_COUNT, n, OFF_RIGHT_LINK, OFF_RIGHT_LINK + 4);
    WrittenSlice(q, OFF_FREE_END, end, OFF_RIGHT_LINK, OFF_RIGHT_LINK + 4);
    WrittenSlice(q, OFF_FREE_END, end, OFF_CELL_COUNT, OFF_CELL_COUNT + 2);
    ghost var r := buf[..];
    assert r[0] == r[0..1][0];
    hide CellBytes;
    forall i | 0 <= i < |cells| ensures CellInPlace(r, cells, i) {
      assert CellInPlace(p, cells, i);
      CellUndisturbed(p, cells, i, OFF_CELL_COUNT, n);
      CellUndisturbed(q, cells, i, OFF_FREE_END, end);
    }
  }

  // ---------------------------------------------------------------- building

  function LeafFootprint(es: seq<LeafEntry>): nat {
    if es == [] then 0 else LeafFootprint(es[..|es| - 1]) + SLOT_SIZE + CELL_HEADER + |es[|es| - 1].key| + |es[|es| - 1].value|
  }

  function InternalFootprint(es: seq<InternalEntry>): nat {
    if es == [] then 0 else InternalFootprint(es[..|es| - 1]) + SLOT_SIZE + CELL_HEADER + |es[|es| - 1].key|
  }

  lemma {:induction false} CellBytesPrefix(a: seq<ByteString>, b: seq<ByteString>, i: nat)
    requires i <= |a| && i <= |b| && a[..i] == b[..i]
    ensures CellBytes(a, i) == CellBytes(b, i)
  {
    if i > 0 {
      assert a[..i][i - 1] == b[..i][i - 1] && a[..i][..i - 1] == a[..i - 1] && b[..i][..i - 1] == b[..i - 1];
      CellBytesPrefix(a, b, i - 1);
    }
  }

  lemma {:induction false} LeafFootprintIsFit(es: seq<LeafEntry>)
    ensures LeafFootprint(es) == SLOT_SIZE * |es| + CellBytes(LeafCells(es), |es|)
  {
    if es != [] {
      var init := es[..|es| - 1];
      LeafFootprintIsFit(init);
      CellBytesPrefix(LeafCells(init), LeafCells(es), |init|);
    }
  }

  lemma {:induction false} InternalFootprintIsFit(es: seq<InternalEntry>)
    ensures InternalFootprint(es) == SLOT_SIZE * |es| + CellBytes(InternalCells(es), |es|)
  {
    if es != [] {
      var init := es[..|es| - 1];
      InternalFootprintIsFit(init);
      CellBytesPrefix(InternalCells(init), InternalCells(es), |init|);
    }
  }

  /** The page is a leaf that holds the entries in order, and the right link. */
  ghost predicate LeafPage(p: ByteString, es: seq<LeafEntry>, link: u32) {
    PageHolds(p, PAGE_LEAF, link, LeafCells(es)) && FitsPage(LeafCells(es))
  }

  ghost predicate InternalPage(p: ByteString, es: seq<InternalEntry>) {
    PageHolds(p, PAGE_INTERNAL, 0, InternalCells(es)) && FitsPage(InternalCells(es))
  }

  /** `build_leaf`: succeeds exactly when the entries fit. */
  method BuildLeaf(es: seq<LeafEntry>, link: u32) returns (r: Result<ByteString>)
    ensures r.Ok? <==> LeafFootprint(es) <= USABLE
    ensures r.Ok? ==> LeafPage(r.value, es, link)
  {
    LeafFootprintIsFit(es);
    if LeafFootprint(es) > USABLE { return Err(Corruption); }
    hide LeafFootprint, CellBytes, LittleEndian, PageHolds;
    var buf := NewPage(PAGE_LEAF, link);
    var pieces := seq(|es|, i requires 0 <= i < |es| => LeafPieces(es[i]));
    PlaceCells(buf, pieces, LeafCells(es), PAGE_LEAF, link);
    r := Ok(buf[..]);
  }

  method BuildInternal(es: seq<InternalEntry>) returns (r: Result<ByteString>)
    ensures r.Ok? <==> InternalFootprint(es) <= USABLE
    ensures r.Ok? ==> InternalPage(r.value, es)
  {
    InternalFootprintIsFit(es);
    if InternalFootprint(es) > USABLE { return Err(Corruption); }
    hide InternalFootprint, CellBytes, LittleEndian, PageHolds;
    var buf := NewPage(PAGE_INTERNAL, 0);
    var pieces := seq(|es|, i requires 0 <= i < |es| => InternalPieces(es[i]));
    PlaceCells(buf, pieces, InternalCells(es), PAGE_INTERNAL, 0);
    r := Ok(buf[..]);
  }

  function LeafPieces(e: LeafEntry): (r: seq<ByteString>)
    ensures Concat(r) == LeafCell(e)
  {
    var r := [LittleEndian(|e.key|, 2), LittleEndian(|e.value|, 4), e.key, e.value];
    FourPieces(r[0], r[1], r[2], r[3]);
    r
  }

  function InternalPieces(e: InternalEntry): (r: seq<ByteString>)
    ensures Concat(r) == InternalCell(e)
  {
    var r := [LittleEndian(e.child, 4), LittleEndian(|e.key|, 2), e.key];
    ThreePieces(r[0], r[1], r[2]);
    r
  }

  lemma ThreePieces(a: ByteString, b: ByteString, c: ByteString)
    ensures Concat([a, b, c]) == a + b + c
  {
    assert [a, b, c][..2] == [a, b] && [a, b][..1] == [a] && [a][..0] == [];
    assert Concat([a]) == [] + a == a;
  }

  lemma FourPieces(a: ByteString, b: ByteString, c: ByteString, d: ByteString)
    ensures Concat([a, b, c, d]) == a + b + c + d
  {
    assert [a, b, c, d][..3] == [a, b, c];
    ThreePieces(a, b, c);
  }
}
