/** Reading a slotted page back and searching it (storage/page.rs). */
module PageSearch {
  import opened Bytes
  import opened SlottedPage

  // ---------------------------------------------------------------- readers

  /** The little-endian number in `p[at..at + width]`; a read past the page end yields 0 here. */
  function NumberAt(p: ByteString, at: nat, width: nat): nat {
    if at + width <= |p| then FromLittleEndian(p[at..at + width]) else 0
  }

  function SliceAt(p: ByteString, at: nat, length: nat): ByteString {
    if at + length <= |p| then p[at..at + length] else []
  }

  function CellCount(p: ByteString): nat { NumberAt(p, OFF_CELL_COUNT, 2) }

  function RightLink(p: ByteString): nat { NumberAt(p, OFF_RIGHT_LINK, 4) }

  function Slot(p: ByteString, i: nat): nat { NumberAt(p, SlotAt(i), SLOT_SIZE) }

  function LeafKey(p: ByteString, i: nat): ByteString {
    var o := Slot(p, i);
    SliceAt(p, o + CELL_HEADER, NumberAt(p, o, 2))
  }

  function LeafValue(p: ByteString, i: nat): ByteString {
    var o := Slot(p, i);
    SliceAt(p, o + CELL_HEADER + NumberAt(p, o, 2), NumberAt(p, o + 2, 4))
  }

  function InternalKey(p: ByteString, i: nat): ByteString {
    var o := Slot(p, i);
    SliceAt(p, o + CELL_HEADER, NumberAt(p, o + 4, 2))
  }

  function InternalChild(p: ByteString, i: nat): nat { NumberAt(p, Slot(p, i), 4) }

  /** `leaf_entries`. */
  method LeafEntries(p: ByteString) returns (es: seq<LeafEntry>)
    ensures |es| == CellCount(p) && forall i :: 0 <= i < |es| ==> es[i] == LeafEntry(LeafKey(p, i), LeafValue(p, i))
  {
    es := [];
    for i := 0 to CellCount(p)
      invariant |es| == i && forall k :: 0 <= k < i ==> es[k] == LeafEntry(LeafKey(p, k), LeafValue(p, k))
    {
      es := es + [LeafEntry(LeafKey(p, i), LeafValue(p, i))];
    }
  }

  // ---------------------------------------------------------------- reading back

  lemma NumberReadsBack(p: ByteString, at: nat, n: nat, width: nat)
    requires at + width <= |p| && n < Pow256(width) && p[at..at + width] == LittleEndian(n, width)
    ensures NumberAt(p, at, width) == n
  {
    LittleEndianRoundTrip(n, width);
  }

  /** A slot leads to its cell. */
  lemma SlotReadsBack(p: ByteString, cells: seq<ByteString>, i: nat)
    requires CellsInPlace(p, cells, |cells|) && i < |cells|
    ensures Slot(p, i) + |cells[i]| <= |p| && p[Slot(p, i)..Slot(p, i) + |cells[i]|] == cells[i]
  {
    assert CellInPlace(p, cells, i);
    Pow256Values();
    hide LittleEndian, CellBytes, Pow256;
    NumberReadsBack(p, SlotAt(i), Cursor(cells, i + 1), SLOT_SIZE);
  }

  /** A field at offset `k` of a cell that sits at `at`. */
  lemma FieldOfCell(p: ByteString, at: nat, cell: ByteString, k: nat, length: nat)
    requires at + |cell| <= |p| && p[at..at + |cell|] == cell && k + length <= |cell|
    ensures p[at + k..at + k + length] == cell[k..k + length]
  {
    var whole := p[at..at + |cell|];
    var a, b := p[at + k..at + k + length], cell[k..k + length];
    forall i | 0 <= i < length ensures a[i] == b[i] {
      assert p[at + (k + i)] == whole[k + i];
    }
  }

  lemma {:induction false} CellWithinTotal(cells: seq<ByteString>, i: nat, n: nat)
    requires i < n <= |cells|
    ensures |cells[i]| <= CellBytes(cells, n)
  {
    if i < n - 1 { CellWithinTotal(cells, i, n - 1); }
  }

  lemma LeafCellFields(e: LeafEntry)
    ensures var c, k := LeafCell(e), |e.key|;
            c[..2] == LittleEndian(k, 2) && c[2..6] == LittleEndian(|e.value|, 4) &&
            c[6..6 + k] == e.key && c[6 + k..6 + k + |e.value|] == e.value
  {
    hide LittleEndian;
  }

  lemma InternalCellFields(e: InternalEntry)
    ensures var c := InternalCell(e);
            c[..4] == LittleEndian(e.child, 4) && c[4..6] == LittleEndian(|e.key|, 2) && c[6..6 + |e.key|] == e.key
  {
    hide LittleEndian;
  }

  /** A built leaf reads back as its entries. */
  lemma LeafReadsBack(p: ByteString, es: seq<LeafEntry>, link: u32, i: nat)
    requires LeafPage(p, es, link) && i < |es|
    ensures LeafKey(p, i) == es[i].key && LeafValue(p, i) == es[i].value
  {
    var cells, e := LeafCells(es), es[i];
    CellWithinTotal(cells, i, |cells|);
    SlotReadsBack(p, cells, i);
    Pow256Values();
    hide *;
    LeafFieldsRead(p, Slot(p, i), e);
    LeafByFields(p, i);
  }

  lemma LeafByFields(p: ByteString, i: nat)
    ensures var o := Slot(p, i);
            LeafKey(p, i) == SliceAt(p, o + 6, NumberAt(p, o, 2)) &&
            LeafValue(p, i) == SliceAt(p, o + 6 + NumberAt(p, o, 2), NumberAt(p, o + 2, 4))
  {
  }

  /** The fields of a leaf cell that sits at `o`. */
  lemma LeafFieldsRead(p: ByteString, o: nat, e: LeafEntry)
    requires |e.key| < TWO_16 && |e.value| < TWO_32 && o + |LeafCell(e)| <= |p| && p[o..o + |LeafCell(e)|] == LeafCell(e)
    ensures NumberAt(p, o, 2) == |e.key| && NumberAt(p, o + 2, 4) == |e.value|
    ensures SliceAt(p, o + 6, |e.key|) == e.key && SliceAt(p, o + 6 + |e.key|, |e.value|) == e.value
  {
    LeafNumbersRead(p, o, e);
    LeafBytesRead(p, o, e);
  }

  lemma LeafNumbersRead(p: ByteString, o: nat, e: LeafEntry)
    requires |e.key| < TWO_16 && |e.value| < TWO_32 && o + |LeafCell(e)| <= |p| && p[o..o + |LeafCell(e)|] == LeafCell(e)
    ensures NumberAt(p, o, 2) == |e.key| && NumberAt(p, o + 2, 4) == |e.value|
  {
    var cell, k, v := LeafCell(e), |e.key|, |e.value|;
    assert |cell| == 6 + k + v;
    LeafCellFields(e);
    Pow256Values();
    hide *;
    assert cell[0..2] == cell[..2];
    FieldOfCell(p, o, cell, 0, 2);
    FieldOfCell(p, o, cell, 2, 4);
    NumberReadsBack(p, o, k, 2);
    NumberReadsBack(p, o + 2, v, 4);
  }

  lemma LeafBytesRead(p: ByteString, o: nat, e: LeafEntry)
    requires |e.key| < TWO_16 && |e.value| < TWO_32 && o + |LeafCell(e)| <= |p| && p[o..o + |LeafCell(e)|] == LeafCell(e)
    ensures SliceAt(p, o + 6, |e.key|) == e.key && SliceAt(p, o + 6 + |e.key|, |e.value|) == e.value
  {
    var cell, k, v := LeafCell(e), |e.key|, |e.value|;
    assert |cell| == 6 + k + v;
    LeafCellFields(e);
    hide LittleEndian, Pow256, LeafCell, NumberAt;
    FieldOfCell(p, o, cell, 6, k);
    FieldOfCell(p, o, cell, 6 + k, v);
  }

  lemma InternalReadsBack(p: ByteString, es: seq<InternalEntry>, i: nat)
    requires InternalPage(p, es) && i < |es|
    ensures InternalKey(p, i) == es[i].key && InternalChild(p, i) == es[i].child
  {
    var cells, e := InternalCells(es), es[i];
    var cell := cells[i];
    CellWithinTotal(cells, i, |cells|);
    SlotReadsBack(p, cells, i);
    InternalCellFields(e);
    Pow256Values();
    var o, k := Slot(p, i), |e.key|;
    hide LittleEndian, CellBytes, Pow256, Slot, InternalCell, CellsInPlace;
    assert cell[0..4] == cell[..4];
    FieldOfCell(p, o, cell, 0, 4);
    FieldOfCell(p, o, cell, 4, 2);
    FieldOfCell(p, o, cell, 6, k);
    NumberReadsBack(p, o, e.child, 4);
    NumberReadsBack(p, o + 4, k, 2);
  }

  /** The header of a built page: its type in byte 0, the cell count in bytes 2 and 3, where the cells begin in
      bytes 4 and 5, and the right link in bytes 8 to 11. */
  lemma HeaderLayout(p: ByteString, kind: byte, link: u32, cells: seq<ByteString>)
    requires PageHolds(p, kind, link, cells)
    ensures |p| == 4096 && p[0] == kind
    ensures FromLittleEndian(p[2..4]) == |cells| && FromLittleEndian(p[4..6]) == 4096 - CellBytes(cells, |cells|)
    ensures FromLittleEndian(p[8..12]) == link
  {
    Pow256Values();
    LittleEndianRoundTrip(|cells|, 2);
    LittleEndianRoundTrip(Cursor(cells, |cells|), 2);
    LittleEndianRoundTrip(link, 4);
    hide LittleEndian, FromLittleEndian, CellBytes, CellsInPlace;
  }

  lemma CountReadsBack(p: ByteString, kind: byte, link: u32, cells: seq<ByteString>)
    requires PageHolds(p, kind, link, cells)
    ensures CellCount(p) == |cells| && RightLink(p) == link
  {
    Pow256Values();
    hide LittleEndian, Pow256;
    NumberReadsBack(p, OFF_CELL_COUNT, |cells|, 2);
    NumberReadsBack(p, OFF_RIGHT_LINK, link, 4);
  }

  /** Build, then read: the same entries in the same order, and the same right link. */
  method LeafRoundTrip(es: seq<LeafEntry>, link: u32) returns (r: Result<seq<LeafEntry>>)
    ensures r == if LeafFootprint(es) <= USABLE then Ok(es) else Err(Corruption)
  {
    var page := BuildLeaf(es, link);
    if page.Err? { return Err(Corruption); }
    CountReadsBack(page.value, PAGE_LEAF, link, LeafCells(es));
    var count := |LeafCells(es)|;
    assert count == |es|;
    hide *;
    var read := LeafEntries(page.value);
    forall i | 0 <= i < |es| ensures read[i] == es[i] { LeafReadsBack(page.value, es, link, i); }
    assert read == es;
    r := Ok(read);
  }

  // ---------------------------------------------------------------- searching

  datatype Found = At(slot: nat) | InsertAt(slot: nat)

  ghost function LeafKeys(es: seq<LeafEntry>): (r: seq<ByteString>)
    ensures |r| == |es| && forall i :: 0 <= i < |r| ==> r[i] == es[i].key
  {
    seq(|es|, i requires 0 <= i < |es| => es[i].key)
  }

  ghost function InternalKeys(es: seq<InternalEntry>): (r: seq<ByteString>)
    ensures |r| == |es| && forall i :: 0 <= i < |r| ==> r[i] == es[i].key
  {
    seq(|es|, i requires 0 <= i < |es| => es[i].key)
  }

  /** `find_leaf_slot`: the key's slot if it is present, else where it would be inserted. */
  method FindLeafSlot(p: ByteString, key: ByteString, ghost es: seq<LeafEntry>, ghost link: u32) returns (r: Found)
    requires LeafPage(p, es, link) && StrictlySorted(LeafKeys(es))
    ensures r.At? <==> key in LeafKeys(es)
    ensures r.At? ==> r.slot < |es| && es[r.slot].key == key
    ensures r.InsertAt? ==> r.slot <= |es|
    ensures r.InsertAt? ==> forall i :: 0 <= i < r.slot ==> Less(es[i].key, key)
    ensures r.InsertAt? ==> forall i :: r.slot <= i < |es| ==> Less(key, es[i].key)
  {
    ghost var keys := LeafKeys(es);
    CountReadsBack(p, PAGE_LEAF, link, LeafCells(es));
    var lo, hi := 0, CellCount(p);
    assert hi == |es| && |keys| == |es|;
    hide *;
    assert AllBelow(keys, 0, key) && AllAbove(keys, |es|, key) by { NoneYet(keys, key); }
    while lo < hi
      invariant 0 <= lo <= hi <= |es|
      invariant AllBelow(keys, lo, key) && AllAbove(keys, hi, key)
    {
      var mid := (lo + hi) / 2;
      LeafReadsBack(p, es, link, mid);
      var here := LeafKey(p, mid);
      Halve(keys, mid, key);
      if Less(here, key) {
        lo := mid + 1;
      } else if here == key {
        assert keys[mid] == key;
        return At(mid);
      } else {
        hi := mid;
      }
    }
    NotPresent(keys, lo, key);
    r := InsertAt(lo);
  }

  ghost predicate AllBelow(keys: seq<ByteString>, n: nat, key: ByteString) {
    n <= |keys| && forall i :: 0 <= i < n ==> Less(keys[i], key)
  }

  ghost predicate AllAbove(keys: seq<ByteString>, n: nat, key: ByteString) {
    n <= |keys| && forall i :: n <= i < |keys| ==> Less(key, keys[i])
  }

  lemma NoneYet(keys: seq<ByteString>, key: ByteString)
    ensures AllBelow(keys, 0, key) && AllAbove(keys, |keys|, key)
  {
  }

  /** One probe decides for everything on its side. */
  lemma Halve(keys: seq<ByteString>, mid: nat, key: ByteString)
    requires StrictlySorted(keys) && mid < |keys|
    ensures Less(keys[mid], key) ==> AllBelow(keys, mid + 1, key)
    ensures !Less(keys[mid], key) && keys[mid] != key ==> AllAbove(keys, mid, key)
  {
    hide Less;
    LessTotal(keys[mid], key);
    if Less(keys[mid], key) {
      forall i | 0 <= i < mid ensures Less(keys[i], key) { LessTransitive(keys[i], keys[mid], key); }
    } else if keys[mid] != key {
      forall i | mid < i < |keys| ensures Less(key, keys[i]) { LessTransitive(key, keys[mid], keys[i]); }
    }
  }

  lemma NotPresent(keys: seq<ByteString>, n: nat, key: ByteString)
    requires AllBelow(keys, n, key) && AllAbove(keys, n, key)
    ensures key !in keys
    ensures forall i :: 0 <= i < n ==> Less(keys[i], key)
    ensures forall i :: n <= i < |keys| ==> Less(key, keys[i])
  {
    hide Less;
    LessIrreflexive(key);
  }

  /** `find_child`: the last separator at or below the key, or the first child. */
  method FindChild(p: ByteString, key: ByteString, ghost es: seq<InternalEntry>) returns (r: nat)
    requires InternalPage(p, es) && StrictlySorted(InternalKeys(es))
    ensures es != [] ==> r < |es|
    ensures forall i :: r < i < |es| ==> !AtMost(es[i].key, key)
    ensures r == 0 || (r < |es| && AtMost(es[r].key, key))
  {
    ghost var keys := InternalKeys(es);
    CountReadsBack(p, PAGE_INTERNAL, 0, InternalCells(es));
    var lo, hi := 0, CellCount(p);
    hide Less, InternalPage, InternalKey;
    while lo < hi
      invariant 0 <= lo <= hi <= |es|
      invariant forall i :: 0 <= i < lo ==> AtMost(keys[i], key)
      invariant forall i :: hi <= i < |es| ==> Less(key, keys[i])
    {
      var mid := (lo + hi) / 2;
      InternalReadsBack(p, es, mid);
      var here := InternalKey(p, mid);
      if AtMost(here, key) {
        forall i | 0 <= i < mid + 1 ensures AtMost(keys[i], key) {
          if i < mid {
            LessAsymmetric(keys[i], keys[mid]);
            AtMostTransitive(keys[i], keys[mid], key);
          }
        }
        lo := mid + 1;
      } else {
        forall i | mid <= i < |es| ensures Less(key, keys[i]) { if mid < i { LessTransitive(key, keys[mid], keys[i]); } }
        hi := mid;
      }
    }
    r := if lo > 0 then lo - 1 else 0;
    assert lo > 0 ==> AtMost(keys[lo - 1], key);
  }
}
