// The layout of a B+Tree node page (internal/nodepage): a header, an array of slots growing up, and the cells the
// slots point at growing down. All of it on the bytes of one page.
module SlottedPage {
  import opened Bytes
  import opened ByteOrder
  import opened SortedEntries
  import opened PageLayout
  import opened BTreeInvariant
  import opened Tiling

  const SLOT_SIZE := 4
  const SLOT_ARRAY_START := HEADER_SIZE + 8
  const ENTRY_AREA := SIZE - SLOT_ARRAY_START
  const LEAF_SUFFIX := 6
  const INTERNAL_SUFFIX := 4

  const OFF_LINK := HEADER_SIZE
  const OFF_LEVEL := HEADER_SIZE + 4
  const OFF_PAD := HEADER_SIZE + 6

  function FreeStart(p: Page): u16 { U16At(p, OFF_FREE_START) }
  function FreeEnd(p: Page): u16 { U16At(p, OFF_FREE_END) }
  function FreeSpace(p: Page): int { FreeEnd(p) as int - FreeStart(p) as int }
  function Link(p: Page): PageId { U32At(p, OFF_LINK) }
  function Level(p: Page): u16 { U16At(p, OFF_LEVEL) }

  predicate IsNode(p: Page) {
    Kind(p) == KIND_BTREE_LEAF || Kind(p) == KIND_BTREE_INTERNAL
  }

  predicate IsLeaf(p: Page) {
    Kind(p) == KIND_BTREE_LEAF
  }

  function SuffixLen(p: Page): nat {
    if IsLeaf(p) then LEAF_SUFFIX else INTERNAL_SUFFIX
  }

  function SlotOffset(i: nat): nat {
    SLOT_ARRAY_START + i * SLOT_SIZE
  }

  // Where the i-th cell lies. The slot must lie in the page; the cell may lie anywhere.
  function CellBounds(p: Page, i: nat): Span
    requires SlotOffset(i) + SLOT_SIZE <= SIZE
  {
    var off, length := U16At(p, SlotOffset(i)), U16At(p, SlotOffset(i) + 2);
    Span(off, off + length)
  }

  // ---------- what makes a page sound ----------

  predicate HeaderOk(p: Page) {
    && IsNode(p)
    && (IsLeaf(p) <==> Level(p) == 0)
    && U16At(p, OFF_PAD) == 0
    && FreeStart(p) == SlotOffset(ItemCount(p))
    && FreeStart(p) <= FreeEnd(p) <= SIZE
  }

  function Spans(p: Page): (s: seq<Span>)
    requires HeaderOk(p)
    ensures |s| == ItemCount(p)
  {
    seq(ItemCount(p), i requires 0 <= i < ItemCount(p) => CellBounds(p, i))
  }

  // Every cell lies between the slots and the end of the page and has room for its suffix and a key of least bytes.
  predicate CellFits(p: Page, s: Span, least: nat) {
    FreeStart(p) <= s.lo && s.lo + SuffixLen(p) + least <= s.hi <= SIZE
  }

  predicate CellsFit(p: Page, least: nat) {
    HeaderOk(p) && forall i :: 0 <= i < ItemCount(p) ==> CellFits(p, Spans(p)[i], least)
  }

  // The cells fill what is past the free end, without gap or overlap.
  ghost predicate Laid(p: Page, least: nat) {
    CellsFit(p, least) && Tiles(Spans(p), FreeEnd(p), SIZE)
  }

  // ---------- contents ----------

  function KeyRef(p: Page, i: nat): Key
    requires CellsFit(p, 0) && i < ItemCount(p)
  {
    var s := Spans(p)[i];
    assert CellFits(p, s, 0);
    p[s.lo..s.hi - SuffixLen(p)]
  }

  function Row(p: Page, i: nat): RowId
    requires CellsFit(p, 0) && i < ItemCount(p) && IsLeaf(p)
  {
    var s := Spans(p)[i];
    assert CellFits(p, s, 0);
    RowId(U32At(p, s.hi - LEAF_SUFFIX), U16At(p, s.hi - 2))
  }

  // Child 0 is kept in the header, the others beside their keys.
  function Child(p: Page, i: nat): PageId
    requires CellsFit(p, 0) && i <= ItemCount(p) && !IsLeaf(p)
  {
    if i == 0 then Link(p) else
      var s := Spans(p)[i - 1];
      assert CellFits(p, s, 0);
      U32At(p, s.hi - INTERNAL_SUFFIX)
  }

  function Keys(p: Page): (ks: seq<Key>)
    requires CellsFit(p, 0)
    ensures |ks| == ItemCount(p) && forall i :: 0 <= i < |ks| ==> ks[i] == KeyRef(p, i)
  {
    seq(ItemCount(p), i requires 0 <= i < ItemCount(p) => KeyRef(p, i))
  }

  function Rows(p: Page): (rs: seq<RowId>)
    requires CellsFit(p, 0) && IsLeaf(p)
    ensures |rs| == ItemCount(p) && forall i :: 0 <= i < |rs| ==> rs[i] == Row(p, i)
  {
    seq(ItemCount(p), i requires 0 <= i < ItemCount(p) => Row(p, i))
  }

  function Children(p: Page): (cs: seq<PageId>)
    requires CellsFit(p, 0) && !IsLeaf(p)
    ensures |cs| == ItemCount(p) + 1 && forall i :: 0 <= i < |cs| ==> cs[i] == Child(p, i)
  {
    seq(ItemCount(p) + 1, i requires 0 <= i < ItemCount(p) + 1 => Child(p, i))
  }

  // What Validate accepts: a sound page whose keys are there and in order.
  ghost predicate Valid(p: Page) {
    Laid(p, 1) && CellsFit(p, 0) && SortedKeys(Keys(p))
  }

  // No two cells share a byte, every byte past the free end belongs to one, and none lies before it.
  lemma LaidIsDisjoint(p: Page, i: nat, j: nat, x: nat)
    requires Laid(p, 0)
    ensures i < j < ItemCount(p) ==> !(In(x, Spans(p)[i]) && In(x, Spans(p)[j]))
    ensures (FreeEnd(p) <= x < SIZE) <==> exists k :: 0 <= k < ItemCount(p) && In(x, Spans(p)[k])
  {
    if i < j < ItemCount(p) {
      TilesAreDisjoint(Spans(p), FreeEnd(p), SIZE, i, j, x);
    }
    assert Covers(Spans(p), x) == if FreeEnd(p) as int <= x < SIZE then 1 else 0;
    if FreeEnd(p) <= x < SIZE {
      var k := SomeCover(Spans(p), x);
      assert In(x, Spans(p)[k]);
    }
    if k :| 0 <= k < ItemCount(p) && In(x, Spans(p)[k]) {
      CoversMember(Spans(p), k, x);
    }
  }

  // ---------- appending a cell ----------

  function Blit(p: Page, off: nat, src: seq<byte>): (q: Page)
    requires off + |src| <= SIZE
    ensures forall i :: 0 <= i < SIZE ==> q[i] == if off <= i < off + |src| then src[i - off] else p[i]
  {
    p[..off] + src + p[off + |src|..]
  }

  predicate TouchedBySlot(n: nat, i: nat) {
    OFF_ITEM_COUNT <= i < OFF_FREE_END + 2 || SlotOffset(n) <= i < SlotOffset(n + 1)
  }

  // The slot of the new cell, then the header fields that changed.
  function WithSlot(p: Page, n: u16, start: u16, length: u16): (q: Page)
    requires SlotOffset(n) + SLOT_SIZE <= SIZE && n < 0xffff
    ensures U16At(q, SlotOffset(n)) == start && U16At(q, SlotOffset(n) + 2) == length
    ensures FreeEnd(q) == start && FreeStart(q) == SlotOffset(n + 1) && ItemCount(q) == n + 1
    ensures forall i :: 0 <= i < SIZE && !TouchedBySlot(n, i) ==> q[i] == p[i]
  {
    var s := SlotOffset(n);
    var p1 := PutU16(PutU16(p, s, start), s + 2, length);
    var p2 := PutU16(PutU16(p1, OFF_FREE_END, start), OFF_FREE_START, s + SLOT_SIZE);
    PutU16(p2, OFF_ITEM_COUNT, n + 1)
  }

  // As much of src as fits on the page from off on.
  function Cropped(off: nat, src: seq<byte>): seq<byte>
    requires off <= SIZE
  {
    if off + |src| <= SIZE then src else src[..SIZE - off]
  }

  // The page with the new cell in it, and the header still as it was, unless the cell lies across it.
  function WithCell(p: Page, key: seq<byte>, tail: seq<byte>): Page
    requires FreeEnd(p) <= SIZE + |tail| && SLOT_SIZE + |key| + |tail| <= FreeSpace(p)
  {
    var start := FreeEnd(p) as int - |key| - |tail|;
    Blit(p, start, Cropped(start, key + tail))
  }

  // A cell that fits, by what the header says, starts its suffix on the page, and its slot will lie there too. Nothing
  // else keeps the writes within the page.
  predicate Spacious(p: Page, key: seq<byte>, tail: seq<byte>) {
    SLOT_SIZE + |key| + |tail| <= FreeSpace(p) ==>
      FreeEnd(p) <= SIZE + |tail| && SlotOffset(ItemCount(WithCell(p, key, tail))) + SLOT_SIZE <= SIZE
  }

  // On a sound page there is room for a slot wherever there is room for a cell.
  lemma SoundIsSpacious(p: Page, key: seq<byte>, tail: seq<byte>)
    requires HeaderOk(p)
    ensures Spacious(p, key, tail)
    ensures SLOT_SIZE + |key| + |tail| <= FreeSpace(p) ==>
              && ItemCount(WithCell(p, key, tail)) == ItemCount(p)
              && WithCell(p, key, tail) == Blit(p, FreeEnd(p) as int - |key| - |tail|, key + tail)
  {
  }

  lemma LaidIsSpacious(p: Page, key: seq<byte>, tail: seq<byte>)
    requires Laid(p, 0)
    ensures Spacious(p, key, tail)
  {
    SoundIsSpacious(p, key, tail);
  }

  function Appended(p: Page, key: seq<byte>, tail: seq<byte>): Page
    requires (HeaderOk(p) || Spacious(p, key, tail)) && SLOT_SIZE + |key| + |tail| <= FreeSpace(p)
  {
    assert Spacious(p, key, tail) by {
      if HeaderOk(p) {
        SoundIsSpacious(p, key, tail);
      }
    }
    var q := WithCell(p, key, tail);
    WithSlot(q, ItemCount(q), FreeEnd(p) as int - |key| - |tail|, |key| + |tail|)
  }

  // The bytes of the page after appending: the new cell, the new slot, three header fields, and the rest as before.
  lemma AppendedBytes(p: Page, key: seq<byte>, tail: seq<byte>)
    requires HeaderOk(p) && SLOT_SIZE + |key| + |tail| <= FreeSpace(p)
    ensures var q, n, start := Appended(p, key, tail), ItemCount(p), FreeEnd(p) as int - |key| - |tail|;
            && ItemCount(q) == n + 1 && FreeEnd(q) == start && FreeStart(q) == SlotOffset(n + 1)
            && CellBounds(q, n) == Span(start, FreeEnd(p))
            && q[start..start + |key|] == key && q[start + |key|..FreeEnd(p)] == tail
            && (forall i :: FreeEnd(p) <= i < SIZE ==> q[i] == p[i])
            && (forall i :: SLOT_ARRAY_START <= i < FreeStart(p) ==> q[i] == p[i])
            && (forall i :: 0 <= i < SLOT_ARRAY_START && !(OFF_ITEM_COUNT <= i < OFF_FREE_END + 2) ==> q[i] == p[i])
  {
    hide PutU16, WithSlot, Blit, WithCell, Cropped, Spacious;
    SoundIsSpacious(p, key, tail);
    var q, n, start := Appended(p, key, tail), ItemCount(p), FreeEnd(p) as int - |key| - |tail|;
    var cell := key + tail;
    assert forall i :: start <= i < FreeEnd(p) ==> q[i] == cell[i - start];
    assert q[start..start + |key|] == key;
    assert q[start + |key|..FreeEnd(p)] == tail;
  }

  // The same fields but for the room left.
  predicate SameNode(q: Page, p: Page) {
    Id(q) == Id(p) && Kind(q) == Kind(p) && Link(q) == Link(p) && Level(q) == Level(p)
  }

  lemma AppendedHeader(p: Page, key: seq<byte>, tail: seq<byte>)
    requires HeaderOk(p) && SLOT_SIZE + |key| + |tail| <= FreeSpace(p)
    ensures var q := Appended(p, key, tail);
            && HeaderOk(q) && SameNode(q, p) && FreeSpace(q) == FreeSpace(p) - SLOT_SIZE - |key| - |tail|
            && Spans(q) == Spans(p) + [Span(FreeEnd(p) as int - |key| - |tail|, FreeEnd(p))]
  {
    hide Appended;
    AppendedBytes(p, key, tail);
    var q := Appended(p, key, tail);
    forall i | 0 <= i < ItemCount(p)
      ensures CellBounds(q, i) == CellBounds(p, i)
    {
      assert SlotOffset(i) + SLOT_SIZE <= FreeStart(p);
    }
  }

  // A sound page stays sound, and no earlier cell changes.
  lemma AppendedIsLaid(p: Page, key: seq<byte>, tail: seq<byte>, least: nat)
    requires Laid(p, least) && |tail| == SuffixLen(p) && |key| >= least
    requires SLOT_SIZE + |key| + |tail| <= FreeSpace(p)
    ensures Laid(Appended(p, key, tail), least)
  {
    hide Appended;
    AppendedHeader(p, key, tail);
    AppendedBytes(p, key, tail);
    var q := Appended(p, key, tail);
    var s := Span(FreeEnd(p) as int - |key| - |tail|, FreeEnd(p));
    TilesGrow(Spans(p), FreeEnd(p), SIZE, s);
    forall i | 0 <= i < ItemCount(q)
      ensures CellFits(q, Spans(q)[i], least)
    {
      if i < ItemCount(p) {
        assert CellFits(p, Spans(p)[i], least);
        TilesStayInside(Spans(p), FreeEnd(p), SIZE, i);
      }
    }
  }

  lemma LaidFits(p: Page, least: nat)
    requires Laid(p, least)
    ensures Laid(p, 0)
  {
    forall i | 0 <= i < ItemCount(p)
      ensures CellFits(p, Spans(p)[i], 0)
    {
      assert CellFits(p, Spans(p)[i], least);
    }
  }

  // Cells keep their bytes.
  lemma AppendedKeeps(p: Page, key: seq<byte>, tail: seq<byte>, i: nat)
    requires Laid(p, 0) && |tail| == SuffixLen(p) && SLOT_SIZE + |key| + |tail| <= FreeSpace(p) && i < ItemCount(p)
    ensures var q, s := Appended(p, key, tail), Spans(p)[i];
            && CellFits(p, s, 0) && q[s.lo..s.hi] == p[s.lo..s.hi]
  {
    hide Appended;
    AppendedBytes(p, key, tail);
    var q, s := Appended(p, key, tail), Spans(p)[i];
    assert CellFits(p, s, 0);
    TilesStayInside(Spans(p), FreeEnd(p), SIZE, i);
    assert forall x :: s.lo <= x < s.hi ==> q[x] == p[x];
  }

  lemma AppendedKey(p: Page, key: seq<byte>, tail: seq<byte>, i: nat)
    requires Laid(p, 0) && |tail| == SuffixLen(p) && SLOT_SIZE + |key| + |tail| <= FreeSpace(p) && i <= ItemCount(p)
    requires CellsFit(Appended(p, key, tail), 0) && i < ItemCount(Appended(p, key, tail))
    ensures KeyRef(Appended(p, key, tail), i) == if i < ItemCount(p) then KeyRef(p, i) else key
  {
    hide Appended, Laid, U16At;
    LaidCells(p);
    AppendedHeader(p, key, tail);
    AppendedBytes(p, key, tail);
    if i < ItemCount(p) {
      AppendedKeeps(p, key, tail, i);
      var s := Spans(p)[i];
      SameSlice(Appended(p, key, tail), p, s.lo, s.hi, s.hi - SuffixLen(p));
    }
  }

  // The keys are those before and the new one.
  lemma AppendedKeys(p: Page, key: seq<byte>, tail: seq<byte>)
    requires Laid(p, 0) && |tail| == SuffixLen(p) && SLOT_SIZE + |key| + |tail| <= FreeSpace(p)
    ensures Laid(Appended(p, key, tail), 0)
    ensures Keys(Appended(p, key, tail)) == Keys(p) + [key]
  {
    hide Appended, Laid, CellsFit, KeyRef, Keys, HeaderOk;
    LaidCells(p);
    AppendedIsLaid(p, key, tail, 0);
    AppendedHeader(p, key, tail);
    var q := Appended(p, key, tail);
    LaidCells(q);
    forall i | 0 <= i < ItemCount(q)
      ensures Keys(q)[i] == (Keys(p) + [key])[i]
    {
      AppendedKey(p, key, tail, i);
    }
  }

  lemma LaidCells(p: Page)
    requires Laid(p, 0)
    ensures CellsFit(p, 0)
  {
  }

  lemma SameSlice(q: Page, p: Page, lo: nat, hi: nat, mid: nat)
    requires lo <= mid <= hi <= SIZE && q[lo..hi] == p[lo..hi]
    ensures q[lo..mid] == p[lo..mid] && q[mid..hi] == p[mid..hi]
  {
    Subslices(q, lo, hi, mid);
    Subslices(p, lo, hi, mid);
  }

  lemma Subslices(s: seq<byte>, lo: nat, hi: nat, mid: nat)
    requires lo <= mid <= hi <= |s|
    ensures s[lo..mid] == s[lo..hi][..mid - lo] && s[mid..hi] == s[lo..hi][mid - lo..]
  {
  }

  // Appending keeps Validate passing as long as keys come in strictly increasing order and are not empty.
  lemma AppendedIsValid(p: Page, key: seq<byte>, tail: seq<byte>)
    requires Valid(p) && |tail| == SuffixLen(p) && SLOT_SIZE + |key| + |tail| <= FreeSpace(p)
    requires key != [] && (ItemCount(p) > 0 ==> Less(KeyRef(p, ItemCount(p) - 1), key))
    ensures Valid(Appended(p, key, tail))
  {
    hide Appended, Less, KeyRef, CellsFit, Laid;
    LaidFits(p, 1);
    LaidCells(p);
    AppendedIsLaid(p, key, tail, 1);
    AppendedKeys(p, key, tail);
    LaidCells(Appended(p, key, tail));
    SortedSnoc(Keys(p), key);
  }

  lemma SortedSnoc(keys: seq<Key>, key: Key)
    requires SortedKeys(keys) && (keys != [] ==> Less(keys[|keys| - 1], key))
    ensures SortedKeys(keys + [key])
  {
    hide Less;
    forall i | 0 <= i < |keys|
      ensures Less(keys[i], key)
    {
      if i < |keys| - 1 {
        LessTransitive(keys[i], keys[|keys| - 1], key);
      }
    }
  }

  // The converse: a key out of order, or an empty one, makes a page that Validate rejects.
  lemma AppendedIsInvalid(p: Page, key: seq<byte>, tail: seq<byte>)
    requires Valid(p) && |tail| == SuffixLen(p) && SLOT_SIZE + |key| + |tail| <= FreeSpace(p)
    requires key == [] || (ItemCount(p) > 0 && !Less(KeyRef(p, ItemCount(p) - 1), key))
    ensures !Valid(Appended(p, key, tail))
  {
    hide Appended, Less, KeyRef, Laid;
    LaidFits(p, 1);
    LaidCells(p);
    AppendedKeys(p, key, tail);
    AppendedHeader(p, key, tail);
    var q, n := Appended(p, key, tail), ItemCount(p);
    LaidCells(q);
    if key == [] {
      assert !CellFits(q, Spans(q)[n], 1);
      NotLaid(q, n);
    } else {
      assert Keys(q)[n - 1] == KeyRef(p, n - 1) && Keys(q)[n] == key;
    }
  }

  lemma NotLaid(p: Page, i: nat)
    requires HeaderOk(p) && i < ItemCount(p) && !CellFits(p, Spans(p)[i], 1)
    ensures !Laid(p, 1)
  {
  }

  // ---------- suffixes ----------

  function RowTail(row: RowId): (t: seq<byte>)
    ensures |t| == LEAF_SUFFIX && U32At(t, 0) == row.page && U16At(t, 4) == row.slot
  {
    PutU16(PutU32(Zeros(LEAF_SUFFIX), 0, row.page), 4, row.slot)
  }

  function ChildTail(child: PageId): (t: seq<byte>)
    ensures |t| == INTERNAL_SUFFIX && U32At(t, 0) == child
  {
    PutU32(Zeros(INTERNAL_SUFFIX), 0, child)
  }

  lemma ReadInSlice(p: Page, lo: nat, hi: nat, off: nat)
    requires lo <= hi <= SIZE
    ensures lo + off + 4 <= hi ==> U32At(p[lo..hi], off) == U32At(p, lo + off)
    ensures lo + off + 2 <= hi ==> U16At(p[lo..hi], off) == U16At(p, lo + off)
  {
  }

  lemma AppendedRows(p: Page, key: seq<byte>, row: RowId)
    requires Laid(p, 0) && IsLeaf(p) && SLOT_SIZE + |key| + LEAF_SUFFIX <= FreeSpace(p)
    ensures var q := Appended(p, key, RowTail(row));
            Laid(q, 0) && IsLeaf(q) && Rows(q) == Rows(p) + [row] && Keys(q) == Keys(p) + [key]
  {
    hide Appended, Laid, U32At, U16At, RowTail;
    var tail := RowTail(row);
    LaidCells(p);
    var q, n := Appended(p, key, tail), ItemCount(p);
    AppendedKeys(p, key, tail);
    AppendedHeader(p, key, tail);
    AppendedBytes(p, key, tail);
    LaidCells(q);
    forall i | 0 <= i < n + 1
      ensures Row(q, i) == (Rows(p) + [row])[i]
    {
      var s := Spans(q)[i];
      if i < n {
        AppendedKeeps(p, key, tail, i);
        SameSlice(q, p, s.lo, s.hi, s.hi - LEAF_SUFFIX);
        ReadInSlice(p, s.hi - LEAF_SUFFIX, s.hi, 0);
        ReadInSlice(p, s.hi - LEAF_SUFFIX, s.hi, 4);
      }
      ReadInSlice(q, s.hi - LEAF_SUFFIX, s.hi, 0);
      ReadInSlice(q, s.hi - LEAF_SUFFIX, s.hi, 4);
    }
  }

  lemma AppendedChildren(p: Page, key: seq<byte>, child: PageId)
    requires Laid(p, 0) && !IsLeaf(p) && SLOT_SIZE + |key| + INTERNAL_SUFFIX <= FreeSpace(p)
    ensures var q := Appended(p, key, ChildTail(child));
            Laid(q, 0) && !IsLeaf(q) && Children(q) == Children(p) + [child] && Keys(q) == Keys(p) + [key]
  {
    hide Appended, Laid, U32At, U16At, ChildTail;
    var tail := ChildTail(child);
    LaidCells(p);
    var q, n := Appended(p, key, tail), ItemCount(p);
    AppendedKeys(p, key, tail);
    AppendedHeader(p, key, tail);
    AppendedBytes(p, key, tail);
    LaidCells(q);
    forall i | 1 <= i < n + 2
      ensures Child(q, i) == (Children(p) + [child])[i]
    {
      var s := Spans(q)[i - 1];
      if i < n + 1 {
        AppendedKeeps(p, key, tail, i - 1);
        SameSlice(q, p, s.lo, s.hi, s.hi - INTERNAL_SUFFIX);
        ReadInSlice(p, s.hi - INTERNAL_SUFFIX, s.hi, 0);
      }
      ReadInSlice(q, s.hi - INTERNAL_SUFFIX, s.hi, 0);
    }
  }

  // The link lies outside everything Validate and the keys depend on.
  lemma LinkIsApart(p: Page, q: Page)
    requires Valid(p) && forall i :: 0 <= i < SIZE && !(OFF_LINK <= i < OFF_LEVEL) ==> q[i] == p[i]
    ensures Valid(q) && Keys(q) == Keys(p)
  {
    hide Less, SortedKeys, Tiles;
    assert HeaderOk(q) && ItemCount(q) == ItemCount(p) && SuffixLen(q) == SuffixLen(p);
    forall i | 0 <= i < ItemCount(p)
      ensures CellBounds(q, i) == CellBounds(p, i)
    {
    }
    assert Spans(q) == Spans(p);
    forall i | 0 <= i < ItemCount(p)
      ensures CellFits(q, Spans(q)[i], 1) && CellFits(q, Spans(q)[i], 0)
    {
      assert CellFits(p, Spans(p)[i], 1);
    }
    assert FreeEnd(q) == FreeEnd(p) && CellsFit(q, 1) && CellsFit(q, 0) && Laid(q, 1);
    forall i | 0 <= i < ItemCount(p)
      ensures KeyRef(q, i) == KeyRef(p, i)
    {
    }
    assert Keys(q) == Keys(p);
  }

  // ---------- how much fits ----------

  function MaxKeys(leaf: bool, keyLen: int): int {
    var per := SLOT_SIZE + keyLen + if leaf then LEAF_SUFFIX else INTERNAL_SUFFIX;
    if per <= 0 then 0 else ENTRY_AREA / per
  }

  lemma {:induction false} TotalOfEqual(spans: seq<Span>, size: nat)
    requires forall i :: 0 <= i < |spans| ==> spans[i].hi - spans[i].lo == size
    ensures Total(spans) == |spans| * size
  {
    if spans != [] {
      TotalOfEqual(spans[1..], size);
      assert |spans| * size == (|spans| - 1) * size + size;
    }
  }

  // With keys of one length, exactly MaxKeys entries fit: there is room for another if and only if there are fewer.
  lemma EqualKeysFill(p: Page, keyLen: nat)
    requires Laid(p, 0) && forall i :: 0 <= i < ItemCount(p) ==> |Keys(p)[i]| == keyLen
    ensures SLOT_SIZE + keyLen + SuffixLen(p) <= FreeSpace(p) <==> ItemCount(p) < MaxKeys(IsLeaf(p), keyLen)
    ensures ItemCount(p) <= MaxKeys(IsLeaf(p), keyLen)
  {
    var n, per := ItemCount(p), SLOT_SIZE + keyLen + SuffixLen(p);
    EqualKeysUse(p, keyLen);
    FillByDivision(n, per, ENTRY_AREA);
  }

  lemma EqualKeysUse(p: Page, keyLen: nat)
    requires Laid(p, 0) && forall i :: 0 <= i < ItemCount(p) ==> |Keys(p)[i]| == keyLen
    ensures FreeSpace(p) == ENTRY_AREA - ItemCount(p) * (SLOT_SIZE + keyLen + SuffixLen(p))
  {
    hide Tiles, Total;
    var n, cell := ItemCount(p), keyLen + SuffixLen(p);
    forall i | 0 <= i < n
      ensures Spans(p)[i].hi - Spans(p)[i].lo == cell
    {
      assert CellFits(p, Spans(p)[i], 0);
      assert |Keys(p)[i]| == keyLen;
    }
    TilesTotal(Spans(p), FreeEnd(p), SIZE);
    TotalOfEqual(Spans(p), cell);
    MulAdd(n, SLOT_SIZE, cell);
  }

  lemma MulAdd(n: nat, a: nat, b: nat)
    ensures n * (a + b) == n * a + n * b
  {
  }

  lemma FillByDivision(n: nat, per: nat, area: nat)
    requires per > 0
    ensures per <= area - n * per <==> n < area / per
    ensures n * per <= area ==> n <= area / per
  {
    var q := area / per;
    Divides(area, per);
    if n < q {
      MulGap(n, q, per);
    } else {
      MulGap(q, n + 1, per);
      MulAdd(per, n, 1);
      if n > q {
        MulGap(q, n, per);
      }
    }
  }

  lemma Divides(area: nat, per: nat)
    requires per > 0
    ensures area / per * per <= area < area / per * per + per
  {
  }

  lemma MulGap(a: nat, b: nat, x: nat)
    requires a < b
    ensures b * x >= a * x + x
  {
    MulAdd(x, a + 1, b - a - 1);
    MulAdd(x, a, 1);
  }

  // ---------- fresh pages ----------

  function NewNode(id: PageId, kind: byte): Page {
    PutU16(NewPage(id, kind), OFF_FREE_START, SLOT_ARRAY_START)
  }

  function NewLeaf(id: PageId): Page {
    NewNode(id, KIND_BTREE_LEAF)
  }

  function NewInternal(id: PageId, level: u16): Page {
    PutU16(NewNode(id, KIND_BTREE_INTERNAL), OFF_LEVEL, level)
  }

  lemma EmptyIsValid(p: Page)
    requires IsNode(p) && (IsLeaf(p) <==> Level(p) == 0) && ItemCount(p) == 0 && U16At(p, OFF_PAD) == 0
    requires FreeStart(p) == SLOT_ARRAY_START && FreeEnd(p) == SIZE
    ensures Valid(p) && Keys(p) == []
    ensures if IsLeaf(p) then Rows(p) == [] else Children(p) == [Link(p)]
  {
  }

  // A new page is valid, with nothing on it.
  lemma NewLeafIsValid(id: PageId)
    ensures var p := NewLeaf(id);
            Valid(p) && IsLeaf(p) && Id(p) == id && Link(p) == 0 && Keys(p) == [] && Rows(p) == []
  {
    hide NewNode;
    NewFields(id, KIND_BTREE_LEAF);
    EmptyIsValid(NewLeaf(id));
  }

  lemma NewInternalIsValid(id: PageId, level: u16)
    requires level > 0
    ensures var p := NewInternal(id, level);
            Valid(p) && !IsLeaf(p) && Id(p) == id && Level(p) == level && Keys(p) == [] && Children(p) == [0]
  {
    hide NewNode, PutU16;
    NewFields(id, KIND_BTREE_INTERNAL);
    EmptyIsValid(NewInternal(id, level));
  }

  lemma NewFields(id: PageId, kind: byte)
    ensures var p := NewNode(id, kind);
            && Id(p) == id && Kind(p) == kind && ItemCount(p) == 0 && Link(p) == 0 && Level(p) == 0
            && FreeStart(p) == SLOT_ARRAY_START && FreeEnd(p) == SIZE && U16At(p, OFF_PAD) == 0
  {
  }
}
