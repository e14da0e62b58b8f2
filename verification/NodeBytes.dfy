// The bytes of a B+Tree node page, spelled out: every offset as it is on disk, multi-byte numbers with the high byte
// first. And what Validate accepts, said of the bytes alone.
module NodeBytes {
  import opened Bytes
  import opened ByteOrder
  import opened SortedEntries
  import opened PageLayout
  import opened Tiling
  import opened SlottedPage
  import opened KeyOrder
  import opened StoreBytes

  // ---------- new pages and new cells ----------

  lemma NewNodeBytes(id: PageId, level: u16)
    ensures NewLeaf(id) == BigEndian(id, 4) + [3, 0, 0, 0, 0, 24, 16, 0] + Zeros(4084)
    ensures var p := NewInternal(id, level);
            && p[..12] == BigEndian(id, 4) + [4, 0, 0, 0, 0, 24, 16, 0] && p[20..22] == BigEndian(level, 2)
            && forall i :: 12 <= i < 20 || 22 <= i < 4096 ==> p[i] == 0
  {
    hide BigEndian, U16At;
    NewNodeHead(id, 3);
    NewNodeHead(id, 4);
    var p := NewInternal(id, level);
    TwoBytes(p, 20);
    assert NewLeaf(id) == NewLeaf(id)[..12] + NewLeaf(id)[12..];
    assert NewLeaf(id)[12..] == Zeros(4084);
    assert p[..12] == NewNode(id, 4)[..12];
  }

  lemma NewNodeHead(id: PageId, kind: byte)
    ensures NewNode(id, kind)[..12] == BigEndian(id, 4) + [kind, 0, 0, 0, 0, 24, 16, 0]
    ensures forall i :: 12 <= i < 4096 ==> NewNode(id, kind)[i] == 0
  {
    hide BigEndian, U16At, U32At, PutU16;
    var p := NewNode(id, kind);
    NewPageFields(id, kind);
    SmallNumbers();
    assert BigEndian(24, 2) == [0, 24] by { TwentyFour(); }
    assert U32At(p, 0) == id by { SameFirst4(p, NewPage(id, kind)); }
    FourBytes(p, 0);
    TwoBytes(p, 6);
    TwoBytes(p, 8);
    TwoBytes(p, 10);
    assert U16At(p, 6) == 0 && U16At(p, 10) == 4096 by { SameHalves(p, NewPage(id, kind)); }
    assert p[..12] == p[0..4] + [p[4], p[5]] + p[6..8] + p[8..10] + p[10..12];
  }

  lemma TwentyFour()
    ensures BigEndian(24, 2) == [0, 24]
  {
  }

  lemma SameFirst4(q: Page, p: Page)
    requires forall i :: 0 <= i < 4 ==> q[i] == p[i]
    ensures U32At(q, 0) == U32At(p, 0)
  {
  }

  lemma SameHalves(q: Page, p: Page)
    requires forall i :: 6 <= i < 8 || 10 <= i < 12 ==> q[i] == p[i]
    ensures U16At(q, 6) == U16At(p, 6) && U16At(q, 10) == U16At(p, 10)
  {
  }

  // The suffix of a cell: the row's page and slot, or the child.
  lemma TailBytes(row: RowId, child: PageId)
    ensures RowTail(row) == BigEndian(row.page, 4) + BigEndian(row.slot, 2)
    ensures ChildTail(child) == BigEndian(child, 4)
  {
    hide BigEndian, U16At, U32At, PutU16, PutU32;
    FourBytes(RowTail(row), 0);
    TwoBytes(RowTail(row), 4);
    assert RowTail(row) == RowTail(row)[0..4] + RowTail(row)[4..6];
    FourBytes(ChildTail(child), 0);
    assert ChildTail(child) == ChildTail(child)[0..4];
  }

  // Appending on a sound page: the cell right below the others, its slot right behind theirs, three fields of the
  // header, and nothing else.
  lemma AppendedMeans(p: Page, key: Key, tail: seq<byte>)
    requires HeaderOk(p) && 4 + |key| + |tail| <= FreeSpace(p)
    ensures var q, n, end := Appended(p, key, tail), ItemCount(p), FreeEnd(p);
            && var start := end as int - |key| - |tail|;
            && 24 + 4 * n + 4 <= start && end <= 4096
            && q[start..end] == key + tail
            && q[24 + 4 * n..28 + 4 * n] == BigEndian(start, 2) + BigEndian(|key| + |tail|, 2)
            && q[6..12] == BigEndian(n + 1, 2) + BigEndian(28 + 4 * n, 2) + BigEndian(start, 2)
            && forall i :: 0 <= i < 6 || 12 <= i < 24 + 4 * n || 28 + 4 * n <= i < start || end <= i < 4096 ==>
                 q[i] == p[i]
  {
    hide BigEndian, U16At, PutU16, Blit, WithCell, Cropped, Spacious;
    SoundIsSpacious(p, key, tail);
    var q, n, start := Appended(p, key, tail), ItemCount(p), FreeEnd(p) as int - |key| - |tail|;
    var cell := key + tail;
    assert forall i :: start <= i < FreeEnd(p) ==> q[i] == cell[i - start];
    TwoBytes(q, 24 + 4 * n);
    TwoBytes(q, 26 + 4 * n);
    TwoBytes(q, 6);
    TwoBytes(q, 8);
    TwoBytes(q, 10);
    assert q[24 + 4 * n..28 + 4 * n] == q[24 + 4 * n..26 + 4 * n] + q[26 + 4 * n..28 + 4 * n];
    assert q[6..12] == q[6..8] + q[8..10] + q[10..12];
  }

  // ---------- what Validate accepts ----------

  function Num(p: Page, off: nat): nat
    requires off + 2 <= 4096
  {
    FromBigEndian(p[off..off + 2])
  }

  // The i-th cell, by its slot.
  function Cell(p: Page, i: nat): Span
    requires 28 + 4 * i <= 4096
  {
    Span(Num(p, 24 + 4 * i), Num(p, 24 + 4 * i) + Num(p, 26 + 4 * i))
  }

  function Tail(p: Page): nat {
    if p[4] == 3 then 6 else 4
  }

  predicate HeaderMeans(p: Page) {
    && (p[4] == 3 || p[4] == 4) && (p[4] == 3 <==> p[20..22] == [0, 0]) && p[22..24] == [0, 0]
    && Num(p, 8) == 24 + 4 * Num(p, 6) && Num(p, 8) <= Num(p, 10) <= 4096
  }

  ghost predicate InACell(p: Page, n: nat, x: int)
    requires 24 + 4 * n <= 4096
  {
    exists i :: 0 <= i < n && Cell(p, i).lo <= x < Cell(p, i).hi
  }

  // The cells lie in what is past the free end and leave nothing of it out, no two overlap, each has a key beside its
  // suffix, and the keys ascend.
  ghost predicate ValidBytes(p: Page) {
    && HeaderMeans(p)
    && var n, end := Num(p, 6), Num(p, 10);
    && (forall i :: 0 <= i < n ==> end <= Cell(p, i).lo && Cell(p, i).lo + Tail(p) < Cell(p, i).hi <= 4096)
    && (forall i, j :: 0 <= i < j < n ==> Cell(p, i).hi <= Cell(p, j).lo || Cell(p, j).hi <= Cell(p, i).lo)
    && (forall x :: end <= x < 4096 ==> InACell(p, n, x))
    && (forall i, j :: 0 <= i < j < n ==>
          Less(p[Cell(p, i).lo..Cell(p, i).hi - Tail(p)], p[Cell(p, j).lo..Cell(p, j).hi - Tail(p)]))
  }

  lemma HeaderIs(p: Page)
    ensures HeaderMeans(p) <==> HeaderOk(p)
    ensures Num(p, 6) == ItemCount(p) && Num(p, 8) == FreeStart(p) && Num(p, 10) == FreeEnd(p)
    ensures IsLeaf(p) <==> p[4] == 3
    ensures Tail(p) == SuffixLen(p)
  {
    hide U16At, FromBigEndian, BigEndian;
    Spells16(p, 6);
    Spells16(p, 8);
    Spells16(p, 10);
    SmallNumbers();
    ReadsAs16(p, 20, 0);
    ReadsAs16(p, 22, 0);
  }

  lemma CellIs(p: Page, i: nat)
    requires 28 + 4 * i <= 4096
    ensures Cell(p, i) == CellBounds(p, i)
  {
    hide U16At, FromBigEndian, BigEndian;
    Spells16(p, 24 + 4 * i);
    Spells16(p, 26 + 4 * i);
  }

  lemma SpansAre(p: Page)
    requires HeaderOk(p)
    ensures 24 + 4 * ItemCount(p) <= 4096
    ensures forall i :: 0 <= i < ItemCount(p) ==> Spans(p)[i] == Cell(p, i)
  {
    hide U16At, FromBigEndian, Cell, CellBounds;
    forall i | 0 <= i < ItemCount(p)
      ensures Spans(p)[i] == Cell(p, i)
    {
      CellIs(p, i);
    }
  }

  // Validate accepts exactly these pages.
  lemma ValidMeans(p: Page)
    ensures Valid(p) <==> ValidBytes(p)
  {
    if Valid(p) {
      ValidIsBytes(p);
    }
    if ValidBytes(p) {
      BytesAreValid(p);
    }
  }

  lemma ValidIsBytes(p: Page)
    requires Valid(p)
    ensures ValidBytes(p)
  {
    hide U16At, FromBigEndian, BigEndian, Less, HeaderMeans, HeaderOk, Num, Tail, Cell, Tiles, CellBounds, IsLeaf;
    HeaderIs(p);
    SpansAre(p);
    var n := ItemCount(p);
    assert forall i :: 0 <= i < n ==> CellFits(p, Spans(p)[i], 1);
    TilesMeans(Spans(p), FreeEnd(p), 4096);
    forall i, j | 0 <= i < j < n
      ensures Less(p[Cell(p, i).lo..Cell(p, i).hi - Tail(p)], p[Cell(p, j).lo..Cell(p, j).hi - Tail(p)])
    {
      assert Keys(p)[i] == KeyRef(p, i) && Keys(p)[j] == KeyRef(p, j);
    }
    forall x | FreeEnd(p) <= x < 4096
      ensures InACell(p, n, x)
    {
      assert InSome(Spans(p), x);
    }
    forall i, j | 0 <= i < j < n
      ensures Cell(p, i).hi <= Cell(p, j).lo || Cell(p, j).hi <= Cell(p, i).lo
    {
      assert Apart(Spans(p)[i], Spans(p)[j]);
    }
  }

  lemma BytesAreValid(p: Page)
    requires ValidBytes(p)
    ensures Valid(p)
  {
    hide U16At, FromBigEndian, BigEndian, Less, HeaderMeans, HeaderOk, Num, Tail, Cell, Tiles, CellBounds, IsLeaf;
    HeaderIs(p);
    SpansAre(p);
    HeaderRoom(p);
    var n := ItemCount(p);
    forall i | 0 <= i < n
      ensures CellFits(p, Spans(p)[i], 1) && CellFits(p, Spans(p)[i], 0)
    {
    }
    forall x | FreeEnd(p) <= x < 4096
      ensures InSome(Spans(p), x)
    {
      assert InACell(p, n, x);
      var i :| 0 <= i < n && Cell(p, i).lo <= x < Cell(p, i).hi;
      assert In(x, Spans(p)[i]);
    }
    TilesMeans(Spans(p), FreeEnd(p), 4096);
    forall i, j | 0 <= i < j < n
      ensures Less(Keys(p)[i], Keys(p)[j])
    {
      assert Keys(p)[i] == KeyRef(p, i) && Keys(p)[j] == KeyRef(p, j);
    }
  }

  lemma HeaderRoom(p: Page)
    requires HeaderOk(p)
    ensures FreeStart(p) <= FreeEnd(p)
  {
  }

  // What is read from a valid page, said of its bytes.
  lemma ReadMeaning(p: Page, i: nat)
    requires CellsFit(p, 0)
    ensures p[0..4] == BigEndian(Id(p), 4) && p[16..20] == BigEndian(Link(p), 4) && p[20..22] == BigEndian(Level(p), 2)
    ensures i < ItemCount(p) ==>
              && 28 + 4 * i <= 4096 && Cell(p, i).lo + Tail(p) <= Cell(p, i).hi <= 4096
              && KeyRef(p, i) == p[Cell(p, i).lo..Cell(p, i).hi - Tail(p)]
              && var tail := p[Cell(p, i).hi - Tail(p)..Cell(p, i).hi];
                 if p[4] == 3 then tail == BigEndian(Row(p, i).page, 4) + BigEndian(Row(p, i).slot, 2)
                 else tail == BigEndian(Child(p, i + 1), 4)
    ensures p[4] != 3 ==> Child(p, 0) == Link(p)
  {
    hide U16At, U32At, FromBigEndian, BigEndian, HeaderMeans, HeaderOk, Num, Cell, CellBounds;
    HeaderIs(p);
    SpansAre(p);
    FourBytes(p, 0);
    FourBytes(p, 16);
    TwoBytes(p, 20);
    if i < ItemCount(p) {
      var s := Spans(p)[i];
      assert CellFits(p, s, 0);
      FourBytes(p, s.hi - Tail(p));
      if p[4] == 3 {
        TwoBytes(p, s.hi - 2);
        assert p[s.hi - 6..s.hi] == p[s.hi - 6..s.hi - 2] + p[s.hi - 2..s.hi];
      }
    }
  }
}
