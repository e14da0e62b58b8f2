// The node page of internal/nodepage: one 4096-byte buffer, rewritten in place.
module NodePage {
  import opened Bytes
  import opened ByteOrder
  import opened SortedEntries
  import opened Outcomes
  import opened PageLayout
  import opened BTreeInvariant
  import opened Tiling
  import opened SlottedPage
  import M = BTreeModel

  datatype NodeError = NoFit | BadKind | BadLevel

  class Node {
    const page: array<byte>

    ghost predicate Sized() {
      page.Length == SIZE
    }

    function Bytes(): Page
      requires Sized()
      reads page
    {
      page[..]
    }

    constructor Zeroed()
      ensures Sized() && fresh(page) && Bytes() == ZeroPage()
    {
      page := new byte[SIZE](_ => 0);
      new;
      assert page[..] == ZeroPage();
    }

    method SetU16(off: nat, v: u16)
      requires Sized() && off + 2 <= SIZE
      modifies page
      ensures Bytes() == PutU16(old(Bytes()), off, v)
    {
      page[off] := v / 0x100;
      page[off + 1] := v % 0x100;
    }

    method SetU32(off: nat, v: u32)
      requires Sized() && off + 4 <= SIZE
      modifies page
      ensures Bytes() == PutU32(old(Bytes()), off, v)
    {
      SetU16(off, v / 0x1_0000);
      SetU16(off + 2, v % 0x1_0000);
    }

    method SetByte(off: nat, v: byte)
      requires Sized() && off < SIZE
      modifies page
      ensures Bytes() == old(Bytes())[off := v]
    {
      page[off] := v;
    }

    // Stops at the end of the page.
    method CopyAt(off: nat, src: seq<byte>)
      requires Sized() && off <= SIZE
      modifies page
      ensures Bytes() == Blit(old(Bytes()), off, Cropped(off, src))
    {
      forall i | 0 <= i < |src| && off + i < SIZE {
        page[off + i] := src[i];
      }
    }

    // page.New, with the free start moved past the node header.
    static method New(id: PageId, kind: byte) returns (n: Node)
      ensures fresh(n) && n.Sized() && fresh(n.page) && n.Bytes() == NewNode(id, kind)
    {
      hide PutU16, PutU32;
      n := new Node.Zeroed();
      n.SetU32(OFF_ID, id);
      n.SetByte(OFF_KIND, kind);
      n.SetU16(OFF_FREE_START, HEADER_SIZE);
      n.SetU16(OFF_FREE_END, SIZE);
      n.SetU16(OFF_FREE_START, SLOT_ARRAY_START);
    }

    static method NewLeafPage(id: PageId) returns (n: Node)
      ensures fresh(n) && n.Sized() && fresh(n.page) && n.Bytes() == NewLeaf(id)
      ensures Valid(n.Bytes()) && IsLeaf(n.Bytes()) && Keys(n.Bytes()) == []
    {
      n := New(id, KIND_BTREE_LEAF);
      NewLeafIsValid(id);
    }

    static method NewInternalPage(id: PageId, level: u16) returns (r: Option<Node>)
      ensures r.None? <==> level == 0
      ensures r.Some? ==>
                var n := r.value;
                && fresh(n) && n.Sized() && fresh(n.page) && n.Bytes() == NewInternal(id, level)
                && Valid(n.Bytes()) && !IsLeaf(n.Bytes()) && Keys(n.Bytes()) == []
    {
      hide PutU16, NewNode;
      if level == 0 {
        return None;
      }
      var n := New(id, KIND_BTREE_INTERNAL);
      n.SetU16(OFF_LEVEL, level);
      NewInternalIsValid(id, level);
      return Some(n);
    }

    method SetLink(id: PageId)
      requires Sized()
      modifies page
      ensures Link(Bytes()) == id
      ensures forall i :: 0 <= i < 16 || 20 <= i < 4096 ==> Bytes()[i] == old(Bytes())[i]
      ensures old(Valid(Bytes())) ==> Valid(Bytes()) && Keys(Bytes()) == old(Keys(Bytes()))
    {
      hide PutU32, Valid, Keys;
      ghost var p := Bytes();
      SetU32(OFF_LINK, id);
      if Valid(p) {
        LinkIsApart(p, Bytes());
      }
    }

    // Adds a cell with its slot, or leaves the page as it is.
    method AppendCell(key: seq<byte>, tail: seq<byte>) returns (fits: bool)
      requires Sized() && Spacious(Bytes(), key, tail)
      modifies page
      ensures fits <==> SLOT_SIZE + |key| + |tail| <= FreeSpace(old(Bytes()))
      ensures Bytes() == if fits then Appended(old(Bytes()), key, tail) else old(Bytes())
    {
      hide WithCell, WithSlot;
      var need := SLOT_SIZE + |key| + |tail|;
      if need > FreeSpace(Bytes()) {
        return false;
      }
      var start := FreeEnd(Bytes()) as int - |key| - |tail|;
      CopyCell(start, key, tail);
      AddSlot(start, |key| + |tail|);
      return true;
    }

    method CopyCell(start: nat, key: seq<byte>, tail: seq<byte>)
      requires Sized() && SLOT_SIZE + |key| + |tail| <= FreeSpace(Bytes()) && FreeEnd(Bytes()) <= SIZE + |tail|
      requires start == FreeEnd(Bytes()) as int - |key| - |tail|
      modifies page
      ensures Bytes() == WithCell(old(Bytes()), key, tail)
    {
      hide Blit;
      ghost var p := Bytes();
      CopyAt(start, key);
      CopyAt(start + |key|, tail);
      TwoBlits(p, start, key, tail);
    }

    method AddSlot(start: u16, length: u16)
      requires Sized() && SlotOffset(ItemCount(Bytes())) + SLOT_SIZE <= SIZE
      modifies page
      ensures Bytes() == WithSlot(old(Bytes()), ItemCount(old(Bytes())), start, length)
    {
      hide PutU16;
      var n := ItemCount(Bytes());
      var s := SlotOffset(n);
      SetU16(s, start);
      SetU16(s + 2, length);
      SetU16(OFF_FREE_END, start);
      SetU16(OFF_FREE_START, s + SLOT_SIZE);
      SetU16(OFF_ITEM_COUNT, n + 1);
    }

    method AppendLeaf(key: Key, row: RowId) returns (err: Option<NodeError>)
      requires Sized()
      requires IsLeaf(Bytes()) ==> Spacious(Bytes(), key, RowTail(row))
      modifies page
      ensures var p, q := old(Bytes()), Bytes();
              if !IsLeaf(p) then err == Some(BadKind) && q == p
              else if SLOT_SIZE + |key| + LEAF_SUFFIX > FreeSpace(p) then err == Some(NoFit) && q == p
              else
                && err == None && q == Appended(p, key, RowTail(row))
                && (Laid(p, 0) ==>
                      && SameNode(q, p) && Laid(q, 0)
                      && Keys(q) == Keys(p) + [key] && Rows(q) == Rows(p) + [row])
                && (Valid(p) ==> (Valid(q) <==> Extends(p, key)))
    {
      hide Laid, CellsFit, Appended, RowTail, Keys, Rows;
      if !IsLeaf(Bytes()) {
        return Some(BadKind);
      }
      ghost var p := Bytes();
      var fits := AppendCell(key, RowTail(row));
      if !fits {
        return Some(NoFit);
      }
      ValidIsLaid(p);
      if Laid(p, 0) {
        LaidCells(p);
        AppendedRows(p, key, row);
        AppendedSame(p, key, RowTail(row));
      }
      return None;
    }

    method AppendInternal(key: Key, child: PageId) returns (err: Option<NodeError>)
      requires Sized()
      requires !IsLeaf(Bytes()) ==> Spacious(Bytes(), key, ChildTail(child))
      modifies page
      ensures var p, q := old(Bytes()), Bytes();
              if IsLeaf(p) then err == Some(BadKind) && q == p
              else if SLOT_SIZE + |key| + INTERNAL_SUFFIX > FreeSpace(p) then err == Some(NoFit) && q == p
              else
                && err == None && q == Appended(p, key, ChildTail(child))
                && (Laid(p, 0) ==>
                      && SameNode(q, p) && Laid(q, 0)
                      && Keys(q) == Keys(p) + [key] && Children(q) == Children(p) + [child])
                && (Valid(p) ==> (Valid(q) <==> Extends(p, key)))
    {
      hide Laid, CellsFit, Appended, ChildTail, Keys, Children;
      if IsLeaf(Bytes()) {
        return Some(BadKind);
      }
      ghost var p := Bytes();
      var fits := AppendCell(key, ChildTail(child));
      if !fits {
        return Some(NoFit);
      }
      ValidIsLaid(p);
      if Laid(p, 0) {
        LaidCells(p);
        AppendedChildren(p, key, child);
        AppendedSame(p, key, ChildTail(child));
      }
      return None;
    }

    // Validate, on any page at all: every read stays inside it, and it accepts exactly the valid ones.
    method Validate() returns (ok: bool)
      requires Sized()
      ensures ok <==> Valid(Bytes())
    {
      hide Less, Tiles, Adjoining, SortedKeys, CellBounds, KeyRef;
      var p := Bytes();
      if !IsNode(p) || (IsLeaf(p) != (Level(p) == 0)) || U16At(p, OFF_PAD) != 0 {
        return false;
      }
      var count: nat := ItemCount(p);
      if FreeStart(p) as int != SlotOffset(count) || FreeEnd(p) > SIZE || FreeEnd(p) < FreeStart(p) {
        return false;
      }
      if count == 0 {
        EmptyPage(p);
        return FreeEnd(p) == SIZE;
      }
      var spans: seq<Span> := [];
      for i := 0 to count
        invariant spans == Spans(p)[..i]
        invariant forall k :: 0 <= k < i ==> CellFits(p, Spans(p)[k], 1)
      {
        var s := CellBounds(p, i);
        assert s == Spans(p)[i];
        if s.lo < FreeStart(p) || s.hi > SIZE || s.hi <= s.lo {
          NotLaid(p, i);
          return false;
        }
        if s.hi - s.lo < SuffixLen(p) + 1 {
          NotLaid(p, i);
          return false;
        }
        spans := spans + [s];
      }
      assert spans == Spans(p);
      var sorted := SortByStart(spans);
      var tiled := CheckAdjoining(sorted, FreeEnd(p), SIZE);
      TilingBySorting(p, sorted);
      if !tiled {
        return false;
      }
      ok := CheckKeyOrder(p);
    }

    // The position of the tree's leafIndex, on the keys of the page.
    method Search(key: Key) returns (i: nat, found: bool)
      requires Sized() && Laid(Bytes(), 0) && CellsFit(Bytes(), 0) && SortedKeys(Keys(Bytes()))
      ensures i == M.LeafIndex(Keys(Bytes()), key) && (found <==> M.Holds(Keys(Bytes()), i, key))
    {
      hide Less, Laid, CellsFit, KeyRef, Keys, M.LeafIndex;
      ghost var keys := Keys(Bytes());
      i := 0;
      var j: nat := ItemCount(Bytes());
      while i < j
        invariant i <= M.LeafIndex(keys, key) <= j <= |keys|
      {
        var mid := (i + j) / 2;
        LeafSide(keys, key, mid);
        if Less(KeyRef(Bytes(), mid), key) {
          i := mid + 1;
        } else {
          j := mid;
        }
      }
      found := i < ItemCount(Bytes()) && KeyRef(Bytes(), i) == key;
    }

    // The child the tree's childIndex chooses.
    method ChildFor(key: Key) returns (child: PageId)
      requires Sized() && Laid(Bytes(), 0) && CellsFit(Bytes(), 0) && SortedKeys(Keys(Bytes())) && !IsLeaf(Bytes())
      ensures child == Children(Bytes())[M.ChildIndex(Keys(Bytes()), key)]
    {
      hide Less, Laid, CellsFit, KeyRef, Keys, M.ChildIndex, Child, Children;
      ghost var keys := Keys(Bytes());
      var i: nat := 0;
      var j: nat := ItemCount(Bytes());
      while i < j
        invariant i <= M.ChildIndex(keys, key) <= j <= |keys|
      {
        var mid := (i + j) / 2;
        ChildSide(keys, key, mid);
        if Less(key, KeyRef(Bytes(), mid)) {
          j := mid;
        } else {
          i := mid + 1;
        }
      }
      child := Child(Bytes(), i);
    }
  }

  // The ends, then every pair of neighbours.
  method CheckAdjoining(spans: seq<Span>, start: nat, end: nat) returns (ok: bool)
    requires spans != []
    ensures ok <==> Adjoining(spans, start, end)
  {
    var n := |spans|;
    if spans[0].lo != start {
      return false;
    }
    assert spans[0..] == spans;
    for i := 1 to n
      invariant Adjoining(spans, start, end) <==> Adjoining(spans[i - 1..], spans[i - 1].lo, end)
    {
      assert spans[i - 1..][1..] == spans[i..];
      if spans[i - 1].hi != spans[i].lo {
        return false;
      }
    }
    assert spans[n - 1..][1..] == [];
    return spans[n - 1].hi == end;
  }

  lemma TilingBySorting(p: Page, sorted: seq<Span>)
    requires CellsFit(p, 1) && ItemCount(p) > 0 && ByStart(sorted) && multiset(sorted) == multiset(Spans(p))
    ensures Adjoining(sorted, FreeEnd(p), SIZE) <==> Laid(p, 1)
  {
    forall i | 0 <= i < |sorted|
      ensures sorted[i].lo < sorted[i].hi <= SIZE
    {
      assert sorted[i] in multiset(Spans(p));
      var k :| 0 <= k < |Spans(p)| && Spans(p)[k] == sorted[i];
      assert CellFits(p, Spans(p)[k], 1);
    }
    AdjoiningIsTiling(sorted, FreeEnd(p), SIZE);
    forall x
      ensures Covers(sorted, x) == Covers(Spans(p), x)
    {
      CoversOfPermutation(sorted, Spans(p), x);
    }
    SameTiles(sorted, Spans(p), FreeEnd(p), SIZE);
  }

  lemma SameTiles(a: seq<Span>, b: seq<Span>, start: int, end: int)
    requires forall x :: Covers(a, x) == Covers(b, x)
    ensures Tiles(a, start, end) <==> Tiles(b, start, end)
  {
    if Tiles(a, start, end) {
      forall x
        ensures Covers(b, x) == if start <= x < end then 1 else 0
      {
        assert Covers(a, x) == Covers(b, x);
      }
    }
  }

  lemma EmptyPage(p: Page)
    requires HeaderOk(p) && ItemCount(p) == 0
    ensures Valid(p) <==> FreeEnd(p) == SIZE
  {
    assert Spans(p) == [];
    if Tiles(Spans(p), FreeEnd(p), SIZE) {
      assert Covers([], FreeEnd(p) as int) == 0;
    }
  }

  method CheckKeyOrder(p: Page) returns (ok: bool)
    requires Laid(p, 1) && ItemCount(p) > 0
    ensures ok <==> Valid(p)
  {
    hide Less, Laid, KeyRef, CellsFit;
    LaidFits(p, 1);
    LaidCells(p);
    ghost var keys := Keys(p);
    for i := 1 to ItemCount(p)
      invariant forall j, k :: 0 <= j < k < i ==> Less(keys[j], keys[k])
    {
      if !Less(KeyRef(p, i - 1), KeyRef(p, i)) {
        assert !Less(keys[i - 1], keys[i]);
        return false;
      }
      forall j | 0 <= j < i
        ensures Less(keys[j], keys[i])
      {
        if j < i - 1 {
          LessTransitive(keys[j], keys[i - 1], keys[i]);
        }
      }
    }
    return true;
  }

  lemma TwoBlits(p: Page, start: nat, key: seq<byte>, tail: seq<byte>)
    requires start + |key| <= SIZE
    ensures Blit(Blit(p, start, key), start + |key|, Cropped(start + |key|, tail)) ==
            Blit(p, start, Cropped(start, key + tail))
  {
  }

  lemma ValidIsLaid(p: Page)
    ensures Valid(p) ==> Laid(p, 0) && CellsFit(p, 0)
  {
    if Valid(p) {
      LaidFits(p, 1);
    }
  }

  // The key may follow those of a valid page.
  ghost predicate Extends(p: Page, key: Key)
    requires CellsFit(p, 0)
  {
    key != [] && (ItemCount(p) > 0 ==> Less(KeyRef(p, ItemCount(p) - 1), key))
  }

  lemma AppendedSame(p: Page, key: seq<byte>, tail: seq<byte>)
    requires Laid(p, 0) && CellsFit(p, 0) && |tail| == SuffixLen(p) && SLOT_SIZE + |key| + |tail| <= FreeSpace(p)
    ensures SameNode(Appended(p, key, tail), p)
    ensures Valid(p) ==> (Valid(Appended(p, key, tail)) <==> Extends(p, key))
  {
    hide Less, Laid, Valid, KeyRef, Appended;
    AppendedHeader(p, key, tail);
    if Valid(p) {
      if Extends(p, key) {
        AppendedIsValid(p, key, tail);
      } else {
        AppendedIsInvalid(p, key, tail);
      }
    }
  }
}
